/** Option and Result, the failure-compatible wrappers every module uses for the source's thrown errors. */
module Wrappers {

  datatype Option<+T> = None | Some(value: T) {
    predicate IsFailure() { None? }
    function PropagateFailure<U>(): Option<U> requires None? { None }
    function Extract(): T requires Some? { value }
  }

  datatype Result<+T, +E> = Ok(value: T) | Err(error: E) {
    predicate IsFailure() { Err? }
    function PropagateFailure<U>(): Result<U, E> requires Err? { Err(error) }
    function Extract(): T requires Ok? { value }
  }

  /** `xs.map(f)` for a conversion `f` that may throw: the first failure is the result. */
  function MapAll<T, U, E(==)>(f: T -> Result<U, E>, xs: seq<T>): (r: Result<seq<U>, E>)
    ensures r.Ok? <==> forall i :: 0 <= i < |xs| ==> f(xs[i]).Ok?
    ensures r.Ok? ==> |r.value| == |xs| && forall i :: 0 <= i < |xs| ==> r.value[i] == f(xs[i]).value
    ensures r.Err? ==>
      exists i :: 0 <= i < |xs| && f(xs[i]).Err? && f(xs[i]).error == r.error && forall j :: 0 <= j < i ==> f(xs[j]).Ok?
  {
    if xs == [] then Ok([])
    else
      var first :- f(xs[0]);
      var rest := MapAll(f, xs[1..]);
      assert forall i :: 1 <= i < |xs| ==> xs[i] == xs[1..][i - 1];
      if rest.Err? then
        var k :| 0 <= k < |xs[1..]| && f(xs[1..][k]).Err? && f(xs[1..][k]).error == rest.error && forall j :: 0 <= j < k ==> f(xs[1..][j]).Ok?;
        assert f(xs[k + 1]).Err? && f(xs[k + 1]).error == rest.error;
        Err(rest.error)
      else
        Ok([first] + rest.value)
  }

  /** The elements of a sequence's tail are its own, one place on. */
  lemma TailIndex<T>(s: seq<T>)
    requires s != []
    ensures forall j :: 1 <= j < |s| ==> s[j] == s[1..][j - 1]
  {
  }

  /** Dropping the first element of a join drops it from the left part. */
  lemma DropFirstAppend<T>(a: seq<T>, b: seq<T>)
    requires a != []
    ensures (a + b)[1..] == a[1..] + b
  {
  }

  /** A suffix is its first element followed by the rest. */
  lemma SliceCons<T>(s: seq<T>, i: nat)
    requires i < |s|
    ensures s[i..] == [s[i]] + s[i + 1..]
  {
  }

  /** A map stops with the error of the first element it cannot map. */
  lemma MapAllStops<T, U, E>(f: T -> Result<U, E>, xs: seq<T>, i: nat)
    requires i < |xs| && f(xs[i]).Err? && forall j :: 0 <= j < i ==> f(xs[j]).Ok?
    ensures MapAll(f, xs) == Err(f(xs[i]).error)
  {
    var k :| 0 <= k < |xs| && f(xs[k]).Err? && f(xs[k]).error == MapAll(f, xs).error && forall j :: 0 <= j < k ==> f(xs[j]).Ok?;
    assert k == i;
  }

  /** A map with every element mapped gives the mapped values in order. */
  lemma MapAllGives<T, U, E>(f: T -> Result<U, E>, xs: seq<T>, ys: seq<U>)
    requires |ys| == |xs| && forall j :: 0 <= j < |xs| ==> f(xs[j]) == Ok(ys[j])
    ensures MapAll(f, xs) == Ok(ys)
  {
    assert MapAll(f, xs).value == ys;
  }

  /** `(a ++ b).map(f)` is the two maps joined. */
  lemma MapAllAppend<T, U, E>(f: T -> Result<U, E>, a: seq<T>, b: seq<T>)
    ensures MapAll(f, a + b).Ok? <==> MapAll(f, a).Ok? && MapAll(f, b).Ok?
    ensures MapAll(f, a + b).Ok? ==> MapAll(f, a + b).value == MapAll(f, a).value + MapAll(f, b).value
  {
    var ab := a + b;
    if MapAll(f, a).Ok? && MapAll(f, b).Ok? {
      forall i | 0 <= i < |ab| ensures f(ab[i]).Ok? {
        if i < |a| { assert ab[i] == a[i]; } else { assert ab[i] == b[i - |a|]; }
      }
      var l, m, r := MapAll(f, ab).value, MapAll(f, a).value, MapAll(f, b).value;
      forall i | 0 <= i < |ab| ensures l[i] == (m + r)[i] {
        if i < |a| { assert ab[i] == a[i]; } else { assert ab[i] == b[i - |a|]; }
      }
      assert l == m + r;
    }
    if MapAll(f, ab).Ok? {
      forall i | 0 <= i < |a| ensures f(a[i]).Ok? {
        assert ab[i] == a[i];
      }
      forall i | 0 <= i < |b| ensures f(b[i]).Ok? {
        assert ab[|a| + i] == b[i];
      }
    }
  }

  /** The images of a permutation are a permutation of the images. */
  lemma {:induction false} MapAllPermutation<T, U, E>(f: T -> Result<U, E>, xs: seq<T>, ys: seq<T>)
    requires multiset(xs) == multiset(ys)
    requires MapAll(f, xs).Ok?
    ensures MapAll(f, ys).Ok? && multiset(MapAll(f, xs).value) == multiset(MapAll(f, ys).value)
    decreases |xs|
  {
    if xs == [] {
      assert |ys| == |multiset(ys)| == 0;
    } else {
      assert xs[0] in multiset(ys);
      var j :| 0 <= j < |ys| && ys[j] == xs[0];
      var before, after := ys[..j], ys[j + 1..];
      RemoveMatched(xs, ys, j);
      MapAllPermutation(f, xs[1..], before + after);
      MapAllSplice(f, before, xs[0], after);
      var sx := MapAll(f, xs).value;
      assert sx == [f(xs[0]).value] + MapAll(f, xs[1..]).value;
      assert multiset(sx) == multiset{f(xs[0]).value} + multiset(MapAll(f, xs[1..]).value);
    }
  }

  /** Taking the first element off one of two permutations and its match off the other. */
  lemma RemoveMatched<T>(xs: seq<T>, ys: seq<T>, j: nat)
    requires multiset(xs) == multiset(ys) && xs != [] && j < |ys| && ys[j] == xs[0]
    ensures ys == ys[..j] + ([xs[0]] + ys[j + 1..])
    ensures multiset(xs[1..]) == multiset(ys[..j] + ys[j + 1..])
  {
    var before, after := ys[..j], ys[j + 1..];
    assert ys == before + ([xs[0]] + after);
    assert xs == [xs[0]] + xs[1..];
    assert multiset(ys) == multiset{xs[0]} + multiset(before + after);
    forall e ensures multiset(xs[1..])[e] == multiset(before + after)[e] {
      assert multiset(xs)[e] == multiset(ys)[e];
    }
  }

  /** Inserting an element that maps anywhere adds its image to the multiset of images. */
  lemma MapAllSplice<T, U, E>(f: T -> Result<U, E>, before: seq<T>, x: T, after: seq<T>)
    requires f(x).Ok? && MapAll(f, before + after).Ok?
    ensures MapAll(f, before + ([x] + after)).Ok?
    ensures multiset(MapAll(f, before + ([x] + after)).value)
         == multiset{f(x).value} + multiset(MapAll(f, before + after).value)
  {
    MapAllAppend(f, before, after);
    MapAllAppend(f, [x], after);
    MapAllAppend(f, before, [x] + after);
    assert MapAll(f, [x]).value == [f(x).value];
  }

  /** Every element maps without failure. */
  predicate AllOk<T, U, E>(f: T -> Result<U, E>, xs: seq<T>)
  {
    forall i :: 0 <= i < |xs| ==> f(xs[i]).Ok?
  }

  /** One more element that maps without failure. */
  lemma AllOkSnoc<T, U, E>(f: T -> Result<U, E>, xs: seq<T>, x: T)
    requires AllOk(f, xs) && f(x).Ok?
    ensures AllOk(f, xs + [x])
  {
    assert forall i :: 0 <= i < |xs| ==> (xs + [x])[i] == xs[i];
  }

  /** When every element of the whole prefix maps, so does the sequence. */
  lemma MapAllDone<T, U, E>(f: T -> Result<U, E>, xs: seq<T>)
    requires AllOk(f, xs[..|xs|])
    ensures MapAll(f, xs).Ok?
  {
    assert xs[..|xs|] == xs;
  }

  /**
   * One element further along a map whose prefix has succeeded: its failure is the failure of the
   * whole map, its success extends the prefix.
   */
  lemma MapAllStep<T, U, E>(f: T -> Result<U, E>, xs: seq<T>, i: nat)
    requires i < |xs| && AllOk(f, xs[..i])
    ensures f(xs[i]).Err? ==> MapAll(f, xs).Err? && MapAll(f, xs).error == f(xs[i]).error
    ensures f(xs[i]).Ok? ==> AllOk(f, xs[..i + 1])
  {
    if f(xs[i]).Err? {
      forall j | 0 <= j < i
        ensures f(xs[j]).Ok?
      {
        assert xs[..i][j] == xs[j];
      }
      MapAllStops(f, xs, i);
    } else {
      AllOkSnoc(f, xs[..i], xs[i]);
      assert xs[..i + 1] == xs[..i] + [xs[i]];
    }
  }
}
