/**
 * `Array.prototype.sort()` with no comparator: a stable sort by the elements' string forms,
 * with undefined elements moved to the end. Also the string-only case used for property
 * names (`Object.keys(x).sort()`).
 */
module JsSort {
  import opened Wrappers
  import opened Errors
  import opened JsText
  import opened JsValue

  predicate SortedBy<T>(xs: seq<T>, key: T -> string)
  {
    forall i, j :: 0 <= i < j < |xs| ==> StrLe(key(xs[i]), key(xs[j]))
  }

  /** Inserts `x` before the first element whose key is not smaller. */
  function Insert<T>(x: T, xs: seq<T>, key: T -> string): (r: seq<T>)
    ensures |r| == |xs| + 1
  {
    if xs == [] || StrLe(key(x), key(xs[0])) then [x] + xs
    else [xs[0]] + Insert(x, xs[1..], key)
  }

  /** Inserting adds `x` and loses nothing. */
  lemma {:induction false} InsertPermutes<T>(x: T, xs: seq<T>, key: T -> string)
    ensures multiset(Insert(x, xs, key)) == multiset(xs) + multiset{x}
    decreases |xs|
  {
    if !(xs == [] || StrLe(key(x), key(xs[0]))) {
      InsertPermutes(x, xs[1..], key);
      assert xs == [xs[0]] + xs[1..];
    }
  }

  lemma {:induction false} InsertSorted<T>(x: T, xs: seq<T>, key: T -> string)
    requires SortedBy(xs, key)
    ensures SortedBy(Insert(x, xs, key), key)
    decreases |xs|
  {
    if xs == [] || StrLe(key(x), key(xs[0])) {
      forall j | 0 < j < |xs| + 1
        ensures StrLe(key(([x] + xs)[0]), key(([x] + xs)[j]))
      {
        if j > 1 {
          StrLeTrans(key(x), key(xs[0]), key(xs[j - 1]));
        }
      }
    } else {
      StrLeTotal(key(x), key(xs[0]));
      var rest := Insert(x, xs[1..], key);
      InsertSorted(x, xs[1..], key);
      InsertPermutes(x, xs[1..], key);
      var r := [xs[0]] + rest;
      forall j | 0 < j < |r|
        ensures StrLe(key(xs[0]), key(r[j]))
      {
        assert r[j] in multiset(rest);
        assert r[j] in multiset(xs[1..]) + multiset{x};
        if r[j] != x {
          assert r[j] in xs[1..];
          var k :| 0 <= k < |xs[1..]| && xs[1..][k] == r[j];
          assert xs[k + 1] == r[j];
        }
      }
    }
  }

  /** Insertion sort; an element never moves ahead of an earlier one with the same key. */
  function SortBy<T>(xs: seq<T>, key: T -> string): (r: seq<T>)
    ensures |r| == |xs|
  {
    if xs == [] then []
    else Insert(xs[0], SortBy(xs[1..], key), key)
  }

  /** The result is a permutation of the input. */
  lemma {:induction false} SortByPermutes<T>(xs: seq<T>, key: T -> string)
    ensures multiset(SortBy(xs, key)) == multiset(xs)
    decreases |xs|
  {
    if xs != [] {
      SortByPermutes(xs[1..], key);
      InsertPermutes(xs[0], SortBy(xs[1..], key), key);
      assert xs == [xs[0]] + xs[1..];
    }
  }

  /** The result is ordered by key. */
  lemma {:induction false} SortBySorted<T>(xs: seq<T>, key: T -> string)
    ensures SortedBy(SortBy(xs, key), key)
    decreases |xs|
  {
    if xs != [] {
      SortBySorted(xs[1..], key);
      InsertSorted(xs[0], SortBy(xs[1..], key), key);
    }
  }

  /** Sorting an ordered sequence leaves it as it is. */
  lemma {:induction false} SortBySortedInput<T>(xs: seq<T>, key: T -> string)
    requires SortedBy(xs, key)
    ensures SortBy(xs, key) == xs
    decreases |xs|
  {
    if xs != [] {
      assert SortedBy(xs[1..], key) by {
        forall i, j | 0 <= i < j < |xs[1..]|
          ensures StrLe(key(xs[1..][i]), key(xs[1..][j]))
        {
          assert xs[1..][i] == xs[i + 1] && xs[1..][j] == xs[j + 1];
        }
      }
      SortBySortedInput(xs[1..], key);
      assert xs == [xs[0]] + xs[1..];
    }
  }

  /* ---------------- strings ---------------- */

  function Ident(s: string): string { s }

  /** `strings.sort()` on an array of strings. */
  function SortStrings(xs: seq<string>): (r: seq<string>)
    ensures |r| == |xs|
  {
    SortBy(xs, Ident)
  }

  lemma SortedTail<T>(xs: seq<T>, key: T -> string)
    requires xs != [] && SortedBy(xs, key)
    ensures SortedBy(xs[1..], key)
  {
    forall i, j | 0 <= i < j < |xs[1..]|
      ensures StrLe(key(xs[1..][i]), key(xs[1..][j]))
    {
      assert xs[1..][i] == xs[i + 1] && xs[1..][j] == xs[j + 1];
    }
  }

  /** The first element of an ordered sequence has the least key. */
  lemma SortedHeadLeast<T>(xs: seq<T>, key: T -> string, x: T)
    requires SortedBy(xs, key) && x in xs
    ensures StrLe(key(xs[0]), key(x))
  {
    var k :| 0 <= k < |xs| && xs[k] == x;
    if k == 0 {
      StrLeRefl(key(x));
    }
  }

  /** Two ordered string sequences with the same elements are the same sequence. */
  lemma {:induction false} SortedStringsUnique(a: seq<string>, b: seq<string>)
    requires SortedBy(a, Ident) && SortedBy(b, Ident)
    requires multiset(a) == multiset(b)
    ensures a == b
    decreases |a|
  {
    assert |a| == |multiset(a)| == |multiset(b)| == |b|;
    if a != [] {
      assert a[0] in multiset(b) && b[0] in multiset(a);
      SortedHeadLeast(b, Ident, a[0]);
      SortedHeadLeast(a, Ident, b[0]);
      StrLeAntisym(a[0], b[0]);
      assert a == [a[0]] + a[1..];
      assert b == [b[0]] + b[1..];
      assert multiset(a[1..]) == multiset(a) - multiset{a[0]};
      assert multiset(b[1..]) == multiset(b) - multiset{b[0]};
      SortedTail(a, Ident);
      SortedTail(b, Ident);
      SortedStringsUnique(a[1..], b[1..]);
    }
  }

  /** Sorting strings depends only on which strings there are, not on their order. */
  lemma SortStringsPermutation(xs: seq<string>, ys: seq<string>)
    requires multiset(xs) == multiset(ys)
    ensures SortStrings(xs) == SortStrings(ys)
  {
    SortBySorted(xs, Ident);
    SortBySorted(ys, Ident);
    SortByPermutes(xs, Ident);
    SortByPermutes(ys, Ident);
    SortedStringsUnique(SortStrings(xs), SortStrings(ys));
  }

  /** Sorting strings is idempotent. */
  lemma SortStringsIdempotent(xs: seq<string>)
    ensures SortStrings(SortStrings(xs)) == SortStrings(xs)
  {
    SortBySorted(xs, Ident);
    SortBySortedInput(SortStrings(xs), Ident);
  }

  predicate Distinct(xs: seq<string>)
  {
    forall i, j :: 0 <= i < j < |xs| ==> xs[i] != xs[j]
  }

  /** In a list without duplicates every element occurs once. */
  lemma {:induction false} DistinctCount(xs: seq<string>, x: string)
    requires Distinct(xs)
    ensures multiset(xs)[x] == if x in xs then 1 else 0
  {
    if xs != [] {
      assert Distinct(xs[1..]) by {
        forall i, j | 0 <= i < j < |xs[1..]|
          ensures xs[1..][i] != xs[1..][j]
        {
          assert xs[1..][i] == xs[i + 1] && xs[1..][j] == xs[j + 1];
        }
      }
      DistinctCount(xs[1..], x);
      assert xs == [xs[0]] + xs[1..];
      assert xs[0] !in xs[1..];
      assert x in xs <==> x == xs[0] || x in xs[1..];
    }
  }

  /** Two lists without duplicates that hold the same strings are rearrangements of each other. */
  lemma DistinctSameElements(xs: seq<string>, ys: seq<string>)
    requires Distinct(xs) && Distinct(ys)
    requires forall x :: x in xs <==> x in ys
    ensures multiset(xs) == multiset(ys)
  {
    forall x
      ensures multiset(xs)[x] == multiset(ys)[x]
    {
      DistinctCount(xs, x);
      DistinctCount(ys, x);
    }
  }

  /** Each string is at most its successor. */
  predicate ChainSorted(xs: seq<string>)
  {
    forall i :: 0 < i < |xs| ==> StrLe(xs[i - 1], xs[i])
  }

  lemma {:induction false} ChainIsSorted(xs: seq<string>)
    requires ChainSorted(xs)
    ensures SortedBy(xs, Ident)
    decreases |xs|
  {
    if xs != [] {
      ChainIsSorted(xs[1..]);
      forall j | 0 < j < |xs|
        ensures StrLe(xs[0], xs[j])
      {
        if j > 1 {
          assert StrLe(xs[1..][0], xs[1..][j - 1]);
          StrLeTrans(xs[0], xs[1], xs[j]);
        }
      }
      forall i, j | 0 < i < j < |xs|
        ensures StrLe(xs[i], xs[j])
      {
        assert xs[1..][i - 1] == xs[i] && xs[1..][j - 1] == xs[j];
      }
    }
  }

  /* ---------------- arbitrary values ---------------- */

  /** The elements other than undefined, in order. */
  function Defined(vs: seq<Value>): seq<Value>
  {
    if vs == [] then []
    else if vs[0].Undef? then Defined(vs[1..]) else [vs[0]] + Defined(vs[1..])
  }

  function UndefCount(vs: seq<Value>): nat
  {
    if vs == [] then 0 else (if vs[0].Undef? then 1 else 0) + UndefCount(vs[1..])
  }

  function Undefs(n: nat): (r: seq<Value>)
    ensures |r| == n && forall i :: 0 <= i < n ==> r[i].Undef?
  {
    if n == 0 then [] else [Undef] + Undefs(n - 1)
  }

  predicate NoUndef(vs: seq<Value>)
  {
    forall i :: 0 <= i < |vs| ==> !vs[i].Undef?
  }

  /** The string forms of the elements, or the first conversion error. */
  function StringForms(vs: seq<Value>): (r: Result<seq<string>, Error>)
    ensures r.Ok? <==> forall i :: 0 <= i < |vs| ==> ToJsString(vs[i]).Ok?
  {
    if vs == [] then Ok([])
    else
      var first :- ToJsString(vs[0]);
      var rest :- StringForms(vs[1..]);
      assert forall i :: 1 <= i < |vs| ==> vs[i] == vs[1..][i - 1];
      Ok([first] + rest)
  }

  /** The comparison key of a value whose string form exists. */
  function KeyOf(v: Value): string
  {
    match ToJsString(v)
    case Ok(s) => s
    case Err(_) => ""
  }

  /**
   * `vs.sort()`: the elements other than undefined, ordered by their string forms, then the
   * undefined ones. With two or more such elements every one of them is compared, so one
   * without a string form (a symbol) throws; a lone element is never converted.
   */
  function DefaultSort(vs: seq<Value>): (r: Result<seq<Value>, Error>)
    ensures r.Ok? <==> |Defined(vs)| < 2 || StringForms(Defined(vs)).Ok?
  {
    var defined := Defined(vs);
    var tail := Undefs(UndefCount(vs));
    if |defined| < 2 then Ok(defined + tail)
    else
      match StringForms(defined)
      case Err(e) => Err(e)
      case Ok(_) => Ok(SortBy(defined, KeyOf) + tail)
  }

  /** The result of a successful default sort, in terms of its parts. */
  lemma DefaultSortResult(vs: seq<Value>)
    requires DefaultSort(vs).Ok?
    ensures DefaultSort(vs).value == SortBy(Defined(vs), KeyOf) + Undefs(UndefCount(vs))
  {
    if |Defined(vs)| < 2 {
      SortByShort(Defined(vs), KeyOf);
    }
  }

  lemma SortByShort<T>(xs: seq<T>, key: T -> string)
    requires |xs| < 2
    ensures SortBy(xs, key) == xs
  {
    if xs != [] {
      assert xs[1..] == [];
    }
  }

  /**
   * A successful default sort is a permutation whose elements other than undefined come first,
   * ordered by their string forms, followed by the undefined ones.
   */
  lemma DefaultSortOrdered(vs: seq<Value>)
    requires DefaultSort(vs).Ok?
    ensures multiset(DefaultSort(vs).value) == multiset(vs)
    ensures var r := DefaultSort(vs).value; var k := |Defined(vs)|;
      k <= |r| && NoUndef(r[..k]) && SortedBy(r[..k], KeyOf) &&
      forall i :: k <= i < |r| ==> r[i].Undef?
  {
    DefaultSortResult(vs);
    var sorted := SortBy(Defined(vs), KeyOf);
    var r := DefaultSort(vs).value;
    SplitUndefined(vs);
    SortByPermutes(Defined(vs), KeyOf);
    SortBySorted(Defined(vs), KeyOf);
    DefinedNoUndef(vs);
    assert r[..|sorted|] == sorted;
    forall i | 0 <= i < |sorted|
      ensures !sorted[i].Undef?
    {
      assert sorted[i] in multiset(Defined(vs));
      var j :| 0 <= j < |Defined(vs)| && Defined(vs)[j] == sorted[i];
    }
  }

  lemma {:induction false} DefinedNoUndef(vs: seq<Value>)
    ensures NoUndef(Defined(vs))
  {
    if vs != [] {
      DefinedNoUndef(vs[1..]);
    }
  }

  /** A sequence holds its defined elements and its undefined ones, and nothing else. */
  lemma {:induction false} SplitUndefined(vs: seq<Value>)
    ensures multiset(Defined(vs)) + multiset(Undefs(UndefCount(vs))) == multiset(vs)
  {
    if vs != [] {
      SplitUndefined(vs[1..]);
      SplitHead(vs);
    }
  }

  /** How the first element is divided between the defined part and the undefined count. */
  lemma SplitHead(vs: seq<Value>)
    requires vs != []
    ensures var m := multiset{vs[0]};
      && multiset(vs) == m + multiset(vs[1..])
      && multiset(Defined(vs)) == (if vs[0].Undef? then multiset{} else m) + multiset(Defined(vs[1..]))
      && multiset(Undefs(UndefCount(vs))) == (if vs[0].Undef? then m else multiset{}) + multiset(Undefs(UndefCount(vs[1..])))
  {
    assert vs == [vs[0]] + vs[1..];
    if vs[0].Undef? {
      assert Undefs(UndefCount(vs)) == [vs[0]] + Undefs(UndefCount(vs[1..]));
    }
  }

  function Strs(xs: seq<string>): (r: seq<Value>)
    ensures |r| == |xs| && forall i :: 0 <= i < |xs| ==> r[i] == Str(xs[i])
  {
    if xs == [] then [] else [Str(xs[0])] + Strs(xs[1..])
  }

  lemma KeyOfStr(s: string)
    ensures KeyOf(Str(s)) == s
  {
  }

  lemma {:induction false} InsertStrs(x: string, xs: seq<string>)
    ensures Insert(Str(x), Strs(xs), KeyOf) == Strs(Insert(x, xs, Ident))
    decreases |xs|
  {
    KeyOfStr(x);
    if xs == [] {
    } else {
      KeyOfStr(xs[0]);
      if StrLe(x, xs[0]) {
        assert ([x] + xs)[1..] == xs;
      } else {
        InsertStrs(x, xs[1..]);
        var rest := Insert(x, xs[1..], Ident);
        assert ([xs[0]] + rest)[1..] == rest;
      }
    }
  }

  lemma {:induction false} SortByStrs(xs: seq<string>)
    ensures SortBy(Strs(xs), KeyOf) == Strs(SortStrings(xs))
    decreases |xs|
  {
    if xs != [] {
      SortByStrs(xs[1..]);
      InsertStrs(xs[0], SortStrings(xs[1..]));
    }
  }

  lemma {:induction false} StrsDefined(xs: seq<string>)
    ensures Defined(Strs(xs)) == Strs(xs) && UndefCount(Strs(xs)) == 0
  {
    if xs != [] {
      StrsDefined(xs[1..]);
    }
  }

  /** On an array of strings the default sort never throws and is the string sort. */
  lemma DefaultSortStrings(xs: seq<string>)
    ensures DefaultSort(Strs(xs)) == Ok(Strs(SortStrings(xs)))
  {
    var vs := Strs(xs);
    StrsDefined(xs);
    SortByStrs(xs);
    assert forall i :: 0 <= i < |vs| ==> ToJsString(vs[i]).Ok?;
    assert StringForms(vs).Ok?;
    assert DefaultSort(vs).Ok?;
    DefaultSortResult(vs);
    assert Undefs(0) == [];
    assert Strs(SortStrings(xs)) + [] == Strs(SortStrings(xs));
  }

  /** Sorting the result of a default sort again changes nothing. */
  lemma DefaultSortIdempotent(vs: seq<Value>)
    requires DefaultSort(vs).Ok?
    ensures DefaultSort(DefaultSort(vs).value) == DefaultSort(vs)
  {
    DefaultSortResult(vs);
    var r := DefaultSort(vs).value;
    var sorted := SortBy(Defined(vs), KeyOf);
    var n := UndefCount(vs);
    DefaultSortOrdered(vs);
    assert r[..|sorted|] == sorted;
    DefinedAppendUndefs(sorted, n);
    SortBySortedInput(sorted, KeyOf);
    if |sorted| >= 2 {
      SortByPermutes(Defined(vs), KeyOf);
      PermutedForms(Defined(vs), sorted);
    }
    DefaultSortResult(r);
  }

  /** Rearranging values that all have string forms gives values that all have string forms. */
  lemma PermutedForms(xs: seq<Value>, ys: seq<Value>)
    requires multiset(xs) == multiset(ys) && StringForms(xs).Ok?
    ensures StringForms(ys).Ok?
  {
    forall i | 0 <= i < |ys|
      ensures ToJsString(ys[i]).Ok?
    {
      assert ys[i] in multiset(xs);
      var j :| 0 <= j < |xs| && xs[j] == ys[i];
    }
  }

  lemma {:induction false} DefinedAppendUndefs(xs: seq<Value>, n: nat)
    requires NoUndef(xs)
    ensures Defined(xs + Undefs(n)) == xs && UndefCount(xs + Undefs(n)) == n
    decreases |xs|
  {
    if xs == [] {
      AllUndefined(n);
      assert xs + Undefs(n) == Undefs(n);
    } else {
      assert (xs + Undefs(n))[1..] == xs[1..] + Undefs(n);
      DefinedAppendUndefs(xs[1..], n);
    }
  }

  lemma {:induction false} AllUndefined(n: nat)
    ensures Defined(Undefs(n)) == [] && UndefCount(Undefs(n)) == n
  {
    if n > 0 {
      AllUndefined(n - 1);
    }
  }

  /** The sorted key list holds exactly the property names. */
  lemma SortedKeys(fs: seq<Member>)
    ensures forall k :: k in SortStrings(Keys(fs)) <==> k in Keys(fs)
    ensures forall i :: 0 <= i < |fs| ==> fs[i].key in SortStrings(Keys(fs))
  {
    var keys := SortStrings(Keys(fs));
    SortByPermutes(Keys(fs), Ident);
    forall k
      ensures k in keys <==> k in Keys(fs)
    {
      assert k in keys <==> k in multiset(keys);
      assert k in Keys(fs) <==> k in multiset(Keys(fs));
    }
    forall i | 0 <= i < |fs|
      ensures fs[i].key in keys
    {
      assert Keys(fs)[i] == fs[i].key;
    }
  }
}
