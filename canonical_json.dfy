/**
 * Canonical JSON: values are rebuilt with object keys in sorted order, -0 read as 0, and every
 * value JSON cannot carry faithfully (non-finite numbers, undefined, functions, symbols, BigInts,
 * objects that are not plain) rejected; the canonical value is then rendered by JSON.stringify.
 */
module CanonicalJson {
  import opened Wrappers
  import opened Errors
  import opened JsText
  import opened JsValue
  import opened JsSort
  import opened JsJson

  /** `normalizeNumber`: finite numbers pass, and -0 becomes 0. */
  function NormalizeNumber(n: Number): (r: Result<Number, Error>)
    ensures r.Ok? <==> n.IsFinite()
    ensures r.Ok? ==> r.value.Int? && NumStrictEq(r.value, n)
    ensures r.Err? ==> r.error == CanonicalNonFinite
  {
    match n
    case Int(_) => Ok(n)
    case NegZero => Ok(Int(0))
    case _ => Err(CanonicalNonFinite)
  }

  /**
   * `isPlainObject`: an object whose `constructor` is `Object`. A plain object that has an own
   * `constructor` property shadows the inherited one, so it does not qualify.
   */
  predicate IsPlainObject(x: Value)
  {
    x.Obj? && Lookup(x.fields, "constructor").None?
  }

  /** `canonicalize(x)`. */
  function Canonicalize(x: Value): Result<Value, Error>
    decreases x, 2
  {
    match x
    case Null => Ok(Null)
    case Str(_) => Ok(x)
    case Bool(_) => Ok(x)
    case Num(n) =>
      var m :- NormalizeNumber(n);
      Ok(Num(m))
    case Arr(items) =>
      var ys :- CanonItems(items);
      Ok(Arr(ys))
    case Obj(fs) =>
      if !IsPlainObject(x) then Err(CanonicalUnsupported)
      else
        var ms :- CanonMembers(fs, SortStrings(Keys(fs)));
        Ok(Obj(ms))
    case _ => Err(CanonicalUnsupported)
  }

  /** `x.map(canonicalize)`. */
  function CanonItems(items: seq<Value>): Result<seq<Value>, Error>
    decreases items, 0
  {
    if items == [] then Ok([])
    else
      var first :- Canonicalize(items[0]);
      var rest :- CanonItems(items[1..]);
      Ok([first] + rest)
  }

  /**
   * The object loop: for each of `keys` in turn, `out[k] = canonicalize(x[k])`. A key with no
   * property reads `undefined`, which canonicalize rejects.
   */
  function CanonMembers(fs: seq<Member>, keys: seq<string>): Result<seq<Member>, Error>
    decreases fs, 0, |keys|
  {
    if keys == [] then Ok([])
    else
      match Lookup(fs, keys[0])
      case None => Err(CanonicalUnsupported)
      case Some(v) =>
        var c :- Canonicalize(v);
        var rest :- CanonMembers(fs, keys[1..]);
        Ok([Member(keys[0], c)] + rest)
  }

  /** `canonicalJSONStringify(x)`: JSON text of the canonical form. */
  function CanonicalJsonStringify(x: Value): Result<Option<string>, Error>
  {
    var c :- Canonicalize(x);
    JsonStringify(c)
  }

  /* ---------------- the canonical forms ---------------- */

  predicate StrictlySorted(ks: seq<string>)
  {
    SortedBy(ks, Ident) && forall i, j :: 0 <= i < j < |ks| ==> ks[i] != ks[j]
  }

  /** What canonicalize produces: integers, and plain objects with strictly ascending keys, at every depth. */
  predicate IsCanonical(v: Value)
    decreases v
  {
    match v
    case Null => true
    case Str(_) => true
    case Bool(_) => true
    case Num(n) => n.Int?
    case Arr(xs) => forall i :: 0 <= i < |xs| ==> IsCanonical(xs[i])
    case Obj(fs) =>
      && StrictlySorted(Keys(fs))
      && Lookup(fs, "constructor").None?
      && forall i :: 0 <= i < |fs| ==> IsCanonical(fs[i].val)
    case _ => false
  }

  /* ---------------- properties ---------------- */

  /** Null, strings and booleans come back unchanged; -0 becomes 0; non-finite numbers and the other kinds throw. */
  lemma Scalars(s: string, b: bool, n: Number, src: string, d: string, i: int, fs: seq<Member>)
    ensures Canonicalize(Null) == Ok(Null)
    ensures Canonicalize(Str(s)) == Ok(Str(s)) && Canonicalize(Bool(b)) == Ok(Bool(b))
    ensures Canonicalize(Num(NegZero)) == Ok(Num(Int(0)))
    ensures Canonicalize(Num(n)).Ok? <==> n.IsFinite()
    ensures !n.IsFinite() ==> Canonicalize(Num(n)) == Err(CanonicalNonFinite)
    ensures Canonicalize(Undef) == Err(CanonicalUnsupported) && Canonicalize(Func(src)) == Err(CanonicalUnsupported)
    ensures Canonicalize(Sym(d)) == Err(CanonicalUnsupported) && Canonicalize(BigInt(i)) == Err(CanonicalUnsupported)
    ensures Canonicalize(Foreign(fs)) == Err(CanonicalUnsupported)
  {
  }

  /** Arrays are mapped element by element, keeping order and length; the first failure is reported. */
  lemma {:induction false} ItemsMapped(items: seq<Value>)
    ensures CanonItems(items).Ok? <==> forall i :: 0 <= i < |items| ==> Canonicalize(items[i]).Ok?
    ensures CanonItems(items).Ok? ==>
      |CanonItems(items).value| == |items| &&
      forall i :: 0 <= i < |items| ==> Canonicalize(items[i]) == Ok(CanonItems(items).value[i])
  {
    if items != [] {
      ItemsMapped(items[1..]);
      assert forall i :: 1 <= i < |items| ==> items[i] == items[1..][i - 1];
    }
  }

  /** The rebuilt object has exactly the given keys, in that order, each holding the canonical form of its value. */
  lemma {:induction false} MembersRebuilt(fs: seq<Member>, keys: seq<string>)
    requires CanonMembers(fs, keys).Ok?
    ensures Keys(CanonMembers(fs, keys).value) == keys
    ensures forall i :: 0 <= i < |keys| ==>
      Lookup(fs, keys[i]).Some? && Canonicalize(Lookup(fs, keys[i]).value) == Ok(CanonMembers(fs, keys).value[i].val)
    decreases |keys|
  {
    if keys != [] {
      MembersStepOk(fs, keys);
      MembersRebuilt(fs, keys[1..]);
      var rest := CanonMembers(fs, keys[1..]).value;
      var m := Member(keys[0], Canonicalize(Lookup(fs, keys[0]).value).value);
      KeysCons(m, rest);
      assert keys == [keys[0]] + keys[1..];
      forall i | 1 <= i < |keys|
        ensures keys[i] == keys[1..][i - 1] && CanonMembers(fs, keys).value[i] == rest[i - 1]
      {
      }
    }
  }

  /** The output of canonicalize is canonical. */
  lemma {:induction false} CanonicalizeCanonical(x: Value)
    requires WellFormed(x) && Canonicalize(x).Ok?
    ensures IsCanonical(Canonicalize(x).value)
    decreases x, 2
  {
    match x {
      case Arr(items) =>
        ItemsMapped(items);
        forall i | 0 <= i < |items|
          ensures IsCanonical(CanonItems(items).value[i])
        {
          CanonicalizeCanonical(items[i]);
        }
      case Obj(fs) =>
        ObjectCanonical(fs);
      case _ =>
    }
  }

  lemma ObjectCanonical(fs: seq<Member>)
    requires UniqueKeys(fs) && forall i :: 0 <= i < |fs| ==> WellFormed(fs[i].val)
    requires Lookup(fs, "constructor").None?
    requires CanonMembers(fs, SortStrings(Keys(fs))).Ok?
    ensures IsCanonical(Obj(CanonMembers(fs, SortStrings(Keys(fs))).value))
    decreases fs, 1
  {
    var keys := SortStrings(Keys(fs));
    var ms := CanonMembers(fs, keys).value;
    MembersRebuilt(fs, keys);
    SortBySorted(Keys(fs), Ident);
    SortedKeys(fs);
    UniqueSortedKeys(fs);
    forall i | 0 <= i < |ms|
      ensures IsCanonical(ms[i].val)
    {
      var x := Lookup(fs, keys[i]).value;
      var j :| 0 <= j < |fs| && fs[j] == Member(keys[i], x);
      assert x < fs[j];
      CanonicalizeCanonical(x);
    }
    KeyPresent(ms, "constructor");
    KeyPresent(fs, "constructor");
  }

  /** Sorting distinct property names keeps them distinct. */
  lemma UniqueSortedKeys(fs: seq<Member>)
    requires UniqueKeys(fs)
    ensures forall i, j :: 0 <= i < j < |SortStrings(Keys(fs))| ==> SortStrings(Keys(fs))[i] != SortStrings(Keys(fs))[j]
  {
    var keys := SortStrings(Keys(fs));
    SortByPermutes(Keys(fs), Ident);
    forall i, j | 0 <= i < j < |keys|
      ensures keys[i] != keys[j]
    {
      if keys[i] == keys[j] {
        assert multiset(keys)[keys[i]] >= 2 by {
          assert keys == keys[..j] + keys[j..];
          assert multiset(keys) == multiset(keys[..j]) + multiset(keys[j..]);
          assert keys[i] in multiset(keys[..j]);
          assert keys[j] in multiset(keys[j..]);
        }
        DistinctCount(Keys(fs), keys[i]);
        assert false;
      }
    }
  }

  /** A canonical value is its own canonical form. */
  lemma {:induction false} CanonicalFixpoint(v: Value)
    requires IsCanonical(v)
    ensures Canonicalize(v) == Ok(v)
    decreases v, 2
  {
    match v {
      case Arr(xs) =>
        ItemsFixpoint(xs);
      case Obj(fs) =>
        SortBySortedInput(Keys(fs), Ident);
        MembersFixpoint(fs, 0);
        assert fs[0..] == fs;
        assert Keys(fs)[0..] == Keys(fs);
      case _ =>
    }
  }

  lemma {:induction false} ItemsFixpoint(xs: seq<Value>)
    requires forall i :: 0 <= i < |xs| ==> IsCanonical(xs[i])
    ensures CanonItems(xs) == Ok(xs)
    decreases xs, 1
  {
    if xs != [] {
      CanonicalFixpoint(xs[0]);
      ItemsFixpoint(xs[1..]);
      assert [xs[0]] + xs[1..] == xs;
    }
  }

  lemma {:induction false} MembersFixpoint(fs: seq<Member>, i: nat)
    requires i <= |fs|
    requires StrictlySorted(Keys(fs)) && forall j :: 0 <= j < |fs| ==> IsCanonical(fs[j].val)
    ensures CanonMembers(fs, Keys(fs)[i..]) == Ok(fs[i..])
    decreases fs, 1, |fs| - i
  {
    if i < |fs| {
      MemberAt(fs, i);
      assert fs[i].val < fs[i];
      CanonicalFixpoint(fs[i].val);
      MembersFixpoint(fs, i + 1);
      MembersStep(fs, Keys(fs)[i..], fs[i].val, fs[i].val, fs[i + 1..]);
    } else {
      assert Keys(fs)[i..] == [];
    }
  }

  /** The `i`-th of strictly ascending names finds the `i`-th property. */
  lemma MemberAt(fs: seq<Member>, i: nat)
    requires i < |fs| && StrictlySorted(Keys(fs))
    ensures var keys := Keys(fs)[i..];
      && keys != [] && keys[1..] == Keys(fs)[i + 1..]
      && Lookup(fs, keys[0]) == Some(fs[i].val)
      && [Member(keys[0], fs[i].val)] + fs[i + 1..] == fs[i..]
  {
    var keys := Keys(fs)[i..];
    assert keys[0] == fs[i].key;
    assert keys[1..] == Keys(fs)[i + 1..];
    SortedKeysUnique(fs);
    LookupMember(fs, i);
    assert fs[i] == Member(keys[0], fs[i].val);
    SliceCons(fs, i);
  }

  /** One turn of the object loop: a property found and canonical, then the rest of the keys. */
  lemma MembersStep(fs: seq<Member>, keys: seq<string>, v: Value, c: Value, rest: seq<Member>)
    requires keys != [] && Lookup(fs, keys[0]) == Some(v) && Canonicalize(v) == Ok(c)
    requires CanonMembers(fs, keys[1..]) == Ok(rest)
    ensures CanonMembers(fs, keys) == Ok([Member(keys[0], c)] + rest)
  {
  }

  /** The converse: a successful turn found the first key and canonicalised its value. */
  lemma MembersStepOk(fs: seq<Member>, keys: seq<string>)
    requires keys != [] && CanonMembers(fs, keys).Ok?
    ensures Lookup(fs, keys[0]).Some? && Canonicalize(Lookup(fs, keys[0]).value).Ok?
    ensures CanonMembers(fs, keys[1..]).Ok?
    ensures CanonMembers(fs, keys).value ==
      [Member(keys[0], Canonicalize(Lookup(fs, keys[0]).value).value)] + CanonMembers(fs, keys[1..]).value
  {
  }

  /** The object step of canonicalize, once both objects are known to rebuild the same members. */
  lemma ObjectStep(fs: seq<Member>, gs: seq<Member>)
    requires SortStrings(Keys(fs)) == SortStrings(Keys(gs))
    requires Lookup(fs, "constructor").None? <==> Lookup(gs, "constructor").None?
    requires CanonMembers(fs, SortStrings(Keys(fs))) == CanonMembers(gs, SortStrings(Keys(gs)))
    ensures Canonicalize(Obj(fs)) == Canonicalize(Obj(gs))
  {
    var ms := CanonMembers(fs, SortStrings(Keys(fs)));
    if !IsPlainObject(Obj(fs)) {
      assert Canonicalize(Obj(fs)) == Err(CanonicalUnsupported) == Canonicalize(Obj(gs));
    } else if ms.Err? {
      assert Canonicalize(Obj(fs)) == Err(ms.error) == Canonicalize(Obj(gs));
    } else {
      assert Canonicalize(Obj(fs)) == Ok(Obj(ms.value)) == Canonicalize(Obj(gs));
    }
  }

  /** Strictly ascending names are distinct. */
  lemma SortedKeysUnique(fs: seq<Member>)
    requires StrictlySorted(Keys(fs))
    ensures UniqueKeys(fs)
  {
    assert forall a, b :: 0 <= a < b < |fs| ==> fs[a].key == Keys(fs)[a] && fs[b].key == Keys(fs)[b];
  }

  /** Canonicalize is idempotent. */
  lemma Idempotent(x: Value)
    requires WellFormed(x) && Canonicalize(x).Ok?
    ensures Canonicalize(Canonicalize(x).value) == Canonicalize(x)
  {
    CanonicalizeCanonical(x);
    CanonicalFixpoint(Canonicalize(x).value);
  }

  /** Values equal up to the insertion order of their properties canonicalise identically. */
  lemma {:induction false} CanonicalizeEquivalent(a: Value, b: Value)
    requires Equivalent(a, b)
    ensures Canonicalize(a) == Canonicalize(b)
    decreases a, 2
  {
    match a {
      case Arr(xs) =>
        ItemsEquivalent(xs, b.items);
      case Obj(fs) =>
        ObjectEquivalent(fs, b.fields);
      case _ =>
    }
  }

  lemma {:induction false} ItemsEquivalent(xs: seq<Value>, ys: seq<Value>)
    requires |xs| == |ys| && forall i :: 0 <= i < |xs| ==> Equivalent(xs[i], ys[i])
    ensures CanonItems(xs) == CanonItems(ys)
    decreases xs, 1
  {
    if xs != [] {
      CanonicalizeEquivalent(xs[0], ys[0]);
      ItemsEquivalent(xs[1..], ys[1..]);
    }
  }

  lemma ObjectEquivalent(fs: seq<Member>, gs: seq<Member>)
    requires SameMembers(fs, gs)
    ensures Canonicalize(Obj(fs)) == Canonicalize(Obj(gs))
    decreases fs, 1
  {
    SortStringsPermutation(Keys(fs), Keys(gs));
    var keys := SortStrings(Keys(fs));
    SortedKeys(fs);
    SameKeys(fs, gs, "constructor");
    SameValuesSub(fs, gs, Keys(fs), keys);
    MembersEquivalent(fs, gs, keys);
    ObjectStep(fs, gs);
  }

  lemma SameKeys(fs: seq<Member>, gs: seq<Member>, k: string)
    requires multiset(Keys(fs)) == multiset(Keys(gs))
    ensures Lookup(fs, k).Some? <==> Lookup(gs, k).Some?
  {
    assert k in Keys(fs) <==> k in multiset(Keys(fs));
    assert k in Keys(gs) <==> k in multiset(Keys(gs));
    KeyPresent(fs, k);
    KeyPresent(gs, k);
  }

  lemma KeyPresent(fs: seq<Member>, k: string)
    ensures Lookup(fs, k).Some? <==> k in Keys(fs)
  {
    if k in Keys(fs) {
      var i :| 0 <= i < |Keys(fs)| && Keys(fs)[i] == k;
      assert fs[i].key == k;
    }
  }

  lemma {:induction false} MembersEquivalent(fs: seq<Member>, gs: seq<Member>, keys: seq<string>)
    requires SameValues(fs, gs, keys)
    ensures CanonMembers(fs, keys) == CanonMembers(gs, keys)
    decreases fs, 0, |keys|
  {
    if keys != [] {
      MembersEquivalent(fs, gs, keys[1..]);
      match Lookup(fs, keys[0]) {
        case None =>
        case Some(x) =>
          CanonicalizeEquivalent(x, Lookup(gs, keys[0]).value);
      }
    }
  }

  /** The canonical text is always defined, and it depends on property order nowhere. */
  lemma CanonicalText(a: Value, b: Value)
    requires Equivalent(a, b)
    ensures CanonicalJsonStringify(a) == CanonicalJsonStringify(b)
    ensures CanonicalJsonStringify(a).Ok? ==> CanonicalJsonStringify(a).value.Some?
  {
    CanonicalizeEquivalent(a, b);
    if Canonicalize(a).Ok? {
      CanonicalizeKind(a);
    }
  }

  /** Canonicalize never produces undefined, a function or a symbol. */
  lemma CanonicalizeKind(x: Value)
    requires Canonicalize(x).Ok?
    ensures var c := Canonicalize(x).value; !c.Undef? && !c.Func? && !c.Sym?
  {
  }
}
