/**
 * JavaScript values as the modelled code sees them: the JSON-like data it receives and
 * builds, plus the kinds it must reject (undefined, functions, symbols, BigInts,
 * non-finite numbers and objects that are not plain objects).
 */
module JsValue {
  import opened Wrappers
  import opened Errors
  import opened JsText

  /** A JavaScript number: integers exactly, negative zero, and the non-finite values. */
  datatype Number = Int(i: int) | NegZero | NaN | PosInf | NegInf
  {
    predicate IsFinite() { Int? || NegZero? }
  }

  datatype Value =
    | Undef
    | Null
    | Bool(b: bool)
    | Num(n: Number)
    | Str(s: string)
    | BigInt(big: int)
    | Func(source: string)
    | Sym(description: string)
    | Arr(items: seq<Value>)
    /** a plain object: its own enumerable properties in insertion order */
    | Obj(fields: seq<Member>)
    /** an object whose constructor is not Object (a class instance), with its own enumerable properties */
    | Foreign(fields: seq<Member>)

  datatype Member = Member(key: string, val: Value)

  function Keys(fs: seq<Member>): (ks: seq<string>)
    ensures |ks| == |fs|
    ensures forall i :: 0 <= i < |fs| ==> ks[i] == fs[i].key
  {
    seq(|fs|, i requires 0 <= i < |fs| => fs[i].key)
  }

  /** Property names of an object are distinct. */
  predicate UniqueKeys(fs: seq<Member>)
  {
    forall i, j :: 0 <= i < j < |fs| ==> fs[i].key != fs[j].key
  }

  /** The value stored under key `k`, if any. */
  function Lookup(fs: seq<Member>, k: string): (r: Option<Value>)
    ensures r.Some? <==> exists i :: 0 <= i < |fs| && fs[i].key == k
    ensures r.Some? ==> exists i :: 0 <= i < |fs| && fs[i] == Member(k, r.value)
  {
    if fs == [] then None
    else if fs[0].key == k then Some(fs[0].val)
    else
      var r := Lookup(fs[1..], k);
      assert r.Some? ==> exists i :: 0 <= i < |fs[1..]| && fs[1..][i] == Member(k, r.value);
      r
  }

  /** The value of the first member named `fs[i].key` is `fs[i].val`. */
  lemma {:induction false} LookupFirst(fs: seq<Member>, i: nat)
    requires i < |fs| && forall j :: 0 <= j < i ==> fs[j].key != fs[i].key
    ensures Lookup(fs, fs[i].key) == Some(fs[i].val)
  {
    if i > 0 {
      assert fs[0].key != fs[i].key;
      LookupFirst(fs[1..], i - 1);
    }
  }

  /** Reading the property `k` of an object whose first member named `k` is `fs[i]`. */
  lemma PropAt(fs: seq<Member>, i: nat, k: string)
    requires i < |fs| && fs[i].key == k && forall j :: 0 <= j < i ==> fs[j].key != k
    ensures Prop(Obj(fs), k) == fs[i].val
  {
    LookupFirst(fs, i);
  }

  /** With distinct keys, a member of the object is what Lookup finds under its key. */
  lemma {:induction false} LookupMember(fs: seq<Member>, i: nat)
    requires UniqueKeys(fs) && i < |fs|
    ensures Lookup(fs, fs[i].key) == Some(fs[i].val)
  {
    if i > 0 {
      LookupMember(fs[1..], i - 1);
    }
  }

  /** JavaScript truthiness. */
  predicate Truthy(v: Value)
  {
    match v
    case Undef => false
    case Null => false
    case Bool(b) => b
    case Num(n) => (n.Int? && n.i != 0) || n.PosInf? || n.NegInf?
    case Str(s) => s != ""
    case BigInt(i) => i != 0
    case _ => true
  }

  /** `typeof v`. */
  function TypeOf(v: Value): string
  {
    match v
    case Undef => "undefined"
    case Null => "object"
    case Bool(_) => "boolean"
    case Num(_) => "number"
    case Str(_) => "string"
    case BigInt(_) => "bigint"
    case Func(_) => "function"
    case Sym(_) => "symbol"
    case _ => "object"
  }

  /** `typeof v === "object" && v !== null`: arrays, plain objects and other objects. */
  predicate IsObject(v: Value)
  {
    v.Arr? || v.Obj? || v.Foreign?
  }

  predicate IsNullish(v: Value) { v.Undef? || v.Null? }

  /** `x ?? d`. */
  function NullishOr(x: Value, d: Value): (r: Value)
    ensures !IsNullish(x) ==> r == x
  {
    if IsNullish(x) then d else x
  }

  /** `v[k]` (or `v?.[k]`, which gives undefined on a nullish `v`); inherited properties are not modelled. */
  function Prop(v: Value, k: string): Value
  {
    match v
    case Obj(fs) => (match Lookup(fs, k) case Some(x) => x case None => Undef)
    case Foreign(fs) => (match Lookup(fs, k) case Some(x) => x case None => Undef)
    case Arr(items) =>
      if k == "length" then Num(Int(|items|))
      else (match CanonicalIndex(k)
            case Some(i) => if i < |items| then items[i] else Undef
            case None => Undef)
    case Str(s) =>
      if k == "length" then Num(Int(|s|))
      else (match CanonicalIndex(k)
            case Some(i) => if i < |s| then Str([s[i]]) else Undef
            case None => Undef)
    case _ => Undef
  }

  /** `v[k]` where a nullish `v` throws a TypeError. */
  function PropOf(v: Value, k: string): (r: Result<Value, Error>)
    ensures r.Ok? <==> !IsNullish(v)
    ensures r.Ok? ==> r.value == Prop(v, k)
  {
    if IsNullish(v) then Err(TypeError("Cannot read properties of " + (if v.Null? then "null" else "undefined")))
    else Ok(Prop(v, k))
  }

  /**
   * The names an ordinary object inherits from `Object.prototype`: `o[k]` is truthy for each
   * of them even when `o` has no own property `k`.
   */
  const ObjectPrototypeKeys: set<string> := {
    "constructor", "toString", "toLocaleString", "valueOf", "hasOwnProperty", "isPrototypeOf",
    "propertyIsEnumerable", "__proto__", "__defineGetter__", "__defineSetter__",
    "__lookupGetter__", "__lookupSetter__"}

  /** `k in v` for an object `v` (own properties only). */
  predicate HasOwn(v: Value, k: string)
  {
    match v
    case Obj(fs) => Lookup(fs, k).Some?
    case Foreign(fs) => Lookup(fs, k).Some?
    case Arr(items) => k == "length" || (CanonicalIndex(k).Some? && CanonicalIndex(k).value < |items|)
    case _ => false
  }

  function NumberToString(n: Number): string
  {
    match n
    case Int(i) => IntToDecimal(i)
    case NegZero => "0"
    case NaN => "NaN"
    case PosInf => "Infinity"
    case NegInf => "-Infinity"
  }

  /** The ToString conversion (template literals, `+ ""`, array join). A symbol throws. */
  function ToJsString(v: Value): Result<string, Error>
  {
    match v
    case Undef => Ok("undefined")
    case Null => Ok("null")
    case Bool(b) => Ok(if b then "true" else "false")
    case Num(n) => Ok(NumberToString(n))
    case Str(s) => Ok(s)
    case BigInt(i) => Ok(IntToDecimal(i))
    case Func(src) => Ok(src)
    case Sym(_) => Err(TypeError("Cannot convert a Symbol value to a string"))
    case Arr(items) => JoinItems(items)
    case Obj(_) => Ok("[object Object]")
    case Foreign(_) => Ok("[object Object]")
  }

  /** `items.join(",")`: null and undefined elements become empty strings. */
  function JoinItems(items: seq<Value>): Result<string, Error>
    decreases items
  {
    if items == [] then Ok("")
    else
      var first :- if IsNullish(items[0]) then Ok("") else ToJsString(items[0]);
      if |items| == 1 then Ok(first)
      else
        var rest :- JoinItems(items[1..]);
        Ok(first + "," + rest)
  }

  /** The `String(v)` function, which, unlike ToString, accepts a symbol. */
  function StringOf(v: Value): Result<string, Error>
  {
    if v.Sym? then Ok("Symbol(" + v.description + ")") else ToJsString(v)
  }

  predicate NumStrictEq(x: Number, y: Number)
  {
    match (x, y)
    case (Int(a), Int(b)) => a == b
    case (Int(a), NegZero) => a == 0
    case (NegZero, Int(b)) => b == 0
    case (NegZero, NegZero) => true
    case (PosInf, PosInf) => true
    case (NegInf, NegInf) => true
    case _ => false
  }

  /**
   * `a === b`. Objects, functions and symbols compare by identity; the model never compares
   * one with itself, so two of them are never strictly equal here.
   */
  predicate StrictEq(a: Value, b: Value)
  {
    match (a, b)
    case (Undef, Undef) => true
    case (Null, Null) => true
    case (Bool(x), Bool(y)) => x == y
    case (Num(x), Num(y)) => NumStrictEq(x, y)
    case (Str(x), Str(y)) => x == y
    case (BigInt(x), BigInt(y)) => x == y
    case _ => false
  }

  /** SameValueZero, the equality of `Set.prototype.has`: `===`, except that NaN equals NaN. */
  predicate SameValueZero(a: Value, b: Value)
  {
    StrictEq(a, b) || (a == Num(NaN) && b == Num(NaN))
  }

  /** `new Set(elems).has(x)`. */
  predicate SetHas(elems: seq<Value>, x: Value)
  {
    exists i :: 0 <= i < |elems| && SameValueZero(elems[i], x)
  }

  /** A string is in a set built from values exactly when the set holds that very string. */
  lemma SetHasString(elems: seq<Value>, s: string)
    ensures SetHas(elems, Str(s)) <==> Str(s) in elems
  {
    if Str(s) in elems {
      var i :| 0 <= i < |elems| && elems[i] == Str(s);
      assert SameValueZero(elems[i], Str(s));
    }
  }

  /** `Object.entries(v)` for a non-nullish `v`: own enumerable string-keyed properties in order. */
  function Entries(v: Value): (es: seq<Member>)
    ensures v.Obj? || v.Foreign? ==> es == v.fields
  {
    match v
    case Obj(fs) => fs
    case Foreign(fs) => fs
    case Arr(items) => seq(|items|, i requires 0 <= i < |items| => Member(NatToDecimal(i), items[i]))
    case Str(s) => seq(|s|, i requires 0 <= i < |s| => Member(NatToDecimal(i), Str([s[i]])))
    case _ => []
  }

  /** `{ ...v }`: a fresh plain object holding a shallow copy of `v`'s own enumerable properties. */
  function SpreadCopy(v: Value): (r: Value)
    ensures r.Obj?
    ensures v.Obj? || v.Foreign? ==> r.fields == v.fields
  {
    Obj(Entries(v))
  }

  /**
   * An array index: the canonical decimal form of an integer below 2^32 - 1. An ordinary
   * object lists its array-index keys first, in ascending numeric order, and its other string
   * keys after them in the order they were created.
   */
  predicate IsIndexKey(k: string)
  {
    && |k| > 0 && IsDigit(k[0])
    && (forall i :: 0 <= i < |k| ==> IsDigit(k[i]))
    && (k[0] == '0' ==> |k| == 1)
    && DigitsValue(k) < 0xFFFF_FFFF
  }

  /** The array position an index key names. */
  function IndexValue(k: string): nat
    requires IsIndexKey(k)
  {
    DigitsValue(k)
  }

  /** The own-property order of an ordinary object: array-index keys first and ascending, then the rest. */
  predicate IndexKeysFirst(fs: seq<Member>)
  {
    forall i, j :: 0 <= i < j < |fs| && IsIndexKey(fs[j].key) ==>
      IsIndexKey(fs[i].key) && IndexValue(fs[i].key) < IndexValue(fs[j].key)
  }

  /** Index keys are canonical, so two of them naming the same position are the same key. */
  lemma IndexValueInjective(a: string, b: string)
    requires IsIndexKey(a) && IsIndexKey(b) && IndexValue(a) == IndexValue(b)
    ensures a == b
  {
    CanonicalDigits(a);
    CanonicalDigits(b);
  }

  /** A digit run without a leading zero is the decimal rendering of its value. */
  lemma {:induction false} CanonicalDigits(s: string)
    requires |s| > 0 && forall i :: 0 <= i < |s| ==> IsDigit(s[i])
    requires s[0] == '0' ==> |s| == 1
    ensures NatToDecimal(DigitsValue(s)) == s
    decreases |s|
  {
    if |s| > 1 {
      var p := s[..|s| - 1];
      CanonicalDigits(p);
      LeadingDigitPositive(p);
      assert DigitsValue(s) / 10 == DigitsValue(p) && DigitsValue(s) % 10 == DigitValue(s[|s| - 1]);
      assert p + [s[|s| - 1]] == s;
    }
  }

  /** A digit run starting with a non-zero digit has a positive value. */
  lemma {:induction false} LeadingDigitPositive(s: string)
    requires |s| > 0 && s[0] != '0' && forall i :: 0 <= i < |s| ==> IsDigit(s[i])
    ensures DigitsValue(s) > 0
    decreases |s|
  {
    if |s| > 1 {
      LeadingDigitPositive(s[..|s| - 1]);
    }
  }

  /**
   * `o[k] = x` on an ordinary object: an existing `k` is overwritten in place; a new array-index
   * key goes in front of the first member that is not a smaller index key; any other new key
   * goes last.
   */
  function SetField(fs: seq<Member>, k: string, x: Value): (r: seq<Member>)
    ensures Lookup(r, k) == Some(x)
    ensures forall k' :: k' != k ==> Lookup(r, k') == Lookup(fs, k')
    ensures Lookup(fs, k).Some? ==> |r| == |fs| && Keys(r) == Keys(fs)
    ensures Lookup(fs, k).None? ==> multiset(r) == multiset(fs) + multiset{Member(k, x)}
    ensures Lookup(fs, k).None? && !IsIndexKey(k) ==> r == fs + [Member(k, x)]
  {
    if fs == [] then [Member(k, x)]
    else if fs[0].key == k then
      SetFieldHead(fs, k, x);
      [Member(k, x)] + fs[1..]
    else if IsIndexKey(k) && Lookup(fs, k).None? &&
            (!IsIndexKey(fs[0].key) || IndexValue(k) < IndexValue(fs[0].key)) then
      SetFieldFront(fs, k, x);
      [Member(k, x)] + fs
    else
      var rest := SetField(fs[1..], k, x);
      SetFieldTail(fs, k, x, rest);
      [fs[0]] + rest
  }

  /** What `o[k] = x` leaves in `r` when `o` had the members `fs`. */
  ghost predicate Assigned(fs: seq<Member>, k: string, x: Value, r: seq<Member>)
  {
    && Lookup(r, k) == Some(x)
    && (forall k' :: k' != k ==> Lookup(r, k') == Lookup(fs, k'))
    && (Lookup(fs, k).Some? ==> |r| == |fs| && Keys(r) == Keys(fs))
    && (Lookup(fs, k).None? ==> multiset(r) == multiset(fs) + multiset{Member(k, x)})
    && (Lookup(fs, k).None? && !IsIndexKey(k) ==> r == fs + [Member(k, x)])
  }

  /** Overwriting the first member. */
  lemma SetFieldHead(fs: seq<Member>, k: string, x: Value)
    requires fs != [] && fs[0].key == k
    ensures Assigned(fs, k, x, [Member(k, x)] + fs[1..])
  {
    LookupCons(fs[0], fs[1..]);
    LookupCons(Member(k, x), fs[1..]);
    KeysCons(fs[0], fs[1..]);
    KeysCons(Member(k, x), fs[1..]);
    assert [fs[0]] + fs[1..] == fs;
  }

  /** A new index key placed in front of the members. */
  lemma SetFieldFront(fs: seq<Member>, k: string, x: Value)
    requires IsIndexKey(k) && Lookup(fs, k).None?
    ensures Assigned(fs, k, x, [Member(k, x)] + fs)
  {
    LookupCons(Member(k, x), fs);
  }

  /** Assigning past the first member keeps it in front. */
  lemma SetFieldTail(fs: seq<Member>, k: string, x: Value, rest: seq<Member>)
    requires fs != [] && fs[0].key != k && Assigned(fs[1..], k, x, rest)
    ensures Assigned(fs, k, x, [fs[0]] + rest)
  {
    LookupCons(fs[0], rest);
    LookupCons(fs[0], fs[1..]);
    assert [fs[0]] + fs[1..] == fs;
    if Lookup(fs[1..], k).Some? {
      KeysCons(fs[0], rest);
      KeysCons(fs[0], fs[1..]);
    }
  }

  /**
   * Assignment keeps an object's own-property order: index keys first and ascending, other keys
   * in creation order.
   */
  lemma {:induction false} SetFieldOrder(fs: seq<Member>, k: string, x: Value)
    requires IndexKeysFirst(fs)
    ensures IndexKeysFirst(SetField(fs, k, x))
    decreases |fs|
  {
    if fs == [] {
    } else if fs[0].key == k {
      OrderSameKeys(fs, SetField(fs, k, x));
    } else if IsIndexKey(k) && Lookup(fs, k).None? &&
              (!IsIndexKey(fs[0].key) || IndexValue(k) < IndexValue(fs[0].key)) {
      OrderFront(fs, Member(k, x));
    } else {
      var rest := SetField(fs[1..], k, x);
      SetFieldOrder(fs[1..], k, x);
      forall j | 0 <= j < |rest| && IsIndexKey(rest[j].key)
        ensures IsIndexKey(fs[0].key) && IndexValue(fs[0].key) < IndexValue(rest[j].key)
      {
        FirstBeforeTail(fs, k, x, rest, j);
      }
      OrderCons(fs[0], rest);
    }
  }

  /** The order depends only on the keys. */
  lemma OrderSameKeys(fs: seq<Member>, r: seq<Member>)
    requires IndexKeysFirst(fs) && Keys(r) == Keys(fs)
    ensures IndexKeysFirst(r)
  {
    assert forall i :: 0 <= i < |r| ==> r[i].key == Keys(r)[i] == Keys(fs)[i] == fs[i].key;
  }

  /** An index key smaller than the first index key may go in front. */
  lemma OrderFront(fs: seq<Member>, m: Member)
    requires IndexKeysFirst(fs) && IsIndexKey(m.key)
    requires fs != [] ==> !IsIndexKey(fs[0].key) || IndexValue(m.key) < IndexValue(fs[0].key)
    ensures IndexKeysFirst([m] + fs)
  {
    var r := [m] + fs;
    forall i, j | 0 <= i < j < |r| && IsIndexKey(r[j].key)
      ensures IsIndexKey(r[i].key) && IndexValue(r[i].key) < IndexValue(r[j].key)
    {
      assert r[j] == fs[j - 1];
      if i == 0 && j > 1 {
        assert IsIndexKey(fs[0].key) && IndexValue(fs[0].key) < IndexValue(fs[j - 1].key);
      } else if i > 0 {
        assert r[i] == fs[i - 1];
      }
    }
  }

  /** A member that precedes every index key of an ordered list may go in front of it. */
  lemma OrderCons(m: Member, rest: seq<Member>)
    requires IndexKeysFirst(rest)
    requires forall j :: 0 <= j < |rest| && IsIndexKey(rest[j].key) ==>
               IsIndexKey(m.key) && IndexValue(m.key) < IndexValue(rest[j].key)
    ensures IndexKeysFirst([m] + rest)
  {
    var r := [m] + rest;
    forall i, j | 0 <= i < j < |r| && IsIndexKey(r[j].key)
      ensures IsIndexKey(r[i].key) && IndexValue(r[i].key) < IndexValue(r[j].key)
    {
      assert r[j] == rest[j - 1];
      if i > 0 {
        assert r[i] == rest[i - 1];
      }
    }
  }

  /** The first member precedes every index key of the assigned tail. */
  lemma FirstBeforeTail(fs: seq<Member>, k: string, x: Value, rest: seq<Member>, j: nat)
    requires fs != [] && fs[0].key != k && IndexKeysFirst(fs)
    requires forall k' :: k' != k ==> Lookup(rest, k') == Lookup(fs[1..], k')
    requires !(IsIndexKey(k) && Lookup(fs, k).None? &&
               (!IsIndexKey(fs[0].key) || IndexValue(k) < IndexValue(fs[0].key)))
    requires j < |rest| && IsIndexKey(rest[j].key)
    ensures IsIndexKey(fs[0].key) && IndexValue(fs[0].key) < IndexValue(rest[j].key)
  {
    var key := rest[j].key;
    assert Lookup(rest, key).Some?;
    if key != k || Lookup(fs[1..], k).Some? {
      FirstBeforeLater(fs, key);
    } else {
      LookupCons(fs[0], fs[1..]);
      assert [fs[0]] + fs[1..] == fs;
      if IndexValue(fs[0].key) == IndexValue(k) {
        IndexValueInjective(fs[0].key, k);
      }
    }
  }

  /** In an ordered list the first member precedes every later index key. */
  lemma FirstBeforeLater(fs: seq<Member>, key: string)
    requires fs != [] && IndexKeysFirst(fs) && IsIndexKey(key) && Lookup(fs[1..], key).Some?
    ensures IsIndexKey(fs[0].key) && IndexValue(fs[0].key) < IndexValue(key)
  {
    var p :| 0 <= p < |fs[1..]| && fs[1..][p].key == key;
    assert fs[p + 1].key == key;
  }

  /** Assigning one property leaves every other property as it was. */
  lemma SetFieldOther(fs: seq<Member>, k: string, x: Value, other: string)
    requires other != k
    ensures Prop(Obj(SetField(fs, k, x)), other) == Prop(Obj(fs), other)
  {
  }

  /** Looking up a key in a list with a first member in front. */
  lemma LookupCons(m: Member, rest: seq<Member>)
    ensures forall k :: Lookup([m] + rest, k) == (if m.key == k then Some(m.val) else Lookup(rest, k))
  {
    assert ([m] + rest)[1..] == rest;
  }

  lemma KeysCons(m: Member, rest: seq<Member>)
    ensures Keys([m] + rest) == [m.key] + Keys(rest)
  {
  }

  /**
   * Two values are equal up to the insertion order of object properties, at every depth:
   * objects of the same kind with the same property names, whose values correspond.
   */
  predicate Equivalent(a: Value, b: Value)
    decreases a
  {
    match a
    case Arr(xs) => b.Arr? && |xs| == |b.items| && forall i :: 0 <= i < |xs| ==> Equivalent(xs[i], b.items[i])
    case Obj(fs) => b.Obj? && SameMembers(fs, b.fields)
    case Foreign(fs) => b.Foreign? && SameMembers(fs, b.fields)
    case _ => a == b
  }

  predicate SameMembers(fs: seq<Member>, gs: seq<Member>)
    decreases fs, 1
  {
    multiset(Keys(fs)) == multiset(Keys(gs)) && SameValues(fs, gs, Keys(fs))
  }

  /** Under each of `keys`, the two member lists hold corresponding values (or both none). */
  predicate SameValues(fs: seq<Member>, gs: seq<Member>, keys: seq<string>)
    decreases fs, 0, |keys|
  {
    keys == [] ||
    ((match Lookup(fs, keys[0])
      case Some(x) => Lookup(gs, keys[0]).Some? && Equivalent(x, Lookup(gs, keys[0]).value)
      case None => Lookup(gs, keys[0]).None?)
     && SameValues(fs, gs, keys[1..]))
  }

  /** Every object inside `v`, at any depth, has distinct property names, as JavaScript objects do. */
  predicate WellFormed(v: Value)
    decreases v
  {
    match v
    case Arr(xs) => forall i :: 0 <= i < |xs| ==> WellFormed(xs[i])
    case Obj(fs) => UniqueKeys(fs) && forall i :: 0 <= i < |fs| ==> WellFormed(fs[i].val)
    case Foreign(fs) => UniqueKeys(fs) && forall i :: 0 <= i < |fs| ==> WellFormed(fs[i].val)
    case _ => true
  }

  /** Correspondence under a list of keys carries over to any list drawn from it. */
  lemma {:induction false} SameValuesSub(fs: seq<Member>, gs: seq<Member>, keys: seq<string>, sub: seq<string>)
    requires SameValues(fs, gs, keys)
    requires forall k :: k in sub ==> k in keys
    ensures SameValues(fs, gs, sub)
    decreases |sub|
  {
    if sub != [] {
      SameValuesAt(fs, gs, keys, sub[0]);
      SameValuesSub(fs, gs, keys, sub[1..]);
    }
  }

  lemma {:induction false} SameValuesAt(fs: seq<Member>, gs: seq<Member>, keys: seq<string>, k: string)
    requires SameValues(fs, gs, keys) && k in keys
    ensures SameValues(fs, gs, [k])
    decreases |keys|
  {
    if keys[0] != k {
      SameValuesAt(fs, gs, keys[1..], k);
    }
  }
}
