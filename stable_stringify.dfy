/**
 * `stableStringify`: a JSON-like encoding with object keys in sorted order, used to hash the
 * expression ABI. Numbers must be finite; undefined members of objects are dropped; every
 * other undefined, function, symbol or BigInt throws.
 */
module StableStringify {
  import opened Wrappers
  import opened Errors
  import opened JsText
  import opened JsValue
  import opened JsSort
  import opened JsJson

  /** `_stringify(v)`. */
  function Stringify(v: Value): Result<string, Error>
    decreases v, 2
  {
    match v
    case Null => Ok("null")
    case Num(n) => if n.IsFinite() then Ok(NumberToString(n)) else Err(NonFiniteNumber)
    case Bool(b) => Ok(if b then "true" else "false")
    case Str(s) => Ok(JsonQuote(s))
    case BigInt(_) => Err(BigIntNotAllowed)
    case Undef => Err(IllegalType("undefined"))
    case Func(_) => Err(IllegalType("function"))
    case Sym(_) => Err(IllegalType("symbol"))
    case Arr(items) =>
      var parts :- StringifyItems(items);
      Ok("[" + Join(parts, ",") + "]")
    case Obj(fs) => ObjectText(fs)
    case Foreign(fs) => ObjectText(fs)
  }

  /** `items.map(_stringify)`, failing with the first element that throws. */
  function StringifyItems(items: seq<Value>): (r: Result<seq<string>, Error>)
    ensures r.Ok? ==> |r.value| == |items|
    decreases items, 0
  {
    if items == [] then Ok([])
    else
      var first :- Stringify(items[0]);
      var rest :- StringifyItems(items[1..]);
      Ok([first] + rest)
  }

  /** The object branch: members in sorted key order, then the trailing-comma fix-up, then `}`. */
  function ObjectText(fs: seq<Member>): Result<string, Error>
    decreases fs, 1
  {
    var body :- MembersText(fs, SortStrings(Keys(fs)));
    Ok(Patch("{" + body) + "}")
  }

  /**
   * What the loop appends for the remaining `keys`: each defined member as `"key":text`,
   * followed by a comma unless its key is the last one, whether or not later members are dropped.
   */
  function MembersText(fs: seq<Member>, keys: seq<string>): Result<string, Error>
    decreases fs, 0, |keys|
  {
    if keys == [] then Ok("")
    else
      match Lookup(fs, keys[0])
      case None => MembersText(fs, keys[1..])
      case Some(x) =>
        if x.Undef? then MembersText(fs, keys[1..])
        else
          var text :- Stringify(x);
          var rest :- MembersText(fs, keys[1..]);
          Ok(JsonQuote(keys[0]) + ":" + text + (if |keys| > 1 then "," else "") + rest)
  }

  /** `out.replace(/,\}$/, "}")`. */
  function Patch(s: string): string
  {
    if |s| >= 2 && s[|s| - 2..] == ",}" then s[..|s| - 2] + "}" else s
  }

  /* ---------------- the imperative form ---------------- */

  function PrependAll(ps: seq<string>, r: Result<seq<string>, Error>): Result<seq<string>, Error>
  {
    match r
    case Ok(rest) => Ok(ps + rest)
    case Err(e) => Err(e)
  }

  function PrependText(p: string, r: Result<string, Error>): Result<string, Error>
  {
    match r
    case Ok(rest) => Ok(p + rest)
    case Err(e) => Err(e)
  }

  lemma PrependAllAppend(ps: seq<string>, p: string, r: Result<seq<string>, Error>)
    ensures PrependAll([], r) == r
    ensures PrependAll(ps, PrependAll([p], r)) == PrependAll(ps + [p], r)
  {
    if r.Ok? {
      assert [] + r.value == r.value;
      assert ps + ([p] + r.value) == (ps + [p]) + r.value;
    }
  }

  lemma PrependTextAppend(p: string, q: string, r: Result<string, Error>)
    ensures PrependText("", r) == r
    ensures PrependText(p, PrependText(q, r)) == PrependText(p + q, r)
  {
    if r.Ok? {
      assert "" + r.value == r.value;
      assert p + (q + r.value) == (p + q) + r.value;
    }
  }

  /** `_stringify(v)` as the source runs it: recursion, with the object branch's loop. */
  method StringifyValue(v: Value) returns (r: Result<string, Error>)
    ensures r == Stringify(v)
    decreases v, 2
  {
    match v {
      case Arr(items) =>
        var parts: seq<string> := [];
        assert items[0..] == items;
        PrependAllAppend([], "", StringifyItems(items));
        for i := 0 to |items|
          invariant PrependAll(parts, StringifyItems(items[i..])) == StringifyItems(items)
        {
          assert items[i..][1..] == items[i + 1..];
          var s := StringifyValue(items[i]);
          if s.Err? {
            assert StringifyItems(items[i..]) == Err(s.error);
            return Err(s.error);
          }
          assert StringifyItems(items[i..]) == PrependAll([s.value], StringifyItems(items[i + 1..]));
          PrependAllAppend(parts, s.value, StringifyItems(items[i + 1..]));
          parts := parts + [s.value];
        }
        assert items[|items|..] == [];
        assert parts + [] == parts;
        assert StringifyItems(items) == Ok(parts);
        r := Ok("[" + Join(parts, ",") + "]");
      case Obj(fs) =>
        r := StringifyObject(fs);
      case Foreign(fs) =>
        r := StringifyObject(fs);
      case _ =>
        r := Stringify(v);
    }
  }

  /** The object branch: `for` over the sorted keys appending to `out`, then the fix-up. */
  method StringifyObject(fs: seq<Member>) returns (r: Result<string, Error>)
    ensures r == ObjectText(fs)
    decreases fs, 1
  {
    var keys := SortStrings(Keys(fs));
    var out := "{";
    assert keys[0..] == keys && out[1..] == "";
    PrependTextAppend("", "", MembersText(fs, keys));
    for i := 0 to |keys|
      invariant |out| >= 1 && out[0] == '{'
      invariant PrependText(out[1..], MembersText(fs, keys[i..])) == MembersText(fs, keys)
    {
      var failed;
      out, failed := AppendMember(fs, keys, i, out);
      if failed.Some? {
        return Err(failed.value);
      }
    }
    ObjectTextOfLoop(fs, keys, out);
    out := Patch(out);
    r := Ok(out + "}");
  }

  /** One iteration of the object loop, for `keys[i]`. */
  method AppendMember(fs: seq<Member>, keys: seq<string>, i: nat, out: string)
    returns (out': string, failed: Option<Error>)
    requires i < |keys| && |out| >= 1 && out[0] == '{'
    ensures failed.Some? ==> PrependText(out[1..], MembersText(fs, keys[i..])) == Err(failed.value)
    ensures failed.None? ==>
      && |out'| >= 1 && out'[0] == '{'
      && PrependText(out'[1..], MembersText(fs, keys[i + 1..])) == PrependText(out[1..], MembersText(fs, keys[i..]))
    decreases fs, 0
  {
    var k := keys[i];
    assert keys[i..][0] == k && keys[i..][1..] == keys[i + 1..];
    var found := Lookup(fs, k);
    if found.None? || found.value.Undef? {
      MembersTextSkip(fs, keys[i..]);
      return out, None;
    }
    var j :| 0 <= j < |fs| && fs[j] == Member(k, found.value);
    var s := StringifyValue(fs[j].val);
    if s.Err? {
      MembersTextError(fs, keys[i..], found.value);
      return out, Some(s.error);
    }
    var piece := JsonQuote(k) + ":" + s.value;
    if i != |keys| - 1 {
      piece := piece + ",";
    }
    assert piece == JsonQuote(k) + ":" + s.value + (if |keys[i..]| > 1 then "," else "");
    MembersTextMember(fs, keys[i..], found.value, s.value);
    PrependTextAppend(out[1..], piece, MembersText(fs, keys[i + 1..]));
    DropFirstAppend(out, piece);
    return out + piece, None;
  }

  lemma MembersTextSkip(fs: seq<Member>, keys: seq<string>)
    requires keys != [] && (Lookup(fs, keys[0]).None? || Lookup(fs, keys[0]).value.Undef?)
    ensures MembersText(fs, keys) == MembersText(fs, keys[1..])
  {
  }

  lemma MembersTextError(fs: seq<Member>, keys: seq<string>, x: Value)
    requires keys != [] && Lookup(fs, keys[0]) == Some(x) && !x.Undef? && Stringify(x).Err?
    ensures MembersText(fs, keys) == Err(Stringify(x).error)
  {
  }

  lemma MembersTextMember(fs: seq<Member>, keys: seq<string>, x: Value, text: string)
    requires keys != [] && Lookup(fs, keys[0]) == Some(x) && !x.Undef? && Stringify(x) == Ok(text)
    ensures MembersText(fs, keys) ==
      PrependText(JsonQuote(keys[0]) + ":" + text + (if |keys| > 1 then "," else ""), MembersText(fs, keys[1..]))
  {
  }

  lemma ObjectTextOfLoop(fs: seq<Member>, keys: seq<string>, out: string)
    requires keys == SortStrings(Keys(fs))
    requires |out| >= 1 && out[0] == '{'
    requires PrependText(out[1..], MembersText(fs, keys[|keys|..])) == MembersText(fs, keys)
    ensures ObjectText(fs) == Ok(Patch(out) + "}")
  {
    assert keys[|keys|..] == [];
    assert out == "{" + out[1..];
    assert out[1..] + "" == out[1..];
  }

  /* ---------------- properties ---------------- */

  /** Scalars: null and the booleans are literal, -0 prints as 0, and non-finite numbers throw. */
  lemma ScalarText(n: Number)
    ensures Stringify(Null) == Ok("null")
    ensures Stringify(Bool(true)) == Ok("true") && Stringify(Bool(false)) == Ok("false")
    ensures Stringify(Num(NegZero)) == Ok("0") && Stringify(Num(Int(0))) == Ok("0")
    ensures Stringify(Num(n)).Ok? <==> n.IsFinite()
  {
  }

  /** A string encodes as a JSON string literal, from which it is recovered. */
  lemma StringText(s: string)
    ensures Stringify(Str(s)) == Ok(JsonQuote(s))
    ensures JsonUnquote(Stringify(Str(s)).value) == Some(s)
  {
    JsonQuoteRoundTrip(s);
  }

  /** Undefined, functions, symbols and BigInts throw when they are the value being encoded. */
  lemma IllegalKinds(src: string, d: string, i: int)
    ensures Stringify(Undef) == Err(IllegalType("undefined"))
    ensures Stringify(Func(src)) == Err(IllegalType("function"))
    ensures Stringify(Sym(d)) == Err(IllegalType("symbol"))
    ensures Stringify(BigInt(i)) == Err(BigIntNotAllowed)
  {
  }

  /** Arrays keep their length and order: the i-th part is the encoding of the i-th element. */
  lemma {:induction false} ItemsText(items: seq<Value>)
    ensures StringifyItems(items).Ok? <==> forall i :: 0 <= i < |items| ==> Stringify(items[i]).Ok?
    ensures StringifyItems(items).Ok? ==>
      forall i :: 0 <= i < |items| ==> Stringify(items[i]) == Ok(StringifyItems(items).value[i])
  {
    if items != [] {
      ItemsText(items[1..]);
      assert forall i :: 1 <= i < |items| ==> items[i] == items[1..][i - 1];
    }
  }

  /** Which values encode: finite numbers, and no undefined, function, symbol or BigInt except undefined members. */
  predicate Encodable(v: Value)
    decreases v
  {
    match v
    case Null => true
    case Bool(_) => true
    case Str(_) => true
    case Num(n) => n.IsFinite()
    case Arr(xs) => forall i :: 0 <= i < |xs| ==> Encodable(xs[i])
    case Obj(fs) => forall i :: 0 <= i < |fs| ==> fs[i].val.Undef? || Encodable(fs[i].val)
    case Foreign(fs) => forall i :: 0 <= i < |fs| ==> fs[i].val.Undef? || Encodable(fs[i].val)
    case _ => false
  }

  /** Encoding succeeds exactly on the encodable values (objects with distinct property names). */
  lemma {:induction false} StringifyOk(v: Value)
    requires WellFormed(v)
    ensures Stringify(v).Ok? <==> Encodable(v)
    decreases v, 2
  {
    match v {
      case Arr(xs) =>
        ItemsOk(xs);
      case Obj(fs) =>
        ObjectOk(fs);
      case Foreign(fs) =>
        ObjectOk(fs);
      case _ =>
    }
  }

  lemma {:induction false} ItemsOk(xs: seq<Value>)
    requires forall i :: 0 <= i < |xs| ==> WellFormed(xs[i])
    ensures StringifyItems(xs).Ok? <==> forall i :: 0 <= i < |xs| ==> Encodable(xs[i])
    decreases xs, 1
  {
    ItemsText(xs);
    forall i | 0 <= i < |xs|
      ensures Stringify(xs[i]).Ok? <==> Encodable(xs[i])
    {
      StringifyOk(xs[i]);
    }
  }

  lemma ObjectOk(fs: seq<Member>)
    requires UniqueKeys(fs) && forall i :: 0 <= i < |fs| ==> WellFormed(fs[i].val)
    ensures ObjectText(fs).Ok? <==> forall i :: 0 <= i < |fs| ==> fs[i].val.Undef? || Encodable(fs[i].val)
    decreases fs, 1
  {
    var keys := SortStrings(Keys(fs));
    SortedKeys(fs);
    MembersOk(fs, keys);
  }


  /** The member loop succeeds exactly when every member under one of `keys` is undefined or encodable. */
  lemma {:induction false} MembersOk(fs: seq<Member>, keys: seq<string>)
    requires UniqueKeys(fs) && forall i :: 0 <= i < |fs| ==> WellFormed(fs[i].val)
    requires forall k :: k in keys ==> k in Keys(fs)
    ensures MembersText(fs, keys).Ok? <==>
      forall i :: 0 <= i < |fs| && fs[i].key in keys ==> fs[i].val.Undef? || Encodable(fs[i].val)
    decreases fs, 0, |keys|
  {
    if keys != [] {
      var k := keys[0];
      assert forall x :: x in keys <==> x == k || x in keys[1..];
      MembersOk(fs, keys[1..]);
      assert k in Keys(fs);
      var j :| 0 <= j < |fs| && Keys(fs)[j] == k;
      LookupMember(fs, j);
      var x := fs[j].val;
      assert x < fs[j];
      StringifyOk(x);
    }
  }

  /** Property insertion order does not matter, at any depth: equivalent values encode identically. */
  lemma {:induction false} StringifyEquivalent(a: Value, b: Value)
    requires Equivalent(a, b)
    ensures Stringify(a) == Stringify(b)
    decreases a, 2
  {
    match a {
      case Arr(xs) =>
        ItemsEquivalent(xs, b.items);
      case Obj(fs) =>
        ObjectEquivalent(fs, b.fields);
      case Foreign(fs) =>
        ObjectEquivalent(fs, b.fields);
      case _ =>
    }
  }

  lemma {:induction false} ItemsEquivalent(xs: seq<Value>, ys: seq<Value>)
    requires |xs| == |ys| && forall i :: 0 <= i < |xs| ==> Equivalent(xs[i], ys[i])
    ensures StringifyItems(xs) == StringifyItems(ys)
    decreases xs, 1
  {
    if xs != [] {
      StringifyEquivalent(xs[0], ys[0]);
      ItemsEquivalent(xs[1..], ys[1..]);
    }
  }

  lemma ObjectEquivalent(fs: seq<Member>, gs: seq<Member>)
    requires SameMembers(fs, gs)
    ensures ObjectText(fs) == ObjectText(gs)
    decreases fs, 1
  {
    SortStringsPermutation(Keys(fs), Keys(gs));
    var keys := SortStrings(Keys(fs));
    SortedKeys(fs);
    SameValuesSub(fs, gs, Keys(fs), keys);
    MembersEquivalent(fs, gs, keys);
  }



  lemma {:induction false} MembersEquivalent(fs: seq<Member>, gs: seq<Member>, keys: seq<string>)
    requires SameValues(fs, gs, keys)
    ensures MembersText(fs, keys) == MembersText(gs, keys)
    decreases fs, 0, |keys|
  {
    if keys != [] {
      MembersEquivalent(fs, gs, keys[1..]);
      match Lookup(fs, keys[0]) {
        case None =>
        case Some(x) =>
          StringifyEquivalent(x, Lookup(gs, keys[0]).value);
      }
    }
  }

  /**
   * The trailing comma: in `{k1: x, k2: undefined}` with `k1` before `k2`, the comma after the
   * first member is written because `k1` is not the last sorted key, and dropping `k2` leaves it
   * in place, since the fix-up only removes a comma that precedes `}`.
   */
  lemma TrailingComma(k1: string, k2: string, x: Value, text: string)
    requires StrLe(k1, k2) && k1 != k2
    requires !x.Undef? && Stringify(x) == Ok(text)
    ensures Stringify(Obj([Member(k1, x), Member(k2, Undef)])) == Ok("{" + JsonQuote(k1) + ":" + text + ",}")
  {
    var fs := [Member(k1, x), Member(k2, Undef)];
    var body := JsonQuote(k1) + ":" + text + ",";
    TwoMembers(fs, body, text);
    PatchOnlyBrace("{" + body);
    BracedMember(JsonQuote(k1), text);
  }

  lemma BracedMember(name: string, text: string)
    ensures "{" + (name + ":" + text + ",") + "}" == "{" + name + ":" + text + ",}"
  {
  }

  lemma TwoMembers(fs: seq<Member>, body: string, text: string)
    requires |fs| == 2 && StrLe(fs[0].key, fs[1].key) && fs[0].key != fs[1].key
    requires !fs[0].val.Undef? && Stringify(fs[0].val) == Ok(text) && fs[1].val.Undef?
    requires body == JsonQuote(fs[0].key) + ":" + text + ","
    ensures ObjectText(fs) == Ok(Patch("{" + body) + "}")
  {
    var keys := [fs[0].key, fs[1].key];
    TwoKeys(fs);
    assert SortedBy(keys, Ident);
    SortBySortedInput(keys, Ident);
    TwoMembersText(fs, keys, body, text);
    ObjectTextOf(fs, body);
  }

  lemma TwoKeys(fs: seq<Member>)
    requires |fs| == 2
    ensures Keys(fs) == [fs[0].key, fs[1].key]
  {
  }

  lemma TwoMembersText(fs: seq<Member>, keys: seq<string>, body: string, text: string)
    requires |fs| == 2 && keys == [fs[0].key, fs[1].key] && fs[0].key != fs[1].key
    requires !fs[0].val.Undef? && Stringify(fs[0].val) == Ok(text) && fs[1].val.Undef?
    requires body == JsonQuote(fs[0].key) + ":" + text + ","
    ensures MembersText(fs, keys) == Ok(body)
  {
    assert keys[1..] == [fs[1].key];
    assert MembersText(fs, keys[1..]) == Ok("") by {
      assert keys[1..][1..] == [];
    }
    MembersTextMember(fs, keys, fs[0].val, text);
    assert body + "" == body;
  }

  lemma ObjectTextOf(fs: seq<Member>, body: string)
    requires MembersText(fs, SortStrings(Keys(fs))) == Ok(body)
    ensures ObjectText(fs) == Ok(Patch("{" + body) + "}")
  {
  }

  /**
   * The same object one level down: the enclosing object's fix-up sees the inner `,}` at the end
   * of its own text and removes that comma, so `{k: {k1: x, k2: undefined}}` encodes cleanly.
   */
  lemma NestedTrailingComma(k: string, k1: string, k2: string, x: Value, text: string)
    requires StrLe(k1, k2) && k1 != k2
    requires !x.Undef? && Stringify(x) == Ok(text)
    ensures Stringify(Obj([Member(k, Obj([Member(k1, x), Member(k2, Undef)]))])) ==
      Ok("{" + JsonQuote(k) + ":{" + JsonQuote(k1) + ":" + text + "}}")
  {
    var inner := Obj([Member(k1, x), Member(k2, Undef)]);
    var innerText := "{" + JsonQuote(k1) + ":" + text + ",}";
    TrailingComma(k1, k2, x, text);
    var member := JsonQuote(k) + ":" + innerText;
    OneMember([Member(k, inner)], member, innerText);
    var kept := "{" + JsonQuote(k) + ":{" + JsonQuote(k1) + ":" + text;
    NestedText(JsonQuote(k), JsonQuote(k1), text);
    PatchComma(kept);
  }

  lemma NestedText(a: string, b: string, c: string)
    ensures "{" + (a + ":" + ("{" + b + ":" + c + ",}")) == ("{" + a + ":{" + b + ":" + c) + ",}"
    ensures ("{" + a + ":{" + b + ":" + c) + "}" + "}" == "{" + a + ":{" + b + ":" + c + "}}"
  {
  }

  lemma OneMember(fs: seq<Member>, member: string, text: string)
    requires |fs| == 1 && !fs[0].val.Undef? && Stringify(fs[0].val) == Ok(text)
    requires member == JsonQuote(fs[0].key) + ":" + text
    ensures ObjectText(fs) == Ok(Patch("{" + member) + "}")
  {
    var keys := [fs[0].key];
    assert Keys(fs) == keys;
    SortByShort(keys, Ident);
    assert keys[1..] == [];
    MembersTextMember(fs, keys, fs[0].val, text);
    assert member + "" + "" == member;
  }

  /** The fix-up removes the comma of a final `,}`. */
  lemma PatchComma(kept: string)
    ensures Patch(kept + ",}") == kept + "}"
  {
    var s := kept + ",}";
    assert s[|s| - 2..] == ",}";
    assert s[..|s| - 2] == kept;
  }

  /** The fix-up changes nothing unless the text ends with `}`. */
  lemma PatchOnlyBrace(s: string)
    requires s != [] && s[|s| - 1] != '}'
    ensures Patch(s) == s
  {
    if |s| >= 2 {
      assert s[|s| - 2..][1] == s[|s| - 1];
    }
  }
}
