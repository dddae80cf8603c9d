/**
 * The expression ABI: a versioned envelope that binds a compiled expression to the symbol
 * table of the library, the normalised policy it was checked against, and its tree.
 *
 * Each part is hashed as the SHA-256 of its `stableStringify` text. SHA-256 itself is a
 * parameter `h` here, about which nothing is assumed.
 */
module AbiV1 {
  import opened Wrappers
  import opened Errors
  import opened JsValue
  import opened JsSort
  import opened StableStringify
  import opened Ast
  import opened Emitter
  import opened Policy
  import opened SymbolTableV1

  /** `SCXQ2_ES_ABI_V1`: the identity of the ABI. */
  const Identity: seq<Member> := [
    Member("abi", Str("scxq2->es_painless")),
    Member("abi_version", Num(Int(1))),
    Member("target", Str("es_painless")),
    Member("target_version_major", Num(Int(1)))
  ]

  /** `sha256Hex(stableStringify(v))`: the encoding's failure, or the hash of its text. */
  function HashOf(h: string -> string, v: Value): Result<string, Error>
  {
    var text :- Stringify(v);
    Ok(h(text))
  }

  /** The object `computeSymbolTableHash` hashes, given the allowed calls in sorted order. */
  function SymbolBinding(sortedCalls: seq<string>): Value
  {
    Obj([Member("symbol_table_v1", SymbolTable()), Member("allowed_calls", Arr(Strs(sortedCalls)))])
  }

  /** `Array.from(ALLOWED_CALLS).sort()`, as `SortedAllowedCallsOf` shows. */
  const SortedAllowedCalls: seq<string> :=
    ["abs", "ceil", "clamp", "exists", "floor", "log", "max", "min", "pow", "round", "sqrt", "v"]

  /** `computeSymbolTableHash()`. */
  function SymbolsHash(h: string -> string): Result<string, Error>
  {
    HashOf(h, SymbolBinding(SortedAllowedCalls))
  }

  /** `(x ?? []).slice().sort()`: a sorted copy of an array; a string or other value has no such methods. */
  function SortedCopy(x: Value): (r: Result<Value, Error>)
    ensures r.Ok? ==> r.value.Arr?
  {
    match NullishOr(x, Arr([]))
    case Arr(items) =>
      var sorted :- DefaultSort(items);
      Ok(Arr(sorted))
    case Str(_) => Err(TypeError("sort is not a function"))
    case _ => Err(TypeError("slice is not a function"))
  }

  /** The `norm` object of `computePolicyHash`. */
  function NormalizedPolicy(policy: Value): Result<Value, Error>
  {
    var maxDepth :- PropOf(policy, "maxDepth");
    var fields :- SortedCopy(Prop(policy, "fields"));
    var params :- SortedCopy(Prop(policy, "params"));
    Ok(Obj([Member("maxDepth", NullishOr(maxDepth, Num(Int(32)))), Member("fields", fields), Member("params", params)]))
  }

  /** `computePolicyHash(policy)`. */
  function PolicyHash(h: string -> string, policy: Value): Result<string, Error>
  {
    var norm :- NormalizedPolicy(policy);
    HashOf(h, norm)
  }

  /** `computeAstHash(ast)`. */
  function AstHash(h: string -> string, ast: Value): Result<string, Error>
  {
    HashOf(h, ast)
  }

  const EnvelopeKeys: seq<string> :=
    ["abi", "abi_version", "target", "target_version_major", "symbols_hash", "policy_hash", "ast_hash"]

  /** The envelope object: the identity constants followed by the three hashes. */
  function EnvelopeOf(symbols: string, policyHash: string, astHash: string): Value
  {
    Obj(Identity + [
      Member("symbols_hash", Str(symbols)), Member("policy_hash", Str(policyHash)), Member("ast_hash", Str(astHash))])
  }

  /** `computeAbiEnvelope({ ast, policy })`. */
  function Envelope(h: string -> string, ast: Value, policy: Value): (r: Result<Value, Error>)
    ensures r.Ok? ==> r.value.Obj?
  {
    var symbols := SymbolsHash(h);
    var policyHash := PolicyHash(h, policy);
    var astHash := AstHash(h, ast);
    if symbols.Err? then Err(symbols.error)
    else if policyHash.Err? then Err(policyHash.error)
    else if astHash.Err? then Err(astHash.error)
    else Ok(EnvelopeOf(symbols.value, policyHash.value, astHash.value))
  }

  /** `computeAbiHash(envelope)`. */
  function AbiHash(h: string -> string, envelope: Value): Result<string, Error>
  {
    HashOf(h, envelope)
  }

  /* ---------------- properties ---------------- */

  /** The envelope's property names are distinct. */
  lemma EnvelopeKeysUnique()
    ensures forall i, j :: 0 <= i < j < |EnvelopeKeys| ==> EnvelopeKeys[i] != EnvelopeKeys[j]
  {
  }

  /** The envelope's property names, in order, with the identity first. */
  lemma EnvelopeKeysOf(symbols: string, policyHash: string, astHash: string)
    ensures var e := EnvelopeOf(symbols, policyHash, astHash);
      Keys(e.fields) == EnvelopeKeys && e.fields[..4] == Identity
  {
    assert EnvelopeOf(symbols, policyHash, astHash).fields[..4] == Identity;
  }

  lemma SymbolsHashField(symbols: string, policyHash: string, astHash: string)
    ensures Prop(EnvelopeOf(symbols, policyHash, astHash), "symbols_hash") == Str(symbols)
  {
    var fs := EnvelopeOf(symbols, policyHash, astHash).fields;
    assert forall j :: 0 <= j < 4 ==> |fs[j].key| != |fs[4].key|;
    LookupFirst(fs, 4);
  }

  lemma PolicyHashField(symbols: string, policyHash: string, astHash: string)
    ensures Prop(EnvelopeOf(symbols, policyHash, astHash), "policy_hash") == Str(policyHash)
  {
    var fs := EnvelopeOf(symbols, policyHash, astHash).fields;
    assert forall j :: 0 <= j < 5 ==> |fs[j].key| != |fs[5].key| || fs[j].key[0] != fs[5].key[0];
    LookupFirst(fs, 5);
  }

  lemma AstHashField(symbols: string, policyHash: string, astHash: string)
    ensures Prop(EnvelopeOf(symbols, policyHash, astHash), "ast_hash") == Str(astHash)
  {
    var fs := EnvelopeOf(symbols, policyHash, astHash).fields;
    assert forall j :: 0 <= j < 6 ==> |fs[j].key| != |fs[6].key|;
    LookupFirst(fs, 6);
  }

  /**
   * The envelope holds the identity constants, then the three hashes, and nothing else; it is
   * built exactly when the policy and the tree can be hashed.
   */
  lemma EnvelopeShape(h: string -> string, ast: Value, policy: Value)
    ensures var r := Envelope(h, ast, policy);
      && (r.Ok? <==> PolicyHash(h, policy).Ok? && AstHash(h, ast).Ok?)
      && (r.Ok? ==> r.value.Obj? && Keys(r.value.fields) == EnvelopeKeys && r.value.fields[..4] == Identity)
      && (r.Ok? ==>
            && Prop(r.value, "symbols_hash") == Str(SymbolsHash(h).value)
            && Prop(r.value, "policy_hash") == Str(PolicyHash(h, policy).value)
            && Prop(r.value, "ast_hash") == Str(AstHash(h, ast).value))
  {
    SymbolsHashDefined(h);
    if PolicyHash(h, policy).Ok? && AstHash(h, ast).Ok? {
      EnvelopeKeysOf(SymbolsHash(h).value, PolicyHash(h, policy).value, AstHash(h, ast).value);
      var sh, ph, ah := SymbolsHash(h).value, PolicyHash(h, policy).value, AstHash(h, ast).value;
      SymbolsHashField(sh, ph, ah);
      PolicyHashField(sh, ph, ah);
      AstHashField(sh, ph, ah);
    }
  }

  /** The allowed calls are listed once each. */
  lemma AllowedCallsDistinct()
    ensures Distinct(AllowedCalls)
  {
  }

  lemma SortedAllowedCallsOrdered()
    ensures SortedBy(SortedAllowedCalls, Ident)
  {
    assert ChainSorted(SortedAllowedCalls);
    ChainIsSorted(SortedAllowedCalls);
  }

  lemma SortedAllowedCallsAreAllowed(calls: seq<string>)
    requires forall x :: x in calls <==> x in AllowedCalls
    ensures Distinct(SortedAllowedCalls)
    ensures forall x :: x in calls <==> x in SortedAllowedCalls
  {
    forall x
      ensures x in AllowedCalls <==> x in SortedAllowedCalls
    {
      AllowedCallsAreLowered(x);
    }
  }

  /**
   * Sorting the allowed calls, enumerated in any order, gives the list the symbol-table hash
   * is taken over: the hash does not depend on the set's iteration order.
   */
  lemma SortedAllowedCallsOf(calls: seq<string>)
    requires Distinct(calls) && forall x :: x in calls <==> x in AllowedCalls
    ensures SortStrings(calls) == SortedAllowedCalls
  {
    SortedAllowedCallsAreAllowed(calls);
    DistinctSameElements(calls, SortedAllowedCalls);
    SortBySorted(calls, Ident);
    SortByPermutes(calls, Ident);
    SortedAllowedCallsOrdered();
    SortedStringsUnique(SortStrings(calls), SortedAllowedCalls);
  }

  /** The binding encodes whatever list of names it holds. */
  lemma BindingEncodable(sortedCalls: seq<string>)
    ensures WellFormed(SymbolBinding(sortedCalls)) && Encodable(SymbolBinding(sortedCalls))
  {
    SymbolTableEncodable();
    var b := SymbolBinding(sortedCalls);
    assert b.fields[0].key != b.fields[1].key by { assert b.fields[0].key[0] != b.fields[1].key[0]; }
  }

  /** The symbol-table hash is always defined: the table and the sorted call list encode. */
  lemma SymbolsHashDefined(h: string -> string)
    ensures SymbolsHash(h).Ok?
  {
    BindingEncodable(SortedAllowedCalls);
    StringifyOk(SymbolBinding(SortedAllowedCalls));
  }

  /** The policy object the compiler and the verifier build from their options. */
  function PolicyObject(maxDepth: Value, fields: Value, params: Value): Value
  {
    Obj([Member("maxDepth", maxDepth), Member("fields", fields), Member("params", params)])
  }

  /** A policy with string allowlists normalises to the defaulted depth and the sorted lists. */
  lemma NormalizedStringPolicy(maxDepth: Value, fields: seq<string>, params: seq<string>)
    ensures NormalizedPolicy(PolicyObject(maxDepth, Arr(Strs(fields)), Arr(Strs(params))))
         == Ok(PolicyObject(NullishOr(maxDepth, Num(Int(32))), Arr(Strs(SortStrings(fields))), Arr(Strs(SortStrings(params)))))
  {
    PolicyProps(maxDepth, Arr(Strs(fields)), Arr(Strs(params)));
    SortedCopyStrings(fields);
    SortedCopyStrings(params);
  }

  lemma SortedCopyStrings(xs: seq<string>)
    ensures SortedCopy(Arr(Strs(xs))) == Ok(Arr(Strs(SortStrings(xs))))
  {
    DefaultSortStrings(xs);
  }

  /** The policy hash does not depend on the order of the field and parameter allowlists. */
  lemma PolicyHashPermutation(h: string -> string, maxDepth: Value, f1: seq<string>, f2: seq<string>,
                              p1: seq<string>, p2: seq<string>)
    requires multiset(f1) == multiset(f2) && multiset(p1) == multiset(p2)
    ensures PolicyHash(h, PolicyObject(maxDepth, Arr(Strs(f1)), Arr(Strs(p1))))
         == PolicyHash(h, PolicyObject(maxDepth, Arr(Strs(f2)), Arr(Strs(p2))))
  {
    PolicyHashOfStrings(h, maxDepth, f1, p1);
    PolicyHashOfStrings(h, maxDepth, f2, p2);
    SortStringsPermutation(f1, f2);
    SortStringsPermutation(p1, p2);
  }

  lemma PolicyHashOfStrings(h: string -> string, maxDepth: Value, fields: seq<string>, params: seq<string>)
    ensures PolicyHash(h, PolicyObject(maxDepth, Arr(Strs(fields)), Arr(Strs(params))))
         == HashOf(h, PolicyObject(NullishOr(maxDepth, Num(Int(32))), Arr(Strs(SortStrings(fields))), Arr(Strs(SortStrings(params)))))
  {
    NormalizedStringPolicy(maxDepth, fields, params);
  }

  lemma PolicyProps(maxDepth: Value, fields: Value, params: Value)
    ensures var p := PolicyObject(maxDepth, fields, params);
      Prop(p, "maxDepth") == maxDepth && Prop(p, "fields") == fields && Prop(p, "params") == params
  {
    var fs := PolicyObject(maxDepth, fields, params).fields;
    LookupFirst(fs, 0);
    assert |fs[0].key| != |fs[1].key|;
    LookupFirst(fs, 1);
    assert |fs[0].key| != |fs[2].key| && fs[1].key[0] != fs[2].key[0];
    LookupFirst(fs, 2);
  }

  /** A missing `maxDepth` hashes as 32. */
  lemma PolicyHashDefaultDepth(h: string -> string, maxDepth: Value, fields: Value, params: Value)
    requires IsNullish(maxDepth)
    ensures PolicyHash(h, PolicyObject(maxDepth, fields, params))
         == PolicyHash(h, PolicyObject(Num(Int(32)), fields, params))
  {
    PolicyProps(maxDepth, fields, params);
    PolicyProps(Num(Int(32)), fields, params);
  }

  /** The normalised policy is the defaulted depth and sorted copies of the two allowlists. */
  lemma NormalizedPolicyParts(policy: Value)
    requires NormalizedPolicy(policy).Ok?
    ensures SortedCopy(Prop(policy, "fields")).Ok? && SortedCopy(Prop(policy, "params")).Ok?
    ensures NormalizedPolicy(policy).value == PolicyObject(NullishOr(Prop(policy, "maxDepth"), Num(Int(32))),
      SortedCopy(Prop(policy, "fields")).value, SortedCopy(Prop(policy, "params")).value)
  {
  }

  /**
   * A sorted copy of an array is a rearrangement of it: the defined elements first, ordered by
   * their string forms, then the undefined ones.
   */
  lemma SortedCopyOrdered(x: Value)
    requires x.Arr? && SortedCopy(x).Ok?
    ensures var list := SortedCopy(x).value.items;
      var k := |Defined(x.items)|;
      && multiset(list) == multiset(x.items)
      && k <= |list| && NoUndef(list[..k]) && SortedBy(list[..k], KeyOf)
      && forall i :: k <= i < |list| ==> list[i].Undef?
  {
    DefaultSortOrdered(x.items);
  }

  /** Trees that differ only in property order hash identically. */
  lemma AstHashEquivalent(h: string -> string, a: Value, b: Value)
    requires Equivalent(a, b)
    ensures AstHash(h, a) == AstHash(h, b)
  {
    StringifyEquivalent(a, b);
  }

  /**
   * The envelope and its hash are determined by the tree up to property order and by the
   * policy up to the order of its allowlists.
   */
  lemma EnvelopeDeterministic(h: string -> string, a: Value, b: Value, maxDepth: Value,
                              f1: seq<string>, f2: seq<string>, p1: seq<string>, p2: seq<string>)
    requires Equivalent(a, b)
    requires multiset(f1) == multiset(f2) && multiset(p1) == multiset(p2)
    ensures var e1 := Envelope(h, a, PolicyObject(maxDepth, Arr(Strs(f1)), Arr(Strs(p1))));
      var e2 := Envelope(h, b, PolicyObject(maxDepth, Arr(Strs(f2)), Arr(Strs(p2))));
      e1 == e2 && (e1.Ok? ==> AbiHash(h, e1.value) == AbiHash(h, e2.value))
  {
    AstHashEquivalent(h, a, b);
    PolicyHashPermutation(h, maxDepth, f1, f2, p1, p2);
    EnvelopeCongruent(h, a, b, PolicyObject(maxDepth, Arr(Strs(f1)), Arr(Strs(p1))),
      PolicyObject(maxDepth, Arr(Strs(f2)), Arr(Strs(p2))));
  }

  /** The envelope depends on the tree and the policy only through their hashes. */
  lemma EnvelopeCongruent(h: string -> string, a: Value, b: Value, p: Value, q: Value)
    requires AstHash(h, a) == AstHash(h, b) && PolicyHash(h, p) == PolicyHash(h, q)
    ensures Envelope(h, a, p) == Envelope(h, b, q)
  {
  }

  /** An object with distinct property names whose values encode (or are skipped) encodes. */
  lemma ObjectEncodable(fs: seq<Member>)
    requires UniqueKeys(fs)
    requires forall i :: 0 <= i < |fs| ==> WellFormed(fs[i].val) && (fs[i].val.Undef? || Encodable(fs[i].val))
    ensures WellFormed(Obj(fs)) && Encodable(Obj(fs))
  {
  }

  /** The property names of a tree node are distinct. */
  lemma AstKeysUnique(n: Node)
    ensures UniqueKeys(AstToValue(n).fields)
  {
    var fs := AstToValue(n).fields;
    forall i, j | 0 <= i < j < |fs|
      ensures fs[i].key != fs[j].key
    {
      assert fs[i].key[0] != fs[j].key[0] || |fs[i].key| != |fs[j].key| || fs[i].key[1] != fs[j].key[1];
    }
  }

  /** Every parsed tree encodes, so its hash is defined. */
  lemma {:induction false} AstEncodable(n: Node)
    ensures WellFormed(AstToValue(n)) && Encodable(AstToValue(n))
    decreases n, 1
  {
    match n {
    case Unary(op, e) =>
      AstEncodable(e);
      UnaryEncodable(op, AstToValue(e));
    case Bin(op, l, r) =>
      AstEncodable(l);
      AstEncodable(r);
      BinEncodable(op, AstToValue(l), AstToValue(r));
    case Ternary(c, t, e) =>
      AstEncodable(c);
      AstEncodable(t);
      AstEncodable(e);
      TernaryEncodable(AstToValue(c), AstToValue(t), AstToValue(e));
    case Coalesce(l, r) =>
      AstEncodable(l);
      AstEncodable(r);
      CoalesceEncodable(AstToValue(l), AstToValue(r));
    case Call(name, args) =>
      ArgsEncodable(args);
      CallEncodable(name, ArgsToValues(args));
    case _ =>
      AstKeysUnique(n);
      ObjectEncodable(AstToValue(n).fields);
    }
  }

  lemma UnaryEncodable(op: string, e: Value)
    requires WellFormed(e) && Encodable(e)
    ensures var v := Obj([Kind("unary"), Member("op", Str(op)), Member("expr", e)]);
      WellFormed(v) && Encodable(v)
  {
  }

  lemma BinEncodable(op: string, l: Value, r: Value)
    requires WellFormed(l) && Encodable(l) && WellFormed(r) && Encodable(r)
    ensures var v := Obj([Kind("bin"), Member("op", Str(op)), Member("left", l), Member("right", r)]);
      WellFormed(v) && Encodable(v)
  {
  }

  lemma TernaryEncodable(c: Value, t: Value, e: Value)
    requires WellFormed(c) && Encodable(c) && WellFormed(t) && Encodable(t) && WellFormed(e) && Encodable(e)
    ensures var v := Obj([Kind("ternary"), Member("cond", c), Member("then", t), Member("else", e)]);
      WellFormed(v) && Encodable(v)
  {
  }

  lemma CoalesceEncodable(l: Value, r: Value)
    requires WellFormed(l) && Encodable(l) && WellFormed(r) && Encodable(r)
    ensures var v := Obj([Kind("coalesce"), Member("left", l), Member("right", r)]);
      WellFormed(v) && Encodable(v)
  {
  }

  lemma CallEncodable(name: string, vs: seq<Value>)
    requires forall i :: 0 <= i < |vs| ==> WellFormed(vs[i]) && Encodable(vs[i])
    ensures var v := Obj([Kind("call"), Member("name", Str(name)), Member("args", Arr(vs))]);
      WellFormed(v) && Encodable(v)
  {
  }

  lemma {:induction false} ArgsEncodable(args: seq<Node>)
    ensures forall i :: 0 <= i < |args| ==> WellFormed(AstToValue(args[i])) && Encodable(AstToValue(args[i]))
    decreases args, 0
  {
    forall i | 0 <= i < |args|
      ensures WellFormed(AstToValue(args[i])) && Encodable(AstToValue(args[i]))
    {
      AstEncodable(args[i]);
    }
  }

  lemma AstHashDefined(h: string -> string, n: Node)
    ensures AstHash(h, AstToValue(n)).Ok?
  {
    AstEncodable(n);
    StringifyOk(AstToValue(n));
  }

  /** A built envelope always encodes, so its hash is defined. */
  lemma AbiHashDefined(h: string -> string, ast: Value, policy: Value)
    requires Envelope(h, ast, policy).Ok?
    ensures AbiHash(h, Envelope(h, ast, policy).value).Ok?
  {
    var e := Envelope(h, ast, policy).value;
    assert e == EnvelopeOf(SymbolsHash(h).value, PolicyHash(h, policy).value, AstHash(h, ast).value);
    EnvelopeEncodable(SymbolsHash(h).value, PolicyHash(h, policy).value, AstHash(h, ast).value);
    StringifyOk(e);
  }

  lemma EnvelopeEncodable(symbols: string, policyHash: string, astHash: string)
    ensures WellFormed(EnvelopeOf(symbols, policyHash, astHash)) && Encodable(EnvelopeOf(symbols, policyHash, astHash))
  {
    var fs := EnvelopeOf(symbols, policyHash, astHash).fields;
    EnvelopeKeysOf(symbols, policyHash, astHash);
    EnvelopeKeysUnique();
    assert UniqueKeys(fs) by {
      forall a, b | 0 <= a < b < |fs|
        ensures fs[a].key != fs[b].key
      {
        assert Keys(fs)[a] == fs[a].key && Keys(fs)[b] == fs[b].key;
      }
    }
    FlatEncodable(fs);
  }
}
