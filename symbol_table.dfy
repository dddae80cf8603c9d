/**
 * `SYMBOL_TABLE_V1`: the declarative table of operator spellings and call templates that the
 * expression ABI hashes, so that a change to the lowering changes every ABI hash.
 */
module SymbolTableV1 {
  import opened Wrappers
  import opened JsValue
  import opened StableStringify
  import opened Emitter
  import opened Policy

  /** The `ops` part of the symbol table: the spelling each operator lowers to. */
  const Ops: seq<Member> := [
    Member("or", Str("||")), Member("and", Str("&&")), Member("not", Str("!")),
    Member("ternary", Str("?:")), Member("add", Str("+")), Member("sub", Str("-")),
    Member("mul", Str("*")), Member("div", Str("/")), Member("mod", Str("%"))
  ]

  /** One entry of the `calls` part of the symbol table. */
  datatype CallSymbol = CallSymbol(name: string, arityMin: nat, arityMax: nat, signature: string, lowersTo: string)

  const CallSymbols: seq<CallSymbol> := [
    CallSymbol("v", 1, 2, "@v(fieldName[, default])",
      "(doc.containsKey(field) && !doc[field].empty ? doc[field].value : default)"),
    CallSymbol("exists", 1, 1, "@exists(fieldName)", "(doc.containsKey(field) && !doc[field].empty)"),
    CallSymbol("clamp", 3, 3, "@clamp(x, lo, hi)", "Math.min(hi, Math.max(lo, x))"),
    CallSymbol("min", 2, 2, "@min(a,b)", "Math.min(a,b)"),
    CallSymbol("max", 2, 2, "@max(a,b)", "Math.max(a,b)"),
    CallSymbol("abs", 1, 1, "@abs(x)", "Math.abs(x)"),
    CallSymbol("floor", 1, 1, "@floor(x)", "Math.floor(x)"),
    CallSymbol("ceil", 1, 1, "@ceil(x)", "Math.ceil(x)"),
    CallSymbol("round", 1, 1, "@round(x)", "Math.round(x)"),
    CallSymbol("log", 1, 1, "@log(x)", "Math.log(x)"),
    CallSymbol("sqrt", 1, 1, "@sqrt(x)", "Math.sqrt(x)"),
    CallSymbol("pow", 2, 2, "@pow(a,b)", "Math.pow(a,b)")
  ]

  function CallEntry(c: CallSymbol): Member
  {
    Member(c.name, Obj([
      Member("arity_min", Num(Int(c.arityMin))),
      Member("arity_max", Num(Int(c.arityMax))),
      Member("signature", Str(c.signature)),
      Member("lowers_to", Str(c.lowersTo))]))
  }

  function CallEntries(cs: seq<CallSymbol>): (r: seq<Member>)
    ensures |r| == |cs| && forall i :: 0 <= i < |cs| ==> r[i] == CallEntry(cs[i])
  {
    seq(|cs|, i requires 0 <= i < |cs| => CallEntry(cs[i]))
  }

  /** `SYMBOL_TABLE_V1`. */
  function SymbolTable(): Value
  {
    Obj([Member("ops", Obj(Ops)), Member("calls", Obj(CallEntries(CallSymbols)))])
  }

  /** The arity bounds the symbol table declares for `name`, read back from its object form. */
  function DeclaredArity(name: string): Option<(nat, nat)>
  {
    match Lookup(CallEntries(CallSymbols), name)
    case None => None
    case Some(entry) =>
      var lo := Prop(entry, "arity_min");
      var hi := Prop(entry, "arity_max");
      if lo.Num? && lo.n.Int? && lo.n.i >= 0 && hi.Num? && hi.n.Int? && hi.n.i >= 0
      then Some((lo.n.i as nat, hi.n.i as nat)) else None
  }

  /** The entries are listed in the order of the policy's allowed calls. */
  lemma CallSymbolNames()
    ensures |CallSymbols| == |AllowedCalls|
    ensures forall i :: 0 <= i < |CallSymbols| ==> CallSymbols[i].name == AllowedCalls[i]
  {
  }

  lemma CallSymbolArity(i: nat)
    requires i < |CallSymbols|
    ensures Arity(CallSymbols[i].name) == Some((CallSymbols[i].arityMin, CallSymbols[i].arityMax))
  {
  }

  /** An entry's object form declares the entry's bounds. */
  lemma EntryBounds(c: CallSymbol)
    ensures Prop(CallEntry(c).val, "arity_min") == Num(Int(c.arityMin))
    ensures Prop(CallEntry(c).val, "arity_max") == Num(Int(c.arityMax))
  {
    var fs := CallEntry(c).val.fields;
    LookupFirst(fs, 0);
    assert fs[0].key[7] != fs[1].key[7];
    LookupFirst(fs, 1);
  }

  /** The symbol table declares, for every name, exactly the arity bounds the emitter enforces. */
  lemma DeclaredArityIsEmitterArity(name: string)
    ensures DeclaredArity(name) == Arity(name)
  {
    var es := CallEntries(CallSymbols);
    CallSymbolNames();
    match Lookup(es, name)
    case None =>
      assert name !in AllowedCalls;
      AllowedCallsAreLowered(name);
    case Some(entry) =>
      var i :| 0 <= i < |es| && es[i] == Member(name, entry);
      EntryBounds(CallSymbols[i]);
      CallSymbolArity(i);
  }

  /** An object whose property values are all strings or finite numbers, under distinct names, encodes. */
  lemma FlatEncodable(fs: seq<Member>)
    requires UniqueKeys(fs)
    requires forall i :: 0 <= i < |fs| ==> fs[i].val.Str? || (fs[i].val.Num? && fs[i].val.n.Int?)
    ensures WellFormed(Obj(fs)) && Encodable(Obj(fs))
  {
  }

  /** The call entries are objects of strings and integers under four distinct names. */
  lemma EntriesEncodable()
    ensures var es := CallEntries(CallSymbols);
      forall i :: 0 <= i < |es| ==> WellFormed(es[i].val) && Encodable(es[i].val)
  {
    var es := CallEntries(CallSymbols);
    forall i | 0 <= i < |es|
      ensures WellFormed(es[i].val) && Encodable(es[i].val)
    {
      FlatEncodable(es[i].val.fields);
    }
  }

  /** The call entries are named after the allowed calls, which are distinct. */
  lemma EntriesUnique()
    ensures UniqueKeys(CallEntries(CallSymbols))
  {
    var es := CallEntries(CallSymbols);
    CallSymbolNames();
    forall a, b | 0 <= a < b < |es|
      ensures es[a].key != es[b].key
    {
      assert es[a].key == AllowedCalls[a] && es[b].key == AllowedCalls[b];
    }
  }

  lemma SymbolTableEncodable()
    ensures WellFormed(SymbolTable()) && Encodable(SymbolTable())
  {
    FlatEncodable(Ops);
    EntriesEncodable();
    EntriesUnique();
  }
}
