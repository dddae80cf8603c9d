/**
 * The KUHUL bridge: pick the SCXQ2 source out of one of a few accepted input shapes and route
 * it to the one known target, the Painless compiler.
 */
module KuhulAdapter {
  import opened Wrappers
  import opened Errors
  import opened JsValue
  import opened Ast
  import opened AbiV1
  import opened Compiler

  /** An entry of `KUHUL_ES_TARGETS`. */
  datatype TargetDescriptor = TargetDescriptor(id: string, abi: string, versionMajor: nat)

  /** `KUHUL_ES_TARGETS`: a frozen table with a single target. */
  const Targets: map<string, TargetDescriptor> :=
    map["es_painless" := TargetDescriptor("es_painless", "scxq2->es_painless", 1)]

  /**
   * `KUHUL_ES_TARGETS[key]` is truthy. The table is an ordinary object, so the members it
   * inherits from `Object.prototype` are found too.
   */
  predicate TargetKnown(key: string)
  {
    key in Targets || key in ObjectPrototypeKeys
  }

  /**
   * The target check of `kuhulToTarget`. A symbol is never a key of the table, and the message
   * that reports it cannot be built; any other id is looked up by its string form.
   */
  function CheckTarget(targetId: Value): (r: Option<Error>)
    ensures r.None? <==> !targetId.Sym? && ToJsString(targetId).Ok? && TargetKnown(ToJsString(targetId).value)
    ensures targetId.Str? ==> (r.None? <==> TargetKnown(targetId.s))
    ensures targetId.Str? && !TargetKnown(targetId.s) ==> r == Some(UnknownTarget(targetId.s))
  {
    if targetId.Sym? then Some(TypeError("Cannot convert a Symbol value to a string"))
    else
      match ToJsString(targetId)
      case Err(e) => Some(e)
      case Ok(key) => if TargetKnown(key) then None else Some(UnknownTarget(key))
  }

  /** The candidate fields of an object input, in the order they are tried. */
  function Candidates(input: Value): (vs: seq<Value>)
    ensures |vs| == 5
  {
    var script := Prop(input, "script");
    [Prop(input, "source"), Prop(input, "scxq2"), Prop(input, "@scxq2"),
     if Truthy(script) then Prop(script, "source") else Undef,
     Prop(input, "body")]
  }

  /** The first string among `vs`. */
  function FirstString(vs: seq<Value>): (r: Option<string>)
    ensures r.None? <==> forall i :: 0 <= i < |vs| ==> !vs[i].Str?
    ensures r.Some? ==> exists i :: 0 <= i < |vs| && vs[i] == Str(r.value) && forall j :: 0 <= j < i ==> !vs[j].Str?
  {
    if vs == [] then None
    else if vs[0].Str? then Some(vs[0].s)
    else
      var r := FirstString(vs[1..]);
      assert r.Some? ==> exists i :: 0 <= i < |vs[1..]| && vs[1..][i] == Str(r.value) && forall j :: 0 <= j < i ==> !vs[1..][j].Str?;
      assert r.Some? ==> exists i :: 0 <= i < |vs| && vs[i] == Str(r.value) && forall j :: 0 <= j < i ==> !vs[j].Str? by {
        if r.Some? {
          var i :| 0 <= i < |vs[1..]| && vs[1..][i] == Str(r.value) && forall j :: 0 <= j < i ==> !vs[1..][j].Str?;
          assert vs[i + 1] == Str(r.value);
          assert forall j :: 0 <= j < i + 1 ==> !vs[j].Str? by {
            forall j | 0 <= j < i + 1 ensures !vs[j].Str? {
              if j > 0 { assert vs[j] == vs[1..][j - 1]; }
            }
          }
        }
      }
      r
  }

  /** `extractScxSource(input)`. */
  function ExtractSource(input: Value): (r: Result<string, Error>)
    ensures input.Str? ==> r == Ok(input.s)
    ensures !input.Str? && !IsObject(input) ==> r == Err(InputNotStringOrObject)
    ensures r.Err? ==> r == Err(InputNotStringOrObject) || r == Err(SourceNotFound)
  {
    if input.Str? then Ok(input.s)
    else if !Truthy(input) || TypeOf(input) != "object" then Err(InputNotStringOrObject)
    else if Prop(input, "source").Str? then Ok(Prop(input, "source").s)
    else if Prop(input, "scxq2").Str? then Ok(Prop(input, "scxq2").s)
    else if Prop(input, "@scxq2").Str? then Ok(Prop(input, "@scxq2").s)
    else if Truthy(Prop(input, "script")) && Prop(Prop(input, "script"), "source").Str? then
      Ok(Prop(Prop(input, "script"), "source").s)
    else if Prop(input, "body").Str? then Ok(Prop(input, "body").s)
    else Err(SourceNotFound)
  }

  /** The object `kuhulToTarget` returns. */
  datatype Routed = Routed(target: Value, painless: string, ast: Node, abi: Option<Abi>)

  /** `kuhulToTarget(targetId, input, opts)`. */
  function KuhulToTarget(h: string -> string, targetId: Value, input: Value, opts: Value): Result<Routed, Error>
  {
    match CheckTarget(targetId)
    case Some(e) => Err(e)
    case None =>
      var scx :- ExtractSource(input);
      var out :- CompilePainless(h, scx, OptionsOf(opts));
      Ok(Routed(targetId, out.painless, out.ast, out.abi))
  }

  /** `{ target, painless, ast, abi: out.abi ?? null }`. */
  function RoutedValue(r: Routed): (v: Value)
    ensures v.Obj?
  {
    Obj([Member("target", r.target), Member("painless", Str(r.painless)), Member("ast", AstToValue(r.ast)),
         Member("abi", match r.abi case None => Null case Some(a) => AbiObject(a))])
  }

  /* ---------------- properties ---------------- */

  /** A non-string object input yields the first string among its candidate fields. */
  lemma ExtractSourcePriority(input: Value)
    requires IsObject(input)
    ensures ExtractSource(input) == match FirstString(Candidates(input))
                                    case None => Err(SourceNotFound)
                                    case Some(s) => Ok(s)
  {
    var script := Prop(input, "script");
    FirstOfFive(Prop(input, "source"), Prop(input, "scxq2"), Prop(input, "@scxq2"),
                if Truthy(script) then Prop(script, "source") else Undef, Prop(input, "body"));
  }

  lemma FirstOfFive(a: Value, b: Value, c: Value, d: Value, e: Value)
    ensures FirstString([a, b, c, d, e]) ==
      if a.Str? then Some(a.s) else if b.Str? then Some(b.s) else if c.Str? then Some(c.s)
      else if d.Str? then Some(d.s) else if e.Str? then Some(e.s) else None
  {
    assert [e][1..] == [];
    assert FirstString([e]) == if e.Str? then Some(e.s) else None;
    assert [d, e][1..] == [e];
    assert FirstString([d, e]) == if d.Str? then Some(d.s) else FirstString([e]);
    assert [c, d, e][1..] == [d, e];
    assert FirstString([c, d, e]) == if c.Str? then Some(c.s) else FirstString([d, e]);
    assert [b, c, d, e][1..] == [c, d, e];
    assert FirstString([b, c, d, e]) == if b.Str? then Some(b.s) else FirstString([c, d, e]);
    assert [a, b, c, d, e][1..] == [b, c, d, e];
  }

  /** A `source` string wins over every other shape. */
  lemma SourceFieldFirst(input: Value, s: string)
    requires IsObject(input) && Prop(input, "source") == Str(s)
    ensures ExtractSource(input) == Ok(s)
  {
  }

  /** `script.source` counts only when `script` is truthy and the earlier shapes are absent. */
  lemma ScriptSourceUsed(input: Value)
    requires IsObject(input)
    ensures ExtractSource(input).Ok? && ExtractSource(input).value == Prop(Prop(input, "script"), "source").s
      <== && !Prop(input, "source").Str? && !Prop(input, "scxq2").Str? && !Prop(input, "@scxq2").Str?
          && Truthy(Prop(input, "script")) && Prop(Prop(input, "script"), "source").Str?
  {
  }

  /** An unknown target is reported whatever the input and the options are. */
  lemma UnknownTargetFirst(h: string -> string, targetId: Value, input: Value, opts: Value, input': Value, opts': Value)
    requires CheckTarget(targetId).Some?
    ensures KuhulToTarget(h, targetId, input, opts) == KuhulToTarget(h, targetId, input', opts')
    ensures KuhulToTarget(h, targetId, input, opts) == Err(CheckTarget(targetId).value)
  {
  }

  /** `"es_painless"` is routed; so, through the prototype, is `"toString"`; `"es"` is not. */
  lemma TargetExamples()
    ensures CheckTarget(Str("es_painless")).None? && CheckTarget(Str("toString")).None?
    ensures CheckTarget(Str("es")) == Some(UnknownTarget("es"))
  {
  }

  /**
   * On a known target the adapter is the compiler applied to the extracted source: it succeeds
   * exactly when both succeed, and then carries the compiler's program, tree and ABI.
   */
  lemma AdapterIsCompiler(h: string -> string, targetId: Value, input: Value, opts: Value)
    requires CheckTarget(targetId).None?
    ensures var r := KuhulToTarget(h, targetId, input, opts);
      && (r.Ok? <==> ExtractSource(input).Ok? && CompilePainless(h, ExtractSource(input).value, opts).Ok?)
      && (r.Ok? ==>
            var c := CompilePainless(h, ExtractSource(input).value, opts).value;
            r.value == Routed(targetId, c.painless, c.ast, c.abi))
  {
    var scx := ExtractSource(input);
    if scx.Ok? {
      DefaultedOptions(h, scx.value, opts);
    }
  }

  /** The returned `abi` is `null` exactly when the compiler produced none, and is its ABI otherwise. */
  lemma AbiNullIff(r: Routed)
    ensures Prop(RoutedValue(r), "abi") == Null <==> r.abi.None?
    ensures r.abi.Some? ==> Prop(RoutedValue(r), "abi") == AbiObject(r.abi.value)
  {
    var fs := RoutedValue(r).fields;
    assert fs[3].key == "abi";
    LookupFirst(fs, 3);
  }

  /** The descriptor names the ABI and major version that the compiler's envelopes carry. */
  lemma DescriptorMatchesIdentity()
    ensures Prop(Obj(Identity), "abi") == Str(Targets["es_painless"].abi)
    ensures Prop(Obj(Identity), "target") == Str(Targets["es_painless"].id)
    ensures Prop(Obj(Identity), "target_version_major") == Num(Int(Targets["es_painless"].versionMajor))
  {
    assert Identity[0].key == "abi";
    LookupFirst(Identity, 0);
    assert Identity[2].key == "target";
    LookupFirst(Identity, 2);
    assert Identity[3].key == "target_version_major";
    LookupFirst(Identity, 3);
  }
}
