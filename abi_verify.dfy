/**
 * `verifyAbiResult` and `verifyGoldenVectors`: recompute the ABI envelope and hash of a compiled
 * result from its tree and the policy options, and compare them, field by field, with what the
 * result carries; then run a file of golden vectors through the compiler and the same check.
 */
module AbiVerifyV1 {
  import opened Wrappers
  import opened Errors
  import opened JsValue
  import opened JsJson
  import opened Ast
  import opened Policy
  import opened AbiV1
  import opened Compiler

  const GoldenFormat: string := "scxq2-es.golden.v1"

  /**
   * The error a failed check throws: its message interpolates the values in `shown`, left to
   * right, and converting one of them to a string (a symbol) throws first.
   */
  function Raise(e: Error, shown: seq<Value>): (r: Error)
    ensures (forall i :: 0 <= i < |shown| ==> ToJsString(shown[i]).Ok?) ==> r == e
    ensures r != e ==> exists i :: 0 <= i < |shown| && ToJsString(shown[i]) == Err(r)
  {
    if shown == [] then e
    else
      match ToJsString(shown[0])
      case Err(t) => t
      case Ok(_) => Raise(e, shown[1..])
  }

  /** A value interpolated into a message after `JSON.stringify`: undefined prints as such. */
  function ShownJson(s: Option<string>): string
  {
    match s
    case Some(t) => t
    case None => "undefined"
  }

  /** `verifyAbiResult(out, opts)`: the checks up to the recomputed envelope and hash. */
  function VerifyAbiResult(h: string -> string, out: Value, opts: Value): Result<bool, Error>
  {
    if !Truthy(out) || TypeOf(out) != "object" then Err(OutNotObject)
    else if !Truthy(Prop(out, "ast")) then Err(MissingAst)
    else
      var abi := Prop(out, "abi");
      if !Truthy(abi) || !Truthy(Prop(abi, "envelope")) || !Truthy(Prop(abi, "hash")) then Err(MissingAbi)
      else
        var o := OptionsOf(opts);
        if IsNullish(o) then Err(TypeError("Cannot read properties of null"))
        else Recompute(h, Prop(out, "ast"), abi, PolicyOf(o))
  }

  /** The envelope and hash recomputed from the carried tree and the policy, then compared. */
  function Recompute(h: string -> string, ast: Value, abi: Value, policy: Value): Result<bool, Error>
  {
    var env := Envelope(h, ast, policy);
    if env.Err? then Err(env.error)
    else
      var expected := AbiHash(h, env.value);
      if expected.Err? then Err(expected.error)
      else CompareAbi(h, Prop(abi, "envelope"), Prop(abi, "hash"), env.value, expected.value, policy)
  }

  /** The strict comparisons of `verifyAbiResult`, in the order it makes them: the hash first. */
  function CompareAbi(h: string -> string, gotEnv: Value, gotHash: Value, env: Value, expected: string,
                      policy: Value): Result<bool, Error>
  {
    if !StrictEq(gotHash, Str(expected)) then Err(Raise(AbiHashMismatch(expected), [gotHash]))
    else CompareEnvelope(h, gotEnv, env, policy)
  }

  /** Then the JSON texts of the carried and the recomputed envelopes. */
  function CompareEnvelope(h: string -> string, gotEnv: Value, env: Value, policy: Value): Result<bool, Error>
  {
    var a := JsonStringify(gotEnv);
    if a.Err? then Err(a.error)
    else
      var b := JsonStringify(env);
      if b.Err? then Err(b.error)
      else if a.value != b.value then Err(AbiEnvelopeMismatch(ShownJson(b.value)))
      else ComparePartHashes(h, gotEnv, policy)
  }

  /** Then the envelope's policy hash and symbol table hash against freshly computed ones. */
  function ComparePartHashes(h: string -> string, gotEnv: Value, policy: Value): Result<bool, Error>
  {
    var ph := PolicyHash(h, policy);
    if ph.Err? then Err(ph.error)
    else if !StrictEq(Prop(gotEnv, "policy_hash"), Str(ph.value)) then
      Err(Raise(PolicyHashMismatch(ph.value), [Prop(gotEnv, "policy_hash")]))
    else
      var sh := SymbolsHash(h);
      if sh.Err? then Err(sh.error)
      else if !StrictEq(Prop(gotEnv, "symbols_hash"), Str(sh.value)) then
        Err(Raise(SymbolsHashMismatch(sh.value), [Prop(gotEnv, "symbols_hash")]))
      else Ok(true)
  }

  /* ---------------- verifyGoldenVectors ---------------- */

  /** The error of a vector check: the message names the vector first, then the values in `shown`. */
  function VectorError(kind: string -> Error, v: Value, shown: seq<Value>): Error
  {
    match ToJsString(Prop(v, "name"))
    case Err(e) => e
    case Ok(name) => Raise(kind(name), shown)
  }

  /** `{ ...v.opts, includeAbi: true }`. */
  function VectorOptions(v: Value): (o: Value)
    ensures o.Obj? && Prop(o, "includeAbi") == Bool(true)
  {
    Obj(SetField(SpreadCopy(Prop(v, "opts")).fields, "includeAbi", Bool(true)))
  }

  /** One pass of the loop over `golden.vectors`. */
  function VectorResult(h: string -> string, v: Value): Result<bool, Error>
  {
    var scx := PropOf(v, "scx");
    if scx.Err? then Err(scx.error)
    else
      var out := CompileValue(h, scx.value, VectorOptions(v));
      if out.Err? then Err(out.error)
      else
        var checked := VerifyAbiResult(h, ToValue(out.value), Prop(v, "opts"));
        if checked.Err? then Err(checked.error)
        else CompareVector(v, ToValue(out.value))
  }

  /** The program text, then the hash, then the envelope text, against the vector's `expect`. */
  function CompareVector(v: Value, out: Value): Result<bool, Error>
  {
    var painless := PropOf(Prop(v, "expect"), "painless");
    if painless.Err? then Err(painless.error)
    else if !StrictEq(Prop(out, "painless"), painless.value) then
      Err(VectorError(n => VectorPainlessMismatch(n), v, [painless.value, Prop(out, "painless")]))
    else
      var expectAbi := PropOf(Prop(v, "expect"), "abi");
      if expectAbi.Err? then Err(expectAbi.error)
      else
        var hash := PropOf(expectAbi.value, "hash");
        if hash.Err? then Err(hash.error)
        else if !StrictEq(Prop(Prop(out, "abi"), "hash"), hash.value) then
          Err(VectorError(n => VectorHashMismatch(n), v, [hash.value, Prop(Prop(out, "abi"), "hash")]))
        else
          var got := JsonStringify(Prop(Prop(out, "abi"), "envelope"));
          if got.Err? then Err(got.error)
          else
            var expected := JsonStringify(Prop(expectAbi.value, "envelope"));
            if expected.Err? then Err(expected.error)
            else if got.value != expected.value then Err(VectorError(n => VectorEnvelopeMismatch(n), v, []))
            else Ok(true)
  }

  /** The loop body, as a function of the vector. */
  function VectorCheck(h: string -> string): Value -> Result<bool, Error>
  {
    v => VectorResult(h, v)
  }

  /** The `for ... of` loop: `check` runs on each element in order, and the first error stops it. */
  function CheckAll(check: Value -> Result<bool, Error>, vs: seq<Value>): Result<bool, Error>
  {
    if vs == [] then Ok(true)
    else
      var first := check(vs[0]);
      if first.Err? then Err(first.error)
      else CheckAll(check, vs[1..])
  }

  /** The checks on the golden file before the loop; they give the vectors to run. */
  function GoldenHeader(h: string -> string, golden: Value): Result<seq<Value>, Error>
  {
    if !Truthy(golden) || TypeOf(golden) != "object" then Err(GoldenNotObject)
    else if !StrictEq(Prop(golden, "format"), Str(GoldenFormat)) then Err(GoldenWrongFormat)
    else if !Prop(golden, "vectors").Arr? then Err(GoldenMissingVectors)
    else
      var current := SymbolsHash(h);
      if current.Err? then Err(current.error)
      else if !StrictEq(Prop(golden, "symbols_hash"), Str(current.value)) then
        Err(Raise(GoldenSymbolsMismatch(current.value), [Prop(golden, "symbols_hash")]))
      else Ok(Prop(golden, "vectors").items)
  }

  /** `verifyGoldenVectors(golden)`: the header checks, then every vector in order. */
  function VerifyGoldenVectors(h: string -> string, golden: Value): Result<bool, Error>
  {
    var vs := GoldenHeader(h, golden);
    if vs.Err? then Err(vs.error) else CheckAll(VectorCheck(h), vs.value)
  }

  /* ---------------- properties of verifyGoldenVectors ---------------- */

  /** The loop passes exactly when every element passes, and then it returns `true`. */
  lemma {:induction false} AllPass(check: Value -> Result<bool, Error>, vs: seq<Value>)
    ensures CheckAll(check, vs).Ok? <==> forall i :: 0 <= i < |vs| ==> check(vs[i]).Ok?
    ensures CheckAll(check, vs).Ok? ==> CheckAll(check, vs) == Ok(true)
    decreases |vs|
  {
    if vs != [] {
      AllPass(check, vs[1..]);
      assert forall i :: 1 <= i < |vs| ==> vs[i] == vs[1..][i - 1];
    }
  }

  /** The loop reports the error of the first element that fails. */
  lemma {:induction false} FirstFailure(check: Value -> Result<bool, Error>, vs: seq<Value>, k: nat)
    requires k < |vs| && check(vs[k]).Err?
    requires forall j :: 0 <= j < k ==> check(vs[j]).Ok?
    ensures CheckAll(check, vs) == Err(check(vs[k]).error)
    decreases k
  {
    if k > 0 {
      assert vs[1..][k - 1] == vs[k];
      assert forall j :: 0 <= j < k - 1 ==> vs[1..][j] == vs[j + 1];
      FirstFailure(check, vs[1..], k - 1);
    }
  }

  /** The golden file passes the header checks exactly when it is an object of the right format and symbol table. */
  lemma GoldenHeaderOk(h: string -> string, golden: Value)
    ensures GoldenHeader(h, golden).Ok? <==>
      && IsObject(golden)
      && Prop(golden, "format") == Str(GoldenFormat)
      && Prop(golden, "vectors").Arr?
      && Prop(golden, "symbols_hash").Str? && SymbolsHash(h) == Ok(Prop(golden, "symbols_hash").s)
    ensures GoldenHeader(h, golden).Ok? ==> GoldenHeader(h, golden).value == Prop(golden, "vectors").items
  {
    SymbolsHashDefined(h);
    ObjectTest(golden);
    StrictEqStr(Prop(golden, "format"), GoldenFormat);
    StrictEqStr(Prop(golden, "symbols_hash"), SymbolsHash(h).value);
  }

  /** `!v || typeof v !== "object"` rejects exactly the values that are not objects. */
  lemma ObjectTest(v: Value)
    ensures (!Truthy(v) || TypeOf(v) != "object") <==> !IsObject(v)
  {
  }

  /** A golden file whose header fails is rejected with that error, before any vector runs. */
  lemma HeaderFirst(h: string -> string, golden: Value)
    requires GoldenHeader(h, golden).Err?
    ensures VerifyGoldenVectors(h, golden) == Err(GoldenHeader(h, golden).error)
  {
  }

  /** Past the header, a golden file passes exactly when every vector passes. */
  lemma GoldenPasses(h: string -> string, golden: Value, vs: seq<Value>)
    requires GoldenHeader(h, golden) == Ok(vs)
    ensures VerifyGoldenVectors(h, golden).Ok? <==> forall i :: 0 <= i < |vs| ==> VectorResult(h, vs[i]).Ok?
    ensures VerifyGoldenVectors(h, golden).Ok? ==> VerifyGoldenVectors(h, golden) == Ok(true)
  {
    AllPass(VectorCheck(h), vs);
  }

  /** Past the header, a golden file reports the error of its first failing vector. */
  lemma GoldenFirstFailure(h: string -> string, golden: Value, vs: seq<Value>, k: nat)
    requires GoldenHeader(h, golden) == Ok(vs)
    requires k < |vs| && VectorResult(h, vs[k]).Err?
    requires forall j :: 0 <= j < k ==> VectorResult(h, vs[j]).Ok?
    ensures VerifyGoldenVectors(h, golden) == Err(VectorResult(h, vs[k]).error)
  {
    FirstFailure(VectorCheck(h), vs, k);
  }

  /** The comparisons pass only on the expected program text, hash and envelope text. */
  lemma CompareVectorSound(v: Value, out: Value)
    requires CompareVector(v, out).Ok?
    ensures var want := Prop(v, "expect");
      && !IsNullish(want) && !IsNullish(Prop(want, "abi"))
      && StrictEq(Prop(out, "painless"), Prop(want, "painless"))
      && StrictEq(Prop(Prop(out, "abi"), "hash"), Prop(Prop(want, "abi"), "hash"))
      && JsonStringify(Prop(Prop(out, "abi"), "envelope")).Ok?
      && JsonStringify(Prop(Prop(out, "abi"), "envelope")) == JsonStringify(Prop(Prop(want, "abi"), "envelope"))
  {
  }

  /** Against a compiled result, the comparisons pass only when `expect` holds its text, hash and envelope. */
  lemma CompareResultSound(v: Value, painless: string, ast: Value, abi: Abi)
    requires CompareVector(v, ResultObject(painless, ast, Some(abi))).Ok?
    ensures var want := Prop(v, "expect");
      && Prop(want, "painless") == Str(painless)
      && Prop(Prop(want, "abi"), "hash") == Str(abi.hash)
      && JsonStringify(abi.envelope).Ok?
      && JsonStringify(Prop(Prop(want, "abi"), "envelope")) == JsonStringify(abi.envelope)
  {
    var out := ResultObject(painless, ast, Some(abi));
    CompareVectorSound(v, out);
    ResultProps(painless, ast, Some(abi));
    ResultAbiProp(painless, ast, abi);
    AbiProps(abi);
    var want := Prop(v, "expect");
    StrictEqStr(Prop(want, "painless"), painless);
    StrictEqStr(Prop(Prop(want, "abi"), "hash"), abi.hash);
  }

  /** A compiled result whose verification passed carries an ABI. */
  lemma VerifiedHasAbi(h: string -> string, c: Compiled, opts: Value)
    requires VerifyAbiResult(h, ToValue(c), opts).Ok?
    ensures c.abi.Some?
  {
    VerifyAbiSound(h, ToValue(c), opts);
    ResultProps(c.painless, AstToValue(c.ast), c.abi);
  }

  /**
   * What a passing vector establishes: its source compiles under its options with `includeAbi`
   * forced on, the result passes `verifyAbiResult` under the vector's own options, and the
   * program text, the ABI hash and the envelope's JSON text are the ones the vector expects.
   */
  lemma VectorSound(h: string -> string, v: Value)
    requires VectorResult(h, v).Ok?
    ensures !IsNullish(v) && CompileValue(h, Prop(v, "scx"), VectorOptions(v)).Ok?
    ensures var c := CompileValue(h, Prop(v, "scx"), VectorOptions(v)).value;
      var want := Prop(v, "expect");
      && VerifyAbiResult(h, ToValue(c), Prop(v, "opts")).Ok?
      && c.abi.Some?
      && Prop(want, "painless") == Str(c.painless)
      && Prop(Prop(want, "abi"), "hash") == Str(c.abi.value.hash)
      && JsonStringify(Prop(Prop(want, "abi"), "envelope")) == JsonStringify(c.abi.value.envelope)
  {
    var c := CompileValue(h, Prop(v, "scx"), VectorOptions(v)).value;
    assert VerifyAbiResult(h, ToValue(c), Prop(v, "opts")).Ok?;
    assert CompareVector(v, ToValue(c)).Ok?;
    VerifiedHasAbi(h, c, Prop(v, "opts"));
    CompareResultSound(v, c.painless, AstToValue(c.ast), c.abi.value);
  }

  /** The `expect` part of a vector recorded from a compiled result. */
  function ExpectObject(painless: string, abi: Abi): Value
  {
    Obj([Member("painless", Str(painless)), Member("abi", AbiObject(abi))])
  }

  /** A vector recorded from a compiled result: its name, its source, its options and what it expects. */
  function RecordedVector(name: string, input: string, fs: seq<Member>, painless: string, abi: Abi): Value
  {
    Obj([Member("name", Str(name)), Member("scx", Str(input)), Member("opts", Obj(fs)),
         Member("expect", ExpectObject(painless, abi))])
  }

  lemma RecordedVectorProps(name: string, input: string, fs: seq<Member>, painless: string, abi: Abi)
    ensures var v := RecordedVector(name, input, fs, painless, abi);
      Prop(v, "name") == Str(name) && Prop(v, "scx") == Str(input)
  {
    var gs := RecordedVector(name, input, fs, painless, abi).fields;
    LookupFirst(gs, 0);
    LookupFirst(gs, 1);
  }

  lemma RecordedVectorOpts(name: string, input: string, fs: seq<Member>, painless: string, abi: Abi)
    ensures Prop(RecordedVector(name, input, fs, painless, abi), "opts") == Obj(fs)
  {
    var gs := RecordedVector(name, input, fs, painless, abi).fields;
    assert gs[2].key == "opts";
    LookupFirst(gs, 2);
  }

  lemma RecordedVectorExpect(name: string, input: string, fs: seq<Member>, painless: string, abi: Abi)
    ensures Prop(RecordedVector(name, input, fs, painless, abi), "expect") == ExpectObject(painless, abi)
  {
    var gs := RecordedVector(name, input, fs, painless, abi).fields;
    assert gs[3].key == "expect";
    LookupFirst(gs, 3);
  }

  lemma ExpectProps(painless: string, abi: Abi)
    ensures Prop(ExpectObject(painless, abi), "painless") == Str(painless)
    ensures Prop(ExpectObject(painless, abi), "abi") == AbiObject(abi)
  {
    var gs := ExpectObject(painless, abi).fields;
    LookupFirst(gs, 0);
    LookupFirst(gs, 1);
  }

  /** The comparisons pass when `expect` records the very result compared. */
  lemma CompareRecorded(v: Value, painless: string, ast: Value, abi: Abi)
    requires Prop(v, "expect") == ExpectObject(painless, abi)
    requires JsonStringify(abi.envelope).Ok?
    ensures CompareVector(v, ResultObject(painless, ast, Some(abi))) == Ok(true)
  {
    ExpectProps(painless, abi);
    ResultProps(painless, ast, Some(abi));
    ResultAbiProp(painless, ast, abi);
    AbiProps(abi);
  }

  /** The options a recorded vector compiles with, and the policy they give. */
  lemma RecordedOptions(v: Value, fs: seq<Member>)
    requires Prop(v, "opts") == Obj(fs)
    ensures VectorOptions(v) == Obj(SetField(fs, "includeAbi", Bool(true)))
    ensures var gs := SetField(fs, "includeAbi", Bool(true));
      && Prop(Obj(gs), "maxDepth") == Prop(Obj(fs), "maxDepth")
      && Prop(Obj(gs), "fields") == Prop(Obj(fs), "fields")
      && Prop(Obj(gs), "params") == Prop(Obj(fs), "params")
  {
    assert SpreadCopy(Obj(fs)).fields == fs;
    SetFieldOther(fs, "includeAbi", Bool(true), "maxDepth");
    SetFieldOther(fs, "includeAbi", Bool(true), "fields");
    SetFieldOther(fs, "includeAbi", Bool(true), "params");
  }

  /** Once the source compiles and the result verifies, a vector passes exactly when its comparisons do. */
  lemma VectorReachesCompare(h: string -> string, v: Value, c: Compiled)
    requires !IsNullish(v) && CompileValue(h, Prop(v, "scx"), VectorOptions(v)) == Ok(c)
    requires VerifyAbiResult(h, ToValue(c), Prop(v, "opts")).Ok?
    ensures VectorResult(h, v) == CompareVector(v, ToValue(c))
  {
  }

  /** The envelope a compilation attaches has a JSON text. */
  lemma CompiledEnvelopeJson(h: string -> string, input: string, opts: Value)
    requires CompilePainless(h, input, opts).Ok? && CompilePainless(h, input, opts).value.abi.Some?
    ensures JsonStringify(CompilePainless(h, input, opts).value.abi.value.envelope).Ok?
  {
    var c := CompilePainless(h, input, opts).value;
    CompiledCode(h, input, opts);
    AbiPart(h, c.ast, OptionsOf(opts), c.painless);
    BuiltEnvelopeJson(h, AstToValue(c.ast), PolicyOf(OptionsOf(opts)));
  }

  /**
   * Round trip: a vector recorded from what the compiler returns for a source under options
   * `fs` (with `includeAbi` forced on) passes, provided the hash is a non-empty string.
   */
  lemma RecordedVectorPasses(h: string -> string, name: string, input: string, fs: seq<Member>)
    requires var c := CompilePainless(h, input, Obj(SetField(fs, "includeAbi", Bool(true))));
      c.Ok? && c.value.abi.Some? && c.value.abi.value.hash != ""
    ensures var c := CompilePainless(h, input, Obj(SetField(fs, "includeAbi", Bool(true)))).value;
      VectorResult(h, RecordedVector(name, input, fs, c.painless, c.abi.value)) == Ok(true)
  {
    var o := Obj(SetField(fs, "includeAbi", Bool(true)));
    var c := CompilePainless(h, input, o).value;
    var v := RecordedVector(name, input, fs, c.painless, c.abi.value);
    RecordedInputs(name, input, fs, c.painless, c.abi.value);
    CompileString(h, input, o);
    RecordedVerifies(h, input, fs, c);
    RecordedCompares(h, name, input, fs, c);
    RecordedVectorOpts(name, input, fs, c.painless, c.abi.value);
    VectorReachesCompare(h, v, c);
  }

  /** A recorded vector is an object holding the source, and its options are the recorded ones with `includeAbi` on. */
  lemma RecordedInputs(name: string, input: string, fs: seq<Member>, painless: string, abi: Abi)
    ensures var v := RecordedVector(name, input, fs, painless, abi);
      && !IsNullish(v) && Prop(v, "scx") == Str(input)
      && VectorOptions(v) == Obj(SetField(fs, "includeAbi", Bool(true)))
  {
    var v := RecordedVector(name, input, fs, painless, abi);
    RecordedVectorProps(name, input, fs, painless, abi);
    RecordedVectorOpts(name, input, fs, painless, abi);
    RecordedOptions(v, fs);
  }

  /** The recorded result verifies under the vector's own options, which lack `includeAbi`. */
  lemma RecordedVerifies(h: string -> string, input: string, fs: seq<Member>, c: Compiled)
    requires c.abi.Some? && c.abi.value.hash != ""
    requires CompilePainless(h, input, Obj(SetField(fs, "includeAbi", Bool(true)))) == Ok(c)
    ensures VerifyAbiResult(h, ToValue(c), Obj(fs)) == Ok(true)
  {
    var gs := SetField(fs, "includeAbi", Bool(true));
    VerifyCompiled(h, input, Obj(gs));
    SetFieldOther(fs, "includeAbi", Bool(true), "maxDepth");
    SetFieldOther(fs, "includeAbi", Bool(true), "fields");
    SetFieldOther(fs, "includeAbi", Bool(true), "params");
    VerifyReadsOnly(h, ToValue(c), fs, gs);
  }

  /** The recorded result meets the expectations recorded beside it. */
  lemma RecordedCompares(h: string -> string, name: string, input: string, fs: seq<Member>, c: Compiled)
    requires c.abi.Some? && CompilePainless(h, input, Obj(SetField(fs, "includeAbi", Bool(true)))) == Ok(c)
    ensures CompareVector(RecordedVector(name, input, fs, c.painless, c.abi.value), ToValue(c)) == Ok(true)
  {
    RecordedVectorExpect(name, input, fs, c.painless, c.abi.value);
    CompiledEnvelopeJson(h, input, Obj(SetField(fs, "includeAbi", Bool(true))));
    CompareRecorded(RecordedVector(name, input, fs, c.painless, c.abi.value), c.painless, AstToValue(c.ast), c.abi.value);
  }

  /** A golden file holding the given symbol table hash and vectors. */
  function RecordedGolden(symbols: string, vs: seq<Value>): Value
  {
    Obj([Member("format", Str(GoldenFormat)), Member("symbols_hash", Str(symbols)), Member("vectors", Arr(vs))])
  }

  lemma RecordedGoldenProps(symbols: string, vs: seq<Value>)
    ensures var g := RecordedGolden(symbols, vs);
      && Prop(g, "format") == Str(GoldenFormat) && Prop(g, "symbols_hash") == Str(symbols)
      && Prop(g, "vectors") == Arr(vs)
  {
    var gs := RecordedGolden(symbols, vs).fields;
    LookupFirst(gs, 0);
    assert gs[1].key == "symbols_hash";
    LookupFirst(gs, 1);
    assert gs[2].key == "vectors";
    LookupFirst(gs, 2);
  }

  /** A golden file written with the current symbol table hash passes when each of its vectors does. */
  lemma RecordedGoldenPasses(h: string -> string, symbols: string, vs: seq<Value>)
    requires SymbolsHash(h) == Ok(symbols)
    requires forall i :: 0 <= i < |vs| ==> VectorResult(h, vs[i]).Ok?
    ensures VerifyGoldenVectors(h, RecordedGolden(symbols, vs)) == Ok(true)
  {
    RecordedHeader(h, symbols, vs);
    GoldenPasses(h, RecordedGolden(symbols, vs), vs);
  }

  /** A golden file written with the current symbol table hash passes the header checks. */
  lemma RecordedHeader(h: string -> string, symbols: string, vs: seq<Value>)
    requires SymbolsHash(h) == Ok(symbols)
    ensures GoldenHeader(h, RecordedGolden(symbols, vs)) == Ok(vs)
  {
    var g := RecordedGolden(symbols, vs);
    RecordedGoldenProps(symbols, vs);
    GoldenHeaderOk(h, g);
  }

  /* ---------------- properties of verifyAbiResult ---------------- */

  /** An object whose property values are strings or integers has a JSON text. */
  lemma {:induction false} FlatMembersJson(fs: seq<Member>)
    requires forall i :: 0 <= i < |fs| ==> fs[i].val.Str? || (fs[i].val.Num? && fs[i].val.n.Int?)
    ensures JsonMembers(fs).Ok?
    decreases |fs|
  {
    if fs != [] {
      FlatMembersJson(fs[1..]);
    }
  }

  lemma FlatObjectJson(fs: seq<Member>)
    requires forall i :: 0 <= i < |fs| ==> fs[i].val.Str? || (fs[i].val.Num? && fs[i].val.n.Int?)
    ensures JsonStringify(Obj(fs)).Ok?
  {
    FlatMembersJson(fs);
  }

  /** The envelope always has a JSON text. */
  lemma EnvelopeJson(symbols: string, policyHash: string, astHash: string)
    ensures JsonStringify(EnvelopeOf(symbols, policyHash, astHash)).Ok?
  {
    var fs := EnvelopeOf(symbols, policyHash, astHash).fields;
    assert forall i :: 0 <= i < |fs| ==> fs[i].val.Str? || (fs[i].val.Num? && fs[i].val.n.Int?);
    FlatObjectJson(fs);
  }

  /** `x === "s"` holds only of the string `s` itself. */
  lemma StrictEqStr(x: Value, s: string)
    ensures StrictEq(x, Str(s)) <==> x == Str(s)
  {
  }

  /** The part hashes pass only when they are the current ones. */
  lemma PartHashesSound(h: string -> string, gotEnv: Value, policy: Value)
    requires ComparePartHashes(h, gotEnv, policy).Ok?
    ensures PolicyHash(h, policy).Ok? && Prop(gotEnv, "policy_hash") == Str(PolicyHash(h, policy).value)
    ensures SymbolsHash(h).Ok? && Prop(gotEnv, "symbols_hash") == Str(SymbolsHash(h).value)
  {
    StrictEqStr(Prop(gotEnv, "policy_hash"), PolicyHash(h, policy).value);
    StrictEqStr(Prop(gotEnv, "symbols_hash"), SymbolsHash(h).value);
  }

  /** The comparisons pass only on the recomputed hash, envelope text and current part hashes. */
  lemma CompareAbiSound(h: string -> string, gotEnv: Value, gotHash: Value, env: Value, expected: string,
                        policy: Value)
    requires CompareAbi(h, gotEnv, gotHash, env, expected, policy).Ok?
    ensures gotHash == Str(expected)
    ensures JsonStringify(gotEnv).Ok? && JsonStringify(gotEnv) == JsonStringify(env)
    ensures PolicyHash(h, policy).Ok? && Prop(gotEnv, "policy_hash") == Str(PolicyHash(h, policy).value)
    ensures SymbolsHash(h).Ok? && Prop(gotEnv, "symbols_hash") == Str(SymbolsHash(h).value)
  {
    StrictEqStr(gotHash, expected);
    assert CompareEnvelope(h, gotEnv, env, policy).Ok?;
    var a := JsonStringify(gotEnv);
    var b := JsonStringify(env);
    assert a.Ok? && b.Ok? && a.value == b.value;
    PartHashesSound(h, gotEnv, policy);
  }

  /** A passing recomputation: the envelope and hash exist and the carried ones match them. */
  lemma RecomputeSound(h: string -> string, ast: Value, abi: Value, policy: Value)
    requires Recompute(h, ast, abi, policy).Ok?
    ensures var env := Envelope(h, ast, policy);
      && env.Ok? && AbiHash(h, env.value).Ok?
      && Prop(abi, "hash") == Str(AbiHash(h, env.value).value)
      && JsonStringify(Prop(abi, "envelope")) == JsonStringify(env.value)
      && PolicyHash(h, policy).Ok? && Prop(Prop(abi, "envelope"), "policy_hash") == Str(PolicyHash(h, policy).value)
      && SymbolsHash(h).Ok? && Prop(Prop(abi, "envelope"), "symbols_hash") == Str(SymbolsHash(h).value)
  {
    var env := Envelope(h, ast, policy);
    var expected := AbiHash(h, env.value);
    CompareAbiSound(h, Prop(abi, "envelope"), Prop(abi, "hash"), env.value, expected.value, policy);
  }

  /**
   * What a passing verification establishes: the result is an object with a truthy tree, the
   * options are not null, and the recomputation from that tree and the options' policy passed
   * (so `RecomputeSound` applies to it).
   */
  lemma VerifyAbiSound(h: string -> string, out: Value, opts: Value)
    requires VerifyAbiResult(h, out, opts).Ok?
    ensures && IsObject(out) && Truthy(Prop(out, "ast"))
      && Truthy(Prop(Prop(out, "abi"), "envelope")) && Truthy(Prop(Prop(out, "abi"), "hash"))
      && !IsNullish(OptionsOf(opts))
      && Recompute(h, Prop(out, "ast"), Prop(out, "abi"), PolicyOf(OptionsOf(opts))).Ok?
  {
  }

  /** An envelope built from the current part hashes passes the part-hash comparison. */
  lemma PartHashesOfOwn(h: string -> string, policy: Value, astHash: string)
    requires SymbolsHash(h).Ok? && PolicyHash(h, policy).Ok?
    ensures ComparePartHashes(h, EnvelopeOf(SymbolsHash(h).value, PolicyHash(h, policy).value, astHash), policy) == Ok(true)
  {
    PolicyHashField(SymbolsHash(h).value, PolicyHash(h, policy).value, astHash);
    SymbolsHashField(SymbolsHash(h).value, PolicyHash(h, policy).value, astHash);
  }

  /** An envelope with a JSON text has the same text as itself. */
  lemma EnvelopeOfOwn(h: string -> string, env: Value, policy: Value)
    requires JsonStringify(env).Ok?
    ensures CompareEnvelope(h, env, env, policy) == ComparePartHashes(h, env, policy)
  {
  }

  /** The comparisons pass on the very envelope and hash they recompute. */
  lemma CompareOwnAbi(h: string -> string, ast: Value, policy: Value)
    requires Envelope(h, ast, policy).Ok? && AbiHash(h, Envelope(h, ast, policy).value).Ok?
    ensures var env := Envelope(h, ast, policy).value;
      var hash := AbiHash(h, env).value;
      CompareAbi(h, env, Str(hash), env, hash, policy) == Ok(true)
  {
    var env := Envelope(h, ast, policy).value;
    SymbolsHashDefined(h);
    var sh, ph, ah := SymbolsHash(h).value, PolicyHash(h, policy).value, AstHash(h, ast).value;
    assert env == EnvelopeOf(sh, ph, ah);
    EnvelopeJson(sh, ph, ah);
    EnvelopeOfOwn(h, env, policy);
    PartHashesOfOwn(h, policy, ah);
  }

  /** The program text and the tree of a compiled result read back as themselves. */
  lemma ResultProps(painless: string, ast: Value, abi: Option<Abi>)
    ensures Prop(ResultObject(painless, ast, abi), "painless") == Str(painless)
    ensures Prop(ResultObject(painless, ast, abi), "ast") == ast
    ensures abi.None? ==> Prop(ResultObject(painless, ast, abi), "abi") == Undef
  {
    var fs := ResultObject(painless, ast, abi).fields;
    LookupFirst(fs, 0);
    LookupFirst(fs, 1);
  }

  /** The `abi` property of a compiled result that has one. */
  lemma ResultAbiProp(painless: string, ast: Value, abi: Abi)
    ensures Prop(ResultObject(painless, ast, Some(abi)), "abi") == AbiObject(abi)
  {
    LookupFirst(ResultObject(painless, ast, Some(abi)).fields, 2);
  }

  /** The envelope and hash of an `abi` object read back as themselves. */
  lemma AbiProps(abi: Abi)
    ensures Prop(AbiObject(abi), "envelope") == abi.envelope && Prop(AbiObject(abi), "hash") == Str(abi.hash)
  {
    var gs := AbiObject(abi).fields;
    LookupFirst(gs, 0);
    LookupFirst(gs, 1);
  }

  /** Recomputing on the parts of an envelope the compiler attached passes. */
  lemma RecomputeOwn(h: string -> string, ast: Value, policy: Value, abi: Value)
    requires Envelope(h, ast, policy).Ok? && AbiHash(h, Envelope(h, ast, policy).value).Ok?
    requires Prop(abi, "envelope") == Envelope(h, ast, policy).value
    requires Prop(abi, "hash") == Str(AbiHash(h, Envelope(h, ast, policy).value).value)
    ensures Recompute(h, ast, abi, policy) == Ok(true)
  {
    CompareOwnAbi(h, ast, policy);
  }

  /** Past its shape checks, verification is the recomputation (the converse of `VerifyAbiSound`). */
  lemma VerifyReachesRecompute(h: string -> string, out: Value, opts: Value)
    requires IsObject(out) && Truthy(Prop(out, "ast"))
    requires Truthy(Prop(out, "abi")) && Truthy(Prop(Prop(out, "abi"), "envelope")) && Truthy(Prop(Prop(out, "abi"), "hash"))
    requires !IsNullish(OptionsOf(opts))
    ensures VerifyAbiResult(h, out, opts) == Recompute(h, Prop(out, "ast"), Prop(out, "abi"), PolicyOf(OptionsOf(opts)))
  {
  }

  /** Verifying a result object that carries an envelope and a hash is recomputing on them. */
  lemma VerifyResultObject(h: string -> string, painless: string, ast: Value, abi: Abi, opts: Value)
    requires ast.Obj? && abi.envelope.Obj? && abi.hash != "" && !IsNullish(OptionsOf(opts))
    ensures VerifyAbiResult(h, ResultObject(painless, ast, Some(abi)), opts)
         == Recompute(h, ast, AbiObject(abi), PolicyOf(OptionsOf(opts)))
  {
    ResultProps(painless, ast, Some(abi));
    ResultAbiProp(painless, ast, abi);
    AbiProps(abi);
    VerifyReachesRecompute(h, ResultObject(painless, ast, Some(abi)), opts);
  }

  /** A result object carrying the envelope and hash recomputed from its tree passes verification. */
  lemma VerifyBuilt(h: string -> string, painless: string, ast: Value, abi: Abi, opts: Value)
    requires ast.Obj? && abi.hash != "" && !IsNullish(OptionsOf(opts))
    requires Envelope(h, ast, PolicyOf(OptionsOf(opts))) == Ok(abi.envelope)
    requires AbiHash(h, abi.envelope) == Ok(abi.hash)
    ensures VerifyAbiResult(h, ResultObject(painless, ast, Some(abi)), opts) == Ok(true)
  {
    VerifyResultObject(h, painless, ast, abi, opts);
    AbiProps(abi);
    RecomputeOwn(h, ast, PolicyOf(OptionsOf(opts)), AbiObject(abi));
  }

  /** A result the ABI stage built, under options that are not null, passes verification. */
  lemma VerifyOwnResult(h: string -> string, c: Compiled, opts: Value)
    requires WithAbi(h, c.ast, OptionsOf(opts), c.painless) == Ok(c)
    requires c.abi.Some? && c.abi.value.hash != ""
    requires !IsNullish(OptionsOf(opts))
    ensures VerifyAbiResult(h, ToValue(c), opts) == Ok(true)
  {
    AbiPart(h, c.ast, OptionsOf(opts), c.painless);
    VerifyBuilt(h, c.painless, AstToValue(c.ast), c.abi.value, opts);
  }

  /**
   * Round trip: whatever `compilePainless` returns with an ABI passes `verifyAbiResult` under
   * the same options, provided the hash is a non-empty string (a SHA-256 hex digest is).
   */
  lemma VerifyCompiled(h: string -> string, input: string, opts: Value)
    requires CompilePainless(h, input, opts).Ok?
    requires CompilePainless(h, input, opts).value.abi.Some?
    requires CompilePainless(h, input, opts).value.abi.value.hash != ""
    ensures VerifyAbiResult(h, ToValue(CompilePainless(h, input, opts).value), opts) == Ok(true)
  {
    var c := CompilePainless(h, input, opts).value;
    CompiledCode(h, input, opts);
    VerifyEnforced(h, c, opts);
  }

  /** A result built under options that passed the policy check verifies under them. */
  lemma VerifyEnforced(h: string -> string, c: Compiled, opts: Value)
    requires WithAbi(h, c.ast, OptionsOf(opts), c.painless) == Ok(c)
    requires EnforcePolicy(AstToValue(c.ast), OptionsOf(opts)).Ok?
    requires c.abi.Some? && c.abi.value.hash != ""
    ensures VerifyAbiResult(h, ToValue(c), opts) == Ok(true)
  {
    assert !IsNullish(OptionsOf(opts));
    VerifyOwnResult(h, c, opts);
  }

  /** Recomputing rejects a carried hash other than the recomputed one first. */
  lemma RecomputeForgedHash(h: string -> string, ast: Value, abi: Value, policy: Value, forged: string)
    requires Envelope(h, ast, policy).Ok? && AbiHash(h, Envelope(h, ast, policy).value).Ok?
    requires Prop(abi, "hash") == Str(forged) && forged != AbiHash(h, Envelope(h, ast, policy).value).value
    ensures Recompute(h, ast, abi, policy) == Err(AbiHashMismatch(AbiHash(h, Envelope(h, ast, policy).value).value))
  {
    var env := Envelope(h, ast, policy).value;
    var expected := AbiHash(h, env).value;
    assert Recompute(h, ast, abi, policy) == CompareAbi(h, Prop(abi, "envelope"), Str(forged), env, expected, policy);
    assert Raise(AbiHashMismatch(expected), [Str(forged)]) == AbiHashMismatch(expected);
  }

  /**
   * A forged hash is caught by the first comparison, whatever envelope travels with it: the
   * error names the recomputed hash.
   */
  lemma ForgedHashRejected(h: string -> string, painless: string, ast: Value, envelope: Value, forged: string,
                           opts: Value)
    requires ast.Obj? && envelope.Obj? && forged != "" && !IsNullish(OptionsOf(opts))
    requires var env := Envelope(h, ast, PolicyOf(OptionsOf(opts)));
      env.Ok? && AbiHash(h, env.value).Ok? && forged != AbiHash(h, env.value).value
    ensures var env := Envelope(h, ast, PolicyOf(OptionsOf(opts)));
      VerifyAbiResult(h, ResultObject(painless, ast, Some(Abi(envelope, forged))), opts)
        == Err(AbiHashMismatch(AbiHash(h, env.value).value))
  {
    var abi := Abi(envelope, forged);
    VerifyResultObject(h, painless, ast, abi, opts);
    AbiProps(abi);
    RecomputeForgedHash(h, ast, AbiObject(abi), PolicyOf(OptionsOf(opts)), forged);
  }

  /** With the right hash, recomputing rejects an envelope whose JSON text differs. */
  lemma RecomputeForgedEnvelope(h: string -> string, ast: Value, abi: Value, policy: Value)
    requires Envelope(h, ast, policy).Ok? && AbiHash(h, Envelope(h, ast, policy).value).Ok?
    requires Prop(abi, "hash") == Str(AbiHash(h, Envelope(h, ast, policy).value).value)
    requires JsonStringify(Prop(abi, "envelope")).Ok?
    requires JsonStringify(Prop(abi, "envelope")) != JsonStringify(Envelope(h, ast, policy).value)
    ensures Recompute(h, ast, abi, policy).Err? && Recompute(h, ast, abi, policy).error.AbiEnvelopeMismatch?
  {
    var env := Envelope(h, ast, policy).value;
    var expected := AbiHash(h, env).value;
    assert Recompute(h, ast, abi, policy) == CompareAbi(h, Prop(abi, "envelope"), Str(expected), env, expected, policy);
    BuiltEnvelopeJson(h, ast, policy);
    assert CompareAbi(h, Prop(abi, "envelope"), Str(expected), env, expected, policy)
        == CompareEnvelope(h, Prop(abi, "envelope"), env, policy);
    EnvelopeTextsDiffer(h, Prop(abi, "envelope"), env, policy);
  }

  /** Two envelopes with different JSON texts fail the envelope comparison, naming the expected text. */
  lemma EnvelopeTextsDiffer(h: string -> string, gotEnv: Value, env: Value, policy: Value)
    requires JsonStringify(gotEnv).Ok? && JsonStringify(env).Ok? && JsonStringify(gotEnv) != JsonStringify(env)
    ensures CompareEnvelope(h, gotEnv, env, policy) == Err(AbiEnvelopeMismatch(ShownJson(JsonStringify(env).value)))
  {
  }

  /** A built envelope has a JSON text. */
  lemma BuiltEnvelopeJson(h: string -> string, ast: Value, policy: Value)
    requires Envelope(h, ast, policy).Ok?
    ensures JsonStringify(Envelope(h, ast, policy).value).Ok?
  {
    SymbolsHashDefined(h);
    assert Envelope(h, ast, policy).value == EnvelopeOf(SymbolsHash(h).value, PolicyHash(h, policy).value, AstHash(h, ast).value);
    EnvelopeJson(SymbolsHash(h).value, PolicyHash(h, policy).value, AstHash(h, ast).value);
  }

  /** With the right hash, an envelope whose JSON text differs from the recomputed one is rejected. */
  lemma ForgedEnvelopeRejected(h: string -> string, painless: string, ast: Value, envelope: Value, opts: Value)
    requires ast.Obj? && envelope.Obj? && !IsNullish(OptionsOf(opts))
    requires var env := Envelope(h, ast, PolicyOf(OptionsOf(opts)));
      && env.Ok? && AbiHash(h, env.value).Ok? && AbiHash(h, env.value).value != ""
      && JsonStringify(envelope).Ok? && JsonStringify(envelope) != JsonStringify(env.value)
    ensures var env := Envelope(h, ast, PolicyOf(OptionsOf(opts)));
      var r := VerifyAbiResult(h, ResultObject(painless, ast, Some(Abi(envelope, AbiHash(h, env.value).value))), opts);
      r.Err? && r.error.AbiEnvelopeMismatch?
  {
    var policy := PolicyOf(OptionsOf(opts));
    var abi := Abi(envelope, AbiHash(h, Envelope(h, ast, policy).value).value);
    VerifyResultObject(h, painless, ast, abi, opts);
    AbiProps(abi);
    RecomputeForgedEnvelope(h, ast, AbiObject(abi), policy);
  }

  /** Verification reads only `maxDepth`, `fields` and `params` from its options. */
  lemma VerifyReadsOnly(h: string -> string, out: Value, fs: seq<Member>, gs: seq<Member>)
    requires Prop(Obj(fs), "maxDepth") == Prop(Obj(gs), "maxDepth")
    requires Prop(Obj(fs), "fields") == Prop(Obj(gs), "fields")
    requires Prop(Obj(fs), "params") == Prop(Obj(gs), "params")
    ensures VerifyAbiResult(h, out, Obj(fs)) == VerifyAbiResult(h, out, Obj(gs))
  {
    assert PolicyOf(Obj(fs)) == PolicyOf(Obj(gs));
  }
}
