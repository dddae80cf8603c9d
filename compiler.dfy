/**
 * `compilePainless(input, opts)`: scan, parse, check the policy, lower, and (unless switched
 * off) attach the ABI envelope and its hash.
 */
module Compiler {
  import opened Wrappers
  import opened Errors
  import opened JsValue
  import opened Lexer
  import opened Ast
  import opened Parser
  import opened Emitter
  import opened Policy
  import opened AbiV1

  /** The `abi` part of a result: the envelope and its hash. */
  datatype Abi = Abi(envelope: Value, hash: string)

  /** `{ painless, ast }`, with `abi` present only when it was requested. */
  datatype Compiled = Compiled(painless: string, ast: Node, abi: Option<Abi>)

  /** `opts = {}`: the default applies only to a missing argument. */
  function OptionsOf(opts: Value): (o: Value)
    ensures !opts.Undef? ==> o == opts
  {
    if opts.Undef? then Obj([]) else opts
  }

  /** The policy object built from the options, each part defaulted when nullish. */
  function PolicyOf(o: Value): Value
  {
    PolicyObject(NullishOr(Prop(o, "maxDepth"), Num(Int(32))),
                 NullishOr(Prop(o, "fields"), Arr([])),
                 NullishOr(Prop(o, "params"), Arr([])))
  }

  /** `opts.includeAbi ?? true`, read for its truthiness. */
  predicate WantsAbi(o: Value)
  {
    Truthy(NullishOr(Prop(o, "includeAbi"), Bool(true)))
  }

  /** The program text around a lowered body. */
  function Program(body: string): (p: string)
    ensures |p| == |body| + 8 && p[..7] == "return " && p[7..|p| - 1] == body && p[|p| - 1] == ';'
  {
    "return " + body + ";"
  }

  /** `compilePainless(input, opts)` on a source text. */
  function CompilePainless(h: string -> string, input: string, opts: Value): Result<Compiled, Error>
  {
    var o := OptionsOf(opts);
    var parsed := ParseTokens(TokensOf(input));
    if parsed.Err? then Err(parsed.error)
    else
      var checked := EnforcePolicy(AstToValue(parsed.value), o);
      if checked.Err? then Err(checked.error)
      else
        var body := Emit(parsed.value);
        if body.Err? then Err(body.error)
        else WithAbi(h, parsed.value, o, Program(body.value))
  }

  /** The result once the program text exists: the ABI is attached unless `includeAbi` is falsy. */
  function WithAbi(h: string -> string, ast: Node, o: Value, painless: string): Result<Compiled, Error>
  {
    if !WantsAbi(o) then Ok(Compiled(painless, ast, None))
    else
      var envelope := Envelope(h, AstToValue(ast), PolicyOf(o));
      if envelope.Err? then Err(envelope.error)
      else
        var hash := AbiHash(h, envelope.value);
        if hash.Err? then Err(hash.error)
        else Ok(Compiled(painless, ast, Some(Abi(envelope.value, hash.value))))
  }

  /** `compilePainless(input, opts)` on any value: the scanner reads `String(input)`. */
  function CompileValue(h: string -> string, input: Value, opts: Value): Result<Compiled, Error>
  {
    var text :- ToJsString(input);
    CompilePainless(h, text, opts)
  }

  /** The returned object, as a JavaScript value. */
  function ToValue(c: Compiled): (v: Value)
    ensures v.Obj?
  {
    ResultObject(c.painless, AstToValue(c.ast), c.abi)
  }

  /** `{ painless, ast }` or `{ painless, ast, abi: { envelope, hash } }`. */
  function ResultObject(painless: string, ast: Value, abi: Option<Abi>): (v: Value)
    ensures v.Obj?
  {
    var base := [Member("painless", Str(painless)), Member("ast", ast)];
    match abi
    case None => Obj(base)
    case Some(a) => Obj(base + [Member("abi", AbiObject(a))])
  }

  /** `{ envelope, hash }`. */
  function AbiObject(a: Abi): (v: Value)
    ensures v.Obj?
  {
    Obj([Member("envelope", a.envelope), Member("hash", Str(a.hash))])
  }

  /* ---------------- properties ---------------- */

  /**
   * Compilation succeeds exactly when the tokens parse, the tree passes the policy, every call
   * lowers, and, when the ABI is wanted, the policy can be hashed (its allowlists are arrays).
   */
  lemma CompileSucceeds(h: string -> string, input: string, opts: Value)
    ensures var o := OptionsOf(opts); var p := ParseTokens(TokensOf(input));
      CompilePainless(h, input, opts).Ok? <==>
        && p.Ok?
        && EnforcePolicy(AstToValue(p.value), o).Ok?
        && Lowerable(p.value)
        && (WantsAbi(o) ==> PolicyHash(h, PolicyOf(o)).Ok?)
  {
    var o := OptionsOf(opts);
    var p := ParseTokens(TokensOf(input));
    if CompilePainless(h, input, opts).Ok? {
      var c := CompilePainless(h, input, opts).value;
      CompiledCode(h, input, opts);
      WithAbiSucceeds(h, c.ast, o, c.painless);
    } else if p.Ok? && EnforcePolicy(AstToValue(p.value), o).Ok? && Lowerable(p.value) {
      var body := Emit(p.value);
      assert CompilePainless(h, input, opts) == WithAbi(h, p.value, o, Program(body.value));
      WithAbiSucceeds(h, p.value, o, Program(body.value));
    }
  }

  /** The ABI stage fails only when the ABI is wanted and the policy cannot be hashed. */
  lemma WithAbiSucceeds(h: string -> string, ast: Node, o: Value, painless: string)
    ensures WithAbi(h, ast, o, painless).Ok? <==> (WantsAbi(o) ==> PolicyHash(h, PolicyOf(o)).Ok?)
  {
    if WantsAbi(o) {
      AstHashDefined(h, ast);
      EnvelopeShape(h, AstToValue(ast), PolicyOf(o));
      if PolicyHash(h, PolicyOf(o)).Ok? {
        AbiHashDefined(h, AstToValue(ast), PolicyOf(o));
      }
    }
  }

  /**
   * A successful result holds the parsed tree and `return <lowered tree>;` as its program, and
   * is the ABI stage applied to them.
   */
  lemma CompiledCode(h: string -> string, input: string, opts: Value)
    requires CompilePainless(h, input, opts).Ok?
    ensures var c := CompilePainless(h, input, opts).value;
      && ParseTokens(TokensOf(input)) == Ok(c.ast)
      && EnforcePolicy(AstToValue(c.ast), OptionsOf(opts)).Ok?
      && Emit(c.ast).Ok? && c.painless == "return " + Emit(c.ast).value + ";"
      && WithAbi(h, c.ast, OptionsOf(opts), c.painless) == Ok(c)
  {
    var o := OptionsOf(opts);
    var p := ParseTokens(TokensOf(input));
    assert p.Ok?;
    assert EnforcePolicy(AstToValue(p.value), o).Ok?;
    var body := Emit(p.value);
    assert body.Ok?;
    var w := WithAbi(h, p.value, o, Program(body.value));
    assert CompilePainless(h, input, opts) == w;
    AbiPart(h, p.value, o, Program(body.value));
  }

  /**
   * The ABI is present exactly when `includeAbi ?? true` is truthy, and then it is the envelope
   * of the tree under the policy built from the options, with that envelope's hash.
   */
  lemma AbiPart(h: string -> string, ast: Node, o: Value, painless: string)
    requires WithAbi(h, ast, o, painless).Ok?
    ensures var c := WithAbi(h, ast, o, painless).value;
      && c.painless == painless && c.ast == ast
      && (c.abi.Some? <==> WantsAbi(o))
      && (c.abi.Some? ==>
            && Envelope(h, AstToValue(ast), PolicyOf(o)) == Ok(c.abi.value.envelope)
            && AbiHash(h, c.abi.value.envelope) == Ok(c.abi.value.hash))
  {
    if WantsAbi(o) {
      var envelope := Envelope(h, AstToValue(ast), PolicyOf(o));
      assert envelope.Ok?;
      var hash := AbiHash(h, envelope.value);
      assert hash.Ok?;
      assert WithAbi(h, ast, o, painless) == Ok(Compiled(painless, ast, Some(Abi(envelope.value, hash.value))));
    }
  }

  /** The policy check reads only `maxDepth`, `fields` and `params` from its options. */
  lemma EnforceReadsOnly(ast: Value, fs: seq<Member>, gs: seq<Member>)
    requires Prop(Obj(fs), "maxDepth") == Prop(Obj(gs), "maxDepth")
    requires Prop(Obj(fs), "fields") == Prop(Obj(gs), "fields")
    requires Prop(Obj(fs), "params") == Prop(Obj(gs), "params")
    ensures EnforcePolicy(ast, Obj(fs)) == EnforcePolicy(ast, Obj(gs))
  {
    assert PropOf(Obj(fs), "maxDepth").Ok? && PropOf(Obj(gs), "maxDepth").Ok?;
  }

  /** A string input is compiled as it is. */
  lemma CompileString(h: string -> string, input: string, opts: Value)
    ensures CompileValue(h, Str(input), opts) == CompilePainless(h, input, opts)
  {
    assert ToJsString(Str(input)) == Ok(input);
  }

  /** Defaulting the options before the call changes nothing: the compiler defaults them itself. */
  lemma DefaultedOptions(h: string -> string, input: string, opts: Value)
    ensures CompilePainless(h, input, OptionsOf(opts)) == CompilePainless(h, input, opts)
  {
    assert OptionsOf(OptionsOf(opts)) == OptionsOf(opts);
  }

  /** With no options the ABI is included and the policy is depth 32 with empty allowlists. */
  lemma DefaultOptions(h: string -> string, input: string)
    ensures var o := OptionsOf(Undef);
      WantsAbi(o) && PolicyOf(o) == PolicyObject(Num(Int(32)), Arr([]), Arr([]))
  {
  }

  /** Missing options make the policy check use its own defaults: depth 32 and empty allowlists. */
  lemma OptionsDefaultInPolicy(ast: Value)
    ensures EnforcePolicy(ast, OptionsOf(Undef)) == EnforcePolicy(ast, Undef)
  {
    assert OptionsOf(Undef) == Obj([]);
  }
}
