/**
 * The matrix conformance runner: `verifyAbi` normalises a policy and a program and hashes their
 * envelope, `verifyProgramAdmission` refuses a program with an op the policy does not route, and
 * `verifyVectorSet` runs every vector of a conformance set against a fresh in-memory IDB and
 * compares the reply, the emitted events and the writes with what the vector expects.
 */
module MatrixVerify {
  import opened Wrappers
  import opened Errors
  import opened JsValue
  import opened JsJson
  import opened AbiMatrix
  import opened IdbMemory
  import opened Vm

  /* ---------------- verifyAbi ---------------- */

  /** What `verifyAbi` returns. */
  datatype AbiResult = AbiResult(envelope: Value, hash: string, policyNorm: NormPolicy, programNorm: NormProgram)

  /** The envelope and its hash, before the expected hash is compared. */
  function ComputeAbi(h: string -> string, programPack: Value, policy: Value, plugins: Value): Result<AbiResult, Error>
  {
    var policyNorm := NormalizePolicyV1(policy);
    var programNorm := NormalizeProgramV1(programPack);
    if policyNorm.Err? then Err(policyNorm.error)
    else if programNorm.Err? then Err(programNorm.error)
    else
      var env := MatrixEnvelope(h, PolicyValue(policyNorm.value), ProgramValue(programNorm.value),
                                PluginsOrDefault(plugins), Str("host_agnostic"));
      if env.Err? then Err(env.error)
      else
        var hash := MatrixAbiHash(h, env.value);
        if hash.Err? then Err(hash.error)
        else Ok(AbiResult(env.value, hash.value, policyNorm.value, programNorm.value))
  }

  /** `plugins = []`: the default applies only to a missing list. */
  function PluginsOrDefault(plugins: Value): (r: Value)
    ensures !plugins.Undef? ==> r == plugins
  {
    if plugins.Undef? then Arr([]) else plugins
  }

  /** `verifyAbi({ programPack, policy, plugins, expectedAbiHash })`. */
  function VerifyAbi(h: string -> string, programPack: Value, policy: Value, plugins: Value, expected: Value)
    : Result<AbiResult, Error>
  {
    match ComputeAbi(h, programPack, policy, plugins)
    case Err(e) => Err(e)
    case Ok(abi) =>
      if Truthy(expected) && !StrictEq(Str(abi.hash), expected) then
        match ToJsString(expected)
        case Err(e) => Err(e)
        case Ok(text) => Err(AbiMismatch(text, abi.hash))
      else Ok(abi)
  }

  /* ---------------- verifyProgramAdmission ---------------- */

  /** `new Set(allowed_routes).has(op)`. */
  predicate Routed(routes: seq<Value>, op: string)
  {
    SetHas(routes, Str(op))
  }

  /** The position of the first block whose op the routes do not allow. */
  function FirstDenied(blocks: seq<Block>, routes: seq<Value>): (r: Option<nat>)
    ensures r.Some? ==> r.value < |blocks| && !Routed(routes, blocks[r.value].op)
    ensures r.Some? ==> forall j :: 0 <= j < r.value ==> Routed(routes, blocks[j].op)
    ensures r.None? <==> forall j :: 0 <= j < |blocks| ==> Routed(routes, blocks[j].op)
  {
    if blocks == [] then None
    else if !Routed(routes, blocks[0].op) then Some(0)
    else
      var r := FirstDenied(blocks[1..], routes);
      assert forall j :: 1 <= j < |blocks| ==> blocks[j] == blocks[1..][j - 1];
      match r
      case None => None
      case Some(i) => Some(i + 1)
  }

  /** `verifyProgramAdmission`: true, or `POLICY_DENY` naming the first op not routed. */
  function Admission(blocks: seq<Block>, routes: seq<Value>): Result<bool, Error>
  {
    match FirstDenied(blocks, routes)
    case Some(i) => Err(PolicyDeny(blocks[i].op))
    case None => Ok(true)
  }

  /** `verifyProgramAdmission({ programNorm, policyNorm })`, with its loop over the blocks. */
  method AdmitProgram(program: NormProgram, policy: NormPolicy) returns (r: Result<bool, Error>)
    ensures r == Admission(program.blocks, policy.allowedRoutes)
  {
    var blocks := program.blocks;
    for i := 0 to |blocks|
      invariant forall j :: 0 <= j < i ==> Routed(policy.allowedRoutes, blocks[j].op)
    {
      if !Routed(policy.allowedRoutes, blocks[i].op) {
        FirstDeniedAt(blocks, policy.allowedRoutes, i);
        return Err(PolicyDeny(blocks[i].op));
      }
    }
    return Ok(true);
  }

  /** A denied block with only routed blocks before it is the one admission reports. */
  lemma FirstDeniedAt(blocks: seq<Block>, routes: seq<Value>, i: nat)
    requires i < |blocks| && !Routed(routes, blocks[i].op)
    requires forall j :: 0 <= j < i ==> Routed(routes, blocks[j].op)
    ensures FirstDenied(blocks, routes) == Some(i)
  {
  }

  /* ---------------- verifyVectorSet ---------------- */

  /** `` `${v.name}` ``, the vector's name in an error message. */
  function VectorName(v: Value): Result<string, Error>
  {
    ToJsString(Prop(v, "name"))
  }

  /** `fail(name)`, or the error of converting the name. */
  function Fail(v: Value, fail: string -> Error): (r: Result<bool, Error>)
    ensures r.Err?
  {
    match VectorName(v)
    case Err(e) => Err(e)
    case Ok(name) => Err(fail(name))
  }

  /** `JSON.stringify(got) === JSON.stringify(expected)`, or the error of stringifying either. */
  function SameJson(got: Value, expected: Value): (r: Result<bool, Error>)
    ensures r == Ok(true) <==> JsonStringify(got).Ok? && JsonStringify(expected).Ok? &&
                               JsonStringify(got).value == JsonStringify(expected).value
  {
    match JsonStringify(got)
    case Err(e) => Err(e)
    case Ok(g) =>
      match JsonStringify(expected)
      case Err(e) => Err(e)
      case Ok(x) => Ok(g == x)
  }

  /** The reply check: a reply must exist, and its `input` must have the expected JSON text. */
  function CheckReply(v: Value, reply: Value, expReply: Value): Result<bool, Error>
  {
    if !Truthy(reply) then Fail(v, n => MissingReply(n))
    else
      match SameJson(NullishOr(Prop(reply, "input"), Obj([])), NullishOr(Prop(expReply, "input"), Obj([])))
      case Err(e) => Err(e)
      case Ok(same) => if same then Ok(true) else Fail(v, n => ReplyMismatch(n))
  }

  /** Everything `verifyVectorSet` checks once a vector's program has run. */
  function CheckExpectations(v: Value, reply: Value, emits: seq<Value>, writes: seq<Value>, hash: string)
    : Result<bool, Error>
  {
    var expectation := Prop(v, "expect");
    var expReply := Prop(expectation, "reply_event");
    var replied := if Truthy(expReply) then CheckReply(v, reply, expReply) else Ok(true);
    if replied.Err? then replied
    else
      match SameJson(Arr(emits), NullishOr(Prop(expectation, "emits"), Arr([])))
      case Err(e) => Err(e)
      case Ok(sameEmits) =>
        if !sameEmits then Fail(v, n => EmitsMismatch(n))
        else
          match SameJson(Arr(writes), NullishOr(Prop(expectation, "writes"), Arr([])))
          case Err(e) => Err(e)
          case Ok(sameWrites) =>
            if !sameWrites then Fail(v, n => WritesMismatch(n))
            else if hash == "" then Fail(v, n => MissingAbiCompute(n))
            else Ok(true)
  }

  /** `v.pre_state?.idb ?? {}`, the seed of the vector's IDB. */
  function SeedOf(v: Value): Value
  {
    NullishOr(Prop(Prop(v, "pre_state"), "idb"), Obj([]))
  }

  /** The state of the in-memory IDB created from a seed. */
  function SeedState(entries: seq<Member>): IdbState
  {
    IdbState(SeedDb(entries), [])
  }

  /** The plugins `verifyVectorSet` hashes into every vector's envelope. */
  const VectorPlugins: Value := Arr([Str("idb"), Str("kql")])

  /** The run of a vector's program once admitted: its final IDB state and the VM's result. */
  function RunVector(abi: AbiResult, entries: seq<Member>): (Run, Result<VmResult, Error>)
  {
    RunProgramSpec(abi.programNorm, abi.policyNorm, SeedState(entries))
  }

  /** One vector of `verifyVectorSet`, in the order the runner takes its steps. */
  function VectorCheck(h: string -> string, v: Value): Result<bool, Error>
  {
    if IsNullish(v) then Err(PropOf(v, "program").error)
    else
      match VerifyAbi(h, Prop(v, "program"), Prop(v, "policy"), VectorPlugins, Undef)
      case Err(e) => Err(e)
      case Ok(abi) =>
        match Admission(abi.programNorm.blocks, abi.policyNorm.allowedRoutes)
        case Err(e) => Err(e)
        case Ok(_) =>
          match SeedEntries(SeedOf(v))
          case Err(e) => Err(e)
          case Ok(entries) =>
            var run := RunVector(abi, entries);
            match run.1
            case Err(e) => Err(e)
            case Ok(result) => CheckExpectations(v, result.reply, result.emits, run.0.state.writes, abi.hash)
  }

  /** The callback the runner applies to each vector. */
  function VectorCheckWith(h: string -> string): Value -> Result<bool, Error>
  {
    (v: Value) => VectorCheck(h, v)
  }

  /** `verifyVectorSet(vectorSet)`: the format, the vectors array, then every vector in order. */
  function VectorSetCheck(h: string -> string, vectorSet: Value): Result<bool, Error>
  {
    if !Truthy(vectorSet) || !StrictEq(Prop(vectorSet, "format"), Str("matrix.conformance.v1")) then
      Err(ConformanceFormat)
    else if !Prop(vectorSet, "vectors").Arr? then Err(VectorsRequired)
    else AllVectors(h, Prop(vectorSet, "vectors").items)
  }

  /** Every vector in order, stopping at the first that fails. */
  function AllVectors(h: string -> string, vs: seq<Value>): Result<bool, Error>
  {
    match MapAll(VectorCheckWith(h), vs)
    case Err(e) => Err(e)
    case Ok(_) => Ok(true)
  }

  /** One vector against a fresh in-memory IDB. */
  method VerifyVector(h: string -> string, v: Value) returns (r: Result<bool, Error>)
    ensures r == VectorCheck(h, v)
  {
    if IsNullish(v) {
      return Err(PropOf(v, "program").error);
    }
    var abi := VerifyAbi(h, Prop(v, "program"), Prop(v, "policy"), VectorPlugins, Undef);
    if abi.Err? {
      return Err(abi.error);
    }
    var admitted := AdmitProgram(abi.value.programNorm, abi.value.policyNorm);
    if admitted.Err? {
      return Err(admitted.error);
    }
    var entries := SeedEntries(SeedOf(v));
    if entries.Err? {
      return Err(entries.error);
    }
    var idb := new MemoryIdb(entries.value);
    var result := RunProgram(abi.value.programNorm, abi.value.policyNorm, Prop(v, "input_event"), idb);
    if result.Err? {
      return Err(result.error);
    }
    r := CheckExpectations(v, result.value.reply, result.value.emits, idb.writes, abi.value.hash);
  }

  /** `verifyVectorSet(vectorSet)`, with its loop over the vectors. */
  method VerifyVectorSet(h: string -> string, vectorSet: Value) returns (r: Result<bool, Error>)
    ensures r == VectorSetCheck(h, vectorSet)
  {
    if !Truthy(vectorSet) || !StrictEq(Prop(vectorSet, "format"), Str("matrix.conformance.v1")) {
      return Err(ConformanceFormat);
    }
    var vectors := Prop(vectorSet, "vectors");
    if !vectors.Arr? {
      return Err(VectorsRequired);
    }
    r := CheckVectors(h, vectors.items);
  }

  /** The loop of `verifyVectorSet` over the vectors. */
  method CheckVectors(h: string -> string, vs: seq<Value>) returns (r: Result<bool, Error>)
    ensures r == AllVectors(h, vs)
  {
    for i := 0 to |vs|
      invariant AllOk(VectorCheckWith(h), vs[..i])
    {
      var ok := VerifyVector(h, vs[i]);
      MapAllStep(VectorCheckWith(h), vs, i);
      if ok.Err? {
        return Err(ok.error);
      }
    }
    MapAllDone(VectorCheckWith(h), vs);
    return Ok(true);
  }

  /* ---------------- properties ---------------- */

  /**
   * `verifyAbi` throws `ABI_MISMATCH` exactly when an expected hash is supplied and differs from the
   * computed one; otherwise it returns what it computed.
   */
  lemma AbiMismatchIff(h: string -> string, programPack: Value, policy: Value, plugins: Value, expected: Value)
    requires ComputeAbi(h, programPack, policy, plugins).Ok?
    ensures var abi := ComputeAbi(h, programPack, policy, plugins).value;
            var r := VerifyAbi(h, programPack, policy, plugins, expected);
            (r.Err? <==> Truthy(expected) && !StrictEq(Str(abi.hash), expected)) &&
            (r.Ok? ==> r.value == abi) &&
            (r.Err? && ToJsString(expected).Ok? ==> r.error == AbiMismatch(ToJsString(expected).value, abi.hash))
  {
  }

  /** Supplying the hash `verifyAbi` computes as the expected hash is accepted. */
  lemma AbiOwnHash(h: string -> string, programPack: Value, policy: Value, plugins: Value)
    requires VerifyAbi(h, programPack, policy, plugins, Undef).Ok?
    ensures var abi := VerifyAbi(h, programPack, policy, plugins, Undef).value;
            VerifyAbi(h, programPack, policy, plugins, Str(abi.hash)) == Ok(abi)
  {
  }

  /**
   * `verifyAbi` returns exactly the normalised policy and program it hashed: the envelope is theirs,
   * and the hash is the envelope's.
   */
  lemma AbiReturnsNorms(h: string -> string, programPack: Value, policy: Value, plugins: Value, expected: Value)
    requires VerifyAbi(h, programPack, policy, plugins, expected).Ok?
    ensures var abi := VerifyAbi(h, programPack, policy, plugins, expected).value;
            NormalizePolicyV1(policy) == Ok(abi.policyNorm) &&
            NormalizeProgramV1(programPack) == Ok(abi.programNorm) &&
            MatrixEnvelope(h, PolicyValue(abi.policyNorm), ProgramValue(abi.programNorm),
                           PluginsOrDefault(plugins), Str("host_agnostic")) == Ok(abi.envelope) &&
            MatrixAbiHash(h, abi.envelope) == Ok(abi.hash)
  {
    AbiMismatchIff(h, programPack, policy, plugins, expected);
    ComputedParts(h, programPack, policy, plugins);
  }

  /** What `ComputeAbi` returns is built from the normalised inputs. */
  lemma ComputedParts(h: string -> string, programPack: Value, policy: Value, plugins: Value)
    requires ComputeAbi(h, programPack, policy, plugins).Ok?
    ensures var abi := ComputeAbi(h, programPack, policy, plugins).value;
            NormalizePolicyV1(policy) == Ok(abi.policyNorm) &&
            NormalizeProgramV1(programPack) == Ok(abi.programNorm) &&
            MatrixEnvelope(h, PolicyValue(abi.policyNorm), ProgramValue(abi.programNorm),
                           PluginsOrDefault(plugins), Str("host_agnostic")) == Ok(abi.envelope) &&
            MatrixAbiHash(h, abi.envelope) == Ok(abi.hash)
  {
    var policyNorm := NormalizePolicyV1(policy);
    var programNorm := NormalizeProgramV1(programPack);
    assert policyNorm.Ok? && programNorm.Ok?;
    var env := MatrixEnvelope(h, PolicyValue(policyNorm.value), ProgramValue(programNorm.value),
                              PluginsOrDefault(plugins), Str("host_agnostic"));
    assert env.Ok? && MatrixAbiHash(h, env.value).Ok?;
    assert ComputeAbi(h, programPack, policy, plugins)
        == Ok(AbiResult(env.value, MatrixAbiHash(h, env.value).value, policyNorm.value, programNorm.value));
  }

  /** Admission succeeds exactly when every block's op is one of the allowed routes. */
  lemma AdmissionIff(blocks: seq<Block>, routes: seq<Value>)
    ensures Admission(blocks, routes) == Ok(true) <==> forall i :: 0 <= i < |blocks| ==> Str(blocks[i].op) in routes
  {
    forall i | 0 <= i < |blocks|
      ensures Routed(routes, blocks[i].op) <==> Str(blocks[i].op) in routes
    {
      SetHasString(routes, blocks[i].op);
    }
  }

  /** A refusal names the first block, in program order, whose op is not an allowed route. */
  lemma AdmissionDeniesFirst(blocks: seq<Block>, routes: seq<Value>)
    requires Admission(blocks, routes).Err?
    ensures exists i :: 0 <= i < |blocks| && Admission(blocks, routes) == Err(PolicyDeny(blocks[i].op)) &&
                        Str(blocks[i].op) !in routes &&
                        forall j :: 0 <= j < i ==> Str(blocks[j].op) in routes
  {
    var i := FirstDenied(blocks, routes).value;
    SetHasString(routes, blocks[i].op);
    forall j | 0 <= j < i
      ensures Str(blocks[j].op) in routes
    {
      SetHasString(routes, blocks[j].op);
    }
  }

  /** Admission depends on which routes are allowed, not on their order or repetition. */
  lemma AdmissionRouteOrder(blocks: seq<Block>, routes: seq<Value>, others: seq<Value>)
    requires forall x :: x in routes <==> x in others
    ensures Admission(blocks, routes) == Admission(blocks, others)
  {
    forall op: string
      ensures Routed(routes, op) <==> Routed(others, op)
    {
      SetHasString(routes, op);
      SetHasString(others, op);
    }
    match FirstDenied(blocks, routes)
    case Some(i) => FirstDeniedAt(blocks, others, i);
    case None =>
  }

  /** The expected reply is compared only when one is expected: otherwise the reply plays no part. */
  lemma ReplyIgnoredUnlessExpected(v: Value, reply: Value, other: Value, emits: seq<Value>, writes: seq<Value>,
                                   hash: string)
    requires !Truthy(Prop(Prop(v, "expect"), "reply_event"))
    ensures CheckExpectations(v, reply, emits, writes, hash) == CheckExpectations(v, other, emits, writes, hash)
  {
  }

  /**
   * A vector's run passes exactly when: an expected reply is matched by a reply whose `input` has
   * the same JSON text; the emitted events and the writes have the JSON text of the expected ones;
   * and the ABI hash is not empty.
   */
  lemma ExpectationsIff(v: Value, reply: Value, emits: seq<Value>, writes: seq<Value>, hash: string)
    ensures var expectation := Prop(v, "expect");
            var expReply := Prop(expectation, "reply_event");
            CheckExpectations(v, reply, emits, writes, hash) == Ok(true) <==>
              (Truthy(expReply) ==>
                 Truthy(reply) &&
                 SameJson(NullishOr(Prop(reply, "input"), Obj([])), NullishOr(Prop(expReply, "input"), Obj([]))) == Ok(true)) &&
              SameJson(Arr(emits), NullishOr(Prop(expectation, "emits"), Arr([]))) == Ok(true) &&
              SameJson(Arr(writes), NullishOr(Prop(expectation, "writes"), Arr([]))) == Ok(true) &&
              hash != ""
  {
  }

  /** A set with the wrong format or without a vectors array is refused before any vector runs. */
  lemma VectorSetShape(h: string -> string, vectorSet: Value)
    ensures !Truthy(vectorSet) || !StrictEq(Prop(vectorSet, "format"), Str("matrix.conformance.v1")) ==>
              VectorSetCheck(h, vectorSet) == Err(ConformanceFormat)
    ensures (Truthy(vectorSet) && StrictEq(Prop(vectorSet, "format"), Str("matrix.conformance.v1")) &&
             !Prop(vectorSet, "vectors").Arr?) ==> VectorSetCheck(h, vectorSet) == Err(VectorsRequired)
  {
  }

  /** A set passes exactly when every vector passes; otherwise the first failing vector's error is the result. */
  lemma VectorSetAll(h: string -> string, vs: seq<Value>)
    ensures AllVectors(h, vs) == Ok(true) <==> forall i :: 0 <= i < |vs| ==> VectorCheck(h, vs[i]).Ok?
    ensures AllVectors(h, vs).Err? ==>
              exists i :: 0 <= i < |vs| && VectorCheck(h, vs[i]) == Err(AllVectors(h, vs).error) &&
                          forall j :: 0 <= j < i ==> VectorCheck(h, vs[j]).Ok?
  {
    assert forall i :: 0 <= i < |vs| ==> VectorCheckWith(h)(vs[i]) == VectorCheck(h, vs[i]);
  }

  /** Admission runs before the program: a refused program fails with the refusal, whatever its blocks would do. */
  lemma AdmissionBeforeRun(h: string -> string, v: Value)
    requires !IsNullish(v)
    requires VerifyAbi(h, Prop(v, "program"), Prop(v, "policy"), VectorPlugins, Undef).Ok?
    requires var abi := VerifyAbi(h, Prop(v, "program"), Prop(v, "policy"), VectorPlugins, Undef).value;
             Admission(abi.programNorm.blocks, abi.policyNorm.allowedRoutes).Err?
    ensures var abi := VerifyAbi(h, Prop(v, "program"), Prop(v, "policy"), VectorPlugins, Undef).value;
            VectorCheck(h, v) == Admission(abi.programNorm.blocks, abi.policyNorm.allowedRoutes)
  {
  }
}
