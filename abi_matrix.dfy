/**
 * The program ABI ("matrix"): normalisation of a runtime policy and of a block program, and an
 * envelope that binds both, with the plugin inventory and a few fixed identities, by their
 * hashes. Every hash is the SHA-256 of the canonical JSON text of its input; SHA-256 itself is
 * the parameter `h`.
 */
module AbiMatrix {
  import opened Wrappers
  import opened Errors
  import opened JsText
  import opened JsValue
  import opened JsNumber
  import opened JsSort
  import opened CanonicalJson

  /** `sha256hexCanonical(x)`: the canonical text's hash; a value without JSON text cannot be hashed. */
  function CanonHash(h: string -> string, x: Value): (r: Result<string, Error>)
    ensures r.Ok? <==> CanonicalJsonStringify(x).Ok?
    ensures r.Ok? ==> r.value == h(CanonicalJsonStringify(x).value.value)
  {
    match CanonicalJsonStringify(x)
    case Err(e) => Err(e)
    case Ok(text) =>
      CanonicalizeKind(x);
      Ok(h(text.value))
  }

  /** `{ k: v }`. */
  function Single(k: string, v: Value): Value
  {
    Obj([Member(k, v)])
  }

  /** `MATRIX_SYMBOLS_V1`: the op and effect inventory. */
  const MatrixSymbols: Value := Obj([
    Member("version", Num(Int(1))),
    Member("ops", Arr(Strs(["event.reply", "event.emit", "event.stream.subscribe", "idb.get", "idb.put",
                            "idb.query", "kql.compile"]))),
    Member("effects", Arr(Strs(["reply", "emit", "write", "read"])))])

  /** `computeSymbolsHash()`. */
  function MatrixSymbolsHash(h: string -> string): Result<string, Error>
  {
    CanonHash(h, Single("symbols", MatrixSymbols))
  }

  /** `computeIOSchemaHash()`. */
  function IoSchemaHash(h: string -> string): Result<string, Error>
  {
    CanonHash(h, Single("io", Obj([
      Member("event", Str("kuhul://schema/matrix/event/v1")),
      Member("policy", Str("kuhul://schema/matrix/policy/v1")),
      Member("program", Str("kuhul://schema/matrix/program/v1")),
      Member("abi", Str("kuhul://schema/matrix/abi/v1"))])))
  }

  /** `transpilerHashV01()`. */
  function TranspilerHash(h: string -> string): Result<string, Error>
  {
    CanonHash(h, Single("transpiler", Str("matrix-runtime:ast:v0.1.0")))
  }

  /* ---------------- normalizePolicyV1 ---------------- */

  /** The normalised policy. */
  datatype NormPolicy = NormPolicy(
    maxDepth: int,
    allowNetwork: bool, allowExec: bool, allowFsRead: bool, allowFsWrite: bool, allowIdb: bool, allowCrypto: bool,
    allowedRoutes: seq<Value>, allowedPlugins: seq<Value>, fieldAllowlist: seq<Value>, paramAllowlist: seq<Value>)

  /** The normalised policy as the object `normalizePolicyV1` returns. */
  function PolicyValue(n: NormPolicy): (v: Value)
    ensures v.Obj? && |v.fields| == 12
  {
    Obj([
      Member("matrix_policy_version", Num(Int(1))),
      Member("max_depth", Num(Int(n.maxDepth))),
      Member("allow_network", Bool(n.allowNetwork)),
      Member("allow_exec", Bool(n.allowExec)),
      Member("allow_fs_read", Bool(n.allowFsRead)),
      Member("allow_fs_write", Bool(n.allowFsWrite)),
      Member("allow_idb", Bool(n.allowIdb)),
      Member("allow_crypto", Bool(n.allowCrypto)),
      Member("allowed_routes", Arr(n.allowedRoutes)),
      Member("allowed_plugins", Arr(n.allowedPlugins)),
      Member("field_allowlist", Arr(n.fieldAllowlist)),
      Member("param_allowlist", Arr(n.paramAllowlist))])
  }

  /** `Array.isArray(x) ? [...x] : []`. */
  function ArrayCopy(x: Value): (r: seq<Value>)
    ensures x.Arr? ==> r == x.items
    ensures !x.Arr? ==> r == []
  {
    if x.Arr? then x.items else []
  }

  /** The policy test that opens `normalizePolicyV1`. */
  predicate VersionOk(policy: Value)
  {
    Truthy(policy) && StrictEq(Prop(policy, "matrix_policy_version"), Num(Int(1)))
  }

  /** `Number.isInteger(d) && 1 <= d <= 4096`. */
  predicate DepthInBounds(d: MathNum)
  {
    IsInteger(d) && 1.0 <= d.x <= 4096.0
  }

  /**
   * `normalizePolicyV1(policy)`. The object is built first (the depth converted, the lists
   * copied), the copies are then sorted in place, and only then is the depth bounded; so a
   * conversion or sort failure is reported before a depth out of bounds.
   */
  function NormalizePolicyV1(policy: Value): (r: Result<NormPolicy, Error>)
    ensures !VersionOk(policy) ==> r == Err(PolicyVersion)
    ensures r.Ok? ==> 1 <= r.value.maxDepth <= 4096
  {
    var depth := ToNumber(NullishOr(Prop(policy, "max_depth"), Num(Int(64))));
    var routes := DefaultSort(ArrayCopy(Prop(policy, "allowed_routes")));
    var plugins := DefaultSort(ArrayCopy(Prop(policy, "allowed_plugins")));
    var fields := DefaultSort(ArrayCopy(Prop(policy, "field_allowlist")));
    var params := DefaultSort(ArrayCopy(Prop(policy, "param_allowlist")));
    if !VersionOk(policy) then Err(PolicyVersion)
    else if depth.Err? then Err(depth.error)
    else if routes.Err? then Err(routes.error)
    else if plugins.Err? then Err(plugins.error)
    else if fields.Err? then Err(fields.error)
    else if params.Err? then Err(params.error)
    else if !DepthInBounds(depth.value) then Err(MaxDepthOutOfBounds)
    else
      Ok(NormPolicy(depth.value.x.Floor,
        Truthy(Prop(policy, "allow_network")), Truthy(Prop(policy, "allow_exec")),
        Truthy(Prop(policy, "allow_fs_read")), Truthy(Prop(policy, "allow_fs_write")),
        Truthy(Prop(policy, "allow_idb")), Truthy(Prop(policy, "allow_crypto")),
        routes.value, plugins.value, fields.value, params.value))
  }

  /** `computePolicyHash(policyNorm)`. */
  function MatrixPolicyHash(h: string -> string, policyNorm: Value): Result<string, Error>
  {
    CanonHash(h, Single("policy", policyNorm))
  }

  /* ---------------- normalizeProgramV1 ---------------- */

  /** A normalised block: its op and its argument object. */
  datatype Block = Block(op: string, args: Value)

  /** The normalised program pack. */
  datatype NormProgram = NormProgram(name: string, entry: string, blocks: seq<Block>)

  function BlockValue(b: Block): Value
  {
    Obj([Member("op", Str(b.op)), Member("args", b.args)])
  }

  function BlockValues(bs: seq<Block>): (vs: seq<Value>)
    ensures |vs| == |bs| && forall i :: 0 <= i < |bs| ==> vs[i] == BlockValue(bs[i])
  {
    seq(|bs|, i requires 0 <= i < |bs| => BlockValue(bs[i]))
  }

  const ProgramFormatV1 := "matrix.program.v1"

  /** The normalised pack as the object `normalizeProgramV1` returns. */
  function ProgramValue(p: NormProgram): (v: Value)
    ensures v.Obj?
  {
    Obj([Member("format", Str(ProgramFormatV1)),
         Member("program", Obj([Member("name", Str(p.name)), Member("entry", Str(p.entry)),
                                Member("blocks", Arr(BlockValues(p.blocks)))]))])
  }

  /** An argument object: not null and not an array. */
  predicate IsArgsObject(v: Value)
  {
    v.Obj? || v.Foreign?
  }

  /** The check `normalizeProgramV1` makes of one block, in its order. */
  function BlockError(b: Value): (r: Option<Error>)
    ensures r.None? <==> IsObject(b) && Prop(b, "op").Str? && Prop(b, "op").s != "" && HasOwn(b, "args") && IsArgsObject(Prop(b, "args"))
  {
    if !Truthy(b) || TypeOf(b) != "object" then Some(BlockNotObject)
    else if !Prop(b, "op").Str? || Prop(b, "op").s == "" then Some(BlockOpInvalid)
    else if !HasOwn(b, "args") || TypeOf(Prop(b, "args")) != "object" || Prop(b, "args").Null? || Prop(b, "args").Arr?
    then Some(BlockArgsInvalid)
    else None
  }

  /** `p.blocks.map(...)`: each block checked in order, the first failure reported. */
  function NormalizeBlocks(items: seq<Value>): (r: Result<seq<Block>, Error>)
    ensures r.Ok? <==> forall i :: 0 <= i < |items| ==> BlockError(items[i]).None?
    ensures r.Ok? ==>
      && |r.value| == |items|
      && forall i :: 0 <= i < |items| ==> r.value[i] == Block(Prop(items[i], "op").s, Prop(items[i], "args"))
    ensures r.Err? ==>
      exists i :: && 0 <= i < |items| && BlockError(items[i]) == Some(r.error)
                  && forall j :: 0 <= j < i ==> BlockError(items[j]).None?
  {
    if items == [] then Ok([])
    else
      match BlockError(items[0])
      case Some(e) => Err(e)
      case None =>
        var rest := NormalizeBlocks(items[1..]);
        assert forall i :: 1 <= i < |items| ==> items[i] == items[1..][i - 1];
        if rest.Err? then
          var k :| 0 <= k < |items[1..]| && BlockError(items[1..][k]) == Some(rest.error) &&
            forall j :: 0 <= j < k ==> BlockError(items[1..][j]).None?;
          assert BlockError(items[k + 1]) == Some(rest.error);
          Err(rest.error)
        else
          Ok([Block(Prop(items[0], "op").s, Prop(items[0], "args"))] + rest.value)
  }

  /** `normalizeProgramV1(programPack)`. */
  function NormalizeProgramV1(pack: Value): (r: Result<NormProgram, Error>)
    ensures !Truthy(pack) || !StrictEq(Prop(pack, "format"), Str(ProgramFormatV1)) ==> r == Err(ProgramFormat)
  {
    if !Truthy(pack) || !StrictEq(Prop(pack, "format"), Str(ProgramFormatV1)) then Err(ProgramFormat)
    else
      var p := Prop(pack, "program");
      if !Truthy(p) || TypeOf(p) != "object" then Err(MissingProgram)
      else if !Prop(p, "blocks").Arr? then Err(BlocksNotArray)
      else
        var name := StringOf(Prop(p, "name"));
        var entry := StringOf(Prop(p, "entry"));
        var blocks := NormalizeBlocks(Prop(p, "blocks").items);
        if name.Err? then Err(name.error)
        else if entry.Err? then Err(entry.error)
        else if blocks.Err? then Err(blocks.error)
        else Ok(NormProgram(name.value, entry.value, blocks.value))
  }

  /** `computeProgramHash(programNorm)`. */
  function ProgramHash(h: string -> string, programNorm: Value): Result<string, Error>
  {
    CanonHash(h, Single("program", programNorm))
  }

  /* ---------------- computeCapabilitiesHash ---------------- */

  /** `[...x]`: the elements of an array, the characters of a string; nothing else is iterable here. */
  function SpreadItems(x: Value): (r: Result<seq<Value>, Error>)
    ensures x.Arr? ==> r == Ok(x.items)
  {
    match x
    case Arr(items) => Ok(items)
    case Str(s) => Ok(seq(|s|, i requires 0 <= i < |s| => Str([s[i]])))
    case _ => Err(TypeError("object is not iterable"))
  }

  /** `computeCapabilitiesHash(plugins = [])`: the sorted string forms of the plugins, hashed. */
  function CapabilitiesHash(h: string -> string, plugins: Value): Result<string, Error>
  {
    var items :- SpreadItems(if plugins.Undef? then Arr([]) else plugins);
    var names :- MapAll(StringOf, items);
    CanonHash(h, Single("plugins", Arr(Strs(SortStrings(names)))))
  }

  /* ---------------- computeAbiEnvelopeV1 ---------------- */

  /** The envelope object, given its target and its six hashes. */
  function MatrixEnvelopeOf(target: Value, symbols: string, policy: string, transpiler: string,
                            program: string, io: string, capabilities: string): (v: Value)
    ensures v.Obj? && |v.fields| == 11
  {
    Obj([
      Member("abi", Str("matrix")),
      Member("abi_version", Num(Int(1))),
      Member("surface", Str("matrix.v1")),
      Member("target", target),
      Member("symbols_hash", Str(symbols)),
      Member("policy_hash", Str(policy)),
      Member("transpiler_hash", Str(transpiler)),
      Member("program_hash", Str(program)),
      Member("io_schema_hash", Str(io)),
      Member("capabilities_hash", Str(capabilities)),
      Member("timestamp", Num(Int(0)))])
  }

  /** `target = "host_agnostic"`: the default applies only to a missing target. */
  function TargetOrDefault(target: Value): (t: Value)
    ensures !target.Undef? ==> t == target
  {
    if target.Undef? then Str("host_agnostic") else target
  }

  /** `computeAbiEnvelopeV1({ policyNorm, programNorm, plugins, target })`. */
  function MatrixEnvelope(h: string -> string, policyNorm: Value, programNorm: Value, plugins: Value, target: Value)
    : (r: Result<Value, Error>)
    ensures r.Ok? ==> r.value.Obj?
  {
    var symbols := MatrixSymbolsHash(h);
    var policy := MatrixPolicyHash(h, policyNorm);
    var transpiler := TranspilerHash(h);
    var program := ProgramHash(h, programNorm);
    var io := IoSchemaHash(h);
    var capabilities := CapabilitiesHash(h, plugins);
    if symbols.Err? then Err(symbols.error)
    else if policy.Err? then Err(policy.error)
    else if transpiler.Err? then Err(transpiler.error)
    else if program.Err? then Err(program.error)
    else if io.Err? then Err(io.error)
    else if capabilities.Err? then Err(capabilities.error)
    else Ok(MatrixEnvelopeOf(TargetOrDefault(target), symbols.value, policy.value, transpiler.value,
                             program.value, io.value, capabilities.value))
  }

  /** `computeAbiHash(envelope)`. */
  function MatrixAbiHash(h: string -> string, envelope: Value): Result<string, Error>
  {
    CanonHash(h, envelope)
  }

  /* ---------------- properties of normalizePolicyV1 ---------------- */

  /** The parts of a policy that passes the version test, before the depth is bounded. */
  predicate PartsOk(policy: Value)
  {
    && ToNumber(NullishOr(Prop(policy, "max_depth"), Num(Int(64)))).Ok?
    && DefaultSort(ArrayCopy(Prop(policy, "allowed_routes"))).Ok?
    && DefaultSort(ArrayCopy(Prop(policy, "allowed_plugins"))).Ok?
    && DefaultSort(ArrayCopy(Prop(policy, "field_allowlist"))).Ok?
    && DefaultSort(ArrayCopy(Prop(policy, "param_allowlist"))).Ok?
  }

  /**
   * Normalisation succeeds exactly when the version is 1, the parts convert and sort, and the
   * depth (`max_depth ?? 64`) is an integer in [1, 4096]; the result holds that depth.
   */
  lemma PolicyDepth(policy: Value)
    ensures var r := NormalizePolicyV1(policy); var d := ToNumber(NullishOr(Prop(policy, "max_depth"), Num(Int(64))));
      && (r.Ok? <==> VersionOk(policy) && PartsOk(policy) && DepthInBounds(d.value))
      && (r.Ok? ==> r.value.maxDepth as real == d.value.x)
      && (VersionOk(policy) && PartsOk(policy) && !DepthInBounds(d.value) ==> r == Err(MaxDepthOutOfBounds))
  {
    var d := ToNumber(NullishOr(Prop(policy, "max_depth"), Num(Int(64))));
    if VersionOk(policy) && PartsOk(policy) {
      if DepthInBounds(d.value) {
        assert NormalizePolicyV1(policy).Ok?;
      } else {
        assert NormalizePolicyV1(policy) == Err(MaxDepthOutOfBounds);
      }
    } else {
      assert NormalizePolicyV1(policy).Err?;
    }
  }

  /** A missing depth is 64. */
  lemma DefaultDepth(policy: Value)
    requires VersionOk(policy) && IsNullish(Prop(policy, "max_depth"))
    requires PartsOk(policy)
    ensures NormalizePolicyV1(policy).Ok? && NormalizePolicyV1(policy).value.maxDepth == 64
  {
  }

  /** Each switch is the truthiness of the policy's property; a missing one is false. */
  lemma SwitchesCoerced(policy: Value)
    requires NormalizePolicyV1(policy).Ok?
    ensures var n := NormalizePolicyV1(policy).value;
      && n.allowNetwork == Truthy(Prop(policy, "allow_network"))
      && n.allowExec == Truthy(Prop(policy, "allow_exec"))
      && n.allowFsRead == Truthy(Prop(policy, "allow_fs_read"))
      && n.allowFsWrite == Truthy(Prop(policy, "allow_fs_write"))
      && n.allowIdb == Truthy(Prop(policy, "allow_idb"))
      && n.allowCrypto == Truthy(Prop(policy, "allow_crypto"))
      && (Prop(policy, "allow_idb").Undef? ==> !n.allowIdb)
  {
  }

  /**
   * A list of the normalised policy holds the caller's elements (none when it was not an array),
   * is sorted by the default order, which leaves it unchanged when applied again.
   */
  predicate SortedCopyOf(list: seq<Value>, source: Value)
  {
    && multiset(list) == multiset(ArrayCopy(source))
    && (!source.Arr? ==> list == [])
    && DefaultSort(list) == Ok(list)
  }

  lemma SortedCopy(source: Value)
    requires DefaultSort(ArrayCopy(source)).Ok?
    ensures SortedCopyOf(DefaultSort(ArrayCopy(source)).value, source)
  {
    DefaultSortOrdered(ArrayCopy(source));
    DefaultSortIdempotent(ArrayCopy(source));
    if !source.Arr? {
      assert Defined([]) == [] && UndefCount([]) == 0 && Undefs(0) == [];
    }
  }

  lemma NormalizedLists(policy: Value)
    requires NormalizePolicyV1(policy).Ok?
    ensures var n := NormalizePolicyV1(policy).value;
      && n.allowedRoutes == DefaultSort(ArrayCopy(Prop(policy, "allowed_routes"))).value
      && n.allowedPlugins == DefaultSort(ArrayCopy(Prop(policy, "allowed_plugins"))).value
      && n.fieldAllowlist == DefaultSort(ArrayCopy(Prop(policy, "field_allowlist"))).value
      && n.paramAllowlist == DefaultSort(ArrayCopy(Prop(policy, "param_allowlist"))).value
  {
  }

  /** The four allowlists are sorted copies. */
  lemma AllowlistsSorted(policy: Value)
    requires NormalizePolicyV1(policy).Ok?
    ensures var n := NormalizePolicyV1(policy).value;
      && SortedCopyOf(n.allowedRoutes, Prop(policy, "allowed_routes"))
      && SortedCopyOf(n.allowedPlugins, Prop(policy, "allowed_plugins"))
      && SortedCopyOf(n.fieldAllowlist, Prop(policy, "field_allowlist"))
      && SortedCopyOf(n.paramAllowlist, Prop(policy, "param_allowlist"))
  {
    NormalizedLists(policy);
    var n := NormalizePolicyV1(policy).value;
    SortedCopy(Prop(policy, "allowed_routes"));
    assert SortedCopyOf(n.allowedRoutes, Prop(policy, "allowed_routes"));
    SortedCopy(Prop(policy, "allowed_plugins"));
    assert SortedCopyOf(n.allowedPlugins, Prop(policy, "allowed_plugins"));
    SortedCopy(Prop(policy, "field_allowlist"));
    assert SortedCopyOf(n.fieldAllowlist, Prop(policy, "field_allowlist"));
    SortedCopy(Prop(policy, "param_allowlist"));
  }

  /** Each property of a normalised policy object reads its own part. */
  lemma PolicyValueProps(n: NormPolicy)
    ensures var v := PolicyValue(n);
      && Prop(v, "matrix_policy_version") == Num(Int(1))
      && Prop(v, "max_depth") == Num(Int(n.maxDepth))
      && Prop(v, "allow_network") == Bool(n.allowNetwork)
      && Prop(v, "allow_exec") == Bool(n.allowExec)
      && Prop(v, "allow_fs_read") == Bool(n.allowFsRead)
      && Prop(v, "allow_fs_write") == Bool(n.allowFsWrite)
      && Prop(v, "allow_idb") == Bool(n.allowIdb)
      && Prop(v, "allow_crypto") == Bool(n.allowCrypto)
      && Prop(v, "allowed_routes") == Arr(n.allowedRoutes)
      && Prop(v, "allowed_plugins") == Arr(n.allowedPlugins)
      && Prop(v, "field_allowlist") == Arr(n.fieldAllowlist)
      && Prop(v, "param_allowlist") == Arr(n.paramAllowlist)
  {
    PolicyValueProps0(n);
    PolicyValueProps1(n);
    PolicyValueProps2(n);
    PolicyValueProps3(n);
    PolicyValueProps4(n);
    PolicyValueProps5(n);
    PolicyValueProps6(n);
    PolicyValueProps7(n);
    PolicyValueProps8(n);
    PolicyValueProps9(n);
    PolicyValueProps10(n);
    PolicyValueProps11(n);
  }

  lemma PolicyValueProps0(n: NormPolicy)
    ensures Prop(PolicyValue(n), "matrix_policy_version") == Num(Int(1))
  {
    PropAt(PolicyValue(n).fields, 0, "matrix_policy_version");
  }

  lemma PolicyValueProps1(n: NormPolicy)
    ensures Prop(PolicyValue(n), "max_depth") == Num(Int(n.maxDepth))
  {
    PropAt(PolicyValue(n).fields, 1, "max_depth");
  }

  lemma PolicyValueProps2(n: NormPolicy)
    ensures Prop(PolicyValue(n), "allow_network") == Bool(n.allowNetwork)
  {
    PropAt(PolicyValue(n).fields, 2, "allow_network");
  }

  lemma PolicyValueProps3(n: NormPolicy)
    ensures Prop(PolicyValue(n), "allow_exec") == Bool(n.allowExec)
  {
    PropAt(PolicyValue(n).fields, 3, "allow_exec");
  }

  lemma PolicyValueProps4(n: NormPolicy)
    ensures Prop(PolicyValue(n), "allow_fs_read") == Bool(n.allowFsRead)
  {
    PropAt(PolicyValue(n).fields, 4, "allow_fs_read");
  }

  lemma PolicyValueProps5(n: NormPolicy)
    ensures Prop(PolicyValue(n), "allow_fs_write") == Bool(n.allowFsWrite)
  {
    PropAt(PolicyValue(n).fields, 5, "allow_fs_write");
  }

  lemma PolicyValueProps6(n: NormPolicy)
    ensures Prop(PolicyValue(n), "allow_idb") == Bool(n.allowIdb)
  {
    PropAt(PolicyValue(n).fields, 6, "allow_idb");
  }

  lemma PolicyValueProps7(n: NormPolicy)
    ensures Prop(PolicyValue(n), "allow_crypto") == Bool(n.allowCrypto)
  {
    PropAt(PolicyValue(n).fields, 7, "allow_crypto");
  }

  lemma PolicyValueProps8(n: NormPolicy)
    ensures Prop(PolicyValue(n), "allowed_routes") == Arr(n.allowedRoutes)
  {
    PropAt(PolicyValue(n).fields, 8, "allowed_routes");
  }

  lemma PolicyValueProps9(n: NormPolicy)
    ensures Prop(PolicyValue(n), "allowed_plugins") == Arr(n.allowedPlugins)
  {
    PropAt(PolicyValue(n).fields, 9, "allowed_plugins");
  }

  lemma PolicyValueProps10(n: NormPolicy)
    ensures Prop(PolicyValue(n), "field_allowlist") == Arr(n.fieldAllowlist)
  {
    PropAt(PolicyValue(n).fields, 10, "field_allowlist");
  }

  lemma PolicyValueProps11(n: NormPolicy)
    ensures Prop(PolicyValue(n), "param_allowlist") == Arr(n.paramAllowlist)
  {
    PropAt(PolicyValue(n).fields, 11, "param_allowlist");
  }

  /** Normalising a normalised policy gives it back. */
  lemma NormalizePolicyIdempotent(policy: Value)
    requires NormalizePolicyV1(policy).Ok?
    ensures var n := NormalizePolicyV1(policy).value; NormalizePolicyV1(PolicyValue(n)) == Ok(n)
  {
    AllowlistsSorted(policy);
    PolicyValueNormal(NormalizePolicyV1(policy).value);
  }

  /** A policy whose depth is in bounds and whose lists are already in order is its own normal form. */
  lemma PolicyValueNormal(n: NormPolicy)
    requires 1 <= n.maxDepth <= 4096
    requires && DefaultSort(n.allowedRoutes) == Ok(n.allowedRoutes)
             && DefaultSort(n.allowedPlugins) == Ok(n.allowedPlugins)
             && DefaultSort(n.fieldAllowlist) == Ok(n.fieldAllowlist)
             && DefaultSort(n.paramAllowlist) == Ok(n.paramAllowlist)
    ensures NormalizePolicyV1(PolicyValue(n)) == Ok(n)
  {
    var v := PolicyValue(n);
    PolicyValueProps(n);
    assert VersionOk(v);
    DepthRoundTrip(n.maxDepth);
    NormalizesTo(v, n);
  }

  /** A depth in bounds, written as a number, reads back as itself. */
  lemma DepthRoundTrip(k: int)
    requires 1 <= k <= 4096
    ensures var d := ToNumber(NullishOr(Num(Int(k)), Num(Int(64))));
      d == Ok(Finite(k as real)) && DepthInBounds(d.value) && d.value.x.Floor == k
  {
  }

  /** The policy a pack normalises to, read off the parts `normalizePolicyV1` computes. */
  lemma NormalizesTo(v: Value, n: NormPolicy)
    requires VersionOk(v)
    requires var d := ToNumber(NullishOr(Prop(v, "max_depth"), Num(Int(64))));
      d.Ok? && DepthInBounds(d.value) && d.value.x.Floor == n.maxDepth
    requires && Truthy(Prop(v, "allow_network")) == n.allowNetwork && Truthy(Prop(v, "allow_exec")) == n.allowExec
             && Truthy(Prop(v, "allow_fs_read")) == n.allowFsRead && Truthy(Prop(v, "allow_fs_write")) == n.allowFsWrite
             && Truthy(Prop(v, "allow_idb")) == n.allowIdb && Truthy(Prop(v, "allow_crypto")) == n.allowCrypto
    requires && DefaultSort(ArrayCopy(Prop(v, "allowed_routes"))) == Ok(n.allowedRoutes)
             && DefaultSort(ArrayCopy(Prop(v, "allowed_plugins"))) == Ok(n.allowedPlugins)
             && DefaultSort(ArrayCopy(Prop(v, "field_allowlist"))) == Ok(n.fieldAllowlist)
             && DefaultSort(ArrayCopy(Prop(v, "param_allowlist"))) == Ok(n.paramAllowlist)
    ensures NormalizePolicyV1(v) == Ok(n)
  {
  }

  /* ---------------- properties of normalizeProgramV1 ---------------- */

  /** The checks before the blocks, in order. */
  lemma ProgramShapeErrors(pack: Value)
    requires Truthy(pack) && StrictEq(Prop(pack, "format"), Str(ProgramFormatV1))
    ensures var p := Prop(pack, "program");
      && (!IsObject(p) ==> NormalizeProgramV1(pack) == Err(MissingProgram))
      && (IsObject(p) && !Prop(p, "blocks").Arr? ==> NormalizeProgramV1(pack) == Err(BlocksNotArray))
  {
  }

  /**
   * On success the program keeps its blocks' number, order, ops and arguments, and holds the
   * string forms of its name and entry.
   */
  lemma ProgramKept(pack: Value)
    requires NormalizeProgramV1(pack).Ok?
    ensures var p := Prop(pack, "program"); var n := NormalizeProgramV1(pack).value;
      && IsObject(p) && Prop(p, "blocks").Arr?
      && var items := Prop(p, "blocks").items;
      && n.name == StringOf(Prop(p, "name")).value
      && n.entry == StringOf(Prop(p, "entry")).value
      && |n.blocks| == |items|
      && forall i :: 0 <= i < |items| ==>
           && Prop(items[i], "op") == Str(n.blocks[i].op) && n.blocks[i].op != ""
           && Prop(items[i], "args") == n.blocks[i].args && IsArgsObject(n.blocks[i].args)
  {
  }

  lemma BlockValueProps(b: Block)
    ensures Prop(BlockValue(b), "op") == Str(b.op) && Prop(BlockValue(b), "args") == b.args
    ensures HasOwn(BlockValue(b), "args")
  {
    PropAt(BlockValue(b).fields, 0, "op");
    PropAt(BlockValue(b).fields, 1, "args");
  }

  lemma ProgramValueProps(p: NormProgram)
    ensures var v := ProgramValue(p); var q := Prop(v, "program");
      && Prop(v, "format") == Str(ProgramFormatV1)
      && q.Obj?
      && Prop(q, "name") == Str(p.name) && Prop(q, "entry") == Str(p.entry)
      && Prop(q, "blocks") == Arr(BlockValues(p.blocks))
  {
    var fs := ProgramValue(p).fields;
    PropAt(fs, 0, "format");
    PropAt(fs, 1, "program");
    var gs := fs[1].val.fields;
    PropAt(gs, 0, "name");
    PropAt(gs, 1, "entry");
    PropAt(gs, 2, "blocks");
  }

  /** Normalising a normalised program gives it back. */
  lemma NormalizeProgramIdempotent(pack: Value)
    requires NormalizeProgramV1(pack).Ok?
    ensures var n := NormalizeProgramV1(pack).value; NormalizeProgramV1(ProgramValue(n)) == Ok(n)
  {
    var n := NormalizeProgramV1(pack).value;
    ProgramKept(pack);
    ProgramValueProps(n);
    BlocksBack(n.blocks);
    var v := ProgramValue(n);
    var p := Prop(v, "program");
    assert Truthy(v) && StrictEq(Prop(v, "format"), Str(ProgramFormatV1));
    assert Truthy(p) && TypeOf(p) == "object" && Prop(p, "blocks").Arr?;
    assert StringOf(Prop(p, "name")) == Ok(n.name) && StringOf(Prop(p, "entry")) == Ok(n.entry);
  }

  /** Normalising the objects of well-formed blocks gives the blocks back. */
  lemma BlocksBack(bs: seq<Block>)
    requires forall i :: 0 <= i < |bs| ==> bs[i].op != "" && IsArgsObject(bs[i].args)
    ensures NormalizeBlocks(BlockValues(bs)) == Ok(bs)
  {
    var items := BlockValues(bs);
    forall i | 0 <= i < |items|
      ensures BlockError(items[i]).None?
      ensures Block(Prop(items[i], "op").s, Prop(items[i], "args")) == bs[i]
    {
      BlockValueProps(bs[i]);
    }
    assert NormalizeBlocks(items).value == bs;
  }

  /* ---------------- properties of the hashes ---------------- */

  /** Every failure of the string conversion is the one a symbol raises. */
  lemma {:induction false} StringFailure(v: Value)
    requires ToJsString(v).Err?
    ensures ToJsString(v).error == TypeError("Cannot convert a Symbol value to a string")
    decreases v, 1
  {
    if v.Arr? {
      ItemsFailure(v.items);
    }
  }

  lemma {:induction false} ItemsFailure(items: seq<Value>)
    requires JoinItems(items).Err?
    ensures JoinItems(items).error == TypeError("Cannot convert a Symbol value to a string")
    decreases items, 0
  {
    if items != [] {
      if !IsNullish(items[0]) && ToJsString(items[0]).Err? {
        StringFailure(items[0]);
      } else if |items| > 1 {
        ItemsFailure(items[1..]);
      }
    }
  }

  /** Every `xs.map(String)` that throws, throws the error a symbol gives. */
  lemma StringsOfFailure(xs: seq<Value>)
    requires MapAll(StringOf, xs).Err?
    ensures MapAll(StringOf, xs).error == TypeError("Cannot convert a Symbol value to a string")
  {
    var i :| 0 <= i < |xs| && StringOf(xs[i]).Err? && StringOf(xs[i]).error == MapAll(StringOf, xs).error;
    StringFailure(xs[i]);
  }

  /** The capabilities hash does not depend on the order of the plugin list. */
  lemma CapabilitiesPermutation(h: string -> string, xs: seq<Value>, ys: seq<Value>)
    requires multiset(xs) == multiset(ys)
    ensures CapabilitiesHash(h, Arr(xs)) == CapabilitiesHash(h, Arr(ys))
  {
    if MapAll(StringOf, xs).Ok? {
      MapAllPermutation(StringOf, xs, ys);
      SortStringsPermutation(MapAll(StringOf, xs).value, MapAll(StringOf, ys).value);
    } else if MapAll(StringOf, ys).Ok? {
      MapAllPermutation(StringOf, ys, xs);
    } else {
      StringsOfFailure(xs);
      StringsOfFailure(ys);
    }
  }

  /* ---------------- properties of computeAbiEnvelopeV1 ---------------- */

  /** Each property of an envelope object reads its own part. */
  lemma EnvelopeProps(target: Value, s: string, p: string, t: string, g: string, i: string, c: string)
    ensures var v := MatrixEnvelopeOf(target, s, p, t, g, i, c);
      && Prop(v, "abi") == Str("matrix")
      && Prop(v, "abi_version") == Num(Int(1))
      && Prop(v, "surface") == Str("matrix.v1")
      && Prop(v, "target") == target
      && Prop(v, "symbols_hash") == Str(s)
      && Prop(v, "policy_hash") == Str(p)
      && Prop(v, "transpiler_hash") == Str(t)
      && Prop(v, "program_hash") == Str(g)
      && Prop(v, "io_schema_hash") == Str(i)
      && Prop(v, "capabilities_hash") == Str(c)
      && Prop(v, "timestamp") == Num(Int(0))
  {
    EnvelopeProps0(target, s, p, t, g, i, c);
    EnvelopeProps1(target, s, p, t, g, i, c);
    EnvelopeProps2(target, s, p, t, g, i, c);
    EnvelopeProps3(target, s, p, t, g, i, c);
    EnvelopeProps4(target, s, p, t, g, i, c);
    EnvelopeProps5(target, s, p, t, g, i, c);
    EnvelopeProps6(target, s, p, t, g, i, c);
    EnvelopeProps7(target, s, p, t, g, i, c);
    EnvelopeProps8(target, s, p, t, g, i, c);
    EnvelopeProps9(target, s, p, t, g, i, c);
    EnvelopeProps10(target, s, p, t, g, i, c);
  }

  lemma EnvelopeProps0(target: Value, s: string, p: string, t: string, g: string, i: string, c: string)
    ensures Prop(MatrixEnvelopeOf(target, s, p, t, g, i, c), "abi") == Str("matrix")
  {
    PropAt(MatrixEnvelopeOf(target, s, p, t, g, i, c).fields, 0, "abi");
  }

  lemma EnvelopeProps1(target: Value, s: string, p: string, t: string, g: string, i: string, c: string)
    ensures Prop(MatrixEnvelopeOf(target, s, p, t, g, i, c), "abi_version") == Num(Int(1))
  {
    PropAt(MatrixEnvelopeOf(target, s, p, t, g, i, c).fields, 1, "abi_version");
  }

  lemma EnvelopeProps2(target: Value, s: string, p: string, t: string, g: string, i: string, c: string)
    ensures Prop(MatrixEnvelopeOf(target, s, p, t, g, i, c), "surface") == Str("matrix.v1")
  {
    PropAt(MatrixEnvelopeOf(target, s, p, t, g, i, c).fields, 2, "surface");
  }

  lemma EnvelopeProps3(target: Value, s: string, p: string, t: string, g: string, i: string, c: string)
    ensures Prop(MatrixEnvelopeOf(target, s, p, t, g, i, c), "target") == target
  {
    PropAt(MatrixEnvelopeOf(target, s, p, t, g, i, c).fields, 3, "target");
  }

  lemma EnvelopeProps4(target: Value, s: string, p: string, t: string, g: string, i: string, c: string)
    ensures Prop(MatrixEnvelopeOf(target, s, p, t, g, i, c), "symbols_hash") == Str(s)
  {
    PropAt(MatrixEnvelopeOf(target, s, p, t, g, i, c).fields, 4, "symbols_hash");
  }

  lemma EnvelopeProps5(target: Value, s: string, p: string, t: string, g: string, i: string, c: string)
    ensures Prop(MatrixEnvelopeOf(target, s, p, t, g, i, c), "policy_hash") == Str(p)
  {
    PropAt(MatrixEnvelopeOf(target, s, p, t, g, i, c).fields, 5, "policy_hash");
  }

  lemma EnvelopeProps6(target: Value, s: string, p: string, t: string, g: string, i: string, c: string)
    ensures Prop(MatrixEnvelopeOf(target, s, p, t, g, i, c), "transpiler_hash") == Str(t)
  {
    PropAt(MatrixEnvelopeOf(target, s, p, t, g, i, c).fields, 6, "transpiler_hash");
  }

  lemma EnvelopeProps7(target: Value, s: string, p: string, t: string, g: string, i: string, c: string)
    ensures Prop(MatrixEnvelopeOf(target, s, p, t, g, i, c), "program_hash") == Str(g)
  {
    PropAt(MatrixEnvelopeOf(target, s, p, t, g, i, c).fields, 7, "program_hash");
  }

  lemma EnvelopeProps8(target: Value, s: string, p: string, t: string, g: string, i: string, c: string)
    ensures Prop(MatrixEnvelopeOf(target, s, p, t, g, i, c), "io_schema_hash") == Str(i)
  {
    PropAt(MatrixEnvelopeOf(target, s, p, t, g, i, c).fields, 8, "io_schema_hash");
  }

  lemma EnvelopeProps9(target: Value, s: string, p: string, t: string, g: string, i: string, c: string)
    ensures Prop(MatrixEnvelopeOf(target, s, p, t, g, i, c), "capabilities_hash") == Str(c)
  {
    PropAt(MatrixEnvelopeOf(target, s, p, t, g, i, c).fields, 9, "capabilities_hash");
  }

  lemma EnvelopeProps10(target: Value, s: string, p: string, t: string, g: string, i: string, c: string)
    ensures Prop(MatrixEnvelopeOf(target, s, p, t, g, i, c), "timestamp") == Num(Int(0))
  {
    PropAt(MatrixEnvelopeOf(target, s, p, t, g, i, c).fields, 10, "timestamp");
  }

  /**
   * A built envelope carries the fixed identity, the target (`"host_agnostic"` when none is
   * given), and the hash of each part: the symbols, transpiler and io hashes are those of fixed
   * inputs, the others those of the policy, the program and the plugins.
   */
  lemma EnvelopeFields(h: string -> string, policyNorm: Value, programNorm: Value, plugins: Value, target: Value)
    requires MatrixEnvelope(h, policyNorm, programNorm, plugins, target).Ok?
    ensures var v := MatrixEnvelope(h, policyNorm, programNorm, plugins, target).value;
      && Prop(v, "abi") == Str("matrix") && Prop(v, "abi_version") == Num(Int(1))
      && Prop(v, "surface") == Str("matrix.v1") && Prop(v, "timestamp") == Num(Int(0))
      && Prop(v, "target") == (if target.Undef? then Str("host_agnostic") else target)
      && Prop(v, "symbols_hash") == Str(MatrixSymbolsHash(h).value)
      && Prop(v, "transpiler_hash") == Str(TranspilerHash(h).value)
      && Prop(v, "io_schema_hash") == Str(IoSchemaHash(h).value)
      && Prop(v, "policy_hash") == Str(MatrixPolicyHash(h, policyNorm).value)
      && Prop(v, "program_hash") == Str(ProgramHash(h, programNorm).value)
      && Prop(v, "capabilities_hash") == Str(CapabilitiesHash(h, plugins).value)
  {
    var s := MatrixSymbolsHash(h).value;
    var p := MatrixPolicyHash(h, policyNorm).value;
    var t := TranspilerHash(h).value;
    var g := ProgramHash(h, programNorm).value;
    var i := IoSchemaHash(h).value;
    var c := CapabilitiesHash(h, plugins).value;
    var tgt := TargetOrDefault(target);
    EnvelopeProps(tgt, s, p, t, g, i, c);
  }

  /** Two envelopes built with the same hash function agree on the hashes of the fixed inputs. */
  lemma FixedHashesShared(h: string -> string, a: Value, b: Value, c: Value, d: Value,
                          a': Value, b': Value, c': Value, d': Value)
    requires MatrixEnvelope(h, a, b, c, d).Ok? && MatrixEnvelope(h, a', b', c', d').Ok?
    ensures var v := MatrixEnvelope(h, a, b, c, d).value; var w := MatrixEnvelope(h, a', b', c', d').value;
      && Prop(v, "symbols_hash") == Prop(w, "symbols_hash")
      && Prop(v, "transpiler_hash") == Prop(w, "transpiler_hash")
      && Prop(v, "io_schema_hash") == Prop(w, "io_schema_hash")
  {
    EnvelopeFields(h, a, b, c, d);
    EnvelopeFields(h, a', b', c', d');
  }
}
