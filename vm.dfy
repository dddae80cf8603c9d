/**
 * The block interpreter: it runs a normalised program's blocks in order against the in-memory
 * IDB plugin, keeping the last IDB result, the reply and the emitted events. The reply and every
 * emitted event have the shape `{ event, v: 1, input }`.
 */
module Vm {
  import opened Wrappers
  import opened Errors
  import opened JsValue
  import opened AbiMatrix
  import opened IdbMemory

  /** The interpreter's context: the last IDB result, the reply so far and the events emitted so far. */
  datatype Ctx = Ctx(last: Value, reply: Value, emits: seq<Value>)

  /** The context a run starts from. */
  const Start: Ctx := Ctx(Null, Null, [])

  /** A run so far: the plugin's state, and the context or the error that stopped the run. */
  datatype Run = Run(state: IdbState, result: Result<Ctx, Error>)

  /** What `runProgramWithPlugins` returns. */
  datatype VmResult = VmResult(reply: Value, emits: seq<Value>)

  /** The three ops that go through the IDB plugin. */
  predicate IsIdbOp(op: string)
  {
    op == "idb.query" || op == "idb.get" || op == "idb.put"
  }

  /** The ops the interpreter knows; any other op stops the run. */
  predicate IsKnownOp(op: string)
  {
    IsIdbOp(op) || op == "event.reply" || op == "event.emit"
  }

  /** The body of a reply or an emit: the last IDB result when `body_from` is `"last"`, else `body ?? {}`. */
  function Body(args: Value, last: Value): (v: Value)
    ensures StrictEq(Prop(args, "body_from"), Str("last")) ==> v == last
    ensures !StrictEq(Prop(args, "body_from"), Str("last")) && !IsNullish(Prop(args, "body")) ==> v == Prop(args, "body")
    ensures !StrictEq(Prop(args, "body_from"), Str("last")) && IsNullish(Prop(args, "body")) ==> v == Obj([])
  {
    if StrictEq(Prop(args, "body_from"), Str("last")) then last else NullishOr(Prop(args, "body"), Obj([]))
  }

  /** `{ event, v: 1, input }`. */
  function EventRecord(event: Value, input: Value): (v: Value)
    ensures v.Obj? && Prop(v, "event") == event && Prop(v, "v") == Num(Int(1)) && Prop(v, "input") == input
  {
    var fs := [Member("event", event), Member("v", Num(Int(1))), Member("input", input)];
    PropAt(fs, 0, "event");
    PropAt(fs, 1, "v");
    PropAt(fs, 2, "input");
    Obj(fs)
  }

  /** The outcome of an IDB call: its new state, and `last` set to what it returned. */
  function IdbStep(o: Outcome, ctx: Ctx): Run
  {
    Run(o.state, match o.result case Err(e) => Err(e) case Ok(v) => Ok(ctx.(last := v)))
  }

  /** One block. */
  function Step(b: Block, allowIdb: bool, st: IdbState, ctx: Ctx): Run
  {
    if IsIdbOp(b.op) && !allowIdb then Run(st, Err(IdbDisabled))
    else if b.op == "idb.query" then IdbStep(IdbQuery(st, Prop(b.args, "store"), Prop(b.args, "kql")), ctx)
    else if b.op == "idb.get" then IdbStep(IdbGet(st, Prop(b.args, "store"), Prop(b.args, "key")), ctx)
    else if b.op == "idb.put" then IdbStep(IdbPut(st, Prop(b.args, "store"), Prop(b.args, "value")), ctx)
    else if b.op == "event.reply" then
      var ev := Prop(b.args, "event");
      if !Truthy(ev) then Run(st, Err(ReplyMissingEvent))
      else Run(st, Ok(ctx.(reply := EventRecord(ev, Body(b.args, ctx.last)))))
    else if b.op == "event.emit" then
      Run(st, Ok(ctx.(emits := ctx.emits + [EventRecord(Prop(b.args, "event"), Body(b.args, ctx.last))])))
    else Run(st, Err(UnsupportedOp(b.op)))
  }

  /** The blocks run in order from `st` and `ctx`, stopping at the first block that throws. */
  function RunBlocks(blocks: seq<Block>, allowIdb: bool, st: IdbState, ctx: Ctx): Run
    decreases |blocks|
  {
    if blocks == [] then Run(st, Ok(ctx))
    else
      var before := RunBlocks(blocks[..|blocks| - 1], allowIdb, st, ctx);
      match before.result
      case Err(_) => before
      case Ok(c) => Step(blocks[|blocks| - 1], allowIdb, before.state, c)
  }

  /** `runProgramWithPlugins` as a value: the plugin's final state and the result or the error. */
  function RunProgramSpec(program: NormProgram, policy: NormPolicy, st: IdbState): (Run, Result<VmResult, Error>)
  {
    var run := RunBlocks(program.blocks, policy.allowIdb, st, Start);
    (run, match run.result case Err(e) => Err(e) case Ok(c) => Ok(VmResult(c.reply, c.emits)))
  }

  /** One block, against the plugin object. */
  method Exec(b: Block, allowIdb: bool, ctx: Ctx, idb: MemoryIdb) returns (r: Result<Ctx, Error>)
    modifies idb
    ensures Run(idb.State(), r) == Step(b, allowIdb, old(idb.State()), ctx)
  {
    if IsIdbOp(b.op) && !allowIdb {
      return Err(IdbDisabled);
    }
    if b.op == "idb.query" || b.op == "idb.get" || b.op == "idb.put" {
      var v: Result<Value, Error>;
      if b.op == "idb.query" {
        v := idb.Query(Prop(b.args, "store"), Prop(b.args, "kql"));
      } else if b.op == "idb.get" {
        v := idb.Get(Prop(b.args, "store"), Prop(b.args, "key"));
      } else {
        v := idb.Put(Prop(b.args, "store"), Prop(b.args, "value"));
      }
      return if v.Err? then Err(v.error) else Ok(ctx.(last := v.value));
    }
    if b.op == "event.reply" {
      var ev := Prop(b.args, "event");
      if !Truthy(ev) {
        return Err(ReplyMissingEvent);
      }
      return Ok(ctx.(reply := EventRecord(ev, Body(b.args, ctx.last))));
    }
    if b.op == "event.emit" {
      return Ok(ctx.(emits := ctx.emits + [EventRecord(Prop(b.args, "event"), Body(b.args, ctx.last))]));
    }
    return Err(UnsupportedOp(b.op));
  }

  /**
   * `runProgramWithPlugins({ programNorm, policyNorm, inputEvent, plugins: { idb } })`. The input
   * event is kept in the context by the original but never read, so it plays no part here.
   */
  method RunProgram(program: NormProgram, policy: NormPolicy, inputEvent: Value, idb: MemoryIdb)
    returns (r: Result<VmResult, Error>)
    modifies idb
    ensures (Run(idb.State(), RunProgramSpec(program, policy, old(idb.State())).0.result), r)
            == RunProgramSpec(program, policy, old(idb.State()))
  {
    var blocks := program.blocks;
    var ctx := Start;
    for i := 0 to |blocks|
      invariant RunBlocks(blocks[..i], policy.allowIdb, old(idb.State()), Start) == Run(idb.State(), Ok(ctx))
    {
      RunPrefix(blocks, i, policy.allowIdb, old(idb.State()), Start);
      var next := Exec(blocks[i], policy.allowIdb, ctx, idb);
      if next.Err? {
        RunStopped(blocks, i + 1, policy.allowIdb, old(idb.State()), Start);
        return Err(next.error);
      }
      ctx := next.value;
    }
    assert blocks[..|blocks|] == blocks;
    return Ok(VmResult(ctx.reply, ctx.emits));
  }

  /* ---------------- properties ---------------- */

  /** The last block runs from where the others left off, unless they threw. */
  lemma RunLast(blocks: seq<Block>, allowIdb: bool, st: IdbState, ctx: Ctx)
    requires blocks != []
    ensures var before := RunBlocks(blocks[..|blocks| - 1], allowIdb, st, ctx);
            RunBlocks(blocks, allowIdb, st, ctx) ==
              if before.result.Err? then before
              else Step(blocks[|blocks| - 1], allowIdb, before.state, before.result.value)
  {
  }

  /** Block `i` runs from where the blocks before it left off, unless they threw. */
  lemma RunPrefix(blocks: seq<Block>, i: nat, allowIdb: bool, st: IdbState, ctx: Ctx)
    requires i < |blocks|
    ensures var before := RunBlocks(blocks[..i], allowIdb, st, ctx);
            RunBlocks(blocks[..i + 1], allowIdb, st, ctx) ==
              if before.result.Err? then before
              else Step(blocks[i], allowIdb, before.state, before.result.value)
  {
    assert blocks[..i + 1][..i] == blocks[..i];
  }

  /** Once a prefix of the blocks has thrown, the rest of the blocks change nothing. */
  lemma {:induction false} RunStopped(blocks: seq<Block>, n: nat, allowIdb: bool, st: IdbState, ctx: Ctx)
    requires n <= |blocks| && RunBlocks(blocks[..n], allowIdb, st, ctx).result.Err?
    ensures RunBlocks(blocks, allowIdb, st, ctx) == RunBlocks(blocks[..n], allowIdb, st, ctx)
    decreases |blocks| - n
  {
    if n < |blocks| {
      var longer := blocks[..n + 1];
      assert longer[..n] == blocks[..n];
      assert RunBlocks(longer, allowIdb, st, ctx) == RunBlocks(blocks[..n], allowIdb, st, ctx);
      RunStopped(blocks, n + 1, allowIdb, st, ctx);
    } else {
      assert blocks[..n] == blocks;
    }
  }

  /** Blocks run strictly in order: running `a + b` is running `a`, then `b` from where `a` left off. */
  lemma {:induction false} RunAppend(a: seq<Block>, b: seq<Block>, allowIdb: bool, st: IdbState, ctx: Ctx)
    ensures var first := RunBlocks(a, allowIdb, st, ctx);
            RunBlocks(a + b, allowIdb, st, ctx) ==
              match first.result
              case Err(_) => first
              case Ok(c) => RunBlocks(b, allowIdb, first.state, c)
    decreases |b|
  {
    if b == [] {
      assert a + b == a;
    } else {
      var n := |b| - 1;
      assert (a + b)[..|a + b| - 1] == a + b[..n];
      RunAppend(a, b[..n], allowIdb, st, ctx);
    }
  }

  /** The number of blocks whose op is `op`. */
  function CountOp(blocks: seq<Block>, op: string): (n: nat)
    ensures n <= |blocks|
    decreases |blocks|
  {
    if blocks == [] then 0
    else CountOp(blocks[..|blocks| - 1], op) + (if blocks[|blocks| - 1].op == op then 1 else 0)
  }

  /**
   * A run that succeeds emits one event per `event.emit` block, after the events emitted before
   * it; every emitted event has `v` 1.
   */
  lemma {:induction false} EmitsCount(blocks: seq<Block>, allowIdb: bool, st: IdbState, ctx: Ctx)
    requires RunBlocks(blocks, allowIdb, st, ctx).result.Ok?
    ensures var c := RunBlocks(blocks, allowIdb, st, ctx).result.value;
            |c.emits| == |ctx.emits| + CountOp(blocks, "event.emit") && ctx.emits <= c.emits &&
            forall i :: |ctx.emits| <= i < |c.emits| ==> c.emits[i].Obj? && Prop(c.emits[i], "v") == Num(Int(1))
    decreases |blocks|
  {
    if blocks != [] {
      EmitsCount(blocks[..|blocks| - 1], allowIdb, st, ctx);
    }
  }

  /**
   * A run that succeeds leaves the reply it started with when there is no `event.reply` block, and
   * otherwise a reply with a truthy `event` and `v` 1.
   */
  lemma {:induction false} ReplyShape(blocks: seq<Block>, allowIdb: bool, st: IdbState, ctx: Ctx)
    requires RunBlocks(blocks, allowIdb, st, ctx).result.Ok?
    ensures var c := RunBlocks(blocks, allowIdb, st, ctx).result.value;
            (CountOp(blocks, "event.reply") == 0 ==> c.reply == ctx.reply) &&
            (CountOp(blocks, "event.reply") > 0 ==>
               c.reply.Obj? && Truthy(Prop(c.reply, "event")) && Prop(c.reply, "v") == Num(Int(1)))
    decreases |blocks|
  {
    if blocks != [] {
      ReplyShape(blocks[..|blocks| - 1], allowIdb, st, ctx);
    }
  }

  /** A program that succeeds returns a null reply exactly when it has no `event.reply` block. */
  lemma ReplyNull(program: NormProgram, policy: NormPolicy, st: IdbState)
    requires RunProgramSpec(program, policy, st).1.Ok?
    ensures var v := RunProgramSpec(program, policy, st).1.value;
            (v.reply == Null <==> CountOp(program.blocks, "event.reply") == 0) &&
            |v.emits| == CountOp(program.blocks, "event.emit")
  {
    ReplyShape(program.blocks, policy.allowIdb, st, Start);
    EmitsCount(program.blocks, policy.allowIdb, st, Start);
  }

  /** Only the IDB ops change `last` or the plugin's state. */
  lemma {:induction false} OnlyIdbTouchesLast(blocks: seq<Block>, allowIdb: bool, st: IdbState, ctx: Ctx)
    requires forall i :: 0 <= i < |blocks| ==> !IsIdbOp(blocks[i].op)
    ensures RunBlocks(blocks, allowIdb, st, ctx).state == st
    ensures RunBlocks(blocks, allowIdb, st, ctx).result.Ok? ==>
              RunBlocks(blocks, allowIdb, st, ctx).result.value.last == ctx.last
    decreases |blocks|
  {
    if blocks != [] {
      var init := blocks[..|blocks| - 1];
      assert forall i :: 0 <= i < |init| ==> init[i] == blocks[i];
      OnlyIdbTouchesLast(init, allowIdb, st, ctx);
    }
  }

  /** A block run with IDB disabled leaves the plugin's state alone, and an IDB op throws. */
  lemma StepDisabled(b: Block, allowIdb: bool, st: IdbState, ctx: Ctx)
    requires !allowIdb
    ensures Step(b, allowIdb, st, ctx).state == st
    ensures IsIdbOp(b.op) ==> Step(b, allowIdb, st, ctx) == Run(st, Err(IdbDisabled))
  {
    if !IsIdbOp(b.op) {
      assert b.op != "idb.query" && b.op != "idb.get" && b.op != "idb.put";
    }
  }

  /** With IDB disabled the plugin is never called, so its state is left as it was. */
  lemma {:induction false} IdbDisabledKeepsState(blocks: seq<Block>, allowIdb: bool, st: IdbState, ctx: Ctx)
    requires !allowIdb
    ensures RunBlocks(blocks, allowIdb, st, ctx).state == st
    decreases |blocks|
  {
    if blocks != [] {
      var init := blocks[..|blocks| - 1];
      IdbDisabledKeepsState(init, allowIdb, st, ctx);
      var before := RunBlocks(init, allowIdb, st, ctx);
      if before.result.Ok? {
        StepDisabled(blocks[|blocks| - 1], allowIdb, before.state, before.result.value);
      }
    }
  }

  /** With IDB disabled, a program with an IDB op fails. */
  lemma {:induction false} IdbDisabledFails(blocks: seq<Block>, allowIdb: bool, st: IdbState, ctx: Ctx, i: nat)
    requires !allowIdb && i < |blocks| && IsIdbOp(blocks[i].op)
    ensures RunBlocks(blocks, allowIdb, st, ctx).result.Err?
    decreases |blocks|
  {
    var init := blocks[..|blocks| - 1];
    var before := RunBlocks(init, allowIdb, st, ctx);
    RunLast(blocks, allowIdb, st, ctx);
    if i < |init| {
      assert init[i] == blocks[i];
      IdbDisabledFails(init, allowIdb, st, ctx, i);
    } else if before.result.Ok? {
      assert i == |blocks| - 1;
      var b := blocks[|blocks| - 1];
      StepDisabled(b, allowIdb, before.state, before.result.value);
      assert Step(b, allowIdb, before.state, before.result.value).result.Err?;
    }
  }

  /** A block with an op the interpreter does not know throws. */
  lemma StepUnknown(b: Block, allowIdb: bool, st: IdbState, ctx: Ctx)
    requires !IsKnownOp(b.op)
    ensures Step(b, allowIdb, st, ctx) == Run(st, Err(UnsupportedOp(b.op)))
  {
    assert b.op != "idb.query" && b.op != "idb.get" && b.op != "idb.put";
  }

  /** A block with an op the interpreter does not know makes the whole run fail. */
  lemma {:induction false} UnknownOpFails(blocks: seq<Block>, allowIdb: bool, st: IdbState, ctx: Ctx, i: nat)
    requires i < |blocks| && !IsKnownOp(blocks[i].op)
    ensures RunBlocks(blocks, allowIdb, st, ctx).result.Err?
    decreases |blocks|
  {
    var init := blocks[..|blocks| - 1];
    var before := RunBlocks(init, allowIdb, st, ctx);
    if i < |init| {
      assert init[i] == blocks[i];
      UnknownOpFails(init, allowIdb, st, ctx, i);
    } else if before.result.Ok? {
      StepUnknown(blocks[i], allowIdb, before.state, before.result.value);
    }
  }
}
