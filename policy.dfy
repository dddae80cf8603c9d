/**
 * The policy gate of the expression compiler: a walk over the tree, in its object form, that
 * bounds the depth and checks call, field and parameter names against allowlists.
 *
 * The walk visits every value it reaches, scalars included, one level deeper per property,
 * and checks the depth before it looks at anything else. The bound is compared with `>` as
 * JavaScript compares a number with an arbitrary value, so it is converted with ToNumber.
 */
module Policy {
  import opened Wrappers
  import opened Errors
  import opened JsValue
  import opened JsText
  import opened JsNumber
  import opened JsSort
  import opened Ast
  import opened Emitter

  /** `ALLOWED_CALLS`, in the order the set is built. */
  const AllowedCalls: seq<string> :=
    ["v", "exists", "clamp", "min", "max", "abs", "floor", "ceil", "round", "log", "sqrt", "pow"]

  /** The calls the policy admits are exactly the calls the emitter lowers. */
  lemma AllowedCallsAreLowered(name: string)
    ensures name in AllowedCalls <==> Arity(name).Some?
  {
  }

  /** The elements of `new Set(x)`: an array's items, a string's characters. */
  function SetElements(x: Value): (r: Result<seq<Value>, Error>)
    ensures x.Arr? ==> r == Ok(x.items)
    ensures IsNullish(x) ==> r == Ok([])
    ensures r.Err? <==> !(x.Arr? || x.Str? || IsNullish(x))
  {
    match x
    case Arr(items) => Ok(items)
    case Str(s) => Ok(seq(|s|, i requires 0 <= i < |s| => Str([s[i]])))
    case Undef => Ok([])
    case Null => Ok([])
    case _ => Err(TypeError("object is not iterable"))
  }

  /** The bound and the three sets the walk closes over: `ALLOWED_CALLS` and the two allowlists. */
  datatype Limits = Limits(maxDepth: MathNum, calls: seq<Value>, fields: seq<Value>, params: seq<Value>)

  /** `depth > maxDepth` for a bound already converted to a number. */
  predicate Exceeds(depth: nat, max: MathNum)
  {
    match max
    case Finite(x) => depth as real > x
    case NotANumber => false
    case Infinite(positive) => !positive
  }

  lemma ExceedsMonotone(a: nat, b: nat, max: MathNum)
    requires a <= b && Exceeds(a, max)
    ensures Exceeds(b, max)
  {
  }

  /** The three rules an object can break, in the order the walk checks them. */
  datatype Rule = CallRule | FieldRule | ParamRule

  /** A broken rule and the offending `name` property. */
  datatype Denial = Denial(rule: Rule, name: Value)

  /** The error a denial throws: the template literal converts the name with ToString. */
  function Report(d: Denial): (e: Error)
    ensures d.name.Str? ==> e == (match d.rule
      case CallRule => IllegalCall(d.name.s)
      case FieldRule => FieldNotAllowed(d.name.s)
      case ParamRule => ParamNotAllowed(d.name.s))
  {
    match ToJsString(d.name)
    case Ok(s) => (match d.rule
      case CallRule => IllegalCall(s)
      case FieldRule => FieldNotAllowed(s)
      case ParamRule => ParamNotAllowed(s))
    case Err(e) => e
  }

  /** A set built from strings holds exactly those strings. */
  lemma StringSetHas(xs: seq<string>, name: Value)
    ensures (name.Str? && name.s in xs) <==> SetHas(Strs(xs), name)
  {
    var elems := Strs(xs);
    if SetHas(elems, name) {
      var i :| 0 <= i < |elems| && SameValueZero(elems[i], name);
      assert elems[i] == Str(xs[i]);
    }
    if name.Str? && name.s in xs {
      var i :| 0 <= i < |xs| && xs[i] == name.s;
      assert SameValueZero(elems[i], name);
    }
  }

  /** `ALLOWED_CALLS.has(name)` holds exactly for the names the emitter lowers. */
  lemma CallSetHas(name: string)
    ensures SetHas(Strs(AllowedCalls), Str(name)) <==> Arity(name).Some?
  {
    StringSetHas(AllowedCalls, Str(name));
    AllowedCallsAreLowered(name);
  }

  /** `v.type` and `v.name`: neither key is `length` or an index, so only objects have them. */
  function NamedProp(v: Value, k: string): Value
  {
    match v
    case Obj(fs) => (match Lookup(fs, k) case Some(x) => x case None => Undef)
    case Foreign(fs) => (match Lookup(fs, k) case Some(x) => x case None => Undef)
    case _ => Undef
  }

  lemma NamedPropIsProp(v: Value, k: string)
    requires k == "type" || k == "name"
    ensures NamedProp(v, k) == Prop(v, k)
  {
    assert !IsDigit(k[0]) && k != "length";
    assert CanonicalIndex(k).None?;
  }

  /** The three checks on one object, in the order the walk makes them. */
  function NodeCheck(v: Value, lim: Limits): Result<(), Denial>
  {
    var ty := NamedProp(v, "type");
    var name := NamedProp(v, "name");
    if ty == Str("call") && !SetHas(lim.calls, name) then Err(Denial(CallRule, name))
    else if ty == Str("field") && !SetHas(lim.fields, name) then Err(Denial(FieldRule, name))
    else if ty == Str("param") && !SetHas(lim.params, name) then Err(Denial(ParamRule, name))
    else Ok(())
  }

  /** `x === "lit"` holds exactly when `x` is that very string. */
  lemma StrictEqString(x: Value, lit: string)
    ensures StrictEq(x, Str(lit)) <==> x == Str(lit)
  {
  }

  /**
   * An object passes its checks unless it is a call node whose name is not an allowed call, or
   * a field or parameter node whose name is not on the matching list; a violation names it.
   */
  lemma NodeChecks(v: Value, lim: Limits)
    ensures NodeCheck(v, lim).Ok? <==>
      && (StrictEq(Prop(v, "type"), Str("call")) ==> SetHas(lim.calls, Prop(v, "name")))
      && (StrictEq(Prop(v, "type"), Str("field")) ==> SetHas(lim.fields, Prop(v, "name")))
      && (StrictEq(Prop(v, "type"), Str("param")) ==> SetHas(lim.params, Prop(v, "name")))
    ensures var name := Prop(v, "name");
      && (StrictEq(Prop(v, "type"), Str("call")) && !SetHas(lim.calls, name) ==> NodeCheck(v, lim) == Err(Denial(CallRule, name)))
      && (StrictEq(Prop(v, "type"), Str("param")) && !SetHas(lim.params, name) ==> NodeCheck(v, lim) == Err(Denial(ParamRule, name)))
  {
    NamedPropIsProp(v, "type");
    NamedPropIsProp(v, "name");
    StrictEqString(Prop(v, "type"), "call");
    StrictEqString(Prop(v, "type"), "field");
    StrictEqString(Prop(v, "type"), "param");
  }

  /** Why the walk stopped: too deep, or an object broke a rule. */
  datatype Stop = Deep | Denied(denial: Denial)

  /** The error the walk throws when it stops. */
  function Thrown(stop: Stop): (e: Error)
    ensures stop.Deep? ==> e == TooDeep
  {
    match stop
    case Deep => TooDeep
    case Denied(d) => Report(d)
  }

  /**
   * `walk(node, depth)`. A value too deep fails whatever it is; a value that is not an object
   * passes; an object is checked, then each of its properties is walked one level deeper.
   */
  function Walk(v: Value, depth: nat, lim: Limits): (r: Result<(), Stop>)
    ensures Exceeds(depth, lim.maxDepth) ==> r == Err(Deep)
    ensures !Exceeds(depth, lim.maxDepth) && !IsObject(v) ==> r == Ok(())
    ensures !Exceeds(depth, lim.maxDepth) && NodeCheck(v, lim).Err? && IsObject(v) ==> r == Err(Denied(NodeCheck(v, lim).error))
    decreases v, 1
  {
    if Exceeds(depth, lim.maxDepth) then Err(Deep)
    else if !IsObject(v) then Ok(())
    else
      var check := NodeCheck(v, lim);
      if check.Err? then Err(Denied(check.error))
      else
        match v
        case Arr(items) => WalkItems(items, depth + 1, lim)
        case Obj(fs) => WalkMembers(fs, depth + 1, lim)
        case Foreign(fs) => WalkMembers(fs, depth + 1, lim)
        case _ => Ok(())
  }

  function WalkItems(items: seq<Value>, depth: nat, lim: Limits): Result<(), Stop>
    decreases items, 0
  {
    if items == [] then Ok(())
    else
      var first := Walk(items[0], depth, lim);
      if first.Err? then first else WalkItems(items[1..], depth, lim)
  }

  /** `for (const k in node)`: the properties in order, whatever their values. */
  function WalkMembers(fs: seq<Member>, depth: nat, lim: Limits): Result<(), Stop>
    decreases fs, 0
  {
    if fs == [] then Ok(())
    else
      var first := Walk(fs[0].val, depth, lim);
      if first.Err? then first else WalkMembers(fs[1..], depth, lim)
  }

  /** `enforcePolicy(ast, opts)`, where `opts` defaults to `{}` when undefined. */
  function EnforcePolicy(ast: Value, opts: Value): (r: Result<(), Error>)
    ensures opts.Null? ==> r.Err?
  {
    var o := if opts.Undef? then Obj([]) else opts;
    var _ :- PropOf(o, "maxDepth");
    EnforceWith(ast, Prop(o, "maxDepth"), Prop(o, "fields"), Prop(o, "params"))
  }

  /** The rest of `enforcePolicy` once `opts.maxDepth`, `opts.fields` and `opts.params` are read. */
  function EnforceWith(ast: Value, maxDepth: Value, fields: Value, params: Value): Result<(), Error>
  {
    var fieldSet :- SetElements(NullishOr(fields, Arr([])));
    var paramSet :- SetElements(NullishOr(params, Arr([])));
    var bound :- ToNumber(NullishOr(maxDepth, Num(Int(32))));
    match Walk(ast, 0, Limits(bound, Strs(AllowedCalls), fieldSet, paramSet))
    case Ok(_) => Ok(())
    case Err(stop) => Err(Thrown(stop))
  }

  /** With no options the bound is 32 and both allowlists are empty. */
  lemma Defaults(ast: Value)
    ensures EnforcePolicy(ast, Undef).Ok? <==> Walk(ast, 0, Limits(Finite(32.0), Strs(AllowedCalls), [], [])).Ok?
  {
    var o := Obj([]);
    assert Prop(o, "maxDepth") == Undef && Prop(o, "fields") == Undef && Prop(o, "params") == Undef;
    assert SetElements(Arr([])) == Ok([]);
    assert ToNumber(Num(Int(32))) == Ok(Finite(32.0));
  }

  /* ---------------- what the walk accepts ---------------- */

  function Max(a: nat, b: nat): nat { if a < b then b else a }

  /** The number of levels the walk descends through, counting `v` itself. */
  function Height(v: Value): (h: nat)
    ensures h >= 1
    decreases v, 1
  {
    match v
    case Arr(items) => 1 + ItemsHeight(items)
    case Obj(fs) => 1 + MembersHeight(fs)
    case Foreign(fs) => 1 + MembersHeight(fs)
    case _ => 1
  }

  function ItemsHeight(items: seq<Value>): (h: nat)
    ensures items == [] <==> h == 0
    decreases items, 0
  {
    if items == [] then 0 else Max(Height(items[0]), ItemsHeight(items[1..]))
  }

  function MembersHeight(fs: seq<Member>): (h: nat)
    ensures fs == [] <==> h == 0
    decreases fs, 0
  {
    if fs == [] then 0 else Max(Height(fs[0].val), MembersHeight(fs[1..]))
  }

  /** Every object reachable from `v` passes its three checks. */
  predicate NodesOk(v: Value, lim: Limits)
    decreases v, 1
  {
    match v
    case Arr(items) => NodeCheck(v, lim).Ok? && ItemsOk(items, lim)
    case Obj(fs) => NodeCheck(v, lim).Ok? && MembersOk(fs, lim)
    case Foreign(fs) => NodeCheck(v, lim).Ok? && MembersOk(fs, lim)
    case _ => true
  }

  predicate ItemsOk(items: seq<Value>, lim: Limits)
    decreases items, 0
  {
    items != [] ==> NodesOk(items[0], lim) && ItemsOk(items[1..], lim)
  }

  predicate MembersOk(fs: seq<Member>, lim: Limits)
    decreases fs, 0
  {
    fs != [] ==> NodesOk(fs[0].val, lim) && MembersOk(fs[1..], lim)
  }

  /**
   * The walk returns normally exactly when the deepest value it reaches is within the bound
   * and every object passes its checks; which violation is reported first does not matter.
   */
  lemma {:induction false} WalkOk(v: Value, depth: nat, lim: Limits)
    ensures Walk(v, depth, lim).Ok? <==> !Exceeds(depth + Height(v) - 1, lim.maxDepth) && NodesOk(v, lim)
    decreases v, 1
  {
    if Exceeds(depth, lim.maxDepth) {
      ExceedsMonotone(depth, depth + Height(v) - 1, lim.maxDepth);
    } else {
      match v
      case Arr(items) =>
        WalkItemsOk(items, depth + 1, lim);
        WalkArray(items, depth, lim);
      case Obj(fs) =>
        WalkMembersOk(fs, depth + 1, lim);
        WalkObject(v, fs, depth, lim);
      case Foreign(fs) =>
        WalkMembersOk(fs, depth + 1, lim);
        WalkObject(v, fs, depth, lim);
      case _ =>
    }
  }

  lemma WalkArray(items: seq<Value>, depth: nat, lim: Limits)
    requires !Exceeds(depth, lim.maxDepth)
    requires WalkItems(items, depth + 1, lim).Ok? <==>
      (items != [] ==> !Exceeds(depth + 1 + ItemsHeight(items) - 1, lim.maxDepth)) && ItemsOk(items, lim)
    ensures Walk(Arr(items), depth, lim).Ok? <==> !Exceeds(depth + Height(Arr(items)) - 1, lim.maxDepth) && NodesOk(Arr(items), lim)
  {
    var v := Arr(items);
    Descend(NodeCheck(v, lim), WalkItems(items, depth + 1, lim), Walk(v, depth, lim),
      ItemsHeight(items), ItemsOk(items, lim), depth, lim.maxDepth);
  }

  lemma WalkObject(v: Value, fs: seq<Member>, depth: nat, lim: Limits)
    requires v == Obj(fs) || v == Foreign(fs)
    requires !Exceeds(depth, lim.maxDepth)
    requires WalkMembers(fs, depth + 1, lim).Ok? <==>
      (fs != [] ==> !Exceeds(depth + 1 + MembersHeight(fs) - 1, lim.maxDepth)) && MembersOk(fs, lim)
    ensures Walk(v, depth, lim).Ok? <==> !Exceeds(depth + Height(v) - 1, lim.maxDepth) && NodesOk(v, lim)
  {
    Descend(NodeCheck(v, lim), WalkMembers(fs, depth + 1, lim), Walk(v, depth, lim),
      MembersHeight(fs), MembersOk(fs, lim), depth, lim.maxDepth);
  }

  lemma {:induction false} WalkItemsOk(items: seq<Value>, depth: nat, lim: Limits)
    ensures WalkItems(items, depth, lim).Ok? <==>
      (items != [] ==> !Exceeds(depth + ItemsHeight(items) - 1, lim.maxDepth)) && ItemsOk(items, lim)
    decreases items, 0
  {
    if items != [] {
      WalkOk(items[0], depth, lim);
      WalkItemsOk(items[1..], depth, lim);
      Sequence(Walk(items[0], depth, lim), WalkItems(items[1..], depth, lim), WalkItems(items, depth, lim),
        Height(items[0]), ItemsHeight(items[1..]), NodesOk(items[0], lim), ItemsOk(items[1..], lim), depth, lim.maxDepth);
    }
  }

  lemma {:induction false} WalkMembersOk(fs: seq<Member>, depth: nat, lim: Limits)
    ensures WalkMembers(fs, depth, lim).Ok? <==>
      (fs != [] ==> !Exceeds(depth + MembersHeight(fs) - 1, lim.maxDepth)) && MembersOk(fs, lim)
    decreases fs, 0
  {
    if fs != [] {
      WalkOk(fs[0].val, depth, lim);
      WalkMembersOk(fs[1..], depth, lim);
      Sequence(Walk(fs[0].val, depth, lim), WalkMembers(fs[1..], depth, lim), WalkMembers(fs, depth, lim),
        Height(fs[0].val), MembersHeight(fs[1..]), NodesOk(fs[0].val, lim), MembersOk(fs[1..], lim), depth, lim.maxDepth);
    }
  }

  /** One object: its own checks, then its properties one level deeper. */
  lemma Descend(check: Result<(), Denial>, inner: Result<(), Stop>, whole: Result<(), Stop>,
                innerHeight: nat, innerOk: bool, depth: nat, max: MathNum)
    requires !Exceeds(depth, max) && (check.Err? ==> whole.Err?) && (check.Ok? ==> whole == inner)
    requires inner.Ok? <==> (innerHeight >= 1 ==> !Exceeds(depth + 1 + innerHeight - 1, max)) && innerOk
    ensures whole.Ok? <==> !Exceeds(depth + (1 + innerHeight) - 1, max) && check.Ok? && innerOk
  {
  }

  /** A first value, then the rest at the same depth: the walk stops at the first failure. */
  lemma Sequence(first: Result<(), Stop>, rest: Result<(), Stop>, whole: Result<(), Stop>,
                 firstHeight: nat, restHeight: nat, firstOk: bool, restOk: bool, depth: nat, max: MathNum)
    requires firstHeight >= 1 && whole == (if first.Err? then first else rest)
    requires first.Ok? <==> !Exceeds(depth + firstHeight - 1, max) && firstOk
    requires rest.Ok? <==> (restHeight >= 1 ==> !Exceeds(depth + restHeight - 1, max)) && restOk
    ensures whole.Ok? <==> !Exceeds(depth + Max(firstHeight, restHeight) - 1, max) && firstOk && restOk
  {
    DeeperOfTwo(depth, firstHeight, restHeight, max);
  }

  /** The deeper of two subtrees decides the bound. */
  lemma DeeperOfTwo(depth: nat, a: nat, b: nat, max: MathNum)
    requires a >= 1
    ensures !Exceeds(depth + Max(a, b) - 1, max) <==>
      !Exceeds(depth + a - 1, max) && (b >= 1 ==> !Exceeds(depth + b - 1, max))
  {
    if b >= 1 && Exceeds(depth + b - 1, max) {
      ExceedsMonotone(depth + b - 1, depth + Max(a, b) - 1, max);
    }
    if Exceeds(depth + a - 1, max) {
      ExceedsMonotone(depth + a - 1, depth + Max(a, b) - 1, max);
    }
  }

  /* ---------------- the walk over expression trees ---------------- */

  /** The height of a tree's object form: every node holds at least a `type` string. */
  function NodeHeight(n: Node): (h: nat)
    ensures h >= 2
    decreases n, 1
  {
    match n
    case Unary(_, e) => 1 + NodeHeight(e)
    case Bin(_, l, r) => 1 + Max(NodeHeight(l), NodeHeight(r))
    case Ternary(c, t, e) => 1 + Max(NodeHeight(c), Max(NodeHeight(t), NodeHeight(e)))
    case Coalesce(l, r) => 1 + Max(NodeHeight(l), NodeHeight(r))
    case Call(_, args) => 2 + ArgsHeight(args)
    case _ => 2
  }

  function ArgsHeight(args: seq<Node>): nat
    decreases args, 0
  {
    if args == [] then 0 else Max(NodeHeight(args[0]), ArgsHeight(args[1..]))
  }

  function ParamNameValue(name: Option<string>): Value
  {
    match name
    case Some(s) => Str(s)
    case None => Undef
  }

  /** Every call in the tree is allowed and every parameter is on the list. */
  predicate NodeAllowed(n: Node, lim: Limits)
    decreases n, 1
  {
    match n
    case Param(name) => SetHas(lim.params, ParamNameValue(name))
    case Unary(_, e) => NodeAllowed(e, lim)
    case Bin(_, l, r) => NodeAllowed(l, lim) && NodeAllowed(r, lim)
    case Ternary(c, t, e) => NodeAllowed(c, lim) && NodeAllowed(t, lim) && NodeAllowed(e, lim)
    case Coalesce(l, r) => NodeAllowed(l, lim) && NodeAllowed(r, lim)
    case Call(name, args) => SetHas(lim.calls, Str(name)) && ArgsAllowed(args, lim)
    case _ => true
  }

  predicate ArgsAllowed(args: seq<Node>, lim: Limits)
    decreases args, 0
  {
    args != [] ==> NodeAllowed(args[0], lim) && ArgsAllowed(args[1..], lim)
  }

  /** The height of an object with two, three or four listed properties. */
  lemma MembersHeight2(a: Member, b: Member)
    ensures MembersHeight([a, b]) == Max(Height(a.val), Height(b.val))
  {
    assert [a, b][1..] == [b];
    assert [b][1..] == [];
    assert MembersHeight([b]) == Height(b.val);
  }

  lemma MembersHeight3(a: Member, b: Member, c: Member)
    ensures MembersHeight([a, b, c]) == Max(Height(a.val), Max(Height(b.val), Height(c.val)))
  {
    assert [a, b, c][1..] == [b, c];
    MembersHeight2(b, c);
  }

  lemma MembersHeight4(a: Member, b: Member, c: Member, d: Member)
    ensures MembersHeight([a, b, c, d]) == Max(Height(a.val), Max(Height(b.val), Max(Height(c.val), Height(d.val))))
  {
    assert [a, b, c, d][1..] == [b, c, d];
    MembersHeight3(b, c, d);
  }

  lemma {:induction false} MembersOkAll(fs: seq<Member>, lim: Limits)
    ensures MembersOk(fs, lim) <==> forall i :: 0 <= i < |fs| ==> NodesOk(fs[i].val, lim)
    decreases fs
  {
    if fs != [] {
      MembersOkAll(fs[1..], lim);
      assert forall i :: 1 <= i < |fs| ==> fs[i] == fs[1..][i - 1];
    }
  }

  /** A leaf's object holds strings and `undefined` only, two levels in all. */
  lemma LeafHeight(n: Node)
    requires n.NumLit? || n.StrLit? || n.Score? || n.Param?
    ensures Height(AstToValue(n)) == NodeHeight(n)
  {
    var fs := AstToValue(n).fields;
    if n.Score? {
      assert fs == [Kind("score")];
      assert fs[1..] == [];
    } else {
      assert |fs| == 2 && fs[0].val.Str? && (fs[1].val.Str? || fs[1].val.Undef?);
      assert fs == [fs[0], fs[1]];
      MembersHeight2(fs[0], fs[1]);
    }
  }

  lemma UnaryHeight(op: string, e: Node)
    requires Height(AstToValue(e)) == NodeHeight(e)
    ensures Height(AstToValue(Unary(op, e))) == NodeHeight(Unary(op, e))
  {
    MembersHeight3(Kind("unary"), Member("op", Str(op)), Member("expr", AstToValue(e)));
  }

  lemma BinHeight(op: string, l: Node, r: Node)
    requires Height(AstToValue(l)) == NodeHeight(l) && Height(AstToValue(r)) == NodeHeight(r)
    ensures Height(AstToValue(Bin(op, l, r))) == NodeHeight(Bin(op, l, r))
  {
    MembersHeight4(Kind("bin"), Member("op", Str(op)), Member("left", AstToValue(l)), Member("right", AstToValue(r)));
  }

  lemma TernaryHeight(c: Node, t: Node, e: Node)
    requires Height(AstToValue(c)) == NodeHeight(c) && Height(AstToValue(t)) == NodeHeight(t)
    requires Height(AstToValue(e)) == NodeHeight(e)
    ensures Height(AstToValue(Ternary(c, t, e))) == NodeHeight(Ternary(c, t, e))
  {
    MembersHeight4(Kind("ternary"), Member("cond", AstToValue(c)), Member("then", AstToValue(t)), Member("else", AstToValue(e)));
  }

  lemma CoalesceHeight(l: Node, r: Node)
    requires Height(AstToValue(l)) == NodeHeight(l) && Height(AstToValue(r)) == NodeHeight(r)
    ensures Height(AstToValue(Coalesce(l, r))) == NodeHeight(Coalesce(l, r))
  {
    MembersHeight3(Kind("coalesce"), Member("left", AstToValue(l)), Member("right", AstToValue(r)));
  }

  lemma CallHeight(name: string, args: seq<Node>)
    requires ItemsHeight(ArgsToValues(args)) == ArgsHeight(args)
    ensures Height(AstToValue(Call(name, args))) == NodeHeight(Call(name, args))
  {
    MembersHeight3(Kind("call"), Member("name", Str(name)), Member("args", Arr(ArgsToValues(args))));
  }

  /** The walk descends through the object form exactly as deep as the tree is high. */
  lemma {:induction false} AstHeight(n: Node)
    ensures Height(AstToValue(n)) == NodeHeight(n)
    decreases n, 1
  {
    match n
    case Unary(op, e) =>
      AstHeight(e);
      UnaryHeight(op, e);
    case Bin(op, l, r) =>
      AstHeight(l);
      AstHeight(r);
      BinHeight(op, l, r);
    case Ternary(c, t, e) =>
      AstHeight(c);
      AstHeight(t);
      AstHeight(e);
      TernaryHeight(c, t, e);
    case Coalesce(l, r) =>
      AstHeight(l);
      AstHeight(r);
      CoalesceHeight(l, r);
    case Call(name, args) =>
      ArgsHeightOf(args);
      CallHeight(name, args);
    case _ =>
      LeafHeight(n);
  }
  lemma {:induction false} ArgsHeightOf(args: seq<Node>)
    ensures ItemsHeight(ArgsToValues(args)) == ArgsHeight(args)
    decreases args, 0
  {
    if args != [] {
      AstHeight(args[0]);
      ArgsHeightOf(args[1..]);
      assert ArgsToValues(args)[1..] == ArgsToValues(args[1..]);
    }
  }

  /** The `type` string of each kind of node. */
  function KindName(n: Node): string
  {
    match n
    case NumLit(_) => "number"
    case StrLit(_) => "string"
    case Score => "score"
    case Param(_) => "param"
    case Unary(_, _) => "unary"
    case Bin(_, _, _) => "bin"
    case Ternary(_, _, _) => "ternary"
    case Coalesce(_, _) => "coalesce"
    case Call(_, _) => "call"
  }

  lemma TypeOfAst(n: Node)
    ensures Prop(AstToValue(n), "type") == Str(KindName(n))
  {
  }

  /** The checks on a node's own object: only calls and parameters can fail them. */
  lemma NodeCheckOfAst(n: Node, lim: Limits)
    ensures NodeCheck(AstToValue(n), lim).Ok? <==>
      && (n.Call? ==> SetHas(lim.calls, Str(n.callee)))
      && (n.Param? ==> SetHas(lim.params, ParamNameValue(n.paramName)))
  {
    var v := AstToValue(n);
    assert NamedProp(v, "type") == Str(KindName(n));
    if n.Call? {
      assert "type" != "name" by { assert "type"[0] != "name"[0]; }
      assert v.fields[1] == Member("name", Str(n.callee));
      assert NamedProp(v, "name") == Str(n.callee);
      assert NodeCheck(v, lim).Ok? <==> SetHas(lim.calls, Str(n.callee));
    } else if n.Param? {
      assert "type" != "name" by { assert "type"[0] != "name"[0]; }
      assert v.fields == [Kind("param"), Member("name", ParamNameValue(n.paramName))];
      assert v.fields[1..] == [Member("name", ParamNameValue(n.paramName))];
      assert Lookup(v.fields, "name") == Some(ParamNameValue(n.paramName));
      assert NodeCheck(v, lim).Ok? <==> SetHas(lim.params, ParamNameValue(n.paramName));
    } else {
      var k := KindName(n);
      assert k != "call" && k != "field" && k != "param" by {
        assert |k| != 5 || (k[0] != 'f' && k[0] != 'p');
      }
      assert NodeCheck(v, lim).Ok?;
    }
  }

  /** Two, three or four listed properties all pass. */
  lemma MembersOk2(a: Member, b: Member, lim: Limits)
    ensures MembersOk([a, b], lim) <==> NodesOk(a.val, lim) && NodesOk(b.val, lim)
  {
    assert [a, b][1..] == [b];
    assert [b][1..] == [];
    assert MembersOk([b], lim) <==> NodesOk(b.val, lim);
  }

  lemma MembersOk3(a: Member, b: Member, c: Member, lim: Limits)
    ensures MembersOk([a, b, c], lim) <==> NodesOk(a.val, lim) && NodesOk(b.val, lim) && NodesOk(c.val, lim)
  {
    assert [a, b, c][1..] == [b, c];
    MembersOk2(b, c, lim);
  }

  lemma MembersOk4(a: Member, b: Member, c: Member, d: Member, lim: Limits)
    ensures MembersOk([a, b, c, d], lim) <==>
      NodesOk(a.val, lim) && NodesOk(b.val, lim) && NodesOk(c.val, lim) && NodesOk(d.val, lim)
  {
    assert [a, b, c, d][1..] == [b, c, d];
    MembersOk3(b, c, d, lim);
  }

  /** An object passes when its own checks pass and its properties all pass. */
  lemma ObjectNodesOk(fs: seq<Member>, lim: Limits)
    ensures NodesOk(Obj(fs), lim) <==> NodeCheck(Obj(fs), lim).Ok? && MembersOk(fs, lim)
  {
  }

  lemma LeafNodesOk(n: Node, lim: Limits)
    requires n.NumLit? || n.StrLit? || n.Score? || n.Param?
    ensures NodesOk(AstToValue(n), lim) <==> NodeAllowed(n, lim)
  {
    NodeCheckOfAst(n, lim);
    var fs := AstToValue(n).fields;
    if n.Score? {
      assert fs == [Kind("score")];
      assert fs[1..] == [];
    } else {
      assert |fs| == 2 && fs[0].val.Str? && (fs[1].val.Str? || fs[1].val.Undef?);
      assert fs == [fs[0], fs[1]];
      MembersOk2(fs[0], fs[1], lim);
    }
  }

  lemma UnaryNodesOk(op: string, e: Node, lim: Limits)
    requires NodesOk(AstToValue(e), lim) <==> NodeAllowed(e, lim)
    ensures NodesOk(AstToValue(Unary(op, e)), lim) <==> NodeAllowed(Unary(op, e), lim)
  {
    var fs := [Kind("unary"), Member("op", Str(op)), Member("expr", AstToValue(e))];
    NodeCheckOfAst(Unary(op, e), lim);
    assert AstToValue(Unary(op, e)) == Obj(fs);
    ObjectNodesOk(fs, lim);
    MembersOk3(fs[0], fs[1], fs[2], lim);
  }

  lemma BinNodesOk(op: string, l: Node, r: Node, lim: Limits)
    requires NodesOk(AstToValue(l), lim) <==> NodeAllowed(l, lim)
    requires NodesOk(AstToValue(r), lim) <==> NodeAllowed(r, lim)
    ensures NodesOk(AstToValue(Bin(op, l, r)), lim) <==> NodeAllowed(Bin(op, l, r), lim)
  {
    var fs := [Kind("bin"), Member("op", Str(op)), Member("left", AstToValue(l)), Member("right", AstToValue(r))];
    NodeCheckOfAst(Bin(op, l, r), lim);
    assert AstToValue(Bin(op, l, r)) == Obj(fs);
    ObjectNodesOk(fs, lim);
    MembersOk4(fs[0], fs[1], fs[2], fs[3], lim);
  }

  lemma TernaryNodesOk(c: Node, t: Node, e: Node, lim: Limits)
    requires NodesOk(AstToValue(c), lim) <==> NodeAllowed(c, lim)
    requires NodesOk(AstToValue(t), lim) <==> NodeAllowed(t, lim)
    requires NodesOk(AstToValue(e), lim) <==> NodeAllowed(e, lim)
    ensures NodesOk(AstToValue(Ternary(c, t, e)), lim) <==> NodeAllowed(Ternary(c, t, e), lim)
  {
    var fs := [Kind("ternary"), Member("cond", AstToValue(c)), Member("then", AstToValue(t)), Member("else", AstToValue(e))];
    NodeCheckOfAst(Ternary(c, t, e), lim);
    assert AstToValue(Ternary(c, t, e)) == Obj(fs);
    ObjectNodesOk(fs, lim);
    MembersOk4(fs[0], fs[1], fs[2], fs[3], lim);
  }

  lemma CoalesceNodesOk(l: Node, r: Node, lim: Limits)
    requires NodesOk(AstToValue(l), lim) <==> NodeAllowed(l, lim)
    requires NodesOk(AstToValue(r), lim) <==> NodeAllowed(r, lim)
    ensures NodesOk(AstToValue(Coalesce(l, r)), lim) <==> NodeAllowed(Coalesce(l, r), lim)
  {
    var fs := [Kind("coalesce"), Member("left", AstToValue(l)), Member("right", AstToValue(r))];
    NodeCheckOfAst(Coalesce(l, r), lim);
    assert AstToValue(Coalesce(l, r)) == Obj(fs);
    ObjectNodesOk(fs, lim);
    MembersOk3(fs[0], fs[1], fs[2], lim);
  }

  lemma CallNodesOk(name: string, args: seq<Node>, lim: Limits)
    requires ItemsOk(ArgsToValues(args), lim) <==> ArgsAllowed(args, lim)
    ensures NodesOk(AstToValue(Call(name, args)), lim) <==> NodeAllowed(Call(name, args), lim)
  {
    var fs := [Kind("call"), Member("name", Str(name)), Member("args", Arr(ArgsToValues(args)))];
    NodeCheckOfAst(Call(name, args), lim);
    assert AstToValue(Call(name, args)) == Obj(fs);
    ObjectNodesOk(fs, lim);
    assert NodeCheck(Arr(ArgsToValues(args)), lim).Ok?;
    assert NodesOk(fs[2].val, lim) <==> ItemsOk(ArgsToValues(args), lim);
    MembersOk3(fs[0], fs[1], fs[2], lim);
  }

  /** Every object in the tree's form passes its checks exactly when the tree's calls and parameters are allowed. */
  lemma {:induction false} AstNodesOk(n: Node, lim: Limits)
    ensures NodesOk(AstToValue(n), lim) <==> NodeAllowed(n, lim)
    decreases n, 1
  {
    match n
    case Unary(op, e) =>
      AstNodesOk(e, lim);
      UnaryNodesOk(op, e, lim);
    case Bin(op, l, r) =>
      AstNodesOk(l, lim);
      AstNodesOk(r, lim);
      BinNodesOk(op, l, r, lim);
    case Ternary(c, t, e) =>
      AstNodesOk(c, lim);
      AstNodesOk(t, lim);
      AstNodesOk(e, lim);
      TernaryNodesOk(c, t, e, lim);
    case Coalesce(l, r) =>
      AstNodesOk(l, lim);
      AstNodesOk(r, lim);
      CoalesceNodesOk(l, r, lim);
    case Call(name, args) =>
      ArgsNodesOk(args, lim);
      CallNodesOk(name, args, lim);
    case _ =>
      LeafNodesOk(n, lim);
  }
  lemma {:induction false} ArgsNodesOk(args: seq<Node>, lim: Limits)
    ensures ItemsOk(ArgsToValues(args), lim) <==> ArgsAllowed(args, lim)
    decreases args, 0
  {
    if args != [] {
      AstNodesOk(args[0], lim);
      ArgsNodesOk(args[1..], lim);
      assert ArgsToValues(args)[1..] == ArgsToValues(args[1..]);
    }
  }

  /**
   * The policy admits a tree exactly when it is no deeper than the bound (the walk reaches
   * depth `NodeHeight(n) - 1`) and its calls and parameters are allowed. Trees hold no field
   * nodes, so the field allowlist never matters.
   */
  lemma PolicyAdmits(n: Node, lim: Limits)
    ensures Walk(AstToValue(n), 0, lim).Ok? <==> !Exceeds(NodeHeight(n) - 1, lim.maxDepth) && NodeAllowed(n, lim)
  {
    AstHeight(n);
    AstNodesOk(n, lim);
    WalkFromTop(AstToValue(n), NodeHeight(n), NodeAllowed(n, lim), lim);
  }

  lemma WalkFromTop(v: Value, height: nat, allowed: bool, lim: Limits)
    requires Height(v) == height && (NodesOk(v, lim) <==> allowed)
    ensures Walk(v, 0, lim).Ok? <==> !Exceeds(height - 1, lim.maxDepth) && allowed
  {
    WalkOk(v, 0, lim);
  }

  /** With a bound of 1 a number literal passes: its object and its two strings sit at depths 0 and 1. */
  lemma NumberWithinOne(t: string, lim: Limits)
    requires lim.maxDepth == Finite(1.0)
    ensures Walk(AstToValue(NumLit(t)), 0, lim).Ok?
  {
    PolicyAdmits(NumLit(t), lim);
    assert NodeHeight(NumLit(t)) == 2 && NodeAllowed(NumLit(t), lim);
  }

  /** With a bound of 1 any binary node fails: its operands' `type` strings sit at depth 2. */
  lemma BinBeyondOne(op: string, l: Node, r: Node, lim: Limits)
    requires lim.maxDepth == Finite(1.0)
    ensures Walk(AstToValue(Bin(op, l, r)), 0, lim).Err?
  {
    PolicyAdmits(Bin(op, l, r), lim);
    assert NodeHeight(Bin(op, l, r)) >= 3;
  }
}
