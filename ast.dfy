/**
 * The expression tree the parser builds, and the plain object each node is in the source
 * (`{ type: "bin", op, left, right }` and so on), with its properties in the order the
 * source writes them. The object form is what the policy walk visits and what the ABI hashes.
 */
module Ast {
  import opened Wrappers
  import opened JsValue

  datatype Node =
    | NumLit(text: string)
    | StrLit(value: string)
    | Score
    | Param(paramName: Option<string>)
    | Unary(op: string, expr: Node)
    | Bin(op: string, left: Node, right: Node)
    | Ternary(cond: Node, thenBranch: Node, elseBranch: Node)
    | Coalesce(left: Node, right: Node)
    | Call(callee: string, args: seq<Node>)

  function Kind(k: string): Member
  {
    Member("type", Str(k))
  }

  /** The node as the JavaScript object the parser returns. */
  function AstToValue(n: Node): (v: Value)
    ensures v.Obj? && v.fields != [] && v.fields[0].key == "type"
    decreases n, 1
  {
    match n
    case NumLit(t) => Obj([Kind("number"), Member("value", Str(t))])
    case StrLit(s) => Obj([Kind("string"), Member("value", Str(s))])
    case Score => Obj([Kind("score")])
    case Param(name) => Obj([Kind("param"), Member("name", match name case Some(s) => Str(s) case None => Undef)])
    case Unary(op, e) => Obj([Kind("unary"), Member("op", Str(op)), Member("expr", AstToValue(e))])
    case Bin(op, l, r) =>
      Obj([Kind("bin"), Member("op", Str(op)), Member("left", AstToValue(l)), Member("right", AstToValue(r))])
    case Ternary(c, t, e) =>
      Obj([Kind("ternary"), Member("cond", AstToValue(c)), Member("then", AstToValue(t)), Member("else", AstToValue(e))])
    case Coalesce(l, r) => Obj([Kind("coalesce"), Member("left", AstToValue(l)), Member("right", AstToValue(r))])
    case Call(name, args) => Obj([Kind("call"), Member("name", Str(name)), Member("args", Arr(ArgsToValues(args)))])
  }

  function ArgsToValues(args: seq<Node>): (vs: seq<Value>)
    ensures |vs| == |args|
    ensures forall i :: 0 <= i < |args| ==> vs[i] == AstToValue(args[i])
    decreases args, 0
  {
    if args == [] then [] else [AstToValue(args[0])] + ArgsToValues(args[1..])
  }

  /** The object form is faithful: distinct trees are distinct objects. */
  lemma {:induction false} AstToValueInjective(a: Node, b: Node)
    requires AstToValue(a) == AstToValue(b)
    ensures a == b
    decreases a
  {
    var fa := AstToValue(a).fields;
    var fb := AstToValue(b).fields;
    assert fa[0] == fb[0];
    match a
    case Unary(_, e) =>
      AstToValueInjective(e, b.expr);
    case Bin(_, l, r) =>
      AstToValueInjective(l, b.left);
      AstToValueInjective(r, b.right);
    case Ternary(c, t, e) =>
      AstToValueInjective(c, b.cond);
      AstToValueInjective(t, b.thenBranch);
      AstToValueInjective(e, b.elseBranch);
    case Coalesce(l, r) =>
      AstToValueInjective(l, b.left);
      AstToValueInjective(r, b.right);
    case Call(_, args) =>
      assert fa[2] == fb[2];
      ArgsInjective(args, b.args);
    case _ =>
  }

  lemma {:induction false} ArgsInjective(a: seq<Node>, b: seq<Node>)
    requires ArgsToValues(a) == ArgsToValues(b)
    ensures a == b
    decreases a
  {
    if a != [] {
      assert AstToValue(a[0]) == ArgsToValues(a)[0] == ArgsToValues(b)[0] == AstToValue(b[0]);
      AstToValueInjective(a[0], b[0]);
      assert ArgsToValues(a[1..]) == ArgsToValues(a)[1..];
      assert ArgsToValues(b[1..]) == ArgsToValues(b)[1..];
      ArgsInjective(a[1..], b[1..]);
    }
  }
}
