/**
 * Lowering of an expression tree to Painless source text.
 *
 * Every binary and ternary node is emitted inside parentheses, a coalesce `a ?? b` becomes
 * `(a != null ? a : b)`, and a call `@name(args)` becomes a fixed Painless template chosen from
 * a table of supported names, each with an accepted number of arguments. The arguments are
 * lowered before the name is looked at, so an error inside an argument wins over an error about
 * the call itself.
 */
module Emitter {
  import opened Wrappers
  import opened Errors
  import opened Ast

  /** The accepted argument counts, `(min, max)`, of each supported call. */
  function Arity(name: string): (r: Option<(nat, nat)>)
    ensures r.Some? ==> 1 <= r.value.0 <= r.value.1 <= 3
  {
    if name == "v" then Some((1, 2))
    else if name == "exists" then Some((1, 1))
    else if name == "clamp" then Some((3, 3))
    else if name == "min" || name == "max" || name == "pow" then Some((2, 2))
    else if name in ["abs", "floor", "ceil", "round", "log", "sqrt"] then Some((1, 1))
    else None
  }

  /** The names `emitCall` accepts. */
  const SupportedCalls: set<string> :=
    {"v", "exists", "clamp", "min", "max", "abs", "floor", "ceil", "round", "log", "sqrt", "pow"}

  lemma SupportedCallsAreTheTable(name: string)
    ensures name in SupportedCalls <==> Arity(name).Some?
  {
  }

  /** A call that `emitCall` lowers once its arguments are lowered. */
  predicate CallShapeOk(name: string, count: nat)
  {
    Arity(name).Some? && Arity(name).value.0 <= count <= Arity(name).value.1
  }

  /** Every call in the tree names a supported function with an accepted number of arguments. */
  predicate Lowerable(n: Node)
  {
    match n
    case Unary(_, e) => Lowerable(e)
    case Bin(_, l, r) => Lowerable(l) && Lowerable(r)
    case Ternary(c, a, b) => Lowerable(c) && Lowerable(a) && Lowerable(b)
    case Coalesce(l, r) => Lowerable(l) && Lowerable(r)
    case Call(name, args) => CallShapeOk(name, |args|) && forall a :: a in args ==> Lowerable(a)
    case _ => true
  }

  /** `ensureArity`: a call with too few or too many arguments is rejected. */
  function EnsureArity(name: string, count: nat, min: nat, max: nat): (r: Option<Error>)
    ensures r.None? <==> min <= count <= max
    ensures r.Some? ==> r.value == CallArity(name, min, max, count)
  {
    if count < min || count > max then Some(CallArity(name, min, max, count)) else None
  }

  /** Painless `Math.f(a0, ..., an)`. */
  function MathCall(f: string, a: seq<string>): string
  {
    "Math." + f + "(" + Join(a) + ")"
  }

  function Join(a: seq<string>): string
  {
    if a == [] then "" else if |a| == 1 then a[0] else a[0] + ", " + Join(a[1..])
  }

  /** The document-field test the `v` and `exists` templates share. */
  function DocHas(key: string): string
  {
    "doc.containsKey(" + key + ") && !doc[" + key + "].empty"
  }

  /** The template of a supported call, applied to arguments that fit its arity. */
  function Template(name: string, a: seq<string>): string
    requires CallShapeOk(name, |a|)
  {
    if name == "v" then
      "(" + DocHas(a[0]) + " ? doc[" + a[0] + "].value : " + (if |a| == 2 then a[1] else "0.0") + ")"
    else if name == "exists" then "(" + DocHas(a[0]) + ")"
    else if name == "clamp" then MathCall("min", [a[2], MathCall("max", [a[1], a[0]])])
    else MathCall(name, a)
  }

  /** `emitCall` once the arguments are lowered to `a`. */
  function EmitCall(name: string, a: seq<string>): (r: Result<string, Error>)
    ensures r.Ok? <==> CallShapeOk(name, |a|)
    ensures Arity(name).None? ==> r == Err(UnsupportedCall(name))
    ensures Arity(name).Some? && !CallShapeOk(name, |a|) ==>
      r == Err(CallArity(name, Arity(name).value.0, Arity(name).value.1, |a|))
  {
    match Arity(name)
    case None => Err(UnsupportedCall(name))
    case Some(bounds) =>
      match EnsureArity(name, |a|, bounds.0, bounds.1)
      case Some(e) => Err(e)
      case None => Ok(Template(name, a))
  }

  /** `escapeSingleQuoted`: one `replace` pass over the text. */
  function ReplaceChar(s: string, c: char, repl: string): (r: string)
    ensures c !in repl ==> c !in r
  {
    if s == [] then [] else (if s[0] == c then repl else [s[0]]) + ReplaceChar(s[1..], c, repl)
  }

  /** Backslashes doubled first, then each `'` preceded by a backslash. */
  function EscapeSingleQuoted(s: string): string
  {
    ReplaceChar(ReplaceChar(s, '\\', "\\\\"), '\'', "\\'")
  }

  /**
   * How Painless reads the body of a single-quoted literal: `\\` and `\'` stand for the
   * escaped character, and a bare `'` would end the literal early, which is `None` here.
   */
  function Unescape(e: string): (r: Option<string>)
  {
    if e == [] then Some([])
    else if e[0] == '\'' then None
    else if e[0] == '\\' then
      if |e| >= 2 && (e[1] == '\\' || e[1] == '\'') then
        match Unescape(e[2..])
        case None => None
        case Some(rest) => Some([e[1]] + rest)
      else None
    else
      match Unescape(e[1..])
      case None => None
      case Some(rest) => Some([e[0]] + rest)
  }

  /** Each character escaped on its own, in one pass. */
  function EscapeChars(s: string): string
  {
    if s == [] then []
    else (if s[0] == '\\' then "\\\\" else if s[0] == '\'' then "\\'" else [s[0]]) + EscapeChars(s[1..])
  }

  lemma {:induction false} ReplaceCharAppend(a: string, b: string, c: char, repl: string)
    ensures ReplaceChar(a + b, c, repl) == ReplaceChar(a, c, repl) + ReplaceChar(b, c, repl)
    decreases |a|
  {
    if a != [] {
      assert (a + b)[0] == a[0];
      assert (a + b)[1..] == a[1..] + b;
      ReplaceCharAppend(a[1..], b, c, repl);
    } else {
      assert a + b == b;
    }
  }

  /** The two passes escape each character independently. */
  lemma {:induction false} TwoPassesAreOne(s: string)
    ensures EscapeSingleQuoted(s) == EscapeChars(s)
    decreases |s|
  {
    if s != [] {
      var head := if s[0] == '\\' then "\\\\" else [s[0]];
      var once := ReplaceChar(s, '\\', "\\\\");
      assert once == head + ReplaceChar(s[1..], '\\', "\\\\");
      ReplaceCharAppend(head, ReplaceChar(s[1..], '\\', "\\\\"), '\'', "\\'");
      TwoPassesAreOne(s[1..]);
      if s[0] == '\\' {
        assert ReplaceChar(head, '\'', "\\'") == "\\\\" by {
          assert head[1..] == "\\";
          assert head[1..][1..] == [];
        }
      } else if s[0] == '\'' {
        assert ReplaceChar(head, '\'', "\\'") == "\\'" by {
          assert head[1..] == [];
        }
      } else {
        assert ReplaceChar(head, '\'', "\\'") == [s[0]] by {
          assert head[1..] == [];
        }
      }
    }
  }

  lemma {:induction false} UnescapeEscapeChars(s: string)
    ensures Unescape(EscapeChars(s)) == Some(s)
    decreases |s|
  {
    if s != [] {
      UnescapeEscapeChars(s[1..]);
      var e := EscapeChars(s);
      if s[0] == '\\' || s[0] == '\'' {
        assert e[2..] == EscapeChars(s[1..]);
      } else {
        assert e[1..] == EscapeChars(s[1..]);
      }
      assert s == [s[0]] + s[1..];
    }
  }

  /**
   * The escaped text is a well-formed literal body that reads back as the original string:
   * no quote in it ends the literal early.
   */
  lemma EscapeRoundTrip(s: string)
    ensures Unescape(EscapeSingleQuoted(s)) == Some(s)
  {
    TwoPassesAreOne(s);
    UnescapeEscapeChars(s);
  }

  /** `emit`: a tree is lowered exactly when every call in it is supported and of a fitting arity. */
  function Emit(n: Node): (r: Result<string, Error>)
    ensures r.Ok? <==> Lowerable(n)
    decreases n, 1
  {
    match n
    case NumLit(t) => Ok(t)
    case StrLit(s) => Ok("'" + EscapeSingleQuoted(s) + "'")
    case Score => Ok("_score")
    case Param(name) => Ok("params." + (match name case Some(s) => s case None => "undefined"))
    case Unary(op, e) =>
      var x :- Emit(e);
      Ok(op + x)
    case Bin(op, l, r) =>
      var x :- Emit(l);
      var y :- Emit(r);
      Ok("(" + x + " " + op + " " + y + ")")
    case Ternary(c, t, e) =>
      var x :- Emit(c);
      var y :- Emit(t);
      var z :- Emit(e);
      Ok("(" + x + " ? " + y + " : " + z + ")")
    case Coalesce(l, r) =>
      var x :- Emit(l);
      var y :- Emit(r);
      Ok("(" + x + " != null ? " + x + " : " + y + ")")
    case Call(name, args) =>
      var a :- EmitArgs(args);
      EmitCall(name, a)
  }

  /** `node.args.map(emit)`: the first argument that fails decides the error. */
  function EmitArgs(args: seq<Node>): (r: Result<seq<string>, Error>)
    ensures r.Ok? <==> forall a :: a in args ==> Lowerable(a)
    ensures r.Ok? ==> |r.value| == |args|
    decreases args, 0
  {
    if args == [] then Ok([])
    else
      assert forall a :: a in args <==> a == args[0] || a in args[1..];
      match Emit(args[0])
      case Err(e) =>
        assert args[0] in args && !Lowerable(args[0]);
        Err(e)
      case Ok(x) =>
        match EmitArgs(args[1..])
        case Err(e) => Err(e)
        case Ok(rest) => Ok([x] + rest)
  }

  /** `bin`, `ternary` and `coalesce` nodes lower to text wrapped in one pair of parentheses. */
  lemma Parenthesised(n: Node)
    requires (n.Bin? || n.Ternary? || n.Coalesce?) && Emit(n).Ok?
    ensures var s := Emit(n).value; |s| >= 2 && s[0] == '(' && s[|s| - 1] == ')'
  {
  }

  /** `a ?? b` lowers to `(a != null ? a : b)`: the left operand's text appears twice. */
  lemma CoalesceRepeatsLeft(l: Node, r: Node)
    requires Emit(Coalesce(l, r)).Ok?
    ensures Emit(l).Ok? && Emit(r).Ok?
    ensures Emit(Coalesce(l, r)).value == "(" + Emit(l).value + " != null ? " + Emit(l).value + " : " + Emit(r).value + ")"
  {
  }

  /** `@v(k)` is `@v(k, 0.0)`: a missing field reads as `0.0`. */
  lemma FieldDefault(k: string)
    ensures EmitCall("v", [k]) == EmitCall("v", [k, "0.0"])
  {
  }

  /** `@clamp(x, lo, hi)` is `min(hi, max(lo, x))`. */
  lemma ClampIsMinOfMax(x: string, lo: string, hi: string)
    ensures var inner := EmitCall("max", [lo, x]);
            inner.Ok? && EmitCall("clamp", [x, lo, hi]) == EmitCall("min", [hi, inner.value])
  {
  }
}
