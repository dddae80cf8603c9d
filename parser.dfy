/**
 * The recursive-descent parser of the expression language.
 *
 * The source keeps a cursor into the token array and reads it with `peek` (the token under
 * the cursor, or undefined) and `next` (the same, then advance). The functions `ExprAt`,
 * `LevelAt`, `UnaryAt`, `PostfixAt`, `PrimaryAt` and `ArgsAt` say what each parsing routine
 * returns when started at a cursor position: the node and the position after it, or the
 * error it throws. The class `Parser` is the cursor-driven parser itself, and each of its
 * methods is proved to agree with the matching function.
 *
 * Precedence, loosest first: ternary `?:`, then six binary levels (`||`, `&&`, equality,
 * relational, additive, multiplicative), then prefix `! - +`, then postfix `??`.
 */
module Parser {
  import opened Wrappers
  import opened Errors
  import opened JsNumber
  import opened Ast

  /** `tokens[i]`, which is undefined past the end. */
  function Peek(t: seq<string>, i: nat): Option<string>
  {
    if i < |t| then Some(t[i]) else None
  }

  predicate PeekIs(t: seq<string>, i: nat, s: string)
  {
    i < |t| && t[i] == s
  }

  predicate StartsWith(s: string, c: char)
  {
    |s| > 0 && s[0] == c
  }

  /**
   * The operator the binary level `lv` builds when it sees `tok`: level 6 reads `|` and `||`
   * as `||`, level 5 reads `&` and `&&` as `&&`, and the lower levels keep the token.
   */
  function LevelOp(lv: nat, tok: Option<string>): (r: Option<string>)
    ensures r.Some? ==> tok.Some?
  {
    match tok
    case None => None
    case Some(s) =>
      if lv == 6 && (s == "|" || s == "||") then Some("||")
      else if lv == 5 && (s == "&" || s == "&&") then Some("&&")
      else if lv == 4 && (s == "==" || s == "!=") then Some(s)
      else if lv == 3 && (s == "<" || s == "<=" || s == ">" || s == ">=") then Some(s)
      else if lv == 2 && (s == "+" || s == "-") then Some(s)
      else if lv == 1 && (s == "*" || s == "/" || s == "%") then Some(s)
      else None
  }

  predicate IsPrefixOp(s: string)
  {
    s == "!" || s == "-" || s == "+"
  }

  /** `t.slice(1, -1)`. */
  function QuoteBody(tok: string): (r: string)
    ensures |tok| >= 2 ==> r == tok[1..|tok| - 1]
  {
    if |tok| >= 2 then tok[1..|tok| - 1] else ""
  }

  /** `parseExpr`: a binary expression, optionally followed by `? expr : expr`. */
  function ExprAt(t: seq<string>, i: nat): (r: Result<(Node, int), Error>)
    requires i <= |t|
    ensures r.Ok? ==> i < r.value.1 <= |t| + 1
    decreases |t| + 1 - i, 15
  {
    var c :- LevelAt(t, i, 6);
    if PeekIs(t, c.1, "?") then
      var th :- ExprAt(t, c.1 + 1);
      if !PeekIs(t, th.1, ":") then Err(ExpectedColon)
      else
        var el :- ExprAt(t, th.1 + 1);
        Ok((Ternary(c.0, th.0, el.0), el.1))
    else Ok(c)
  }

  /** The operand of level `lv`: the next tighter level, or a unary expression below level 1. */
  function OperandAt(t: seq<string>, i: nat, lv: nat): (r: Result<(Node, int), Error>)
    requires 1 <= lv <= 6 && i <= |t|
    ensures r.Ok? ==> i < r.value.1 <= |t| + 1
    decreases |t| + 1 - i, 2 * lv + 1
  {
    if lv == 1 then UnaryAt(t, i) else LevelAt(t, i, lv - 1)
  }

  /** `parseOr` (6), `parseAnd` (5), `parseEq` (4), `parseRel` (3), `parseAdd` (2), `parseMul` (1). */
  function LevelAt(t: seq<string>, i: nat, lv: nat): (r: Result<(Node, int), Error>)
    requires 1 <= lv <= 6 && i <= |t|
    ensures r.Ok? ==> i < r.value.1 <= |t| + 1
    decreases |t| + 1 - i, 2 * lv + 2
  {
    var first :- OperandAt(t, i, lv);
    LevelRestAt(t, first.1, lv, first.0)
  }

  /** The `while` loop of a binary level: each operator folds the operand so far into the left. */
  function LevelRestAt(t: seq<string>, j: nat, lv: nat, left: Node): (r: Result<(Node, int), Error>)
    requires 1 <= lv <= 6 && j <= |t| + 1
    ensures r.Ok? ==> j <= r.value.1 <= |t| + 1
    decreases |t| + 1 - j, 0
  {
    match LevelOp(lv, Peek(t, j))
    case None => Ok((left, j))
    case Some(op) =>
      var right :- OperandAt(t, j + 1, lv);
      LevelRestAt(t, right.1, lv, Bin(op, left, right.0))
  }

  /** A binary level reads its first operand, then runs its loop from there. */
  lemma LevelFirst(t: seq<string>, i: nat, lv: nat)
    requires 1 <= lv <= 6 && i <= |t|
    ensures var first := OperandAt(t, i, lv);
      && (first.Err? ==> LevelAt(t, i, lv) == Err(first.error))
      && (first.Ok? ==> LevelAt(t, i, lv) == LevelRestAt(t, first.value.1, lv, first.value.0))
  {
  }

  /** One turn of a binary level's loop: read the operator, then the next operand. */
  lemma LevelRestStep(t: seq<string>, j: nat, lv: nat, left: Node)
    requires 1 <= lv <= 6 && j <= |t| + 1 && LevelOp(lv, Peek(t, j)).Some?
    ensures var right := OperandAt(t, j + 1, lv);
      && (right.Err? ==> LevelRestAt(t, j, lv, left) == Err(right.error))
      && (right.Ok? ==>
            var next := Bin(LevelOp(lv, Peek(t, j)).value, left, right.value.0);
            LevelRestAt(t, j, lv, left) == LevelRestAt(t, right.value.1, lv, next))
  {
  }

  /** `parseUnary`: prefix `!`, `-` and `+`, right to left. */
  function UnaryAt(t: seq<string>, i: nat): (r: Result<(Node, int), Error>)
    requires i <= |t|
    ensures r.Ok? ==> i < r.value.1 <= |t| + 1
    decreases |t| + 1 - i, 2
  {
    if i < |t| && IsPrefixOp(t[i]) then
      var e :- UnaryAt(t, i + 1);
      Ok((Unary(t[i], e.0), e.1))
    else PostfixAt(t, i)
  }

  /** `parsePostfix`: a primary, optionally followed by `??` and a second primary. */
  function PostfixAt(t: seq<string>, i: nat): (r: Result<(Node, int), Error>)
    requires i <= |t|
    ensures r.Ok? ==> i < r.value.1 <= |t| + 1
    decreases |t| + 1 - i, 1
  {
    var left :- PrimaryAt(t, i);
    if PeekIs(t, left.1, "??") then
      var right :- PrimaryAt(t, left.1 + 1);
      Ok((Coalesce(left.0, right.0), right.1))
    else Ok(left)
  }

  function PastEnd(): Result<(Node, int), Error>
  {
    Err(TypeError("Cannot read properties of undefined (reading 'startsWith')"))
  }

  /** `parsePrimary`. Reading past the end reaches `startsWith` on undefined, a TypeError. */
  function PrimaryAt(t: seq<string>, i: nat): (r: Result<(Node, int), Error>)
    requires i <= |t|
    ensures r.Ok? ==> i < r.value.1 <= |t| + 1
    decreases |t| + 1 - i, 0
  {
    if i == |t| then PastEnd()
    else if t[i] == "(" then ParenAt(t, i + 1)
    else if t[i] == "_score" then Ok((Score, i + 1))
    else if StartsWith(t[i], '@') then CallRestAt(t, i + 1, t[i][1..])
    else AtomAt(t, i + 1, t[i])
  }

  /** A parenthesised expression once `(` has been read: the expression, then `)`. */
  function ParenAt(t: seq<string>, i: nat): (r: Result<(Node, int), Error>)
    requires i <= |t|
    ensures r.Ok? ==> i < r.value.1 <= |t| + 1
    decreases |t| + 1 - i, 16
  {
    var e :- ExprAt(t, i);
    if !PeekIs(t, e.1, ")") then Err(ExpectedRParen) else Ok((e.0, e.1 + 1))
  }

  /**
   * The remaining primaries once `tok` has been read (`i` is the position after it): a
   * string literal, anything `isNaN` accepts as a number, `params . name`, or an error.
   */
  function AtomAt(t: seq<string>, i: nat, tok: string): (r: Result<(Node, int), Error>)
    requires 1 <= i <= |t|
    ensures r.Ok? ==> i <= r.value.1 <= |t| + 1
  {
    if StartsWith(tok, '\'') || StartsWith(tok, '"') then Ok((StrLit(QuoteBody(tok)), i))
    else if !IsNaNString(tok) then Ok((NumLit(tok), i))
    else ParamAt(t, i, tok)
  }

  /** The last alternative: `params . name`; any other token is unexpected. */
  function ParamAt(t: seq<string>, i: nat, tok: string): (r: Result<(Node, int), Error>)
    requires 1 <= i <= |t|
    ensures r.Ok? ==> r.value.1 == i + 2 && r.value.0.Param?
  {
    if tok == "params" && PeekIs(t, i, ".") then Ok((Param(Peek(t, i + 1)), i + 2))
    else Err(UnexpectedToken(tok))
  }

  /** The call rule once `@name` has been read at `i - 1`: `(`, the arguments, `)`. */
  function CallRestAt(t: seq<string>, i: nat, name: string): (r: Result<(Node, int), Error>)
    requires i <= |t|
    ensures r.Ok? ==> i < r.value.1 <= |t| + 1
    decreases |t| + 1 - i, 4
  {
    if !PeekIs(t, i, "(") then Err(ExpectedLParen)
    else
      var args :- CallArgsAt(t, i + 1);
      if !PeekIs(t, args.1, ")") then Err(ExpectedRParen)
      else Ok((Call(name, args.0), args.1 + 1))
  }

  /** The argument list after `@name(`: empty when `)` follows, else expressions separated by `,`. */
  function CallArgsAt(t: seq<string>, j: nat): (r: Result<(seq<Node>, int), Error>)
    requires j <= |t|
    ensures r.Ok? ==> j <= r.value.1 <= |t| + 1
    decreases |t| + 1 - j, 16
  {
    if PeekIs(t, j, ")") then Ok(([], j))
    else
      var first :- ExprAt(t, j);
      ArgsAt(t, first.1, [first.0])
  }

  /** The `while (peek() === ",")` loop of an argument list. */
  function ArgsAt(t: seq<string>, j: nat, args: seq<Node>): (r: Result<(seq<Node>, int), Error>)
    requires j <= |t| + 1
    ensures r.Ok? ==> j <= r.value.1 <= |t| + 1 && |r.value.0| >= |args| && r.value.0[..|args|] == args
    decreases |t| + 1 - j, 0
  {
    if PeekIs(t, j, ",") then
      var e :- ExprAt(t, j + 1);
      ArgsAt(t, e.1, args + [e.0])
    else Ok((args, j))
  }

  /** `parse`: one expression that must use up every token. */
  function ParseTokens(t: seq<string>): (r: Result<Node, Error>)
  {
    var e :- ExprAt(t, 0);
    if e.1 < |t| then Err(UnexpectedTokensAtEnd) else Ok(e.0)
  }

  /** The method's outcome and final cursor are those the function describes. */
  predicate Follows<T(==)>(spec: Result<(T, int), Error>, r: Result<T, Error>, pos: nat)
  {
    match spec
    case Ok(p) => r == Ok(p.0) && pos == p.1
    case Err(e) => r == Err(e)
  }

  /** The parser with its mutable cursor. */
  class Parser {
    const tokens: seq<string>
    var pos: nat

    constructor(tokens: seq<string>)
      ensures this.tokens == tokens && pos == 0
    {
      this.tokens := tokens;
      pos := 0;
    }

    method PeekToken() returns (r: Option<string>)
      ensures r == Peek(tokens, pos)
    {
      r := if pos < |tokens| then Some(tokens[pos]) else None;
    }

    method NextToken() returns (r: Option<string>)
      modifies this
      ensures r == Peek(tokens, old(pos)) && pos == old(pos) + 1
    {
      r := if pos < |tokens| then Some(tokens[pos]) else None;
      pos := pos + 1;
    }

    method ParseExpr() returns (r: Result<Node, Error>)
      requires pos <= |tokens|
      modifies this
      ensures Follows(ExprAt(tokens, old(pos)), r, pos)
      decreases |tokens| + 1 - pos, 15
    {
      var c :- ParseLevel(6);
      var q := PeekToken();
      if q == Some("?") {
        var _ := NextToken();
        var th :- ParseExpr();
        var colon := NextToken();
        if colon != Some(":") {
          return Err(ExpectedColon);
        }
        var el :- ParseExpr();
        return Ok(Ternary(c, th, el));
      }
      return Ok(c);
    }

    method ParseOperand(lv: nat) returns (r: Result<Node, Error>)
      requires 1 <= lv <= 6 && pos <= |tokens|
      modifies this
      ensures Follows(OperandAt(tokens, old(pos), lv), r, pos)
      decreases |tokens| + 1 - pos, 2 * lv + 1
    {
      if lv == 1 {
        r := ParseUnary();
      } else {
        r := ParseLevel(lv - 1);
      }
    }

    method ParseLevel(lv: nat) returns (r: Result<Node, Error>)
      requires 1 <= lv <= 6 && pos <= |tokens|
      modifies this
      ensures Follows(LevelAt(tokens, old(pos), lv), r, pos)
      decreases |tokens| + 1 - pos, 2 * lv + 2
    {
      ghost var spec := LevelAt(tokens, pos, lv);
      ghost var start := pos;
      LevelFirst(tokens, pos, lv);
      var left :- ParseOperand(lv);
      var tok := PeekToken();
      while LevelOp(lv, tok).Some?
        invariant start < pos <= |tokens| + 1
        invariant spec == LevelRestAt(tokens, pos, lv, left)
        invariant tok == Peek(tokens, pos)
        decreases |tokens| + 1 - pos
      {
        left :- ParseLevelStep(lv, left);
        tok := PeekToken();
      }
      return Ok(left);
    }

    /** One turn of the loop of `ParseLevel`: the operator under the cursor and its right operand. */
    method ParseLevelStep(lv: nat, left: Node) returns (r: Result<Node, Error>)
      requires 1 <= lv <= 6 && pos <= |tokens| + 1 && LevelOp(lv, Peek(tokens, pos)).Some?
      modifies this
      ensures r.Err? ==> LevelRestAt(tokens, old(pos), lv, left) == Err(r.error)
      ensures r.Ok? ==> old(pos) < pos <= |tokens| + 1
      ensures r.Ok? ==> LevelRestAt(tokens, old(pos), lv, left) == LevelRestAt(tokens, pos, lv, r.value)
      decreases |tokens| + 1 - pos, 2 * lv + 1
    {
      LevelRestStep(tokens, pos, lv, left);
      var op := NextToken();
      var right := ParseOperand(lv);
      if right.Err? {
        return Err(right.error);
      }
      return Ok(Bin(LevelOp(lv, op).value, left, right.value));
    }

    method ParseUnary() returns (r: Result<Node, Error>)
      requires pos <= |tokens|
      modifies this
      ensures Follows(UnaryAt(tokens, old(pos)), r, pos)
      decreases |tokens| + 1 - pos, 2
    {
      var tok := PeekToken();
      if tok.Some? && IsPrefixOp(tok.value) {
        var op := NextToken();
        var e :- ParseUnary();
        return Ok(Unary(op.value, e));
      }
      r := ParsePostfix();
    }

    method ParsePostfix() returns (r: Result<Node, Error>)
      requires pos <= |tokens|
      modifies this
      ensures Follows(PostfixAt(tokens, old(pos)), r, pos)
      decreases |tokens| + 1 - pos, 1
    {
      var left :- ParsePrimary();
      var tok := PeekToken();
      if tok == Some("??") {
        var _ := NextToken();
        var right :- ParsePrimary();
        return Ok(Coalesce(left, right));
      }
      return Ok(left);
    }

    method ParsePrimary() returns (r: Result<Node, Error>)
      requires pos <= |tokens|
      modifies this
      ensures Follows(PrimaryAt(tokens, old(pos)), r, pos)
      decreases |tokens| + 1 - pos, 0
    {
      var next := NextToken();
      if next.None? {
        return Err(TypeError("Cannot read properties of undefined (reading 'startsWith')"));
      }
      var tok := next.value;
      if tok == "(" {
        r := ParseParen();
      } else if tok == "_score" {
        r := Ok(Score);
      } else if StartsWith(tok, '@') {
        r := ParseCall(tok[1..]);
      } else {
        r := ParseAtom(tok);
      }
    }

    /** The body of a parenthesised expression and its closing `)`. */
    method ParseParen() returns (r: Result<Node, Error>)
      requires pos <= |tokens|
      modifies this
      ensures Follows(ParenAt(tokens, old(pos)), r, pos)
      decreases |tokens| + 1 - pos, 16
    {
      var e :- ParseExpr();
      var close := NextToken();
      if close != Some(")") {
        return Err(ExpectedRParen);
      }
      return Ok(e);
    }

    /** String and number literals and `params.name`, once their first token has been read. */
    method ParseAtom(tok: string) returns (r: Result<Node, Error>)
      requires 1 <= pos <= |tokens|
      modifies this
      ensures Follows(AtomAt(tokens, old(pos), tok), r, pos)
    {
      if StartsWith(tok, '\'') || StartsWith(tok, '"') {
        return Ok(StrLit(QuoteBody(tok)));
      }
      if !IsNaNString(tok) {
        return Ok(NumLit(tok));
      }
      r := ParseParam(tok);
    }

    method ParseParam(tok: string) returns (r: Result<Node, Error>)
      requires 1 <= pos <= |tokens|
      modifies this
      ensures Follows(ParamAt(tokens, old(pos), tok), r, pos)
    {
      var dot := PeekToken();
      if tok == "params" && dot == Some(".") {
        var _ := NextToken();
        var id := NextToken();
        return Ok(Param(id));
      }
      return Err(UnexpectedToken(tok));
    }

    /** The call rule once `@name` has been read. */
    method ParseCall(name: string) returns (r: Result<Node, Error>)
      requires pos <= |tokens|
      modifies this
      ensures Follows(CallRestAt(tokens, old(pos), name), r, pos)
      decreases |tokens| + 1 - pos, 4
    {
      var open := NextToken();
      if open != Some("(") {
        return Err(ExpectedLParen);
      }
      var args :- ParseCallArgs();
      var close := NextToken();
      if close != Some(")") {
        return Err(ExpectedRParen);
      }
      return Ok(Call(name, args));
    }

    method ParseCallArgs() returns (r: Result<seq<Node>, Error>)
      requires pos <= |tokens|
      modifies this
      ensures Follows(CallArgsAt(tokens, old(pos)), r, pos)
      decreases |tokens| + 1 - pos, 16
    {
      var tok := PeekToken();
      if tok == Some(")") {
        return Ok([]);
      }
      var first :- ParseExpr();
      var args := [first];
      tok := PeekToken();
      while tok == Some(",")
        invariant old(pos) < pos <= |tokens| + 1
        invariant CallArgsAt(tokens, old(pos)) == ArgsAt(tokens, pos, args)
        invariant tok == Peek(tokens, pos)
        decreases |tokens| + 1 - pos
      {
        var _ := NextToken();
        var e :- ParseExpr();
        args := args + [e];
        tok := PeekToken();
      }
      return Ok(args);
    }
  }

  /** `parse(tokens)`: run the parser from the first token, then insist nothing is left. */
  method Parse(tokens: seq<string>) returns (r: Result<Node, Error>)
    ensures r == ParseTokens(tokens)
  {
    var p := new Parser(tokens);
    var ast :- p.ParseExpr();
    if p.pos < |tokens| {
      return Err(UnexpectedTokensAtEnd);
    }
    return Ok(ast);
  }
}
