/**
 * What the parser does with particular token shapes: number tokens, operator chains,
 * ternaries, unclosed brackets, leftover tokens and bare words; and the fact that text that
 * went through the tokenizer never yields a coalesce or a parameter node.
 */
module ParserProperties {
  import opened Wrappers
  import opened Errors
  import opened JsText
  import opened JsNumber
  import opened Ast
  import opened Lexer
  import opened Parser

  /** A numeral token (`12`, `4.5`, `.5`) is a number to `isNaN`, so it becomes a number node. */
  lemma NumeralIsNumber(tok: string)
    requires IsNumeral(tok)
    ensures !IsNaNString(tok)
  {
    NumeralIsFinite(tok);
    IsNaNStringMeaning(tok);
  }

  lemma NumeralIsFinite(tok: string)
    requires IsNumeral(tok)
    ensures StringToNumber(tok).Finite?
  {
    var d := Run(tok, IsDigit);
    var digits := tok[..d];
    if d == |tok| {
      assert tok == digits;
      DecimalLiteralIsNumber(digits, [], false);
    } else {
      var f := tok[d + 1..];
      assert tok == digits + "." + f;
      DecimalLiteralIsNumber(digits, f, true);
    }
  }

  /** A bare word other than `Infinity` is NaN to `isNaN`. */
  lemma NameIsNaN(tok: string)
    requires IsName(tok) && tok != "Infinity"
    ensures IsNaNString(tok)
  {
    assert !IsJsWhitespace(tok[|tok| - 1]) by {
      if |tok| > 1 {
        assert tok[|tok| - 1] == tok[1..][|tok| - 2];
      }
    }
    TrimUnchanged(tok);
    assert RadixOf(tok).None?;
    assert DigitPrefixLength(tok) == 0;
  }

  /** A numeral starts with a digit or a point. */
  lemma NumeralStart(tok: string)
    requires IsNumeral(tok)
    ensures IsDigit(tok[0]) || tok[0] == '.'
  {
    var d := Run(tok, IsDigit);
    if d == 0 {
      assert tok[0] == '.';
    } else {
      assert IsDigit(tok[0]);
    }
  }

  lemma PrimaryNumeral(t: seq<string>, i: nat)
    requires i < |t| && IsNumeral(t[i])
    ensures PrimaryAt(t, i) == Ok((NumLit(t[i]), i + 1))
  {
    var tok := t[i];
    NumeralStart(tok);
    assert tok != "(" && tok != "_score" by {
      assert tok[0] != '(' && tok[0] != '_';
    }
    assert !StartsWith(tok, '@') && !StartsWith(tok, '\'') && !StartsWith(tok, '"');
    NumeralIsNumber(tok);
    assert AtomAt(t, i + 1, tok) == Ok((NumLit(tok), i + 1));
  }

  /** Nothing at `j` continues an operand at levels up to `lv`. */
  predicate Ends(t: seq<string>, j: nat, lv: nat)
  {
    !PeekIs(t, j, "??") && forall l :: 1 <= l <= lv ==> LevelOp(l, Peek(t, j)).None?
  }

  lemma UnaryNumeral(t: seq<string>, i: nat)
    requires i < |t| && IsNumeral(t[i]) && !PeekIs(t, i + 1, "??")
    ensures UnaryAt(t, i) == Ok((NumLit(t[i]), i + 1))
  {
    NumeralStart(t[i]);
    assert !IsPrefixOp(t[i]) by {
      assert t[i][0] != '!' && t[i][0] != '-' && t[i][0] != '+';
    }
    PrimaryNumeral(t, i);
    assert PostfixAt(t, i) == Ok((NumLit(t[i]), i + 1));
  }

  /** A numeral followed by no operator of levels up to `lv` is a whole operand of level `lv`. */
  lemma {:induction false} LevelNumeral(t: seq<string>, i: nat, lv: nat)
    requires 1 <= lv <= 6 && i < |t| && IsNumeral(t[i]) && Ends(t, i + 1, lv)
    ensures LevelAt(t, i, lv) == Ok((NumLit(t[i]), i + 1))
    decreases lv
  {
    if lv == 1 {
      UnaryNumeral(t, i);
    } else {
      LevelNumeral(t, i, lv - 1);
    }
    assert LevelOp(lv, Peek(t, i + 1)).None?;
  }

  lemma ExprNumeral(t: seq<string>, i: nat)
    requires i < |t| && IsNumeral(t[i]) && Ends(t, i + 1, 6) && !PeekIs(t, i + 1, "?")
    ensures ExprAt(t, i) == Ok((NumLit(t[i]), i + 1))
  {
    LevelNumeral(t, i, 6);
  }

  /** A token is an operator of at most one level. */
  lemma LevelsDisjoint(l: nat, lv: nat, tok: string)
    requires LevelOp(l, Some(tok)).Some? && LevelOp(lv, Some(tok)).Some?
    ensures l == lv
  {
  }

  /** An operator of level `lv` ends operands of every tighter level. */
  lemma OperatorEnds(t: seq<string>, j: nat, lv: nat)
    requires 1 <= lv <= 6 && j < |t| && LevelOp(lv, Some(t[j])).Some?
    ensures Ends(t, j, lv - 1)
  {
    forall l | 1 <= l <= lv - 1
      ensures LevelOp(l, Peek(t, j)).None?
    {
      if LevelOp(l, Peek(t, j)).Some? {
        LevelsDisjoint(l, lv, t[j]);
      }
    }
  }

  /** The operand of level `lv` before an operator of that level is the numeral alone. */
  lemma OperandNumeral(t: seq<string>, i: nat, lv: nat)
    requires 1 <= lv <= 6 && i + 1 < |t| && IsNumeral(t[i]) && LevelOp(lv, Some(t[i + 1])).Some?
    ensures OperandAt(t, i, lv) == Ok((NumLit(t[i]), i + 1))
  {
    OperatorEnds(t, i + 1, lv);
    if lv == 1 {
      UnaryNumeral(t, i);
    } else {
      LevelNumeral(t, i, lv - 1);
    }
  }

  /** The last operand of a chain: a numeral at the end of the tokens. */
  lemma LastOperand(t: seq<string>, lv: nat)
    requires 1 <= lv <= 6 && |t| >= 1 && IsNumeral(t[|t| - 1])
    ensures OperandAt(t, |t| - 1, lv) == Ok((NumLit(t[|t| - 1]), |t|))
  {
    if lv == 1 {
      UnaryNumeral(t, |t| - 1);
    } else {
      LevelNumeral(t, |t| - 1, lv - 1);
    }
  }

  /** A level's result with nothing after it is also the result of every looser level. */
  lemma {:induction false} LiftToTop(t: seq<string>, i: nat, lv: nat, n: Node)
    requires 1 <= lv <= 6 && i <= |t| && LevelAt(t, i, lv) == Ok((n, |t|))
    ensures LevelAt(t, i, 6) == Ok((n, |t|))
    decreases 6 - lv
  {
    if lv < 6 {
      assert LevelAt(t, i, lv + 1) == Ok((n, |t|));
      LiftToTop(t, i, lv + 1, n);
    }
  }

  /** A whole token list that one level parses completely is what `parse` returns. */
  lemma ParseLevelWhole(t: seq<string>, lv: nat, n: Node)
    requires 1 <= lv <= 6 && LevelAt(t, 0, lv) == Ok((n, |t|))
    ensures ParseTokens(t) == Ok(n)
  {
    LiftToTop(t, 0, lv, n);
  }

  /**
   * `x op y` for numerals and an operator of any level parses to one binary node. Level 6
   * accepts `|` and `||` alike and records `||`; level 5 does the same for `&` and `&&`.
   */
  lemma BinaryOfNumerals(x: string, op: string, y: string, lv: nat)
    requires 1 <= lv <= 6 && IsNumeral(x) && IsNumeral(y) && LevelOp(lv, Some(op)).Some?
    ensures ParseTokens([x, op, y]) == Ok(Bin(LevelOp(lv, Some(op)).value, NumLit(x), NumLit(y)))
  {
    var t := [x, op, y];
    OperandNumeral(t, 0, lv);
    LastOperand(t, lv);
    var n := Bin(LevelOp(lv, Some(op)).value, NumLit(x), NumLit(y));
    assert LevelRestAt(t, 3, lv, n) == Ok((n, 3));
    assert LevelAt(t, 0, lv) == Ok((n, 3));
    ParseLevelWhole(t, lv, n);
  }

  lemma OrAndSpellings(x: string, y: string)
    requires IsNumeral(x) && IsNumeral(y)
    ensures ParseTokens([x, "|", y]) == ParseTokens([x, "||", y]) == Ok(Bin("||", NumLit(x), NumLit(y)))
    ensures ParseTokens([x, "&", y]) == ParseTokens([x, "&&", y]) == Ok(Bin("&&", NumLit(x), NumLit(y)))
  {
    BinaryOfNumerals(x, "|", y, 6);
    BinaryOfNumerals(x, "||", y, 6);
    BinaryOfNumerals(x, "&", y, 5);
    BinaryOfNumerals(x, "&&", y, 5);
  }

  /** On numerals: `x o1 y o2 z` at one level is `(x o1 y) o2 z`. */
  lemma LeftAssociativeNumerals(x: string, o1: string, y: string, o2: string, z: string, lv: nat)
    requires 1 <= lv <= 6 && IsNumeral(x) && IsNumeral(y) && IsNumeral(z)
    requires LevelOp(lv, Some(o1)).Some? && LevelOp(lv, Some(o2)).Some?
    ensures var b1 := LevelOp(lv, Some(o1)).value;
            var b2 := LevelOp(lv, Some(o2)).value;
            ParseTokens([x, o1, y, o2, z]) == Ok(Bin(b2, Bin(b1, NumLit(x), NumLit(y)), NumLit(z)))
  {
    var t := [x, o1, y, o2, z];
    var b1 := LevelOp(lv, Some(o1)).value;
    var b2 := LevelOp(lv, Some(o2)).value;
    OperandNumeral(t, 0, lv);
    OperandNumeral(t, 2, lv);
    LastOperand(t, lv);
    var inner := Bin(b1, NumLit(x), NumLit(y));
    var n := Bin(b2, inner, NumLit(z));
    assert LevelRestAt(t, 5, lv, n) == Ok((n, 5));
    assert LevelRestAt(t, 3, lv, inner) == Ok((n, 5));
    assert LevelRestAt(t, 1, lv, NumLit(x)) == Ok((n, 5));
    ParseLevelWhole(t, lv, n);
  }

  /** `?`, `:`, `,` and `)` end an operand at every level. */
  lemma PunctuatorEnds(t: seq<string>, j: nat)
    requires j < |t| && |t[j]| == 1 && t[j][0] in "?:,)"
    ensures Ends(t, j, 6)
  {
  }

  /** `x ? y : rest` where `x` and `y` are numerals and `rest` is an expression. */
  lemma NumeralTernary(t: seq<string>, i: nat, rest: Node, end: nat)
    requires i + 4 < |t| && IsNumeral(t[i]) && t[i + 1] == "?" && IsNumeral(t[i + 2]) && t[i + 3] == ":"
    requires ExprAt(t, i + 4) == Ok((rest, end))
    ensures ExprAt(t, i) == Ok((Ternary(NumLit(t[i]), NumLit(t[i + 2]), rest), end))
  {
    PunctuatorEnds(t, i + 1);
    PunctuatorEnds(t, i + 3);
    LevelNumeral(t, i, 6);
    ExprNumeral(t, i + 2);
  }

  /** On numerals: `a ? b : c ? d : e` is `a ? b : (c ? d : e)`. */
  lemma TernaryNestsRightNumerals(a: string, b: string, c: string, d: string, e: string)
    requires IsNumeral(a) && IsNumeral(b) && IsNumeral(c) && IsNumeral(d) && IsNumeral(e)
    ensures ParseTokens([a, "?", b, ":", c, "?", d, ":", e])
      == Ok(Ternary(NumLit(a), NumLit(b), Ternary(NumLit(c), NumLit(d), NumLit(e))))
  {
    var t := [a, "?", b, ":", c, "?", d, ":", e];
    ExprNumeral(t, 8);
    NumeralTernary(t, 4, NumLit(e), 9);
    NumeralTernary(t, 0, Ternary(NumLit(c), NumLit(d), NumLit(e)), 9);
  }

  /** An error from the first primary of an expression is the error of the whole expression. */
  lemma {:induction false} PrimaryErrorPropagates(t: seq<string>, i: nat, lv: nat)
    requires 1 <= lv <= 6 && i < |t| && !IsPrefixOp(t[i]) && PrimaryAt(t, i).Err?
    ensures LevelAt(t, i, lv) == Err(PrimaryAt(t, i).error)
    decreases lv
  {
    if lv > 1 {
      PrimaryErrorPropagates(t, i, lv - 1);
    } else {
      assert UnaryAt(t, i) == PostfixAt(t, i);
    }
    assert OperandAt(t, i, lv) == Err(PrimaryAt(t, i).error);
  }

  lemma ExprErrorFromPrimary(t: seq<string>)
    requires |t| > 0 && !IsPrefixOp(t[0]) && PrimaryAt(t, 0).Err?
    ensures ParseTokens(t) == Err(PrimaryAt(t, 0).error)
  {
    PrimaryErrorPropagates(t, 0, 6);
  }

  /** On a numeral: `( x` is missing its `)`. */
  lemma UnclosedParenNumeral(x: string)
    requires IsNumeral(x)
    ensures ParseTokens(["(", x]) == Err(ExpectedRParen)
  {
    var t := ["(", x];
    ExprNumeral(t, 1);
    assert PrimaryAt(t, 0) == Err(ExpectedRParen);
    ExprErrorFromPrimary(t);
  }

  /** On a numeral: `@f x` is missing its `(`, and `@f ( x` its `)`. */
  lemma UnclosedCallNumeral(name: string, x: string)
    requires IsNumeral(x)
    ensures ParseTokens(["@" + name, x]) == Err(ExpectedLParen)
    ensures ParseTokens(["@" + name, "(", x]) == Err(ExpectedRParen)
  {
    var t := ["@" + name, x];
    assert x != "(" by {
      assert Run("(", IsDigit) == 0;
    }
    assert t[0][0] == '@' && t[0] != "(" && t[0] != "_score";
    assert t[0][1..] == name;
    assert PrimaryAt(t, 0) == Err(ExpectedLParen);
    ExprErrorFromPrimary(t);
    var u := ["@" + name, "(", x];
    ExprNumeral(u, 2);
    assert CallArgsAt(u, 2) == Ok(([NumLit(x)], 3));
    assert u[0][0] == '@' && u[0] != "(" && u[0] != "_score";
    assert u[0][1..] == name;
    assert PrimaryAt(u, 0) == Err(ExpectedRParen);
    ExprErrorFromPrimary(u);
  }

  /** On numerals: `x y` has a token left over. */
  lemma LeftoverNumerals(x: string, y: string)
    requires IsNumeral(x) && IsNumeral(y)
    ensures ParseTokens([x, y]) == Err(UnexpectedTokensAtEnd)
  {
    var t := [x, y];
    assert Ends(t, 1, 6) && !PeekIs(t, 1, "?") by {
      assert Run("??", IsDigit) == 0 && Run("?", IsDigit) == 0;
    }
    ExprNumeral(t, 0);
  }

  /* ---------------- shapes over arbitrary sub-parses ---------------- */

  /** `e0 o1 e1 … on en` folded to the left: `(…((e0 o1 e1) o2 e2) …) on en`. */
  function FoldLeft(left: Node, ops: seq<string>, rights: seq<Node>): Node
    requires |ops| == |rights|
    decreases |ops|
  {
    if ops == [] then left else FoldLeft(Bin(ops[0], left, rights[0]), ops[1..], rights[1..])
  }

  /**
   * The loop of a binary level over a chain: an operator of the level at each `at[m]`, then an
   * operand parsed from `at[m] + 1` that ends at `at[m + 1]`, and no operator of the level at
   * the last position. Whatever the operands are, the loop folds the chain to the left.
   */
  lemma {:induction false} LevelChain(t: seq<string>, lv: nat, left: Node, ops: seq<string>,
                                      rights: seq<Node>, at: seq<nat>)
    requires 1 <= lv <= 6 && |ops| == |rights| && |at| == |ops| + 1 && at[0] <= |t| + 1
    requires forall m :: 0 <= m < |ops| ==>
               && at[m] < |t| && LevelOp(lv, Some(t[at[m]])) == Some(ops[m])
               && OperandAt(t, at[m] + 1, lv) == Ok((rights[m], at[m + 1]))
    requires LevelOp(lv, Peek(t, at[|ops|])).None?
    ensures LevelRestAt(t, at[0], lv, left) == Ok((FoldLeft(left, ops, rights), at[|ops|]))
    decreases |ops|
  {
    if ops != [] {
      LevelRestStep(t, at[0], lv, left);
      LevelChain(t, lv, Bin(ops[0], left, rights[0]), ops[1..], rights[1..], at[1..]);
    }
  }

  /** A whole binary level over such a chain, from its first operand: the left fold. */
  lemma LevelFold(t: seq<string>, i: nat, lv: nat, first: Node, ops: seq<string>,
                  rights: seq<Node>, at: seq<nat>)
    requires 1 <= lv <= 6 && i <= |t| && |ops| == |rights| && |at| == |ops| + 1
    requires OperandAt(t, i, lv) == Ok((first, at[0]))
    requires forall m :: 0 <= m < |ops| ==>
               && at[m] < |t| && LevelOp(lv, Some(t[at[m]])) == Some(ops[m])
               && OperandAt(t, at[m] + 1, lv) == Ok((rights[m], at[m + 1]))
    requires LevelOp(lv, Peek(t, at[|ops|])).None?
    ensures LevelAt(t, i, lv) == Ok((FoldLeft(first, ops, rights), at[|ops|]))
  {
    LevelFirst(t, i, lv);
    LevelChain(t, lv, first, ops, rights, at);
  }

  /**
   * Operators of one level associate to the left, whatever their operands: `a o1 b o2 c` is
   * `(a o1 b) o2 c` when `a`, `b`, `c` are operands of the level and no operator of the level
   * follows `c`.
   */
  lemma LeftAssociative(t: seq<string>, i: nat, lv: nat, a: Node, j: nat, b: Node, k: nat, c: Node, l: nat)
    requires 1 <= lv <= 6 && i <= |t|
    requires OperandAt(t, i, lv) == Ok((a, j)) && j < |t| && LevelOp(lv, Some(t[j])).Some?
    requires OperandAt(t, j + 1, lv) == Ok((b, k)) && k < |t| && LevelOp(lv, Some(t[k])).Some?
    requires OperandAt(t, k + 1, lv) == Ok((c, l)) && LevelOp(lv, Peek(t, l)).None?
    ensures LevelAt(t, i, lv) ==
              Ok((Bin(LevelOp(lv, Some(t[k])).value, Bin(LevelOp(lv, Some(t[j])).value, a, b), c), l))
  {
    var ab := Bin(LevelOp(lv, Some(t[j])).value, a, b);
    LevelFirst(t, i, lv);
    LevelRestStep(t, j, lv, a);
    LevelRestStep(t, k, lv, ab);
  }

  /** `cond ? then : else` for any condition, then-branch and else-branch the parser reads. */
  lemma TernaryAt(t: seq<string>, i: nat, cond: Node, j: nat, th: Node, k: nat, el: Node, m: nat)
    requires i <= |t| && LevelAt(t, i, 6) == Ok((cond, j)) && PeekIs(t, j, "?")
    requires ExprAt(t, j + 1) == Ok((th, k)) && PeekIs(t, k, ":")
    requires ExprAt(t, k + 1) == Ok((el, m))
    ensures ExprAt(t, i) == Ok((Ternary(cond, th, el), m))
  {
  }

  /** A then-branch not followed by `:` is an error. */
  lemma TernaryNeedsColon(t: seq<string>, i: nat, cond: Node, j: nat, th: Node, k: nat)
    requires i <= |t| && LevelAt(t, i, 6) == Ok((cond, j)) && PeekIs(t, j, "?")
    requires ExprAt(t, j + 1) == Ok((th, k)) && !PeekIs(t, k, ":")
    ensures ExprAt(t, i) == Err(ExpectedColon)
  {
  }

  /**
   * Chained ternaries nest to the right: `a ? b : c ? d : e` is `a ? b : (c ? d : e)`, for
   * any sub-expressions the parser reads there.
   */
  lemma TernaryNestsRight(t: seq<string>, i: nat, a: Node, j: nat, b: Node, k: nat, c: Node, l: nat,
                          d: Node, m: nat, e: Node, n: nat)
    requires i <= |t| && LevelAt(t, i, 6) == Ok((a, j)) && PeekIs(t, j, "?")
    requires ExprAt(t, j + 1) == Ok((b, k)) && PeekIs(t, k, ":")
    requires LevelAt(t, k + 1, 6) == Ok((c, l)) && PeekIs(t, l, "?")
    requires ExprAt(t, l + 1) == Ok((d, m)) && PeekIs(t, m, ":")
    requires ExprAt(t, m + 1) == Ok((e, n))
    ensures ExprAt(t, i) == Ok((Ternary(a, b, Ternary(c, d, e)), n))
  {
    TernaryAt(t, k + 1, c, l, d, m, e, n);
    TernaryAt(t, i, a, j, b, k, Ternary(c, d, e), n);
  }

  /** After `(`, a parenthesised expression succeeds exactly when its expression is closed by `)`. */
  lemma ParenCloses(t: seq<string>, i: nat)
    requires i <= |t|
    ensures ParenAt(t, i).Ok? <==> ExprAt(t, i).Ok? && PeekIs(t, ExprAt(t, i).value.1, ")")
    ensures ParenAt(t, i).Ok? ==> ParenAt(t, i).value == (ExprAt(t, i).value.0, ExprAt(t, i).value.1 + 1)
    ensures ExprAt(t, i).Ok? && !PeekIs(t, ExprAt(t, i).value.1, ")") ==> ParenAt(t, i) == Err(ExpectedRParen)
  {
  }

  /** A leading `(` whose expression is not closed by `)` fails the whole parse with "Expected ')'". */
  lemma UnclosedParen(t: seq<string>, e: Node, j: nat)
    requires |t| > 0 && t[0] == "(" && ExprAt(t, 1) == Ok((e, j)) && !PeekIs(t, j, ")")
    ensures ParseTokens(t) == Err(ExpectedRParen)
  {
    ParenCloses(t, 1);
    assert PrimaryAt(t, 0) == Err(ExpectedRParen);
    ExprErrorFromPrimary(t);
  }

  /**
   * After `@name`, a call succeeds exactly when `(`, an argument list and `)` follow; a missing
   * `(` is "Expected '('" and an argument list not closed by `)` is "Expected ')'".
   */
  lemma CallCloses(t: seq<string>, i: nat, name: string)
    requires i <= |t|
    ensures CallRestAt(t, i, name).Ok? <==>
              PeekIs(t, i, "(") && CallArgsAt(t, i + 1).Ok? && PeekIs(t, CallArgsAt(t, i + 1).value.1, ")")
    ensures !PeekIs(t, i, "(") ==> CallRestAt(t, i, name) == Err(ExpectedLParen)
    ensures PeekIs(t, i, "(") && CallArgsAt(t, i + 1).Ok? && !PeekIs(t, CallArgsAt(t, i + 1).value.1, ")") ==>
              CallRestAt(t, i, name) == Err(ExpectedRParen)
  {
  }

  /** A leading `@name` without `(`, or whose arguments are not closed by `)`, fails the whole parse. */
  lemma UnclosedCall(t: seq<string>, name: string)
    requires |t| > 0 && t[0] == "@" + name
    ensures !PeekIs(t, 1, "(") ==> ParseTokens(t) == Err(ExpectedLParen)
    ensures PeekIs(t, 1, "(") && CallArgsAt(t, 2).Ok? && !PeekIs(t, CallArgsAt(t, 2).value.1, ")") ==>
              ParseTokens(t) == Err(ExpectedRParen)
  {
    assert t[0][0] == '@' && t[0] != "(" && t[0] != "_score" && !IsPrefixOp(t[0]);
    assert t[0][1..] == name;
    CallCloses(t, 1, name);
    if PrimaryAt(t, 0).Err? {
      ExprErrorFromPrimary(t);
    }
  }

  /** An expression that stops before the last token leaves tokens over: "Unexpected tokens at end". */
  lemma LeftoverTokens(t: seq<string>, e: Node, j: nat)
    requires ExprAt(t, 0) == Ok((e, j))
    ensures j < |t| <==> ParseTokens(t) == Err(UnexpectedTokensAtEnd)
    ensures j >= |t| <==> ParseTokens(t) == Ok(e)
  {
  }

  /**
   * A bare word that is not `_score`, `params` or `Infinity` is rejected; so `true`, `false`
   * and `null` are not literals of the language.
   */
  lemma BareWordRejected(w: string)
    requires IsName(w) && w != "_score" && w != "params" && w != "Infinity"
    ensures ParseTokens([w]) == Err(UnexpectedToken(w))
  {
    NameIsNaN(w);
    assert IsNameStart(w[0]);
    assert !IsPrefixOp(w) && w != "(" && !StartsWith(w, '@') && !StartsWith(w, '\'') && !StartsWith(w, '"');
    assert AtomAt([w], 1, w) == Err(UnexpectedToken(w));
    assert PrimaryAt([w], 0) == Err(UnexpectedToken(w));
    ExprErrorFromPrimary([w]);
  }

  lemma KeywordsRejected()
    ensures ParseTokens(["true"]) == Err(UnexpectedToken("true"))
    ensures ParseTokens(["false"]) == Err(UnexpectedToken("false"))
    ensures ParseTokens(["null"]) == Err(UnexpectedToken("null"))
  {
    BareWordRejected("true");
    BareWordRejected("false");
    BareWordRejected("null");
  }

  /** A tree without coalesce and parameter nodes. */
  predicate Plain(n: Node)
  {
    match n
    case Coalesce(_, _) => false
    case Param(_) => false
    case Unary(_, e) => Plain(e)
    case Bin(_, l, r) => Plain(l) && Plain(r)
    case Ternary(c, a, b) => Plain(c) && Plain(a) && Plain(b)
    case Call(_, args) => forall a :: a in args ==> Plain(a)
    case _ => true
  }

  /** Token lists without `??` and `.`, which is every list the tokenizer produces. */
  predicate NoSugarTokens(t: seq<string>)
  {
    "??" !in t && "." !in t
  }

  lemma {:induction false} ExprPlain(t: seq<string>, i: nat)
    requires NoSugarTokens(t) && i <= |t|
    ensures ExprAt(t, i).Ok? ==> Plain(ExprAt(t, i).value.0)
    decreases |t| + 1 - i, 15
  {
    LevelPlain(t, i, 6);
    var c := LevelAt(t, i, 6);
    if c.Ok? && PeekIs(t, c.value.1, "?") {
      ExprPlain(t, c.value.1 + 1);
      var th := ExprAt(t, c.value.1 + 1);
      if th.Ok? && PeekIs(t, th.value.1, ":") {
        ExprPlain(t, th.value.1 + 1);
      }
    }
  }

  lemma {:induction false} OperandPlain(t: seq<string>, i: nat, lv: nat)
    requires NoSugarTokens(t) && 1 <= lv <= 6 && i <= |t|
    ensures OperandAt(t, i, lv).Ok? ==> Plain(OperandAt(t, i, lv).value.0)
    decreases |t| + 1 - i, 2 * lv + 1
  {
    if lv == 1 {
      UnaryPlain(t, i);
    } else {
      LevelPlain(t, i, lv - 1);
    }
  }

  lemma {:induction false} LevelPlain(t: seq<string>, i: nat, lv: nat)
    requires NoSugarTokens(t) && 1 <= lv <= 6 && i <= |t|
    ensures LevelAt(t, i, lv).Ok? ==> Plain(LevelAt(t, i, lv).value.0)
    decreases |t| + 1 - i, 2 * lv + 2
  {
    OperandPlain(t, i, lv);
    var first := OperandAt(t, i, lv);
    if first.Ok? {
      LevelRestPlain(t, first.value.1, lv, first.value.0);
    }
  }

  lemma {:induction false} LevelRestPlain(t: seq<string>, j: nat, lv: nat, left: Node)
    requires NoSugarTokens(t) && 1 <= lv <= 6 && j <= |t| + 1 && Plain(left)
    ensures LevelRestAt(t, j, lv, left).Ok? ==> Plain(LevelRestAt(t, j, lv, left).value.0)
    decreases |t| + 1 - j, 0
  {
    match LevelOp(lv, Peek(t, j))
    case None =>
    case Some(op) =>
      OperandPlain(t, j + 1, lv);
      var right := OperandAt(t, j + 1, lv);
      if right.Ok? {
        LevelRestPlain(t, right.value.1, lv, Bin(op, left, right.value.0));
      }
  }

  lemma {:induction false} UnaryPlain(t: seq<string>, i: nat)
    requires NoSugarTokens(t) && i <= |t|
    ensures UnaryAt(t, i).Ok? ==> Plain(UnaryAt(t, i).value.0)
    decreases |t| + 1 - i, 2
  {
    if i < |t| && IsPrefixOp(t[i]) {
      UnaryPlain(t, i + 1);
    } else {
      PostfixPlain(t, i);
    }
  }

  lemma {:induction false} PostfixPlain(t: seq<string>, i: nat)
    requires NoSugarTokens(t) && i <= |t|
    ensures PostfixAt(t, i).Ok? ==> Plain(PostfixAt(t, i).value.0)
    decreases |t| + 1 - i, 1
  {
    PrimaryPlain(t, i);
    var left := PrimaryAt(t, i);
    if left.Ok? && left.value.1 < |t| {
      assert t[left.value.1] in t;
    }
  }

  lemma {:induction false} PrimaryPlain(t: seq<string>, i: nat)
    requires NoSugarTokens(t) && i <= |t|
    ensures PrimaryAt(t, i).Ok? ==> Plain(PrimaryAt(t, i).value.0)
    decreases |t| + 1 - i, 0
  {
    if i < |t| {
      if i + 1 < |t| {
        assert t[i + 1] in t;
      }
      if t[i] == "(" {
        ExprPlain(t, i + 1);
        assert PrimaryAt(t, i) == ParenAt(t, i + 1);
      } else if StartsWith(t[i], '@') {
        CallRestPlain(t, i + 1, t[i][1..]);
      }
    }
  }

  lemma {:induction false} CallRestPlain(t: seq<string>, i: nat, name: string)
    requires NoSugarTokens(t) && i <= |t|
    ensures CallRestAt(t, i, name).Ok? ==> Plain(CallRestAt(t, i, name).value.0)
    decreases |t| + 1 - i, 4
  {
    if PeekIs(t, i, "(") {
      CallArgsPlain(t, i + 1);
    }
  }

  lemma {:induction false} CallArgsPlain(t: seq<string>, j: nat)
    requires NoSugarTokens(t) && j <= |t|
    ensures CallArgsAt(t, j).Ok? ==> forall a :: a in CallArgsAt(t, j).value.0 ==> Plain(a)
    decreases |t| + 1 - j, 16
  {
    if !PeekIs(t, j, ")") {
      ExprPlain(t, j);
      var first := ExprAt(t, j);
      if first.Ok? {
        ArgsPlain(t, first.value.1, [first.value.0]);
      }
    }
  }

  lemma {:induction false} ArgsPlain(t: seq<string>, j: nat, args: seq<Node>)
    requires NoSugarTokens(t) && j <= |t| + 1 && forall a :: a in args ==> Plain(a)
    ensures ArgsAt(t, j, args).Ok? ==> forall a :: a in ArgsAt(t, j, args).value.0 ==> Plain(a)
    decreases |t| + 1 - j, 0
  {
    if PeekIs(t, j, ",") {
      ExprPlain(t, j + 1);
      var e := ExprAt(t, j + 1);
      if e.Ok? {
        ArgsPlain(t, e.value.1, args + [e.value.0]);
      }
    }
  }

  /**
   * Source text never yields a coalesce node (its `??` scans as two `?`) nor a parameter node
   * (there is no `.` token for `params.name`).
   */
  lemma SourceTextIsPlain(s: string)
    requires ParseTokens(TokensOf(s)).Ok?
    ensures Plain(ParseTokens(TokensOf(s)).value)
  {
    NoCoalesceToken(s);
    NoDotToken(s);
    ExprPlain(TokensOf(s), 0);
  }
}
