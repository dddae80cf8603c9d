/**
 * The tokenizer of the SCXQ2 expression language.
 *
 * The source drives one global regular expression over the input: optional whitespace, then
 * the first of an ordered list of alternatives. No alternative starts with a whitespace
 * character, so a match starts at the first position where some alternative matches, and
 * characters where none matches are skipped silently. `Lexeme` is the ordered alternation,
 * `TokensOf` the scan, and `IsToken` an independent description of the token shapes.
 */
module Lexer {
  import opened Wrappers
  import opened JsText

  predicate IsNameStart(c: char)
  {
    'A' <= c <= 'Z' || 'a' <= c <= 'z' || c == '_'
  }

  predicate IsNameChar(c: char)
  {
    IsNameStart(c) || IsDigit(c)
  }

  predicate NotSingleQuote(c: char) { c != '\'' }

  predicate NotDoubleQuote(c: char) { c != '"' }

  /** Length of the longest prefix of `s` whose characters all satisfy `p`. */
  function Run(s: string, p: char -> bool): (n: nat)
    ensures n <= |s|
    ensures forall i :: 0 <= i < n ==> p(s[i])
    ensures n < |s| ==> !p(s[n])
  {
    if s == [] || !p(s[0]) then 0 else 1 + Run(s[1..], p)
  }

  const Punctuators: string := "()?:,"
  const TwoCharOperators: seq<string> := ["==", "!=", "<=", ">=", "||", "&&", "??"]
  const OneCharOperators: string := "+-*/%<>&|!"

  /**
   * The length of the text the first matching alternative takes at the start of `s`, in the
   * order the alternatives are written; `None` when none matches there.
   */
  function Lexeme(s: string): (r: Option<nat>)
    ensures r.Some? ==> 1 <= r.value <= |s|
  {
    if s == [] then None
    else if s[0] in Punctuators then Some(1)
    else if |s| >= 2 && s[..2] in TwoCharOperators then Some(2)
    else if s[0] in OneCharOperators then Some(1)
    else if s[0] == '@' && |s| >= 2 && IsNameStart(s[1]) then Some(2 + Run(s[2..], IsNameChar))
    else if IsNameStart(s[0]) then Some(1 + Run(s[1..], IsNameChar))
    else if s[0] == '\'' && 1 + Run(s[1..], NotSingleQuote) < |s| then Some(2 + Run(s[1..], NotSingleQuote))
    else if s[0] == '"' && 1 + Run(s[1..], NotDoubleQuote) < |s| then Some(2 + Run(s[1..], NotDoubleQuote))
    else if IsDigit(s[0]) then
      var d := Run(s, IsDigit);
      if d + 1 < |s| && s[d] == '.' && IsDigit(s[d + 1]) then Some(d + 1 + Run(s[d + 1..], IsDigit))
      else Some(d)
    else if s[0] == '.' && |s| >= 2 && IsDigit(s[1]) then Some(1 + Run(s[1..], IsDigit))
    else None
  }

  /** The tokens the scan produces: the first alternative at each position, else skip a character. */
  function TokensOf(s: string): seq<string>
    decreases |s|
  {
    if s == [] then []
    else match Lexeme(s)
      case Some(n) => [s[..n]] + TokensOf(s[n..])
      case None => TokensOf(s[1..])
  }

  /** The token loop: `exec` the expression until it fails, collecting each match. */
  method Tokenize(input: string) returns (tokens: seq<string>)
    ensures tokens == TokensOf(input)
  {
    tokens := [];
    var pos := 0;
    while pos < |input|
      invariant pos <= |input|
      invariant tokens + TokensOf(input[pos..]) == TokensOf(input)
      decreases |input| - pos
    {
      var rest := input[pos..];
      match Lexeme(rest)
      case Some(n) =>
        assert rest[n..] == input[pos + n..];
        tokens := tokens + [rest[..n]];
        pos := pos + n;
      case None =>
        assert rest[1..] == input[pos + 1..];
        pos := pos + 1;
    }
  }

  predicate AllSatisfy(s: string, p: char -> bool)
  {
    forall i :: 0 <= i < |s| ==> p(s[i])
  }

  /** `[A-Za-z_][A-Za-z0-9_]*` */
  predicate IsName(t: string)
  {
    t != [] && IsNameStart(t[0]) && AllSatisfy(t[1..], IsNameChar)
  }

  /** A string literal delimited by `q` with no `q` inside. */
  predicate IsQuoted(t: string, q: char)
  {
    |t| >= 2 && t[0] == q && t[|t| - 1] == q && forall i :: 0 < i < |t| - 1 ==> t[i] != q
  }

  /** `\d+`, `\d+\.\d+` or `\.\d+`. */
  predicate IsNumeral(t: string)
  {
    var d := Run(t, IsDigit);
    t != [] && (d == |t| || (t[d] == '.' && d + 1 < |t| && AllSatisfy(t[d + 1..], IsDigit)))
  }

  /** The shapes a token can take, read off the alternatives one by one. */
  predicate IsToken(t: string)
  {
    || (|t| == 1 && t[0] in Punctuators)
    || t in TwoCharOperators
    || (|t| == 1 && t[0] in OneCharOperators)
    || IsName(t)
    || (|t| >= 2 && t[0] == '@' && IsName(t[1..]))
    || IsQuoted(t, '\'')
    || IsQuoted(t, '"')
    || IsNumeral(t)
  }

  lemma {:induction false} RunPrefix(s: string, p: char -> bool, n: nat)
    requires n <= |s| && Run(s, p) <= n
    ensures Run(s[..n], p) == Run(s, p)
    decreases |s|
  {
    if s != [] && p(s[0]) {
      assert s[..n][1..] == s[1..][..n - 1];
      RunPrefix(s[1..], p, n - 1);
    }
  }

  lemma {:induction false} RunAll(s: string, p: char -> bool)
    requires AllSatisfy(s, p)
    ensures Run(s, p) == |s|
    decreases |s|
  {
    if s != [] {
      RunAll(s[1..], p);
    }
  }

  /** What the first matching alternative takes is a token of one of the listed shapes. */
  lemma LexemeIsToken(s: string)
    requires Lexeme(s).Some?
    ensures IsToken(s[..Lexeme(s).value])
  {
    var n := Lexeme(s).value;
    var t := s[..n];
    if s[0] in Punctuators {
    } else if |s| >= 2 && s[..2] in TwoCharOperators {
    } else if s[0] in OneCharOperators {
    } else if s[0] == '@' && |s| >= 2 && IsNameStart(s[1]) {
      NameLexeme(s[1..]);
      assert t[1..] == s[1..][..n - 1];
    } else if IsNameStart(s[0]) {
      NameLexeme(s);
    } else if s[0] == '\'' && 1 + Run(s[1..], NotSingleQuote) < |s| {
      QuotedLexeme(s, '\'', NotSingleQuote);
    } else if s[0] == '"' && 1 + Run(s[1..], NotDoubleQuote) < |s| {
      QuotedLexeme(s, '"', NotDoubleQuote);
    } else if IsDigit(s[0]) {
      NumeralLexeme(s);
    } else {
      RunPrefix(s, IsDigit, n);
      assert t[1..] == s[1..][..n - 1];
    }
  }

  /** A name start followed by the longest run of name characters is a name. */
  lemma NameLexeme(s: string)
    requires s != [] && IsNameStart(s[0])
    ensures IsName(s[..1 + Run(s[1..], IsNameChar)])
  {
    var n := 1 + Run(s[1..], IsNameChar);
    assert s[..n][1..] == s[1..][..n - 1];
  }

  /** An opening quote, the run of other characters and the closing quote form a literal. */
  lemma QuotedLexeme(s: string, q: char, p: char -> bool)
    requires s != [] && s[0] == q && forall c :: p(c) <==> c != q
    requires 1 + Run(s[1..], p) < |s|
    ensures IsQuoted(s[..2 + Run(s[1..], p)], q)
  {
    var t := s[..2 + Run(s[1..], p)];
    assert forall i :: 0 < i < |t| - 1 ==> t[i] == s[1..][i - 1];
  }

  /** The digit alternatives take a numeral. */
  lemma NumeralLexeme(s: string)
    requires s != [] && IsDigit(s[0])
    ensures Lexeme(s).Some? && IsNumeral(s[..Lexeme(s).value])
  {
    var n := Lexeme(s).value;
    var t := s[..n];
    var d := Run(s, IsDigit);
    RunPrefix(s, IsDigit, n);
    if d + 1 < |s| && s[d] == '.' && IsDigit(s[d + 1]) {
      assert t[d + 1..] == s[d + 1..][..n - d - 1];
    }
  }

  /** Every token the scan produces has one of the shapes of `IsToken`. */
  lemma {:induction false} TokensAreTokens(s: string)
    ensures forall t :: t in TokensOf(s) ==> IsToken(t)
    decreases |s|
  {
    if s != [] {
      match Lexeme(s)
      case Some(n) =>
        LexemeIsToken(s);
        TokensAreTokens(s[n..]);
      case None =>
        TokensAreTokens(s[1..]);
    }
  }

  /** Each token is a piece of the input that starts at a non-whitespace character. */
  lemma {:induction false} TokensAreNonEmpty(s: string)
    ensures forall t :: t in TokensOf(s) ==> t != [] && !IsJsWhitespace(t[0])
    decreases |s|
  {
    if s != [] {
      match Lexeme(s)
      case Some(n) =>
        LexemeIsToken(s);
        TokenIsVisible(s[..n]);
        TokensAreNonEmpty(s[n..]);
      case None =>
        TokensAreNonEmpty(s[1..]);
    }
  }

  /** Where each token of `TokensOf(s)` starts in `s`. */
  function TokenStarts(s: string): seq<nat>
    decreases |s|
  {
    if s == [] then []
    else match Lexeme(s)
      case Some(n) => [0] + Shift(TokenStarts(s[n..]), n)
      case None => Shift(TokenStarts(s[1..]), 1)
  }

  function Shift(ps: seq<nat>, d: nat): (r: seq<nat>)
    ensures |r| == |ps| && forall k :: 0 <= k < |ps| ==> r[k] == ps[k] + d
  {
    seq(|ps|, k requires 0 <= k < |ps| => ps[k] + d)
  }

  /** Each token is the slice of `s` at its start, and each ends at or before the next one starts. */
  predicate SlicesInOrder(s: string, toks: seq<string>, starts: seq<nat>)
  {
    && |starts| == |toks|
    && (forall k :: 0 <= k < |toks| ==>
          starts[k] + |toks[k]| <= |s| && s[starts[k]..starts[k] + |toks[k]|] == toks[k])
    && (forall k :: 0 <= k < |toks| - 1 ==> starts[k] + |toks[k]| <= starts[k + 1])
  }

  /**
   * The tokens come in source order: the k-th token is the slice of the input at its start,
   * the starts increase, and no two tokens overlap.
   */
  lemma {:induction false} TokensInOrder(s: string)
    ensures SlicesInOrder(s, TokensOf(s), TokenStarts(s))
    decreases |s|
  {
    if s != [] {
      match Lexeme(s)
      case Some(n) =>
        TokensInOrder(s[n..]);
        ShiftSlices(s, n, TokensOf(s[n..]), TokenStarts(s[n..]));
        ConsSlice(s, n, TokensOf(s[n..]), Shift(TokenStarts(s[n..]), n));
      case None =>
        TokensInOrder(s[1..]);
        ShiftSlices(s, 1, TokensOf(s[1..]), TokenStarts(s[1..]));
    }
  }

  /** Slices of a suffix are slices of the whole text, moved by the suffix's offset. */
  lemma ShiftSlices(s: string, d: nat, toks: seq<string>, starts: seq<nat>)
    requires d <= |s| && SlicesInOrder(s[d..], toks, starts)
    ensures SlicesInOrder(s, toks, Shift(starts, d))
  {
    forall k | 0 <= k < |toks|
      ensures s[starts[k] + d..starts[k] + d + |toks[k]|] == toks[k]
    {
      assert s[d..][starts[k]..starts[k] + |toks[k]|] == s[starts[k] + d..starts[k] + d + |toks[k]|];
    }
  }

  /** A first token `s[..n]` in front of slices that all start at or after `n`. */
  lemma ConsSlice(s: string, n: nat, toks: seq<string>, starts: seq<nat>)
    requires n <= |s| && SlicesInOrder(s, toks, starts)
    requires forall k :: 0 <= k < |starts| ==> n <= starts[k]
    ensures SlicesInOrder(s, [s[..n]] + toks, [0] + starts)
  {
    var ts := [s[..n]] + toks;
    var ps := [0] + starts;
    forall k | 0 < k < |ts|
      ensures ps[k] + |ts[k]| <= |s| && s[ps[k]..ps[k] + |ts[k]|] == ts[k]
    {
      assert ts[k] == toks[k - 1] && ps[k] == starts[k - 1];
    }
    forall k | 0 < k < |ts| - 1
      ensures ps[k] + |ts[k]| <= ps[k + 1]
    {
      assert ts[k] == toks[k - 1] && ps[k] == starts[k - 1] && ps[k + 1] == starts[k];
    }
  }

  /** Every token shape starts with a character that is not whitespace. */
  lemma TokenIsVisible(t: string)
    requires IsToken(t)
    ensures t != [] && !IsJsWhitespace(t[0])
  {
  }

  /**
   * The coalescing operator `??` is never produced: the single-character alternative for `?`
   * comes first and always wins.
   */
  lemma {:induction false} NoCoalesceToken(s: string)
    ensures "??" !in TokensOf(s)
    decreases |s|
  {
    if s != [] {
      match Lexeme(s)
      case Some(n) =>
        assert s[0] == '?' ==> n == 1;
        assert s[..n] != "??";
        NoCoalesceToken(s[n..]);
      case None =>
        NoCoalesceToken(s[1..]);
    }
  }

  /** A dot is never a token of its own, so `params.x` cannot reach the parameter rule. */
  lemma NoDotToken(s: string)
    ensures "." !in TokensOf(s)
  {
    TokensAreTokens(s);
    assert !IsToken(".") by {
      assert Run(".", IsDigit) == 0;
    }
  }

  /** Text holding only whitespace yields no tokens. */
  lemma {:induction false} WhitespaceOnly(s: string)
    requires forall i :: 0 <= i < |s| ==> IsJsWhitespace(s[i])
    ensures TokensOf(s) == []
    decreases |s|
  {
    if s != [] {
      assert Lexeme(s).None?;
      WhitespaceOnly(s[1..]);
    }
  }
}
