/**
 * The `Number(x)` conversion (ToNumber with the StringNumericLiteral grammar), `isNaN`,
 * `Number.isInteger` and the relative end index of `Array.prototype.slice`.
 * Results are exact mathematical values: rounding to the nearest double is not modelled.
 */
module JsNumber {
  import opened Wrappers
  import opened Errors
  import opened JsText
  import opened JsValue

  /** What `Number(x)` denotes, before rounding: a real, NaN, or an infinity. */
  datatype MathNum = Finite(x: real) | NotANumber | Infinite(positive: bool)

  /** `String.prototype.trim`: strips StrWhiteSpace from both ends, one character at a time. */
  function Trim(s: string): (r: string)
    ensures |r| <= |s|
    decreases |s|
  {
    if s != [] && IsJsWhitespace(s[0]) then Trim(s[1..])
    else if s != [] && IsJsWhitespace(s[|s| - 1]) then Trim(s[..|s| - 1])
    else s
  }

  /** How many whitespace characters `s` starts with. */
  function LeadingSpace(s: string): (n: nat)
    ensures n <= |s|
    decreases |s|
  {
    if s != [] && IsJsWhitespace(s[0]) then 1 + LeadingSpace(s[1..]) else 0
  }

  /**
   * Trim keeps the slice of its input after the leading whitespace, that neither starts nor
   * ends with whitespace, and everything it drops after that slice is whitespace too.
   */
  lemma {:induction false} TrimStrips(s: string)
    ensures var r := Trim(s);
      var a := LeadingSpace(s);
      && a + |r| <= |s| && r == s[a..a + |r|]
      && (r != [] ==> !IsJsWhitespace(r[0]) && !IsJsWhitespace(r[|r| - 1]))
      && (forall i :: 0 <= i < a ==> IsJsWhitespace(s[i]))
      && (forall i :: a + |r| <= i < |s| ==> IsJsWhitespace(s[i]))
    decreases |s|
  {
    var r := Trim(s);
    if s != [] && IsJsWhitespace(s[0]) {
      var u := s[1..];
      TrimStrips(u);
      var a := LeadingSpace(u);
      assert r == s[a + 1..a + 1 + |r|];
      forall i | 0 < i < |s| ensures s[i] == u[i - 1] { }
    } else if s != [] && IsJsWhitespace(s[|s| - 1]) {
      var u := s[..|s| - 1];
      TrimStrips(u);
      assert LeadingSpace(u) == 0;
      assert r == s[0..|r|];
      forall i | |r| <= i < |s| ensures IsJsWhitespace(s[i]) {
        if i < |u| { assert s[i] == u[i]; }
      }
    }
  }

  function Pow10(n: nat): (p: nat)
    ensures p >= 1
  {
    if n == 0 then 1 else 10 * Pow10(n - 1)
  }

  /** 10 to an integer power. */
  function Scale(k: int): (r: real)
    ensures r > 0.0
  {
    if k >= 0 then Pow10(k) as real else 1.0 / Pow10(-k) as real
  }

  /** Length of the longest prefix of decimal digits. */
  function DigitPrefixLength(s: string): (n: nat)
    ensures n <= |s|
    ensures forall i :: 0 <= i < n ==> IsDigit(s[i])
    ensures n < |s| ==> !IsDigit(s[n])
  {
    if s == [] || !IsDigit(s[0]) then 0 else 1 + DigitPrefixLength(s[1..])
  }

  function RadixDigit(c: char, radix: nat): Option<nat>
  {
    match HexValue(c)
    case Some(d) => if d < radix then Some(d) else None
    case None => None
  }

  /** Value of a non-empty run of digits in the given radix (2, 8 or 16). */
  function RadixValue(s: string, radix: nat): Option<nat>
  {
    if s == [] then None
    else
      var d :- RadixDigit(s[|s| - 1], radix);
      if |s| == 1 then Some(d)
      else
        var hi :- RadixValue(s[..|s| - 1], radix);
        Some(hi * radix + d)
  }

  /** An exponent's SignedInteger: optional sign, then one or more digits, and nothing else. */
  function Exponent(s: string): Option<int>
  {
    var neg := s != [] && s[0] == '-';
    var digits := if s != [] && (s[0] == '-' || s[0] == '+') then s[1..] else s;
    if digits != [] && DigitPrefixLength(digits) == |digits| then
      Some(if neg then -(DigitsValue(digits) as int) else DigitsValue(digits) as int)
    else None
  }

  /**
   * StrUnsignedDecimalLiteral other than `Infinity`: `d+`, `d+.`, `d+.d+`, `.d+`, each with an
   * optional exponent; at least one digit before the exponent.
   */
  function UnsignedDecimal(u: string): Option<real>
  {
    var a := DigitPrefixLength(u);
    var rest := u[a..];
    var hasDot := rest != [] && rest[0] == '.';
    var afterDot := if hasDot then rest[1..] else [];
    var b := DigitPrefixLength(afterDot);
    var fraction := afterDot[..b];
    var tail := if hasDot then afterDot[b..] else rest;
    if a == 0 && b == 0 then None
    else
      var mantissa := DigitsValue(u[..a] + fraction) as real / Pow10(b) as real;
      if tail == [] then Some(mantissa)
      else if tail[0] == 'e' || tail[0] == 'E' then
        var k :- Exponent(tail[1..]);
        Some(mantissa * Scale(k))
      else None
  }

  /** `Number(s)` for a string. */
  function StringToNumber(s: string): MathNum
  {
    var t := Trim(s);
    if t == [] then Finite(0.0)
    else
      match RadixOf(t)
      case Some(radix) => RadixNumber(t[2..], radix)
      case None => SignedDecimal(t)
  }

  /** The radix named by a `0x`, `0o` or `0b` prefix (either case). */
  function RadixOf(t: string): Option<nat>
  {
    if |t| >= 2 && t[0] == '0' then
      if t[1] == 'x' || t[1] == 'X' then Some(16)
      else if t[1] == 'o' || t[1] == 'O' then Some(8)
      else if t[1] == 'b' || t[1] == 'B' then Some(2)
      else None
    else None
  }

  /** StrDecimalLiteral: an optional sign, then `Infinity` or an unsigned decimal. */
  function SignedDecimal(t: string): MathNum
    requires t != []
  {
    var neg := t[0] == '-';
    var u := if t[0] == '-' || t[0] == '+' then t[1..] else t;
    if u == "Infinity" then Infinite(!neg)
    else
      match UnsignedDecimal(u)
      case Some(x) => Finite(if neg then -x else x)
      case None => NotANumber
  }

  function RadixNumber(digits: string, radix: nat): MathNum
  {
    match RadixValue(digits, radix)
    case Some(n) => Finite(n as real)
    case None => NotANumber
  }

  function NumberValue(n: Number): MathNum
  {
    match n
    case Int(i) => Finite(i as real)
    case NegZero => Finite(0.0)
    case NaN => NotANumber
    case PosInf => Infinite(true)
    case NegInf => Infinite(false)
  }

  /**
   * The `Number(v)` function. A BigInt converts to its value; a symbol throws; objects go
   * through their string form.
   */
  function ToNumber(v: Value): (r: Result<MathNum, Error>)
    ensures r.Err? <==> v.Sym? || (v.Arr? && JoinItems(v.items).Err?)
  {
    match v
    case Undef => Ok(NotANumber)
    case Null => Ok(Finite(0.0))
    case Bool(b) => Ok(Finite(if b then 1.0 else 0.0))
    case Num(n) => Ok(NumberValue(n))
    case Str(s) => Ok(StringToNumber(s))
    case BigInt(i) => Ok(Finite(i as real))
    case Func(src) => Ok(StringToNumber(src))
    case Sym(_) => Err(TypeError("Cannot convert a Symbol value to a number"))
    case Arr(items) =>
      var s :- JoinItems(items);
      Ok(StringToNumber(s))
    case Obj(_) => Ok(NotANumber)
    case Foreign(_) => Ok(NotANumber)
  }

  /**
   * The global `isNaN(s)` applied to a string, read off the string's shape: `Number(s)` is NaN
   * exactly when the trimmed string is not empty and not a numeric literal (IsNaNStringMeaning).
   */
  predicate IsNaNString(s: string)
  {
    !NumericSyntax(Trim(s))
  }

  /** The shapes StringToNumber gives a value to. */
  predicate NumericSyntax(t: string)
  {
    if t == [] then true
    else
      match RadixOf(t)
      case Some(radix) => RadixSyntax(t[2..], radix)
      case None => SignedSyntax(t)
  }

  /** A non-empty run of digits of the radix. */
  predicate RadixSyntax(s: string, radix: nat)
  {
    s != [] && forall i :: 0 <= i < |s| ==> RadixDigit(s[i], radix).Some?
  }

  predicate SignedSyntax(t: string)
    requires t != []
  {
    var u := if t[0] == '-' || t[0] == '+' then t[1..] else t;
    u == "Infinity" || DecimalSyntax(u)
  }

  /** The shape UnsignedDecimal accepts, without its value. */
  predicate DecimalSyntax(u: string)
  {
    var a := DigitPrefixLength(u);
    var rest := u[a..];
    var hasDot := rest != [] && rest[0] == '.';
    var afterDot := if hasDot then rest[1..] else [];
    var b := DigitPrefixLength(afterDot);
    var tail := if hasDot then afterDot[b..] else rest;
    !(a == 0 && b == 0) && (tail == [] || ((tail[0] == 'e' || tail[0] == 'E') && Exponent(tail[1..]).Some?))
  }

  lemma DecimalSyntaxIff(u: string)
    ensures UnsignedDecimal(u).Some? <==> DecimalSyntax(u)
  {
  }

  lemma {:induction false} RadixSyntaxIff(s: string, radix: nat)
    ensures RadixValue(s, radix).Some? <==> RadixSyntax(s, radix)
    decreases |s|
  {
    if |s| > 1 {
      var init := s[..|s| - 1];
      RadixSyntaxIff(init, radix);
      assert forall i :: 0 <= i < |init| ==> init[i] == s[i];
    }
  }

  /** `isNaN(s)` is true exactly when `Number(s)` is NaN. */
  lemma IsNaNStringMeaning(s: string)
    ensures IsNaNString(s) <==> StringToNumber(s).NotANumber?
  {
    var t := Trim(s);
    if t != [] {
      match RadixOf(t)
      case Some(radix) =>
        RadixSyntaxIff(t[2..], radix);
      case None =>
        var u := if t[0] == '-' || t[0] == '+' then t[1..] else t;
        DecimalSyntaxIff(u);
    }
  }

  /** `Number.isInteger`. */
  predicate IsInteger(m: MathNum)
  {
    m.Finite? && m.x.Floor as real == m.x
  }

  /** ToIntegerOrInfinity, with the infinities as None-like bounds. */
  function Truncate(x: real): int
  {
    if x >= 0.0 then x.Floor else -((-x).Floor)
  }

  /** The end index `rows.slice(0, end)` actually uses, for `end` converted by ToNumber. */
  function SliceEnd(len: nat, end: MathNum): (k: nat)
    ensures k <= len
  {
    match end
    case NotANumber => 0
    case Infinite(pos) => if pos then len else 0
    case Finite(x) =>
      var t := Truncate(x);
      if t < 0 then (if len + t < 0 then 0 else len + t)
      else if t > len then len else t
  }

  /** A non-negative integer end keeps that many rows, capped at the length. */
  lemma SliceEndNat(len: nat, n: nat)
    ensures SliceEnd(len, Finite(n as real)) == if n < len then n else len
  {
    assert (n as real).Floor == n;
  }

  lemma TrimUnchanged(s: string)
    requires s != [] && !IsJsWhitespace(s[0]) && !IsJsWhitespace(s[|s| - 1])
    ensures Trim(s) == s
  {
  }

  /** The digit prefix of `d + rest` is exactly `d` when `rest` does not start with a digit. */
  lemma DigitPrefixOfConcat(d: string, rest: string)
    requires forall i :: 0 <= i < |d| ==> IsDigit(d[i])
    requires rest == [] || !IsDigit(rest[0])
    ensures DigitPrefixLength(d + rest) == |d|
    decreases |d|
  {
    if d != [] {
      assert (d + rest)[1..] == d[1..] + rest;
      DigitPrefixOfConcat(d[1..], rest);
    }
  }

  /**
   * A decimal literal `d`, `d.f` or `.f` (digits only, at least one digit on each side of a dot
   * that is present on the left or right) is a number, not NaN.
   */
  lemma DecimalLiteralIsNumber(d: string, f: string, dot: bool)
    requires forall i :: 0 <= i < |d| ==> IsDigit(d[i])
    requires forall i :: 0 <= i < |f| ==> IsDigit(f[i])
    requires dot ==> f != []
    requires !dot ==> d != [] && f == []
    ensures StringToNumber(if dot then d + "." + f else d).Finite?
  {
    var t := if dot then d + "." + f else d;
    var rest := if dot then "." + f else [];
    assert t == d + rest;
    DigitPrefixOfConcat(d, rest);
    assert t[|d|..] == rest;
    if dot {
      assert rest[1..] == f + [];
      DigitPrefixOfConcat(f, []);
    }
    assert UnsignedDecimal(t).Some?;
    assert |t| >= 2 ==> IsDigit(t[1]) || t[1] == '.';
    UnsignedDecimalIsNumber(t);
  }

  /** A trimmed string that starts like an unsigned decimal and parses as one is a finite number. */
  lemma UnsignedDecimalIsNumber(t: string)
    requires t != [] && (IsDigit(t[0]) || t[0] == '.') && IsDigit(t[|t| - 1])
    requires |t| >= 2 ==> IsDigit(t[1]) || t[1] == '.'
    requires UnsignedDecimal(t).Some?
    ensures StringToNumber(t).Finite?
  {
    TrimUnchanged(t);
    NoRadixPrefix(t);
    TrimmedNumber(t);
    UnsignedIsSignedDecimal(t);
  }

  lemma NoRadixPrefix(t: string)
    requires t != [] && (|t| >= 2 ==> IsDigit(t[1]) || t[1] == '.')
    ensures RadixOf(t).None?
  {
  }

  lemma TrimmedNumber(t: string)
    requires t != [] && Trim(t) == t && RadixOf(t).None?
    ensures StringToNumber(t) == SignedDecimal(t)
  {
  }

  lemma UnsignedIsSignedDecimal(t: string)
    requires t != [] && (IsDigit(t[0]) || t[0] == '.')
    requires UnsignedDecimal(t).Some?
    ensures SignedDecimal(t) == Finite(UnsignedDecimal(t).value)
  {
    assert t[0] != 'I';
  }
}
