/**
 * The fragment of JavaScript value semantics that the service relies on:
 * the conversion `Number(text)`, the decimal text of a whole number
 * (`n.toString()`), and the order `<` on strings.
 */
module JsValues {

  import opened Wrappers

  /** A JavaScript number that is either NaN or a finite value. */
  datatype JsNumber = NaN | Num(value: real)

  /**
   * The characters that `Number(text)` ignores at both ends of its input:
   * ECMAScript's WhiteSpace (tab, vertical tab, form feed, the byte order
   * mark and every Unicode space separator) and its LineTerminators.
   */
  predicate IsJsWhitespace(c: char)
  {
    c in {' ', '\t', '\n', '\r', '\U{000B}', '\U{000C}', '\U{00A0}', '\U{1680}', '\U{202F}', '\U{205F}',
          '\U{3000}', '\U{FEFF}', '\U{2028}', '\U{2029}'}
    || ('\U{2000}' <= c <= '\U{200A}')
  }

  predicate AllWhitespace(s: string)
  {
    forall i :: 0 <= i < |s| ==> IsJsWhitespace(s[i])
  }

  predicate IsDigit(c: char)
  {
    '0' <= c <= '9'
  }

  predicate AllDigits(s: string)
  {
    forall i :: 0 <= i < |s| ==> IsDigit(s[i])
  }

  function DigitValue(c: char): (d: nat)
    requires IsDigit(c)
    ensures d < 10
  {
    (c as int) - ('0' as int)
  }

  function DigitChar(d: nat): (c: char)
    requires d < 10
    ensures IsDigit(c) && DigitValue(c) == d
  {
    (('0' as int) + d) as char
  }

  /** The value of a string of decimal digits, most significant first. */
  function DigitsValue(s: string): nat
    requires AllDigits(s)
    decreases |s|
  {
    if s == [] then 0 else 10 * DigitsValue(s[..|s| - 1]) + DigitValue(s[|s| - 1])
  }

  function Pow10(k: nat): (p: nat)
    ensures p > 0
  {
    if k == 0 then 1 else 10 * Pow10(k - 1)
  }

  /** `text.trimStart()`: drops the leading whitespace. */
  function TrimStart(s: string): (t: string)
    ensures |t| <= |s| && t == s[|s| - |t|..]
    ensures t == [] || !IsJsWhitespace(t[0])
    ensures forall i :: 0 <= i < |s| - |t| ==> IsJsWhitespace(s[i])
  {
    if s != [] && IsJsWhitespace(s[0]) then TrimStart(s[1..]) else s
  }

  /** `text.trimEnd()`: drops the trailing whitespace. */
  function TrimEnd(s: string): (t: string)
    ensures |t| <= |s| && t == s[..|t|]
    ensures t == [] || !IsJsWhitespace(t[|t| - 1])
    ensures forall i :: |t| <= i < |s| ==> IsJsWhitespace(s[i])
  {
    if s != [] && IsJsWhitespace(s[|s| - 1]) then TrimEnd(s[..|s| - 1]) else s
  }

  function Trim(s: string): string
  {
    TrimEnd(TrimStart(s))
  }

  /** The index of the first '.' in s, if there is one. */
  function FindDot(s: string): (r: Option<nat>)
    ensures r.None? <==> '.' !in s
    ensures r.Some? ==> r.value < |s| && s[r.value] == '.' && '.' !in s[..r.value]
  {
    if s == [] then None
    else if s[0] == '.' then Some(0)
    else match FindDot(s[1..])
      case None => None
      case Some(i) => Some(i + 1)
  }

  /** The value of the digits `whole` '.' `fraction`. */
  function DecimalValue(whole: string, fraction: string): real
    requires AllDigits(whole) && AllDigits(fraction)
  {
    DigitsValue(whole) as real + (DigitsValue(fraction) as real) / (Pow10(|fraction|) as real)
  }

  /**
   * An unsigned decimal literal: digits, optionally followed by a '.' and
   * more digits, with at least one digit in all ("7", "7.", ".5", "7.25").
   */
  function UnsignedDecimal(s: string): JsNumber
  {
    match FindDot(s)
    case None =>
      if s != [] && AllDigits(s) then Num(DigitsValue(s) as real) else NaN
    case Some(i) =>
      var whole, fraction := s[..i], s[i + 1..];
      if AllDigits(whole) && AllDigits(fraction) && (whole != [] || fraction != []) then
        Num(DecimalValue(whole, fraction))
      else NaN
  }

  function Negate(n: JsNumber): JsNumber
  {
    match n
    case NaN => NaN
    case Num(v) => Num(-v)
  }

  /**
   * `Number(text)` for a string: surrounding whitespace is ignored, the empty
   * (or all-blank) string is 0, and otherwise the text must be a signed
   * decimal literal or the result is NaN.
   */
  function StringToNumber(s: string): (n: JsNumber)
    ensures Trim(s) == [] ==> n == Num(0.0)
  {
    var t := Trim(s);
    if t == [] then Num(0.0)
    else if t[0] == '-' then Negate(UnsignedDecimal(t[1..]))
    else if t[0] == '+' then UnsignedDecimal(t[1..])
    else UnsignedDecimal(t)
  }

  /** `n.toString()` for a whole number: its decimal digits without leading zeros. */
  function NatToString(n: nat): (s: string)
    ensures s != [] && AllDigits(s)
    ensures n >= 10 ==> s[0] != '0'
  {
    if n < 10 then [DigitChar(n)] else NatToString(n / 10) + [DigitChar(n % 10)]
  }

  /** JavaScript's `a < b` on two strings: lexicographic order of the characters. */
  predicate StringLess(a: string, b: string)
    ensures |a| < |b| && a == b[..|a|] ==> StringLess(a, b)
    ensures StringLess(a, b) ==> a != b
    decreases |a|
  {
    if a == [] then b != []
    else if b == [] then false
    else if a[0] != b[0] then a[0] < b[0]
    else StringLess(a[1..], b[1..])
  }

  // ---------------------------------------------------------------------
  // Properties

  lemma {:induction false} NatToStringValue(n: nat)
    ensures DigitsValue(NatToString(n)) == n
  {
    var s := NatToString(n);
    if n >= 10 {
      NatToStringValue(n / 10);
      assert s[..|s| - 1] == NatToString(n / 10);
    }
  }

  lemma DigitIsNotWhitespace(c: char)
    requires IsDigit(c)
    ensures !IsJsWhitespace(c)
  {
  }

  lemma TrimOfDigits(s: string)
    requires AllDigits(s)
    ensures Trim(s) == s
  {
    if s != [] {
      DigitIsNotWhitespace(s[0]);
      DigitIsNotWhitespace(s[|s| - 1]);
    }
  }

  lemma NoDotInDigits(s: string)
    requires AllDigits(s)
    ensures '.' !in s
  {
    assert forall i :: 0 <= i < |s| ==> s[i] != '.' by {
      forall i | 0 <= i < |s| ensures s[i] != '.' {
        assert IsDigit(s[i]);
      }
    }
  }

  /** Parsing the decimal text of a whole number gives that number back. */
  lemma NumberOfNatToString(n: nat)
    ensures StringToNumber(NatToString(n)) == Num(n as real)
  {
    var s := NatToString(n);
    TrimOfDigits(s);
    NoDotInDigits(s);
    assert IsDigit(s[0]);
    NatToStringValue(n);
  }

  /** Leading whitespace is dropped by `trimStart`. */
  lemma {:induction false} TrimStartSkipsWhitespace(pre: string, x: string)
    requires AllWhitespace(pre)
    ensures TrimStart(pre + x) == TrimStart(x)
    decreases |pre|
  {
    if pre == [] {
      assert pre + x == x;
    } else {
      assert (pre + x)[0] == pre[0];
      assert (pre + x)[1..] == pre[1..] + x;
      TrimStartSkipsWhitespace(pre[1..], x);
    }
  }

  /** Trailing whitespace is dropped by `trimEnd`. */
  lemma {:induction false} TrimEndSkipsWhitespace(x: string, post: string)
    requires AllWhitespace(post)
    ensures TrimEnd(x + post) == TrimEnd(x)
    decreases |post|
  {
    if post == [] {
      assert x + post == x;
    } else {
      var y := x + post;
      assert y[|y| - 1] == post[|post| - 1];
      assert y[..|y| - 1] == x + post[..|post| - 1];
      TrimEndSkipsWhitespace(x, post[..|post| - 1]);
    }
  }

  /** A text made only of whitespace trims to nothing. */
  lemma {:induction false} TrimStartOfWhitespace(s: string)
    requires AllWhitespace(s)
    ensures TrimStart(s) == []
    decreases |s|
  {
    if s != [] {
      TrimStartOfWhitespace(s[1..]);
    }
  }

  /** Trailing whitespace does not change what trimming both ends leaves. */
  lemma {:induction false} TrimIgnoresTrailingWhitespace(x: string, post: string)
    requires AllWhitespace(post)
    ensures TrimEnd(TrimStart(x + post)) == TrimEnd(TrimStart(x))
    decreases |x|
  {
    if x == [] {
      assert x + post == post;
      TrimStartOfWhitespace(post);
    } else if IsJsWhitespace(x[0]) {
      assert (x + post)[0] == x[0];
      assert (x + post)[1..] == x[1..] + post;
      assert TrimStart(x + post) == TrimStart(x[1..] + post);
      assert TrimStart(x) == TrimStart(x[1..]);
      TrimIgnoresTrailingWhitespace(x[1..], post);
    } else {
      assert (x + post)[0] == x[0];
      assert TrimStart(x + post) == x + post;
      assert TrimStart(x) == x;
      TrimEndSkipsWhitespace(x, post);
    }
  }

  /** Trimming drops whitespace added around a text. */
  lemma TrimIgnoresSurroundingWhitespace(pre: string, s: string, post: string)
    requires AllWhitespace(pre) && AllWhitespace(post)
    ensures Trim(pre + s + post) == Trim(s)
  {
    ConcatAssociative(pre, s, post);
    TrimStartSkipsWhitespace(pre, s + post);
    TrimIgnoresTrailingWhitespace(s, post);
  }

  lemma ConcatAssociative(a: string, b: string, c: string)
    ensures a + b + c == a + (b + c)
  {
  }

  /** `Number` ignores whitespace around its text. */
  lemma NumberIgnoresSurroundingWhitespace(pre: string, s: string, post: string)
    requires AllWhitespace(pre) && AllWhitespace(post)
    ensures StringToNumber(pre + s + post) == StringToNumber(s)
  {
    TrimIgnoresSurroundingWhitespace(pre, s, post);
    NumberDependsOnTheTrimmedText(pre + s + post, s);
  }

  /** `Number` reads only what trimming leaves. */
  lemma NumberDependsOnTheTrimmedText(a: string, b: string)
    requires Trim(a) == Trim(b)
    ensures StringToNumber(a) == StringToNumber(b)
  {
  }

  /** A minus sign before the decimal text of a whole number gives its negation. */
  lemma NumberOfNegatedNat(n: nat)
    ensures StringToNumber("-" + NatToString(n)) == Num(-(n as real))
  {
    var digits := NatToString(n);
    var s := "-" + digits;
    assert s[0] == '-' && !IsJsWhitespace(s[0]);
    assert s[|s| - 1] == digits[|digits| - 1];
    DigitIsNotWhitespace(digits[|digits| - 1]);
    assert Trim(s) == s;
    assert s[1..] == digits;
    NoDotInDigits(digits);
    NatToStringValue(n);
  }

  /**
   * An ideographic space (U+3000) alone reads as 0, and around the text
   * "5" it is ignored, as JavaScript does.
   */
  lemma IdeographicSpaceIsIgnored()
    ensures StringToNumber(['\U{3000}']) == Num(0.0)
    ensures StringToNumber(['\U{3000}'] + NatToString(5) + ['\U{3000}']) == Num(5.0)
  {
    var space, five := ['\U{3000}'], NatToString(5);
    assert AllWhitespace(space);
    TrimStartSkipsWhitespace(space, []);
    assert space + [] == space;
    NumberIgnoresSurroundingWhitespace(space, five, space);
    NumberOfNatToString(5);
  }

  /** A text with no whitespace at either end is its own trim. */
  lemma TrimOfUnpadded(s: string)
    requires s != [] && !IsJsWhitespace(s[0]) && !IsJsWhitespace(s[|s| - 1])
    ensures Trim(s) == s
  {
  }

  /** The first '.' of digits, a '.' and digits is the one between them. */
  lemma FindDotAfterDigits(s: string, whole: string, fraction: string)
    requires AllDigits(whole) && s == whole + ['.'] + fraction
    ensures FindDot(s) == Some(|whole|)
  {
    NoDotInDigits(whole);
    assert s[..|whole|] == whole;
    assert s[|whole|] == '.';
  }

  /** An unsigned text that trimming leaves alone is read as an unsigned decimal. */
  lemma NumberOfUnsignedText(s: string)
    requires s != [] && Trim(s) == s && s[0] != '-' && s[0] != '+'
    ensures StringToNumber(s) == UnsignedDecimal(s)
  {
  }

  /** Around its first '.', an unsigned decimal reads as whole part plus fraction. */
  lemma UnsignedDecimalAtDot(s: string, i: nat)
    requires FindDot(s) == Some(i) && AllDigits(s[..i]) && AllDigits(s[i + 1..]) && (i > 0 || i + 1 < |s|)
    ensures UnsignedDecimal(s)
            == Num(DecimalValue(s[..i], s[i + 1..]))
  {
    assert s[..i] != [] || s[i + 1..] != [];
  }

  lemma SplitAtDot(s: string, whole: string, fraction: string)
    requires s == whole + ['.'] + fraction
    ensures s[..|whole|] == whole && s[|whole| + 1..] == fraction
  {
  }

  /**
   * Digits, a '.' and more digits read as the whole part plus the fraction,
   * with at least one digit on either side.
   */
  lemma NumberOfDecimalFraction(whole: string, fraction: string)
    requires AllDigits(whole) && AllDigits(fraction) && (whole != [] || fraction != [])
    ensures StringToNumber(whole + ['.'] + fraction)
            == Num(DecimalValue(whole, fraction))
  {
    var s := whole + ['.'] + fraction;
    assert s[|whole|] == '.';
    if whole != [] {
      assert s[0] == whole[0];
      DigitIsNotWhitespace(whole[0]);
    }
    if fraction != [] {
      assert s[|s| - 1] == fraction[|fraction| - 1];
      DigitIsNotWhitespace(fraction[|fraction| - 1]);
    }
    TrimOfUnpadded(s);
    assert s[0] != '-' && s[0] != '+';
    NumberOfUnsignedText(s);
    FindDotAfterDigits(s, whole, fraction);
    SplitAtDot(s, whole, fraction);
    UnsignedDecimalAtDot(s, |whole|);
  }

  /** "1.5" reads as one and a half. */
  lemma OneAndAHalf()
    ensures StringToNumber(NatToString(1) + ['.'] + NatToString(5)) == Num(1.5)
  {
    var whole, fraction := NatToString(1), NatToString(5);
    NatToStringValue(1);
    NatToStringValue(5);
    assert |fraction| == 1 && Pow10(|fraction|) == 10;
    var value := DecimalValue(whole, fraction);
    assert value == 1.5;
    NumberOfDecimalFraction(whole, fraction);
    assert StringToNumber(whole + ['.'] + fraction) == Num(value);
  }

  /** `a < b` and `b < a` never hold together on strings. */
  lemma {:induction false} StringLessAsymmetric(a: string, b: string)
    ensures !(StringLess(a, b) && StringLess(b, a))
    decreases |a|
  {
    if a != [] && b != [] && a[0] == b[0] {
      StringLessAsymmetric(a[1..], b[1..]);
    }
  }

  /** `a < a` is false for every string. */
  lemma {:induction false} StringLessIrreflexive(a: string)
    ensures !StringLess(a, a)
    decreases |a|
  {
    if a != [] {
      StringLessIrreflexive(a[1..]);
    }
  }

  /** Two different strings are ordered one way or the other. */
  lemma {:induction false} StringLessTotal(a: string, b: string)
    requires a != b
    ensures StringLess(a, b) || StringLess(b, a)
    decreases |a|
  {
    if a != [] && b != [] && a[0] == b[0] {
      assert a == [a[0]] + a[1..] && b == [b[0]] + b[1..];
      StringLessTotal(a[1..], b[1..]);
    }
  }
}
