/**
 * The string forms that Python's `int()` and `float()` accept, restricted to
 * ASCII digits: `int(" -1_000 ")` is -1000, `float("1.")`, `float(".5e-3")` and
 * `float("-Infinity")` succeed, `int("1.0")` and `float("1.2.3")` raise ValueError.
 */
module Numbers {
  import opened Wrappers
  import opened Text

  predicate IsDigit(c: char) { '0' <= c <= '9' }

  function DigitValue(c: char): nat
    requires IsDigit(c)
  {
    c as int - '0' as int
  }

  predicate AllDigits(s: string) {
    forall i :: 0 <= i < |s| ==> IsDigit(s[i])
  }

  /** Python's `digitpart`: digits, where a single `_` may stand between two digits. */
  predicate IsDigitPart(s: string) {
    |s| > 0 && forall i :: 0 <= i < |s| ==> DigitPartCharAt(s, i)
  }

  predicate DigitPartCharAt(s: string, i: nat)
    requires i < |s|
  {
    IsDigit(s[i]) || (s[i] == '_' && 0 < i < |s| - 1 && IsDigit(s[i - 1]) && IsDigit(s[i + 1]))
  }

  /** The decimal value of the digits of `s`, skipping underscores. */
  function DigitsValue(s: string): nat {
    if s == [] then 0
    else if IsDigit(s[|s| - 1]) then 10 * DigitsValue(s[..|s| - 1]) + DigitValue(s[|s| - 1])
    else DigitsValue(s[..|s| - 1])
  }

  predicate IsSign(c: char) { c == '+' || c == '-' }

  /** `int(text)` on a str: `None` stands for the ValueError it raises. */
  function ParseInt(text: string): Option<int> {
    var t := Strip(text);
    if |t| > 0 && IsSign(t[0]) then
      if IsDigitPart(t[1..]) then
        var magnitude: int := DigitsValue(t[1..]);
        Some(if t[0] == '-' then -magnitude else magnitude)
      else None
    else if IsDigitPart(t) then Some(DigitsValue(t))
    else None
  }

  /** Index of the first `c` in `s`, or `|s|`. */
  function IndexOf(s: string, c: char): (n: nat)
    ensures n <= |s|
    ensures forall i :: 0 <= i < n ==> s[i] != c
    ensures n < |s| ==> s[n] == c
  {
    if s == [] || s[0] == c then 0 else 1 + IndexOf(s[1..], c)
  }

  /** Python's `number`: `[digitpart] "." digitpart | digitpart ["."]`. */
  predicate IsMantissa(m: string) {
    var d := IndexOf(m, '.');
    if d == |m| then IsDigitPart(m)
    else
      var whole, frac := m[..d], m[d + 1..];
      (whole == [] && IsDigitPart(frac)) || (IsDigitPart(whole) && (frac == [] || IsDigitPart(frac)))
  }

  /** Python's `exponent` after its `e`: `[sign] digitpart`. */
  predicate IsExponent(x: string) {
    if |x| > 0 && IsSign(x[0]) then IsDigitPart(x[1..]) else IsDigitPart(x)
  }

  /** Python's `floatnumber`: `number [exponent]`. */
  predicate IsDecimalFloat(u: string) {
    var e := Min(IndexOf(u, 'e'), IndexOf(u, 'E'));
    IsMantissa(u[..e]) && (e == |u| || IsExponent(u[e + 1..]))
  }

  /** Whether `float(text)` on a str succeeds rather than raising ValueError. */
  predicate IsFloatText(text: string) {
    var t := Strip(text);
    var u := if |t| > 0 && IsSign(t[0]) then t[1..] else t;
    var w := Lower(u);
    w == "inf" || w == "infinity" || w == "nan" || IsDecimalFloat(u)
  }

  /** The decimal digits of `n`, most significant first. */
  function NatDigits(n: nat): (s: string)
    ensures |s| > 0 && AllDigits(s)
  {
    var last := ('0' as int + n % 10) as char;
    if n < 10 then [last] else NatDigits(n / 10) + [last]
  }

  /** How Python prints an int: an optional `-`, then the digits. */
  function DecimalText(n: int): string {
    if n < 0 then "-" + NatDigits(-n) else NatDigits(n)
  }

  lemma {:induction false} NatDigitsValue(n: nat)
    ensures DigitsValue(NatDigits(n)) == n
  {
    var s := NatDigits(n);
    if n >= 10 {
      NatDigitsValue(n / 10);
      assert s[..|s| - 1] == NatDigits(n / 10);
    }
  }

  lemma AllDigitsIsDigitPart(s: string)
    requires |s| > 0 && AllDigits(s)
    ensures IsDigitPart(s)
  {
  }

  lemma AllDigitsStripped(s: string)
    requires AllDigits(s)
    ensures Strip(s) == s
  {
    forall i | 0 <= i < |s| ensures !IsSpace(s[i]) {
      assert IsDigit(s[i]);
    }
  }

  /** A run of ASCII digits is read by `int()` as its decimal value. */
  lemma ParseIntOfDigits(s: string)
    requires |s| > 0 && AllDigits(s)
    ensures ParseInt(s) == Some(DigitsValue(s))
  {
    AllDigitsStripped(s);
    assert IsDigit(s[0]);
    AllDigitsIsDigitPart(s);
  }

  lemma ParseIntOfNegatedDigits(digits: string)
    requires |digits| > 0 && AllDigits(digits)
    ensures ParseInt("-" + digits) == Some(-(DigitsValue(digits) as int))
  {
    var t := "-" + digits;
    NegatedDigitsStripped(digits);
    assert t[0] == '-' && t[1..] == digits;
    AllDigitsIsDigitPart(digits);
  }

  lemma NegatedDigitsStripped(digits: string)
    requires AllDigits(digits)
    ensures Strip("-" + digits) == "-" + digits
  {
    var t := "-" + digits;
    forall i | 0 <= i < |t| ensures !IsSpace(t[i]) {
      if i > 0 { assert t[i] == digits[i - 1] && IsDigit(digits[i - 1]); }
    }
  }

  /** `int(str(n)) == n`. */
  lemma {:induction false} ParseIntRoundTrip(n: int)
    ensures ParseInt(DecimalText(n)) == Some(n)
  {
    if n < 0 {
      NegativeRoundTrip(-n);
      assert DecimalText(n) == "-" + NatDigits(-n);
    } else {
      NatDigitsValue(n);
      ParseIntOfDigits(NatDigits(n));
    }
  }

  lemma NegativeRoundTrip(m: nat)
    ensures ParseInt("-" + NatDigits(m)) == Some(-(m as int))
  {
    NatDigitsValue(m);
    ParseIntOfNegatedDigits(NatDigits(m));
  }

  predicate IsDigitOrDot(c: char) { IsDigit(c) || c == '.' }

  predicate AtMostOneDot(s: string) {
    forall i, j :: 0 <= i < j < |s| ==> !(s[i] == '.' && s[j] == '.')
  }

  predicate HasDigit(s: string) {
    exists i :: 0 <= i < |s| && IsDigit(s[i])
  }

  predicate OnlyDigitsAndDots(s: string) {
    forall i :: 0 <= i < |s| ==> IsDigitOrDot(s[i])
  }

  /** Over digits and dots, a digitpart is a non-empty run of digits. */
  lemma DigitPartOfDigitsAndDots(s: string)
    requires OnlyDigitsAndDots(s)
    ensures IsDigitPart(s) <==> |s| > 0 && AllDigits(s)
  {
    if IsDigitPart(s) {
      forall i | 0 <= i < |s| ensures IsDigit(s[i]) {
        assert IsDigitOrDot(s[i]) && DigitPartCharAt(s, i);
      }
    }
  }

  lemma NoSpelledOutFloat(s: string)
    requires OnlyDigitsAndDots(s)
    ensures Lower(s) != "inf" && Lower(s) != "infinity" && Lower(s) != "nan"
  {
    var w := Lower(s);
    if |s| > 0 {
      assert IsDigitOrDot(s[0]);
      assert w[0] == LowerChar(s[0]);
      assert w[0] != 'i' && w[0] != 'n';
    }
  }

  /** With no sign, letter or space in it, `float()` reads the text as a bare `number`. */
  lemma FloatTextIsMantissa(s: string)
    requires OnlyDigitsAndDots(s)
    ensures IsFloatText(s) <==> IsMantissa(s)
  {
    DigitsAndDotsStripped(s);
    NoSpelledOutFloat(s);
    NoExponent(s);
  }

  lemma DigitsAndDotsStripped(s: string)
    requires OnlyDigitsAndDots(s)
    ensures Strip(s) == s && (|s| > 0 ==> !IsSign(s[0]))
  {
    forall i | 0 <= i < |s| ensures !IsSpace(s[i]) {
      assert IsDigitOrDot(s[i]);
    }
    if |s| > 0 {
      assert IsDigitOrDot(s[0]);
    }
  }

  lemma NoExponent(s: string)
    requires OnlyDigitsAndDots(s)
    ensures IsDecimalFloat(s) <==> IsMantissa(s)
  {
    forall i | 0 <= i < |s| ensures s[i] != 'e' && s[i] != 'E' {
      assert IsDigitOrDot(s[i]);
    }
    assert s[..Min(IndexOf(s, 'e'), IndexOf(s, 'E'))] == s;
  }

  lemma MantissaHasOneDotAndADigit(s: string)
    requires OnlyDigitsAndDots(s) && IsMantissa(s)
    ensures |s| > 0 && AtMostOneDot(s) && HasDigit(s)
  {
    var d := IndexOf(s, '.');
    if d == |s| {
      DigitPartOfDigitsAndDots(s);
      assert IsDigit(s[0]);
    } else {
      var whole, frac := s[..d], s[d + 1..];
      assert OnlyDigitsAndDots(frac) by {
        forall k | 0 <= k < |frac| ensures IsDigitOrDot(frac[k]) { assert frac[k] == s[d + 1 + k]; }
      }
      DigitPartOfDigitsAndDots(frac);
      assert AllDigits(frac);
      forall i, j | 0 <= i < j < |s| ensures !(s[i] == '.' && s[j] == '.') {
        if j > d {
          assert frac[j - d - 1] == s[j];
        }
      }
      if whole != [] {
        assert IsDigitPart(whole);
        assert whole[0] == s[0];
      } else {
        assert IsDigit(frac[0]) && s[d + 1] == frac[0];
      }
    }
  }

  lemma OneDotAndADigitIsMantissa(s: string)
    requires OnlyDigitsAndDots(s) && |s| > 0 && AtMostOneDot(s) && HasDigit(s)
    ensures IsMantissa(s)
  {
    var d := IndexOf(s, '.');
    var i :| 0 <= i < |s| && IsDigit(s[i]);
    if d == |s| {
      forall k | 0 <= k < |s| ensures IsDigit(s[k]) { assert IsDigitOrDot(s[k]); }
      DigitPartOfDigitsAndDots(s);
    } else {
      var whole, frac := s[..d], s[d + 1..];
      forall k | 0 <= k < |whole| ensures IsDigit(whole[k]) {
        assert whole[k] == s[k] && IsDigitOrDot(s[k]);
      }
      forall k | 0 <= k < |frac| ensures IsDigit(frac[k]) {
        assert frac[k] == s[d + 1 + k] && IsDigitOrDot(s[d + 1 + k]);
        assert !(s[d] == '.' && s[d + 1 + k] == '.');
      }
      DigitPartOfDigitsAndDots(whole);
      DigitPartOfDigitsAndDots(frac);
      if i < d {
        assert whole[i] == s[i];
      } else {
        assert frac[i - d - 1] == s[i];
      }
    }
  }

  /**
   * The value `[0-9.]+` captures converts with `float()` exactly when it has
   * at most one dot and at least one digit: "5", "5.", ".5" do, "." and "1.2.3" do not.
   */
  lemma FloatTextOfDigitsAndDots(s: string)
    requires OnlyDigitsAndDots(s)
    ensures IsFloatText(s) <==> |s| > 0 && AtMostOneDot(s) && HasDigit(s)
  {
    FloatTextIsMantissa(s);
    if IsMantissa(s) {
      MantissaHasOneDotAndADigit(s);
    }
    if |s| > 0 && AtMostOneDot(s) && HasDigit(s) {
      OneDotAndADigitIsMantissa(s);
    }
  }
}
