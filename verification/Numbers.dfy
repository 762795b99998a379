/** Printing and parsing of decimal numbers in doom/libc_shim.c. */
module Numbers {
  import opened Arith

  // ----- decimal notation

  predicate IsDigit(c: char) { '0' <= c <= '9' }

  function Digit(n: int): char
    requires 0 <= n < 10
  {
    '0' + n as char
  }

  /** The digits of n without leading zeros. */
  function Digits(n: nat): (s: string)
    ensures |s| >= 1 && forall i :: 0 <= i < |s| ==> IsDigit(s[i])
  {
    if n < 10 then [Digit(n)] else Digits(n / 10) + [Digit(n % 10)]
  }

  /** The number that digits denote. */
  function Value(s: string): nat
    requires forall i :: 0 <= i < |s| ==> IsDigit(s[i])
  {
    if s == [] then 0
    else
      assert IsDigit(s[|s| - 1]);
      10 * Value(s[..|s| - 1]) + (s[|s| - 1] as int - '0' as int)
  }

  lemma {:induction false} ValueOfDigits(n: nat)
    ensures Value(Digits(n)) == n
  {
    if n >= 10 {
      ValueOfDigits(n / 10);
      var s := Digits(n);
      assert s[..|s| - 1] == Digits(n / 10);
    }
  }

  function Repeat(c: char, n: nat): (s: string)
    ensures |s| == n && forall i :: 0 <= i < n ==> s[i] == c
  {
    seq(n, _ => c)
  }

  lemma {:induction false} LeadingZeros(n: nat, s: string)
    requires forall i :: 0 <= i < |s| ==> IsDigit(s[i])
    ensures Value(Repeat('0', n) + s) == Value(s)
    decreases n + |s|
  {
    var t := Repeat('0', n) + s;
    if s != [] {
      LeadingZeros(n, s[..|s| - 1]);
      assert t[..|t| - 1] == Repeat('0', n) + s[..|s| - 1];
    } else if n > 0 {
      LeadingZeros(n - 1, []);
      assert t[..n - 1] == Repeat('0', n - 1) + [];
    }
  }

  /** Numbers of up to k digits. */
  lemma {:induction false} DigitCount(n: nat, k: nat)
    requires k >= 1 && n < Power(k)
    ensures |Digits(n)| <= k
    decreases k
  {
    if n >= 10 {
      assert Power(k) == 10 * Power(k - 1);
      DigitCount(n / 10, k - 1);
    }
  }

  function Power(k: nat): nat { if k == 0 then 1 else 10 * Power(k - 1) }

  lemma TenDigits(n: nat)
    requires n <= 0x8000_0000
    ensures |Digits(n)| <= 10
  {
    assert Power(4) == 10000;
    assert Power(8) == 1_0000_0000;
    assert Power(10) == 100_0000_0000;
    DigitCount(n, 10);
  }

  // ----- what is printed

  function Magnitude(v: int): nat { if v < 0 then -v else v }

  function Sign(v: int): string { if v < 0 then "-" else "" }

  /** The zeros that precision asks for. */
  function Zeros(v: int, prec: int): nat { Max(0, (if prec >= 0 then prec else 1) - |Digits(Magnitude(v))|) }

  /** What is left of the width. */
  function Padding(v: int, width: int, prec: int): nat {
    Max(0, width - (|Sign(v)| + Zeros(v, prec) + |Digits(Magnitude(v))|))
  }

  /** With the zero flag and no precision, zeros take the place of the blanks. */
  function Blanks(v: int, width: int, prec: int, zero: bool): nat {
    if zero && prec < 0 then 0 else Padding(v, width, prec)
  }

  function AllZeros(v: int, width: int, prec: int, zero: bool): nat {
    Zeros(v, prec) + Padding(v, width, prec) - Blanks(v, width, prec, zero)
  }

  /** The text of a number; a negative precision is none. */
  function Text(v: int, width: int, prec: int, zero: bool): string {
    Repeat(' ', Blanks(v, width, prec, zero)) + Sign(v) + Repeat('0', AllZeros(v, width, prec, zero)) + Digits(Magnitude(v))
  }

  /** The length of the text. */
  lemma TextLength(v: int, width: int, prec: int, zero: bool)
    ensures |Text(v, width, prec, zero)| == Max(width, |Sign(v)| + Max(|Digits(Magnitude(v))|, prec))
  {
  }

  /** Which characters these are: the digits come last, without leading zeros of their own. With the zero flag and no
      precision the sign comes first and zeros fill the width. Otherwise blanks do, then comes the sign, and zeros
      fill the precision. */
  lemma TextShape(v: int, width: int, prec: int, zero: bool)
    ensures var s, sign, digits := Text(v, width, prec, zero), Sign(v), Digits(Magnitude(v));
            var core := |sign| + Max(|digits|, prec);
            && |s| >= |sign| + |digits| && s[|s| - |digits|..] == digits
            && (zero && prec < 0 ==> s[..|sign|] == sign && forall i :: |sign| <= i < |s| - |digits| ==> s[i] == '0')
            && (!(zero && prec < 0) ==>
                  && |s| >= core && (forall i :: 0 <= i < |s| - core ==> s[i] == ' ')
                  && s[|s| - core..|s| - core + |sign|] == sign
                  && forall i :: |s| - core + |sign| <= i < |s| - |digits| ==> s[i] == '0')
    ensures Magnitude(v) == 0 || Digits(Magnitude(v))[0] != '0'
  {
    var sign, digits := Sign(v), Digits(Magnitude(v));
    var blanks, zeros := Blanks(v, width, prec, zero), AllZeros(v, width, prec, zero);
    assert Text(v, width, prec, zero) == Repeat(' ', blanks) + sign + Repeat('0', zeros) + digits;
    if v != 0 {
      NoLeadingZero(Magnitude(v));
    }
  }

  lemma {:induction false} NoLeadingZero(n: nat)
    requires n > 0
    ensures Digits(n)[0] != '0'
  {
    if n >= 10 {
      NoLeadingZero(n / 10);
    }
  }

  // ----- what is parsed

  predicate IsBlank(c: char) { c == ' ' || c == '\t' }

  /** The first position from i on that is not a blank. */
  function SkipBlanks(s: string, i: nat): (j: nat)
    requires i <= |s|
    ensures i <= j <= |s| && (forall k :: i <= k < j ==> IsBlank(s[k])) && (j < |s| ==> !IsBlank(s[j]))
    decreases |s| - i
  {
    if i < |s| && IsBlank(s[i]) then SkipBlanks(s, i + 1) else i
  }

  /** The first position from i on that is not a digit. */
  function SkipDigits(s: string, i: nat): (j: nat)
    requires i <= |s|
    ensures i <= j <= |s| && (forall k :: i <= k < j ==> IsDigit(s[k])) && (j < |s| ==> !IsDigit(s[j]))
    decreases |s| - i
  {
    if i < |s| && IsDigit(s[i]) then SkipDigits(s, i + 1) else i
  }

  function SignEnd(s: string, i: nat): nat { if i < |s| && (s[i] == '-' || s[i] == '+') then i + 1 else i }

  function Signed(negative: bool, n: int): int { if negative then -n else n }

  /** The number at the start of s. */
  function Parsed(s: string): int {
    var i := SkipBlanks(s, 0);
    var j := SignEnd(s, i);
    var v := Value(s[j..SkipDigits(s, j)]);
    Signed(i < |s| && s[i] == '-', v)
  }

  /** Where it ends. */
  function ParsedEnd(s: string): nat { SkipDigits(s, SignEnd(s, SkipBlanks(s, 0))) }

  // ----- the round trip

  lemma DigitsTo(s: string, j: nat, k: nat)
    requires j <= k <= |s| && (forall m :: 0 <= m < k - j ==> IsDigit(s[j..k][m])) && (k < |s| ==> !IsDigit(s[k]))
    ensures SkipDigits(s, j) == k
  {
    assert forall m :: j <= m < k ==> s[m] == s[j..k][m - j];
  }

  /** What the parser makes of any string: blanks and tabs are skipped, a sign is heeded, and the digits behind it are the
      number, which may be none and is then zero. */
  lemma ParsedAny(blanks: string, sign: string, digits: string, rest: string) returns (s: string)
    requires forall i :: 0 <= i < |blanks| ==> blanks[i] == ' ' || blanks[i] == '\t'
    requires (sign == "" || sign == "-" || sign == "+") && forall i :: 0 <= i < |digits| ==> '0' <= digits[i] <= '9'
    requires rest == [] || !('0' <= rest[0] <= '9')
    requires digits == [] && sign == "" && rest != [] ==> !IsBlank(rest[0]) && rest[0] != '-' && rest[0] != '+'
    ensures s == blanks + (sign + (digits + rest))
    ensures Parsed(s) == Signed(sign == "-", Value(digits)) && ParsedEnd(s) == |blanks| + |sign| + |digits|
  {
    s := blanks + (sign + (digits + rest));
    var i, j := |blanks|, |blanks| + |sign|;
    Begins(sign, digits, rest);
    assert i < |s| ==> s[i] == (sign + (digits + rest))[0];
    SkipsTo(s, i);
    assert s[j..] == digits + rest;
    DigitsOf(s, j, digits, rest);
  }

  lemma Begins(sign: string, digits: string, rest: string)
    requires (sign == "" || sign == "-" || sign == "+") && forall i :: 0 <= i < |digits| ==> IsDigit(digits[i])
    requires digits == [] && sign == "" && rest != [] ==> !IsBlank(rest[0]) && rest[0] != '-' && rest[0] != '+'
    ensures var t := sign + (digits + rest);
            && (t != [] ==> !IsBlank(t[0]) && (t[0] == '-' || t[0] == '+' <==> sign != "") && (t[0] == '-' <==> sign == "-"))
            && (t == [] ==> sign == "")
  {
    var t := sign + (digits + rest);
    if sign != "" {
      assert t[0] == sign[0];
    } else if digits != [] {
      assert t[0] == digits[0];
    } else if rest != [] {
      assert t[0] == rest[0];
    }
  }

  lemma DigitsOf(s: string, j: nat, digits: string, rest: string)
    requires j <= |s| && s[j..] == digits + rest && (rest != [] ==> !IsDigit(rest[0]))
    requires forall i :: 0 <= i < |digits| ==> IsDigit(digits[i])
    ensures SkipDigits(s, j) == j + |digits| && s[j..j + |digits|] == digits
  {
    var k := j + |digits|;
    assert forall m :: 0 <= m < |digits| + |rest| ==> s[j + m] == (digits + rest)[m];
    assert s[j..k] == digits && (k < |s| ==> s[k] == rest[0]);
    DigitsTo(s, j, k);
  }

  lemma SkipsTo(s: string, i: nat)
    requires i <= |s| && (forall m :: 0 <= m < i ==> IsBlank(s[m])) && (i < |s| ==> !IsBlank(s[i]))
    ensures SkipBlanks(s, 0) == i
  {
  }

  /** Blanks, a sign and digits are read as they should be. */
  lemma ParsedParts(blanks: nat, sign: string, digits: string, rest: string)
    requires sign == "" || sign == "-"
    requires |digits| >= 1 && forall i :: 0 <= i < |digits| ==> IsDigit(digits[i])
    requires rest == [] || !IsDigit(rest[0])
    ensures Parsed(Repeat(' ', blanks) + sign + digits + rest) == Signed(sign == "-", Value(digits))
    ensures ParsedEnd(Repeat(' ', blanks) + sign + digits + rest) == blanks + |sign| + |digits|
  {
    var s := ParsedAny(Repeat(' ', blanks), sign, digits, rest);
    Grouped(Repeat(' ', blanks), sign, digits, rest);
  }

  lemma Grouped(a: string, b: string, c: string, d: string)
    ensures a + (b + (c + d)) == a + b + c + d
  {
  }

  /** Every number comes back from its text, in any width and precision, with or without zeros, and the parser
      stops just behind it. */
  lemma ParsedText(v: int, width: int, prec: int, zero: bool, rest: string)
    requires rest == [] || !IsDigit(rest[0])
    ensures Parsed(Text(v, width, prec, zero) + rest) == v
    ensures ParsedEnd(Text(v, width, prec, zero) + rest) == |Text(v, width, prec, zero)|
  {
    var n, blanks, zeros := Magnitude(v), Blanks(v, width, prec, zero), AllZeros(v, width, prec, zero);
    var digits := Repeat('0', zeros) + Digits(n);
    ParsedParts(blanks, Sign(v), digits, rest);
    assert Value(digits) == n by {
      ValueOfDigits(n);
      LeadingZeros(zeros, Digits(n));
    }
    TextParts(v, width, prec, zero, rest);
  }

  lemma TextParts(v: int, width: int, prec: int, zero: bool, rest: string)
    ensures Text(v, width, prec, zero) + rest
         == Repeat(' ', Blanks(v, width, prec, zero)) + Sign(v)
            + (Repeat('0', AllZeros(v, width, prec, zero)) + Digits(Magnitude(v))) + rest
  {
    Joined(Repeat(' ', Blanks(v, width, prec, zero)) + Sign(v), Repeat('0', AllZeros(v, width, prec, zero)),
           Digits(Magnitude(v)), rest);
  }

  lemma Joined(a: string, b: string, c: string, d: string)
    ensures a + b + c + d == a + (b + c) + d
  {
  }
}
