/** fmt_append_di and strtol as doom/libc_shim.c writes them: loops over buffers and a moving pointer. */
module NumbersCode {
  import opened Arith
  import opened Fixed
  import opened Numbers

  function Reversed(s: string): (r: string)
    ensures |r| == |s|
  {
    seq(|s|, i requires 0 <= i < |s| => s[|s| - 1 - i])
  }

  lemma ReversedMore(s: string, c: char)
    ensures Reversed(s + [c]) == [c] + Reversed(s)
  {
  }

  /** As much of `text` as fits has been appended at `at`; the rest of the buffer is as before. */
  ghost predicate Appended(was: seq<char>, now: seq<char>, at: nat, n: nat, cap: nat, text: string) {
    && |was| == |now| && at <= n <= cap <= |now| && n == Min(cap, at + |text|)
    && now[..at] == was[..at] && now[at..n] == text[..n - at] && now[n..] == was[n..]
  }

  lemma AppendedMore(was: seq<char>, mid: seq<char>, now: seq<char>, at: nat, m: nat, n: nat, cap: nat, a: string, b: string)
    requires Appended(was, mid, at, m, cap, a) && Appended(mid, now, m, n, cap, b)
    ensures Appended(was, now, at, n, cap, a + b)
  {
    assert now[..at] == now[..m][..at];
    assert now[at..n] == now[..m][at..m] + now[m..n];
    assert mid[at..m] == mid[..m][at..m];
    assert (a + b)[..n - at] == a[..m - at] + b[..n - m];
    assert now[n..] == mid[n..] == mid[m..][n - m..];
    assert was[n..] == was[m..][n - m..];
  }

  /** The loops that append `count` times the same character while there is room. */
  method Fill(str: array<char>, at: nat, cap: nat, c: char, count: nat) returns (n: nat)
    requires at <= cap <= str.Length
    modifies str
    ensures Appended(old(str[..]), str[..], at, n, cap, Repeat(c, count))
  {
    n := at;
    var left := count;
    while left > 0 && n < cap
      invariant 0 <= left <= count && n == at + (count - left) <= cap
      invariant str[..at] == old(str[..at]) && str[n..] == old(str[n..])
      invariant forall i :: at <= i < n ==> str[i] == c
    {
      str[n] := c;
      n := n + 1;
      left := left - 1;
    }
    assert str[at..n] == Repeat(c, count)[..n - at];
  }

  lemma NextDigit(m: nat, tail: string)
    requires m > 0
    ensures Digits(m) + tail == (if m / 10 == 0 then "" else Digits(m / 10)) + ([Digit(m % 10)] + tail)
  {
  }

  /** The digits of a number, last digit first. */
  method DigitsBackwards(value: nat, dbuf: array<char>) returns (nd: nat)
    requires value <= 0x8000_0000 && dbuf.Length == 24
    modifies dbuf
    ensures 1 <= nd <= 10 && Reversed(dbuf[..nd]) == Digits(value)
  {
    TenDigits(value);
    nd := 0;
    if value == 0 {
      dbuf[0] := '0';
      nd := 1;
      return;
    }
    var mag := value;
    while mag > 0
      invariant nd <= dbuf.Length
      invariant (if mag == 0 then "" else Digits(mag)) + Reversed(dbuf[..nd]) == Digits(value)
    {
      NextDigit(mag, Reversed(dbuf[..nd]));
      ghost var before := dbuf[..nd];
      dbuf[nd] := Digit(mag % 10);
      assert dbuf[..nd + 1] == before + [Digit(mag % 10)];
      ReversedMore(before, Digit(mag % 10));
      nd := nd + 1;
      mag := mag / 10;
    }
  }

  /** The digits are copied out, last to first. */
  method CopyBackwards(str: array<char>, at: nat, cap: nat, dbuf: array<char>, count: nat) returns (n: nat)
    requires at <= cap <= str.Length && count <= dbuf.Length && dbuf != str
    modifies str
    ensures Appended(old(str[..]), str[..], at, n, cap, Reversed(dbuf[..count]))
  {
    n := at;
    var nd := count;
    ghost var text := Reversed(dbuf[..count]);
    while nd > 0 && n < cap
      invariant 0 <= nd <= count && n == at + (count - nd) <= cap
      invariant str[..at] == old(str[..at]) && str[n..] == old(str[n..])
      invariant forall i :: at <= i < n ==> str[i] == text[i - at]
    {
      nd := nd - 1;
      str[n] := dbuf[nd];
      n := n + 1;
    }
    assert str[at..n] == text[..n - at];
  }

  /** fmt_append_di: the text of the number, as far as there is room. */
  method AppendDi(str: array<char>, np: nat, cap: nat, value: int, width: int, prec: int, zero: bool) returns (n: nat)
    requires np <= cap <= str.Length && IsInt32(value)
    modifies str
    ensures Appended(old(str[..]), str[..], np, n, cap, Text(value, width, prec, zero))
  {
    var dbuf := new char[24];
    var neg := value < 0;
    var nd := DigitsBackwards(if neg then -value else value, dbuf);
    var min_d := if prec >= 0 then prec else 1;
    var zf := if min_d > nd then min_d - nd else 0;
    var body := zf + nd + if neg then 1 else 0;
    var pad := if width > body then width - body else 0;
    if zero && prec < 0 && pad > 0 {
      zf := zf + pad;
      pad := 0;
    }
    assert pad == Blanks(value, width, prec, zero) && zf == AllZeros(value, width, prec, zero);
    n := AppendParts(str, np, cap, pad, neg, zf, dbuf, nd);
    assert Sign(value) == if neg then "-" else "";
  }

  /** Blanks, sign, zeros and digits. */
  method AppendParts(str: array<char>, np: nat, cap: nat, pad: nat, neg: bool, zf: nat, dbuf: array<char>, nd: nat)
    returns (n: nat)
    requires np <= cap <= str.Length && nd <= dbuf.Length && dbuf != str
    modifies str
    ensures Appended(old(str[..]), str[..], np, n, cap,
                     Repeat(' ', pad) + (if neg then "-" else "") + Repeat('0', zf) + Reversed(dbuf[..nd]))
  {
    ghost var s0, sign := str[..], if neg then "-" else "";
    n := Fill(str, np, cap, ' ', pad);
    ghost var s1, n1 := str[..], n;
    n := Fill(str, n, cap, '-', if neg then 1 else 0);
    ghost var s2, n2 := str[..], n;
    assert Repeat('-', if neg then 1 else 0) == sign;
    AppendedMore(s0, s1, s2, np, n1, n2, cap, Repeat(' ', pad), sign);
    n := Fill(str, n, cap, '0', zf);
    ghost var s3, n3 := str[..], n;
    AppendedMore(s0, s2, s3, np, n2, n3, cap, Repeat(' ', pad) + sign, Repeat('0', zf));
    n := CopyBackwards(str, n, cap, dbuf, nd);
    AppendedMore(s0, s3, str[..], np, n3, n, cap, Repeat(' ', pad) + sign + Repeat('0', zf), Reversed(dbuf[..nd]));
  }

  /** The loop over the digits. */
  method ReadDigits(s: string, start: nat) returns (result: nat, p: nat)
    requires start <= |s|
    ensures p == SkipDigits(s, start) && result == Value(s[start..p])
  {
    result, p := 0, start;
    while p < |s| && '0' <= s[p] <= '9'
      invariant start <= p <= |s| && SkipDigits(s, p) == SkipDigits(s, start)
      invariant (forall i :: 0 <= i < |s[start..p]| ==> IsDigit(s[start..p][i])) && result == Value(s[start..p])
    {
      ghost var t := s[start..p + 1];
      assert t[..|t| - 1] == s[start..p] && t[|t| - 1] == s[p];
      result := result * 10 + (s[p] as int - '0' as int);
      p := p + 1;
    }
  }

  /** The loop over the blanks. */
  method ReadBlanks(s: string) returns (p: nat)
    ensures p == SkipBlanks(s, 0)
  {
    p := 0;
    while p < |s| && (s[p] == ' ' || s[p] == '\t')
      invariant p <= |s| && SkipBlanks(s, p) == SkipBlanks(s, 0)
    {
      p := p + 1;
    }
  }

  /** strtol: the value, and the position of endptr. */
  method Strtol(s: string) returns (r: int, end: nat)
    ensures r == Parsed(s) && end == ParsedEnd(s)
  {
    var negative := false;
    var p := ReadBlanks(s);
    if p < |s| && s[p] == '-' {
      negative := true;
      p := p + 1;
    } else if p < |s| && s[p] == '+' {
      p := p + 1;
    }
    r, end := ReadDigits(s, p);
    if negative {
      r := -r;
    }
  }
}
