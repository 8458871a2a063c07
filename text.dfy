/**
 * The two pieces of Rust's standard library that the register store leans on:
 * the decimal rendering of an unsigned integer (`usize::to_string`, used for
 * the selection-index register) and the first item of `str::lines` (used for
 * register previews).
 */
module Text {
  import opened Wrappers

  predicate IsDigit(c: char) {
    '0' <= c <= '9'
  }

  predicate IsDigits(s: string) {
    forall i :: 0 <= i < |s| ==> IsDigit(s[i])
  }

  function DigitValue(c: char): (d: nat)
    requires IsDigit(c)
    ensures d < 10
  {
    c as int - '0' as int
  }

  function DigitChar(d: nat): (c: char)
    requires d < 10
    ensures IsDigit(c) && DigitValue(c) == d
  {
    ('0' as int + d) as char
  }

  /** The decimal rendering of `n`: digits only, most significant first, and
      no leading zero except in "0" itself. */
  function Decimal(n: nat): (r: string)
    ensures r != [] && IsDigits(r)
    ensures r[0] == '0' ==> n == 0 && r == "0"
    decreases n
  {
    if n < 10 then [DigitChar(n)] else Decimal(n / 10) + [DigitChar(n % 10)]
  }

  /** The number a string of decimal digits denotes (the inverse of Decimal). */
  function ParseDecimal(s: string): nat
    requires IsDigits(s)
    decreases |s|
  {
    if s == [] then 0 else 10 * ParseDecimal(s[..|s| - 1]) + DigitValue(s[|s| - 1])
  }

  /** A string Decimal can produce: nonempty digits without a leading zero. */
  predicate IsCanonicalDecimal(s: string) {
    s != [] && IsDigits(s) && (s[0] == '0' ==> s == "0")
  }

  lemma {:induction false} DecimalRoundTrip(n: nat)
    ensures ParseDecimal(Decimal(n)) == n
    decreases n
  {
    if n >= 10 {
      var r := Decimal(n);
      assert r[..|r| - 1] == Decimal(n / 10);
      DecimalRoundTrip(n / 10);
    }
  }

  lemma {:induction false} ParsePositive(s: string)
    requires s != [] && IsDigits(s) && s[0] != '0'
    ensures ParseDecimal(s) > 0
    decreases |s|
  {
    if |s| > 1 {
      ParsePositive(s[..|s| - 1]);
    }
  }

  lemma DivModTen(q: nat, r: nat)
    requires r < 10
    ensures (10 * q + r) / 10 == q && (10 * q + r) % 10 == r
  {
  }

  lemma {:induction false} ParseRoundTrip(s: string)
    requires IsCanonicalDecimal(s)
    ensures Decimal(ParseDecimal(s)) == s
    decreases |s|
  {
    var d := s[|s| - 1];
    assert DigitChar(DigitValue(d)) == d;
    if |s| > 1 {
      var p := s[..|s| - 1];
      var q, r := ParseDecimal(p), DigitValue(d);
      ParsePositive(p);
      ParseRoundTrip(p);
      DivModTen(q, r);
      var n := ParseDecimal(s);
      assert n == 10 * q + r && n >= 10;
      assert Decimal(n) == Decimal(q) + [DigitChar(r)];
      assert s == p + [d];
    }
  }

  /** Decimal renderings of distinct numbers are distinct. */
  lemma DecimalInjective(m: nat, n: nat)
    ensures Decimal(m) == Decimal(n) <==> m == n
  {
    if Decimal(m) == Decimal(n) {
      DecimalRoundTrip(m);
      DecimalRoundTrip(n);
    }
  }

  /** The index of the first line feed in `s`, or `|s|` when there is none. */
  function LineEnd(s: string): (k: nat)
    ensures k <= |s|
    ensures '\n' !in s[..k]
    ensures k < |s| ==> s[k] == '\n'
  {
    if s == [] || s[0] == '\n' then 0
    else
      var k := 1 + LineEnd(s[1..]);
      assert s[..k] == [s[0]] + s[1..][..k - 1];
      k
  }

  /** The first item of `str::lines`: none for the empty string; otherwise the
      text before the first line feed, less one carriage return that directly
      precedes that line feed. Without a line feed the whole string is the
      line, a trailing carriage return included. */
  function FirstLine(s: string): (r: Option<string>)
    ensures r.None? <==> s == []
    ensures r.Some? ==> '\n' !in r.value && r.value <= s
    ensures '\n' !in s && s != [] ==> r == Some(s)
  {
    if s == [] then None
    else
      var k := LineEnd(s);
      if k == |s| then Some(s)
      else if k > 0 && s[k - 1] == '\r' then Some(s[..k - 1])
      else Some(s[..k])
  }

  lemma {:induction false} LineEndAtBreak(line: string, rest: string)
    requires '\n' !in line
    requires rest != [] && rest[0] == '\n'
    ensures LineEnd(line + rest) == |line|
    decreases |line|
  {
    if line != [] {
      assert (line + rest)[1..] == line[1..] + rest;
      LineEndAtBreak(line[1..], rest);
    }
  }

  /** A line ended by "\r\n", or by "\n" alone when it does not itself end in
      a carriage return, is what FirstLine gives back. */
  lemma FirstLineOfTerminatedLine(line: string, rest: string)
    requires '\n' !in line
    ensures FirstLine(line + "\r\n" + rest) == Some(line)
    ensures (line == [] || line[|line| - 1] != '\r') ==> FirstLine(line + "\n" + rest) == Some(line)
  {
    var crlf := line + "\r\n" + rest;
    LineEndAtBreak(line + "\r", "\n" + rest);
    assert crlf == (line + "\r") + ("\n" + rest);
    assert crlf[..|line|] == line;
    var lf := line + "\n" + rest;
    LineEndAtBreak(line, "\n" + rest);
    assert lf == line + ("\n" + rest);
    assert lf[..|line|] == line;
  }
}
