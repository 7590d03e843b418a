/**
 * Character classes and the small pieces of Ruby's String and Integer
 * behaviour that the parser relies on: `String#to_i`, `Integer#to_s`,
 * ASCII case mapping and the character classes of the regexp fragments.
 */
module Text {

  predicate IsDigit(c: char) { '0' <= c <= '9' }

  /** A character of the regexp class `\s` (space, \t, \n, \v, \f, \r). */
  predicate IsSpace(c: char) {
    c == ' ' || c == '\t' || c == '\n' || c == '\U{B}' || c == '\U{C}' || c == '\r'
  }

  predicate IsUpper(c: char) { 'A' <= c <= 'Z' }

  predicate IsLower(c: char) { 'a' <= c <= 'z' }

  /** A character of the regexp class `\w` (ASCII letters, digits and `_`). */
  predicate IsWordChar(c: char) { IsUpper(c) || IsLower(c) || IsDigit(c) || c == '_' }

  predicate AllDigits(s: string) { forall i :: 0 <= i < |s| ==> IsDigit(s[i]) }

  predicate ContainsDigit(s: string) { exists i :: 0 <= i < |s| && IsDigit(s[i]) }

  function DigitValue(c: char): (d: nat)
    requires IsDigit(c)
    ensures d < 10
  {
    (c as int) - ('0' as int)
  }

  function DigitChar(d: nat): (c: char)
    requires d < 10
    ensures IsDigit(c) && DigitValue(c) == d
  {
    ((d + '0' as int) as char)
  }

  function Pow10(n: nat): (p: nat)
    ensures p >= 1
  {
    if n == 0 then 1 else 10 * Pow10(n - 1)
  }

  /** The number a string of decimal digits denotes, read most significant first. */
  function Value(s: string): nat
    requires AllDigits(s)
  {
    if s == [] then 0 else Value(s[..|s| - 1]) * 10 + DigitValue(s[|s| - 1])
  }

  lemma {:induction false} ValueBound(s: string)
    requires AllDigits(s)
    ensures Value(s) < Pow10(|s|)
  {
    if s != [] {
      ValueBound(s[..|s| - 1]);
    }
  }

  /** Reading the concatenation of two digit strings. */
  lemma {:induction false} ValueConcat(a: string, b: string)
    requires AllDigits(a) && AllDigits(b)
    ensures AllDigits(a + b)
    ensures Value(a + b) == Value(a) * Pow10(|b|) + Value(b)
  {
    assert AllDigits(a + b) by {
      forall i | 0 <= i < |a + b|
        ensures IsDigit((a + b)[i])
      {
        if i >= |a| {
          assert (a + b)[i] == b[i - |a|];
        }
      }
    }
    if b == [] {
      assert a + b == a;
    } else {
      var b' := b[..|b| - 1];
      var d := DigitValue(b[|b| - 1]);
      assert (a + b)[..|a + b| - 1] == a + b';
      assert (a + b)[|a + b| - 1] == b[|b| - 1];
      ValueConcat(a, b');
      var x, p, y := Value(a), Pow10(|b'|), Value(b');
      assert Value(a + b) == (x * p + y) * 10 + d;
      assert Value(b) == y * 10 + d;
      assert Pow10(|b|) == p * 10;
      MulAddTen(x, p, y, d);
    }
  }

  lemma MulAddTen(x: nat, p: nat, y: nat, d: nat)
    ensures (x * p + y) * 10 + d == x * (p * 10) + (y * 10 + d)
  {
  }

  lemma ValueLeadingZeros(n: nat, s: string)
    requires AllDigits(s)
    ensures AllDigits(Repeat('0', n) + s) && Value(Repeat('0', n) + s) == Value(s)
  {
    var zeros := Repeat('0', n);
    ValueZeros(n);
    ValueConcat(zeros, s);
    assert Value(zeros) * Pow10(|s|) == 0;
  }

  lemma ValueTrailingZeros(s: string, n: nat)
    requires AllDigits(s)
    ensures AllDigits(s + Repeat('0', n)) && Value(s + Repeat('0', n)) == Value(s) * Pow10(n)
  {
    var zeros := Repeat('0', n);
    ValueZeros(n);
    ValueConcat(s, zeros);
    assert Value(s + zeros) == Value(s) * Pow10(n) + 0;
  }

  lemma {:induction false} ValueZeros(n: nat)
    ensures AllDigits(Repeat('0', n)) && Value(Repeat('0', n)) == 0
  {
    if n > 0 {
      assert Repeat('0', n)[..n - 1] == Repeat('0', n - 1);
      ValueZeros(n - 1);
    }
  }

  function Repeat(c: char, n: nat): (s: string)
    ensures |s| == n && forall i :: 0 <= i < n ==> s[i] == c
  {
    if n == 0 then [] else Repeat(c, n - 1) + [c]
  }

  /** The longest prefix of `s` made of decimal digits. */
  function LeadingDigits(s: string): (d: string)
    ensures AllDigits(d) && d <= s
    ensures |d| < |s| ==> !IsDigit(s[|d|])
  {
    if s == [] || !IsDigit(s[0]) then [] else [s[0]] + LeadingDigits(s[1..])
  }

  lemma {:induction false} LeadingDigitsOfDigits(s: string)
    requires AllDigits(s)
    ensures LeadingDigits(s) == s
  {
    if s != [] {
      LeadingDigitsOfDigits(s[1..]);
    }
  }

  function DropSpaces(s: string): (t: string)
    ensures |t| <= |s| && t == s[|s| - |t|..]
  {
    if s != [] && IsSpace(s[0]) then DropSpaces(s[1..]) else s
  }

  /**
   * Ruby's `String#to_i`: leading white space is skipped, an optional sign
   * is read, then the longest run of digits; anything else gives 0.
   */
  function ToI(s: string): int
  {
    var t := DropSpaces(s);
    if t != [] && (t[0] == '-' || t[0] == '+') then
      var v: int := Value(LeadingDigits(t[1..]));
      if t[0] == '-' then -v else v
    else
      Value(LeadingDigits(t))
  }

  lemma ToIOfDigits(s: string)
    requires AllDigits(s)
    ensures ToI(s) == Value(s)
  {
    assert s == [] || !IsSpace(s[0]);
    assert DropSpaces(s) == s;
    assert s == [] || (s[0] != '-' && s[0] != '+');
    LeadingDigitsOfDigits(s);
  }

  /** The digits of a natural number, most significant first, without leading zeros. */
  function NatString(n: nat): (s: string)
    ensures AllDigits(s) && |s| >= 1
  {
    if n < 10 then [DigitChar(n)] else NatString(n / 10) + [DigitChar(n % 10)]
  }

  lemma {:induction false} NatStringValue(n: nat)
    ensures Value(NatString(n)) == n
  {
    if n >= 10 {
      NatStringValue(n / 10);
      var s := NatString(n);
      assert s[..|s| - 1] == NatString(n / 10);
    }
  }

  lemma {:induction false} NatStringLength(n: nat, k: nat)
    requires Pow10(k) <= n < Pow10(k + 1)
    ensures |NatString(n)| == k + 1
  {
    if k > 0 {
      NatStringLength(n / 10, k - 1);
    }
  }

  /** Ruby's `Integer#to_s`. */
  function IntString(n: int): (s: string)
    ensures |s| >= 1
  {
    if n < 0 then "-" + NatString(-n) else NatString(n)
  }

  /** Ruby's `String#rjust(width, pad)`. */
  function RJust(s: string, width: nat, pad: char): (r: string)
    ensures |r| == if |s| >= width then |s| else width
    ensures r[|r| - |s|..] == s
  {
    if |s| >= width then s else Repeat(pad, width - |s|) + s
  }

  /** Ruby's `str[0..n-1]`: the first `n` characters, or the whole string when shorter. */
  function Take(s: string, n: nat): (r: string)
    ensures r <= s && |r| == if |s| < n then |s| else n
  {
    if |s| < n then s else s[..n]
  }

  function LowerChar(c: char): char
  {
    if IsUpper(c) then (c as int + 32) as char else c
  }

  function UpperChar(c: char): char
  {
    if IsLower(c) then (c as int - 32) as char else c
  }

  /** `String#downcase`, on the ASCII letters. */
  function Downcase(s: string): (r: string)
    ensures |r| == |s| && forall i :: 0 <= i < |s| ==> r[i] == LowerChar(s[i])
  {
    if s == [] then [] else [LowerChar(s[0])] + Downcase(s[1..])
  }

  /** `String#upcase`, on the ASCII letters. */
  function Upcase(s: string): (r: string)
    ensures |r| == |s| && forall i :: 0 <= i < |s| ==> r[i] == UpperChar(s[i])
  {
    if s == [] then [] else [UpperChar(s[0])] + Upcase(s[1..])
  }

  /** `capitalize`: the first character upper-cased, the others lower-cased (ASCII). */
  function Capitalize(s: string): (r: string)
    ensures |r| == |s|
  {
    if s == [] then [] else [UpperChar(s[0])] + Downcase(s[1..])
  }

  /** `casecmp?`: equality after case folding (ASCII). */
  predicate CaseEqual(a: string, b: string) { Downcase(a) == Downcase(b) }

  /** `String#delete(c)`: every occurrence of `c` removed. */
  function Delete(s: string, c: char): (r: string)
    ensures |r| <= |s| && forall i :: 0 <= i < |r| ==> r[i] != c
  {
    if s == [] then [] else (if s[0] == c then [] else [s[0]]) + Delete(s[1..], c)
  }

  /** A two-digit, zero-padded rendering of 0..99. */
  function TwoDigits(n: nat): (s: string)
    requires n < 100
    ensures |s| == 2 && AllDigits(s) && Value(s) == n
  {
    var s := [DigitChar(n / 10), DigitChar(n % 10)];
    assert s[..1] == [DigitChar(n / 10)] && s[..1][..0] == [];
    assert Value(s[..1]) == n / 10;
    assert Value(s) == (n / 10) * 10 + n % 10;
    s
  }
}
