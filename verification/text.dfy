/**
 * Character and string helpers shared by the pipeline model: decimal digits,
 * Python's str() of a non-negative integer, str.join, str.strip().
 */
module Text {

  predicate IsDigit(c: char) { '0' <= c <= '9' }

  function DigitValue(c: char): (v: nat)
    requires IsDigit(c)
    ensures v < 10
  {
    (c as int) - ('0' as int)
  }

  function DigitChar(n: nat): (c: char)
    requires n < 10
    ensures IsDigit(c) && DigitValue(c) == n
  {
    (('0' as int) + n) as char
  }

  predicate AllDigits(s: string) { forall i :: 0 <= i < |s| ==> IsDigit(s[i]) }

  /** The number a run of ASCII decimal digits denotes, most significant digit first. */
  function DecimalValue(s: string): nat
    requires AllDigits(s)
  {
    if s == [] then 0 else 10 * DecimalValue(s[..|s| - 1]) + DigitValue(s[|s| - 1])
  }

  /** Python's str(n) for a non-negative int: shortest decimal form, no leading zero. */
  function NatToDecimal(n: nat): (r: string)
    ensures 1 <= |r| && AllDigits(r)
    ensures DecimalValue(r) == n
    ensures |r| > 1 ==> r[0] != '0'
  {
    if n < 10 then [DigitChar(n)]
    else
      var r := NatToDecimal(n / 10) + [DigitChar(n % 10)];
      assert r[..|r| - 1] == NatToDecimal(n / 10);
      r
  }

  /** Reading back a digit run without a redundant leading zero gives the run itself. */
  lemma {:induction false} DecimalRoundTrip(s: string)
    requires 1 <= |s| && AllDigits(s)
    requires |s| > 1 ==> s[0] != '0'
    ensures NatToDecimal(DecimalValue(s)) == s
  {
    if |s| == 1 {
      assert DecimalValue(s) == DigitValue(s[0]);
    } else {
      var init, last := s[..|s| - 1], s[|s| - 1];
      assert init[0] == s[0];
      DecimalRoundTrip(init);
      LeadingDigitBound(init);
      var n, m := DecimalValue(s), DecimalValue(init);
      assert m >= 1;
      assert n == 10 * m + DigitValue(last);
      DivMod10(n, m, DigitValue(last));
      assert s == init + [last];
    }
  }

  lemma DivMod10(n: nat, q: nat, r: nat)
    requires r < 10 && n == 10 * q + r
    ensures n / 10 == q && n % 10 == r
  {
  }

  /** A digit run of length k that does not start with 0 denotes a number of k digits. */
  lemma {:induction false} LeadingDigitBound(s: string)
    requires 1 <= |s| && AllDigits(s)
    requires |s| > 1 ==> s[0] != '0'
    ensures |s| > 1 ==> DecimalValue(s) >= 10
    ensures s[0] != '0' ==> DecimalValue(s) >= 1
    ensures |s| > 1 ==> Pow10(|s| - 1) <= DecimalValue(s)
    ensures DecimalValue(s) < Pow10(|s|)
  {
    if |s| > 1 {
      var init := s[..|s| - 1];
      assert init[0] == s[0];
      LeadingDigitBound(init);
      assert DecimalValue(s) == 10 * DecimalValue(init) + DigitValue(s[|s| - 1]);
    } else {
      assert DecimalValue(s) == DigitValue(s[0]);
    }
  }

  function Pow10(k: nat): (r: nat)
    ensures r >= 1
  {
    if k == 0 then 1 else 10 * Pow10(k - 1)
  }

  /** str(n) has exactly k digits when 10^(k-1) <= n < 10^k. */
  lemma {:induction false} DecimalLength(n: nat, k: nat)
    requires 1 <= k
    requires (k == 1 || Pow10(k - 1) <= n) && n < Pow10(k)
    ensures |NatToDecimal(n)| == k
  {
    if k > 1 {
      if k > 2 {
        DecimalLength(n / 10, k - 1);
      } else {
        assert n / 10 < 10;
      }
    }
  }

  /** strftime's %m and %d: two digits, zero-padded. */
  function Pad2(n: nat): (r: string)
    requires n < 100
    ensures |r| == 2 && AllDigits(r) && DecimalValue(r) == n
  {
    var r := [DigitChar(n / 10), DigitChar(n % 10)];
    TwoDigitValue(r);
    r
  }

  lemma TwoDigitValue(s: string)
    requires |s| == 2 && AllDigits(s)
    ensures DecimalValue(s) == 10 * DigitValue(s[0]) + DigitValue(s[1])
  {
    var first := s[..1];
    assert first[..0] == [] && first[0] == s[0];
    assert DecimalValue(first) == DigitValue(s[0]);
    assert DecimalValue(s) == 10 * DecimalValue(first) + DigitValue(s[1]);
  }

  lemma Pad2RoundTrip(s: string)
    requires |s| == 2 && AllDigits(s)
    ensures DecimalValue(s) < 100 && Pad2(DecimalValue(s)) == s
  {
    TwoDigitValue(s);
  }

  /** n copies of c, as Python's c * n. */
  function Repeat(c: char, n: nat): (r: string)
    ensures |r| == n && forall i :: 0 <= i < n ==> r[i] == c
  {
    seq(n, _ => c)
  }

  function TotalLength(xs: seq<string>): nat
  {
    if xs == [] then 0 else TotalLength(xs[..|xs| - 1]) + |xs[|xs| - 1]|
  }

  /** Python's sep.join(xs). */
  function Join(xs: seq<string>, sep: string): (r: string)
    ensures |xs| > 0 ==> |r| == TotalLength(xs) + (|xs| - 1) * |sep|
    ensures |xs| == 0 ==> r == ""
  {
    if |xs| == 0 then ""
    else if |xs| == 1 then xs[0]
    else Join(xs[..|xs| - 1], sep) + sep + xs[|xs| - 1]
  }

  /** The whitespace of Python's str.isspace(), which is also what \s matches and str.strip() removes. */
  predicate IsSpace(c: char)
  {
    var n := c as int;
    n == 0x20 || 0x09 <= n <= 0x0D || 0x1C <= n <= 0x1F || n == 0x85 || n == 0xA0 || n == 0x1680
    || 0x2000 <= n <= 0x200A || n == 0x2028 || n == 0x2029 || n == 0x202F || n == 0x205F || n == 0x3000
  }

  /** The first position at or after i that is not whitespace, |s| when there is none. */
  function SkipSpace(s: string, i: nat): (k: nat)
    requires i <= |s|
    ensures i <= k <= |s|
    ensures forall j :: i <= j < k ==> IsSpace(s[j])
    ensures k == |s| || !IsSpace(s[k])
    decreases |s| - i
  {
    if i < |s| && IsSpace(s[i]) then SkipSpace(s, i + 1) else i
  }

  /** The end of s[lo..e] once its trailing whitespace is dropped. */
  function TrimEnd(s: string, lo: nat, e: nat): (t: nat)
    requires lo <= e <= |s|
    ensures lo <= t <= e
    ensures forall j :: t <= j < e ==> IsSpace(s[j])
    ensures t == lo || !IsSpace(s[t - 1])
    decreases e
  {
    if e > lo && IsSpace(s[e - 1]) then TrimEnd(s, lo, e - 1) else e
  }

  /**
   * str.strip(): the slice of s that starts after its leading whitespace and
   * stops before its trailing whitespace, so it neither starts nor ends with
   * whitespace.
   */
  function Strip(s: string): (r: string)
    ensures var k := SkipSpace(s, 0); k + |r| <= |s| && r == s[k..k + |r|]
    ensures forall i :: 0 <= i < SkipSpace(s, 0) ==> IsSpace(s[i])
    ensures forall i :: SkipSpace(s, 0) + |r| <= i < |s| ==> IsSpace(s[i])
    ensures r == [] || (!IsSpace(r[0]) && !IsSpace(r[|r| - 1]))
  {
    var k := SkipSpace(s, 0);
    s[k..TrimEnd(s, k, |s|)]
  }

  predicate HasPrefix(s: string, p: string) { |p| <= |s| && s[..|p|] == p }

  predicate HasSuffix(s: string, p: string) { |p| <= |s| && s[|s| - |p|..] == p }
}
