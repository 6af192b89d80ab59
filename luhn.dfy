/**
 * The Luhn mod-10 checksum of ISO/IEC 7812-1 (Annex B) and the account-number
 * generator built on it (app/helper.php).
 *
 * Digits are read right to left; every second digit, starting with the one left
 * of the rightmost, is doubled, and 9 is subtracted from a doubled value above 9.
 * A string passes when the sum of the processed digits is a multiple of 10.
 */
module Luhn {
  import opened Wrappers

  /** Account numbers are 12 characters long (str_pad width). */
  const AccountNumberLength: nat := 12
  /** Largest value mt_rand is asked for: twelve nines. */
  const MaxDraw: nat := 999_999_999_999

  predicate IsDigit(c: char) { '0' <= c <= '9' }

  predicate AllDigits(s: string) { forall i :: 0 <= i < |s| ==> IsDigit(s[i]) }

  /** intval() of a one-character string: its digit value, and 0 for any other character. */
  function DigitValue(c: char): (n: nat)
    ensures n <= 9
  {
    if IsDigit(c) then c as int - '0' as int else 0
  }

  function DigitChar(n: nat): (c: char)
    requires n <= 9
    ensures IsDigit(c) && DigitValue(c) == n
  {
    ('0' as int + n) as char
  }

  /** What one digit adds to the sum; `alt` says whether it is in a doubled position. */
  function Contribution(n: nat, alt: bool): (r: nat)
    requires n <= 9
    ensures r <= 9
    ensures !alt ==> r == n
    // a doubled digit contributes the sum of the decimal digits of its double
    ensures alt ==> r == (2 * n) / 10 + (2 * n) % 10
  {
    if alt then (if 2 * n > 9 then 2 * n - 9 else 2 * n) else n
  }

  /** Within one position, different digits contribute different amounts. */
  lemma ContributionInjective(a: nat, b: nat, alt: bool)
    requires a <= 9 && b <= 9 && a != b
    ensures Contribution(a, alt) != Contribution(b, alt)
  {
  }

  /**
   * The weighted digit sum of s read right to left; `alt` says whether the
   * rightmost character of s sits in a doubled position.
   */
  function LuhnSum(s: string, alt: bool): nat
    decreases |s|
  {
    if s == [] then 0
    else Contribution(DigitValue(s[|s| - 1]), alt) + LuhnSum(s[..|s| - 1], !alt)
  }

  /** The Luhn condition: the weighted sum (rightmost digit not doubled) is 0 mod 10. */
  predicate LuhnValid(s: string) { LuhnSum(s, false) % 10 == 0 }

  /** luhnCheck: the right-to-left loop with its running sum and alternation flag. */
  method LuhnCheck(number: string) returns (ok: bool)
    ensures ok <==> LuhnValid(number)
    ensures number == "" ==> ok
  {
    var sum: nat := 0;
    var alt := false;
    var i := |number| - 1;
    assert number[..i + 1] == number;
    while i >= 0
      invariant -1 <= i < |number|
      invariant sum + LuhnSum(number[..i + 1], alt) == LuhnSum(number, false)
      decreases i + 1
    {
      assert number[..i + 1][..i] == number[..i];
      var n := DigitValue(number[i]);
      if alt {
        n := n * 2;
        if n > 9 {
          n := n - 9;
        }
      }
      sum := sum + n;
      alt := !alt;
      i := i - 1;
    }
    ok := sum % 10 == 0;
  }

  /** Each character adds at most 9, so the sum is bounded by 9 times the length. */
  lemma {:induction false} LuhnSumBound(s: string, alt: bool)
    ensures LuhnSum(s, alt) <= 9 * |s|
    decreases |s|
  {
    if s != [] {
      LuhnSumBound(s[..|s| - 1], !alt);
    }
  }

  /** Appending one character: it becomes the undoubled rightmost digit. */
  lemma AppendChar(p: string, c: char, alt: bool)
    ensures LuhnSum(p + [c], alt) == Contribution(DigitValue(c), alt) + LuhnSum(p, !alt)
  {
    assert (p + [c])[..|p|] == p;
  }

  /** The sum of a concatenation splits at the join, with the alternation shifted by |v|. */
  lemma {:induction false} LuhnSumConcat(u: string, v: string, alt: bool)
    ensures LuhnSum(u + v, alt) == LuhnSum(v, alt) + LuhnSum(u, if |v| % 2 == 0 then alt else !alt)
    decreases |v|
  {
    if v == [] {
      assert u + v == u;
    } else {
      var w := v[..|v| - 1];
      var c := v[|v| - 1];
      var altU := if |v| % 2 == 0 then alt else !alt;
      assert (if |w| % 2 == 0 then !alt else alt) == altU;
      calc {
        LuhnSum(u + v, alt);
        { assert u + v == (u + w) + [c]; }
        LuhnSum((u + w) + [c], alt);
        { AppendChar(u + w, c, alt); }
        Contribution(DigitValue(c), alt) + LuhnSum(u + w, !alt);
        { LuhnSumConcat(u, w, !alt); }
        Contribution(DigitValue(c), alt) + LuhnSum(w, !alt) + LuhnSum(u, altU);
        { AppendChar(w, c, alt); assert v == w + [c]; }
        LuhnSum(v, alt) + LuhnSum(u, altU);
      }
    }
  }

  function Zeros(k: nat): (z: string)
    ensures |z| == k && forall i :: 0 <= i < k ==> z[i] == '0'
  {
    seq(k, _ => '0')
  }

  /** One leading '0' adds nothing, whatever parity it lands on. */
  lemma {:induction false} LeadingZero(s: string, alt: bool)
    ensures LuhnSum("0" + s, alt) == LuhnSum(s, alt)
    decreases |s|
  {
    if s == [] {
      assert ("0" + s)[..0] == [];
    } else {
      var w := s[..|s| - 1];
      assert "0" + s == ("0" + w) + [s[|s| - 1]];
      AppendChar("0" + w, s[|s| - 1], alt);
      LeadingZero(w, !alt);
      AppendChar(w, s[|s| - 1], alt);
      assert s == w + [s[|s| - 1]];
    }
  }

  /**
   * Zero padding on the left does not change the checksum, so a zero-padded
   * number and the integer stored for it in the bigInteger column agree.
   */
  lemma {:induction false} LeadingZeros(k: nat, s: string)
    ensures LuhnSum(Zeros(k) + s, false) == LuhnSum(s, false)
    ensures LuhnValid(Zeros(k) + s) <==> LuhnValid(s)
    decreases k
  {
    if k == 0 {
      assert Zeros(k) + s == s;
    } else {
      assert Zeros(k) + s == "0" + (Zeros(k - 1) + s);
      LeadingZero(Zeros(k - 1) + s, false);
      LeadingZeros(k - 1, s);
    }
  }

  /** The digit that completes a prefix into a Luhn-valid string. */
  function CheckDigit(p: string): (c: char)
    ensures IsDigit(c)
    ensures LuhnValid(p + [c])
  {
    var x := LuhnSum(p, true);
    var d := (10 - x % 10) % 10;
    var c := DigitChar(d);
    AppendChar(p, c, false);
    CompletesTen(x, d);
    c
  }

  /** Among the digits, exactly (10 - x mod 10) mod 10 brings x to a multiple of 10. */
  lemma CompletesTen(x: nat, d: nat)
    requires d <= 9
    ensures (d + x) % 10 == 0 <==> d == (10 - x % 10) % 10
  {
    var q, r := x / 10, x % 10;
    assert x == 10 * q + r;
    assert d + x == 10 * q + (d + r);
    if d + r == 0 {
      assert d + x == 10 * q;
    } else if d + r == 10 {
      assert d + x == 10 * (q + 1);
    } else if d + r < 10 {
      assert (d + x) % 10 == d + r;
    } else {
      assert d + x == 10 * (q + 1) + (d + r - 10);
    }
  }

  /**
   * Every prefix has exactly one completing digit: the retry loop of the
   * generator has a non-empty target (one twelve-digit string in ten passes).
   */
  lemma CheckDigitUnique(p: string, c: char)
    requires IsDigit(c)
    ensures LuhnValid(p + [c]) <==> c == CheckDigit(p)
  {
    var x := LuhnSum(p, true);
    var d := (10 - x % 10) % 10;
    AppendChar(p, c, false);
    assert LuhnSum(p + [c], false) == DigitValue(c) + x;
    CompletesTen(x, DigitValue(c));
    assert CheckDigit(p) == DigitChar(d);
    assert DigitChar(DigitValue(c)) == c;
  }

  lemma NotMultipleOfTen(x: int, y: int)
    requires x % 10 == 0
    requires 0 < y - x <= 9 || 0 < x - y <= 9
    ensures y % 10 != 0
  {
  }

  /** Replacing one digit of a Luhn-valid string by a different digit makes it invalid. */
  lemma DetectsSingleDigitError(s: string, i: nat, c: char)
    requires LuhnValid(s)
    requires i < |s| && IsDigit(s[i]) && IsDigit(c) && c != s[i]
    ensures !LuhnValid(s[i := c])
  {
    var u, v := s[..i], s[i + 1..];
    var t := s[i := c];
    var alt := |v| % 2 != 0;
    assert s == (u + [s[i]]) + v;
    assert t == (u + [c]) + v;
    LuhnSumConcat(u + [s[i]], v, false);
    LuhnSumConcat(u + [c], v, false);
    AppendChar(u, s[i], alt);
    AppendChar(u, c, alt);
    assert DigitValue(s[i]) != DigitValue(c);
    ContributionInjective(DigitValue(s[i]), DigitValue(c), alt);
    NotMultipleOfTen(LuhnSum(s, false), LuhnSum(t, false));
  }

  /** The first half of the test vector's running sum. */
  lemma SumOf79927()
    ensures LuhnSum("79927", false) == 36
  {
    AppendChar("", '7', false);
    assert "" + ['7'] == "7";
    assert LuhnSum("7", false) == 7;
    AppendChar("7", '9', true);
    assert "7" + ['9'] == "79";
    assert LuhnSum("79", true) == 16;
    AppendChar("79", '9', false);
    assert "79" + ['9'] == "799";
    assert LuhnSum("799", false) == 25;
    AppendChar("799", '2', true);
    assert "799" + ['2'] == "7992";
    assert LuhnSum("7992", true) == 29;
    AppendChar("7992", '7', false);
    assert "7992" + ['7'] == "79927";
  }

  /** The running sum of the test vector's payload, its last digit in a doubled position. */
  lemma SumOf7992739871()
    ensures LuhnSum("7992739871", true) == 67
  {
    SumOf79927();
    AppendChar("79927", '3', true);
    assert "79927" + ['3'] == "799273";
    assert LuhnSum("799273", true) == 42;
    AppendChar("799273", '9', false);
    assert "799273" + ['9'] == "7992739";
    assert LuhnSum("7992739", false) == 51;
    AppendChar("7992739", '8', true);
    assert "7992739" + ['8'] == "79927398";
    assert LuhnSum("79927398", true) == 58;
    AppendChar("79927398", '7', false);
    assert "79927398" + ['7'] == "799273987";
    assert LuhnSum("799273987", false) == 65;
    AppendChar("799273987", '1', true);
    assert "799273987" + ['1'] == "7992739871";
  }

  /** The usual test vector: 7992739871 with check digit 3. */
  lemma KnownVectors()
    ensures LuhnValid("79927398713")
    ensures !LuhnValid("79927398710")
    ensures CheckDigit("7992739871") == '3'
  {
    SumOf7992739871();
    AppendChar("7992739871", '3', false);
    assert "7992739871" + ['3'] == "79927398713";
    AppendChar("7992739871", '0', false);
    assert "7992739871" + ['0'] == "79927398710";
    CheckDigitUnique("7992739871", '3');
  }

  // ---- Decimal rendering and str_pad, for the twelve-digit account number ----

  function Pow10(k: nat): (p: nat)
    ensures p >= 1
  {
    if k == 0 then 1 else 10 * Pow10(k - 1)
  }

  /** PHP's conversion of a non-negative integer to its decimal string. */
  function DecimalString(n: nat): string
    decreases n
  {
    if n < 10 then [DigitChar(n)] else DecimalString(n / 10) + [DigitChar(n % 10)]
  }

  /** The integer a digit string denotes (how the bigInteger column reads it). */
  function DecimalValue(s: string): nat
    decreases |s|
  {
    if s == [] then 0 else 10 * DecimalValue(s[..|s| - 1]) + DigitValue(s[|s| - 1])
  }

  lemma {:induction false} DecimalStringFacts(n: nat, k: nat)
    requires 1 <= k && n < Pow10(k)
    ensures AllDigits(DecimalString(n))
    ensures 1 <= |DecimalString(n)| <= k
    ensures DecimalValue(DecimalString(n)) == n
    decreases n
  {
    if n >= 10 {
      DecimalStringFacts(n / 10, k - 1);
      var w := DecimalString(n / 10);
      assert (w + [DigitChar(n % 10)])[..|w|] == w;
    }
  }

  lemma {:induction false} DecimalValueLeadingZeros(k: nat, s: string)
    ensures DecimalValue(Zeros(k) + s) == DecimalValue(s)
    decreases |s|
  {
    if s == [] {
      assert Zeros(k) + s == Zeros(k);
      ZerosValue(k);
    } else {
      var w := s[..|s| - 1];
      assert (Zeros(k) + s)[..|Zeros(k) + s| - 1] == Zeros(k) + w;
      DecimalValueLeadingZeros(k, w);
    }
  }

  lemma {:induction false} ZerosValue(k: nat)
    ensures DecimalValue(Zeros(k)) == 0
    decreases k
  {
    if k > 0 {
      assert Zeros(k)[..k - 1] == Zeros(k - 1);
      ZerosValue(k - 1);
    }
  }

  /** str_pad(s, width, '0', STR_PAD_LEFT): left-pad with zeros, never truncate. */
  function PadLeft(s: string, width: nat): string
  {
    if |s| >= width then s else Zeros(width - |s|) + s
  }

  /**
   * One draw of the generator: str_pad(mt_rand(0, 999999999999), 12, '0', STR_PAD_LEFT).
   * The result is twelve digits and denotes the drawn integer, and its checksum is
   * the checksum of the unpadded decimal.
   */
  function PaddedDraw(n: nat): (s: string)
    requires n <= MaxDraw
    ensures |s| == AccountNumberLength && AllDigits(s)
    ensures DecimalValue(s) == n
    ensures LuhnValid(s) <==> LuhnValid(DecimalString(n))
  {
    assert Pow10(12) == 1_000_000_000_000;
    DecimalStringFacts(n, 12);
    var d := DecimalString(n);
    DecimalValueLeadingZeros(12 - |d|, d);
    LeadingZeros(12 - |d|, d);
    PadLeft(d, 12)
  }

  /** The padded form of the first draw that passes the checksum, if any does. */
  function FirstValidDraw(draws: seq<nat>): (r: Option<string>)
    requires forall k :: 0 <= k < |draws| ==> draws[k] <= MaxDraw
    decreases |draws|
  {
    if draws == [] then None
    else if LuhnValid(PaddedDraw(draws[0])) then Some(PaddedDraw(draws[0]))
    else FirstValidDraw(draws[1..])
  }

  /**
   * generateLuhnAccountNumber, with mt_rand's results supplied as `draws`. The
   * source retries without bound; here it gives up (None) once the draws run out.
   */
  method GenerateAccountNumber(draws: seq<nat>) returns (r: Option<string>)
    requires forall k :: 0 <= k < |draws| ==> draws[k] <= MaxDraw
    ensures r.Some? ==> |r.value| == AccountNumberLength && AllDigits(r.value) && LuhnValid(r.value)
    ensures r.Some? ==> exists k :: 0 <= k < |draws| && r.value == PaddedDraw(draws[k])
                          && forall j :: 0 <= j < k ==> !LuhnValid(PaddedDraw(draws[j]))
    ensures r.None? <==> forall k :: 0 <= k < |draws| ==> !LuhnValid(PaddedDraw(draws[k]))
    ensures r == FirstValidDraw(draws)
  {
    var i := 0;
    while i < |draws|
      invariant 0 <= i <= |draws|
      invariant forall j :: 0 <= j < i ==> !LuhnValid(PaddedDraw(draws[j]))
      invariant FirstValidDraw(draws[i..]) == FirstValidDraw(draws)
    {
      assert draws[i..][1..] == draws[i + 1..];
      var number := PaddedDraw(draws[i]);
      var ok := LuhnCheck(number);
      if ok {
        return Some(number);
      }
      i := i + 1;
    }
    return None;
  }
}
