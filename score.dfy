/**
 * The score label of the game scene: the carrot counter rendered in decimal,
 * as a template literal renders a non-negative integer, behind the fixed
 * prefix "Carrots: ".
 */
module Score {

  const Prefix: string := "Carrots: "

  predicate IsDigit(c: char) {
    '0' <= c <= '9'
  }

  /** A decimal numeral as an integer renders it: digits only, no leading zero. */
  predicate IsCanonical(s: string) {
    |s| >= 1 &&
    (forall i :: 0 <= i < |s| ==> IsDigit(s[i])) &&
    (|s| > 1 ==> s[0] != '0')
  }

  function DigitChar(d: nat): (c: char)
    requires d < 10
    ensures IsDigit(c) && c as int - '0' as int == d
  {
    ('0' as int + d) as char
  }

  function DigitValue(c: char): (d: nat)
    requires IsDigit(c)
    ensures d < 10 && DigitChar(d) == c
  {
    c as int - '0' as int
  }

  /** The decimal rendering of `n`, most significant digit first. */
  function Decimal(n: nat): (s: string)
    ensures IsCanonical(s)
    ensures n < 10 <==> |s| == 1
  {
    if n < 10 then [DigitChar(n)] else Decimal(n / 10) + [DigitChar(n % 10)]
  }

  /** Reads a string of digits back as a number (the inverse of Decimal). */
  function ParseDecimal(s: string): nat
    requires forall i :: 0 <= i < |s| ==> IsDigit(s[i])
  {
    if s == [] then 0 else 10 * ParseDecimal(s[..|s| - 1]) + DigitValue(s[|s| - 1])
  }

  /** The text of the score label for a counter value. */
  function Label(carrots: nat): (t: string)
    ensures |t| > |Prefix| && t[..|Prefix|] == Prefix
    ensures IsCanonical(t[|Prefix|..])
  {
    Prefix + Decimal(carrots)
  }

  lemma {:induction false} DecimalRoundTrip(n: nat)
    ensures ParseDecimal(Decimal(n)) == n
  {
    if n >= 10 {
      var s := Decimal(n);
      assert s[..|s| - 1] == Decimal(n / 10);
      DecimalRoundTrip(n / 10);
    }
  }

  lemma {:induction false} ParsePositive(s: string)
    requires IsCanonical(s) && s[0] != '0'
    ensures ParseDecimal(s) >= 1
  {
    if |s| > 1 {
      ParsePositive(s[..|s| - 1]);
    }
  }

  lemma {:induction false} CanonicalRoundTrip(s: string)
    requires IsCanonical(s)
    ensures Decimal(ParseDecimal(s)) == s
  {
    if |s| > 1 {
      var init := s[..|s| - 1];
      assert IsCanonical(init);
      ParsePositive(init);
      CanonicalRoundTrip(init);
      assert s == init + [s[|s| - 1]];
    }
  }

  /** The label shows the counter faithfully: two counters share a label only when equal. */
  lemma LabelInjective(a: nat, b: nat)
    requires Label(a) == Label(b)
    ensures a == b
  {
    assert Decimal(a) == Label(a)[|Prefix|..];
    assert Decimal(b) == Label(b)[|Prefix|..];
    DecimalRoundTrip(a);
    DecimalRoundTrip(b);
  }

  /** The label text the scene writes when it is created is the label of a zero counter. */
  lemma InitialLabel()
    ensures Label(0) == "Carrots: 0"
    ensures forall n: nat :: Label(n) == "Carrots: 0" ==> n == 0
  {
    forall n: nat | Label(n) == "Carrots: 0"
      ensures n == 0
    {
      LabelInjective(n, 0);
    }
  }
}
