/**
 * Python's fixed-point formatting `f"{score:.4f}"` of a ranking score: the sign of the
 * value, the decimal integer part, a point and exactly four decimals, the value being
 * rounded to the nearest multiple of 1/10000 with ties going to the even neighbour.
 * Scores are modelled as exact reals (a Python float denotes one exact binary value,
 * which is what Python rounds).
 */
module ScoreFormat {

  predicate IsDigit(c: char)
  {
    '0' <= c <= '9'
  }

  predicate AllDigits(s: string)
  {
    forall k :: 0 <= k < |s| ==> IsDigit(s[k])
  }

  function DigitChar(d: nat): (c: char)
    requires d < 10
    ensures IsDigit(c) && c as int - '0' as int == d
  {
    (d + '0' as int) as char
  }

  function DigitValue(c: char): nat
    requires IsDigit(c)
  {
    c as int - '0' as int
  }

  /** Python's `str(n)` for a natural number: its decimal digits, without leading zeros. */
  function NatToDecimal(n: nat): (r: string)
    ensures r != [] && AllDigits(r)
    ensures r[0] == '0' ==> r == "0"
    decreases n
  {
    if n < 10 then [DigitChar(n)] else NatToDecimal(n / 10) + [DigitChar(n % 10)]
  }

  /** The number that a string of decimal digits denotes. */
  function DecimalValue(s: string): nat
    requires AllDigits(s)
  {
    if s == [] then 0 else DecimalValue(s[..|s| - 1]) * 10 + DigitValue(s[|s| - 1])
  }

  /** Reading the digits back gives the number. */
  lemma {:induction false} DecimalRoundTrip(n: nat)
    ensures DecimalValue(NatToDecimal(n)) == n
    decreases n
  {
    var r := NatToDecimal(n);
    if n >= 10 {
      DecimalRoundTrip(n / 10);
      assert r[..|r| - 1] == NatToDecimal(n / 10);
    }
  }

  /** The four decimals of `n / 10000`, leading zeros kept. */
  function FourDigits(n: nat): (r: string)
    requires n < 10000
    ensures |r| == 4 && AllDigits(r) && DecimalValue(r) == n
  {
    var r := [DigitChar(n / 1000), DigitChar(n / 100 % 10), DigitChar(n / 10 % 10), DigitChar(n % 10)];
    assert r[..1][..0] == [];
    assert DecimalValue(r[..1]) == n / 1000;
    assert r[..2][..1] == r[..1];
    assert DecimalValue(r[..2]) == n / 100;
    assert r[..3][..2] == r[..2];
    assert DecimalValue(r[..3]) == n / 10;
    assert r[..4][..3] == r[..3] && r[..4] == r;
    r
  }

  /** The integer nearest to `y`, ties to the even one (Python's rounding of halfway cases). */
  function RoundHalfEven(y: real): (n: nat)
    requires y >= 0.0
    ensures -0.5 <= n as real - y <= 0.5
    ensures (n as real - y == 0.5 || n as real - y == -0.5) ==> n % 2 == 0
  {
    var f := y.Floor;
    var d := y - f as real;
    if d < 0.5 then f
    else if d > 0.5 then f + 1
    else if f % 2 == 0 then f
    else f + 1
  }

  function Magnitude(x: real): (m: real)
    ensures m >= 0.0 && (m == x || m == -x)
  {
    if x < 0.0 then -x else x
  }

  /** `m / 10000` written with exactly four decimals. */
  function Fixed4(m: nat): string
  {
    NatToDecimal(m / 10000) + "." + FourDigits(m % 10000)
  }

  /** Digits, a point, and four digits. */
  predicate IsFixed4(b: string)
  {
    |b| >= 6 && b[|b| - 5] == '.' && AllDigits(b[..|b| - 5]) && AllDigits(b[|b| - 4..])
  }

  /** The value of such a text, in units of 1/10000. */
  function Fixed4Value(b: string): nat
    requires IsFixed4(b)
  {
    DecimalValue(b[..|b| - 5]) * 10000 + DecimalValue(b[|b| - 4..])
  }

  /** `Fixed4` prints `m / 10000` exactly. */
  lemma Fixed4RoundTrip(m: nat)
    ensures IsFixed4(Fixed4(m)) && Fixed4Value(Fixed4(m)) == m
  {
    var ip := NatToDecimal(m / 10000);
    var fp := FourDigits(m % 10000);
    var b := Fixed4(m);
    assert b[..|b| - 5] == ip;
    assert b[|b| - 4..] == fp;
    DecimalRoundTrip(m / 10000);
  }

  /** `f"{x:.4f}"`. */
  function FormatScore(x: real): string
  {
    (if x < 0.0 then "-" else "") + Fixed4(RoundHalfEven(Magnitude(x) * 10000.0))
  }

  /** What `FormatScore` prints: a minus sign exactly for negative scores, then integer
      digits without a leading zero (a lone `0` aside), a point and four decimals whose
      value is within half a unit of the last place of the magnitude of the score, ties
      having gone to an even last digit. */
  lemma FormatScoreShape(x: real)
    ensures var s := FormatScore(x);
      var body := if x < 0.0 then s[1..] else s;
      (x < 0.0 <==> s[0] == '-')
      && IsFixed4(body)
      && (body[0] == '0' ==> body[1] == '.')
      && -0.5 <= Fixed4Value(body) as real - Magnitude(x) * 10000.0 <= 0.5
      && ((Fixed4Value(body) as real - Magnitude(x) * 10000.0 == 0.5
           || Fixed4Value(body) as real - Magnitude(x) * 10000.0 == -0.5) ==> Fixed4Value(body) % 2 == 0)
  {
    var n := RoundHalfEven(Magnitude(x) * 10000.0);
    Fixed4RoundTrip(n);
    var s := FormatScore(x);
    assert (if x < 0.0 then s[1..] else s) == Fixed4(n);
    assert Fixed4(n)[0] != '-';
  }

  /** A formatted score is one line: it holds only digits, '.' and '-'. */
  lemma FormatScoreChars(x: real, c: char)
    requires !IsDigit(c) && c != '.' && c != '-'
    ensures c !in FormatScore(x)
  {
  }

}
