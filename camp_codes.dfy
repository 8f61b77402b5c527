/**
 * Camp codes: the label `CAMP<year>-<n>` that server.js gives a new camp,
 * with `n` a random number between 1000 and 9999, and a parser that reads
 * the year and the number back out of a code.
 */
module CampCodes {
  import opened Optional

  /** The values of `Math.floor(1000 + Math.random() * 9000)`: `Math.random()`
      lies in [0, 1), so the floor lies in [1000, 9999]. */
  type FourDigit = n: int | 1000 <= n <= 9999 witness 1000

  predicate IsDigit(c: char) {
    '0' <= c <= '9'
  }

  predicate AllDigits(s: string) {
    forall i :: 0 <= i < |s| ==> IsDigit(s[i])
  }

  function DigitValue(c: char): int
    requires IsDigit(c)
  {
    c as int - '0' as int
  }

  function DigitChar(d: int): (c: char)
    requires 0 <= d < 10
    ensures IsDigit(c) && DigitValue(c) == d
  {
    ('0' as int + d) as char
  }

  /** The number a string of decimal digits denotes. */
  function DigitsValue(s: string): nat
    requires AllDigits(s)
  {
    if s == [] then 0 else DigitsValue(s[..|s| - 1]) * 10 + DigitValue(s[|s| - 1])
  }

  /** The decimal numeral JavaScript writes for a non-negative integer: a
      non-empty string of digits that denotes `n`. */
  function NatToString(n: nat): (s: string)
    ensures s != [] && AllDigits(s)
    ensures DigitsValue(s) == n
  {
    if n < 10 then [DigitChar(n)]
    else
      var s := NatToString(n / 10) + [DigitChar(n % 10)];
      assert s[..|s| - 1] == NatToString(n / 10);
      s
  }

  /** The decimal numeral JavaScript writes for an integer (a template literal `${i}`). */
  function IntToString(i: int): (s: string)
    ensures s != [] && (s[0] == '-' <==> i < 0)
    ensures i >= 0 ==> AllDigits(s) && DigitsValue(s) == i
    ensures i < 0 ==> s[1..] != [] && AllDigits(s[1..]) && DigitsValue(s[1..]) == -i
  {
    if i < 0 then
      var s := "-" + NatToString(-i);
      assert s[1..] == NatToString(-i);
      s
    else NatToString(i)
  }

  /** A number between 1000 and 9999 is written with exactly four digits. */
  lemma FourDigitNumeral(n: int)
    requires 1000 <= n <= 9999
    ensures |NatToString(n)| == 4
  {
    assert 100 <= n / 10 < 1000 && 10 <= n / 10 / 10 < 100 && 1 <= n / 10 / 10 / 10 < 10;
    assert |NatToString(n / 10 / 10 / 10)| == 1;
    assert |NatToString(n / 10 / 10)| == 2;
    assert |NatToString(n / 10)| == 3;
  }

  /** The code of a camp created in `year` with random suffix `n`
      (server.js builds it with the template `CAMP${year}-${randomCode}`).
      Whatever the year, the code starts with "CAMP" and ends with a dash and
      the four digits of `n`. */
  function CampCode(year: int, n: FourDigit): (code: string)
    ensures |code| >= 10 && code[..4] == "CAMP"
    ensures code[|code| - 5] == '-'
    ensures AllDigits(code[|code| - 4..]) && DigitsValue(code[|code| - 4..]) == n
  {
    FourDigitNumeral(n);
    var code := "CAMP" + IntToString(year) + "-" + NatToString(n);
    assert code[|code| - 4..] == NatToString(n);
    code
  }

  /** The shape of a camp code whose year has four digits: `CAMPdddd-dddd`. */
  predicate MatchesCampPattern(s: string) {
    && |s| == 13
    && s[..4] == "CAMP"
    && AllDigits(s[4..8])
    && s[8] == '-'
    && AllDigits(s[9..])
  }

  lemma FourDigitYearCodeMatchesPattern(year: int, n: FourDigit)
    requires 1000 <= year <= 9999
    ensures MatchesCampPattern(CampCode(year, n))
  {
    FourDigitNumeral(year);
    FourDigitNumeral(n);
    var code := CampCode(year, n);
    assert code[4..8] == NatToString(year);
    assert code[9..] == NatToString(n);
  }

  /** The index of the last '-' in `s`, or -1 when there is none. */
  function LastDash(s: string): (k: int)
    ensures -1 <= k < |s|
    ensures 0 <= k ==> s[k] == '-'
    ensures forall i :: k < i < |s| ==> s[i] != '-'
    ensures k == -1 ==> '-' !in s
  {
    if s == [] then -1
    else if s[|s| - 1] == '-' then |s| - 1
    else LastDash(s[..|s| - 1])
  }

  lemma {:induction false} LastDashBeforeDigits(a: string, b: string)
    requires AllDigits(b)
    ensures LastDash(a + "-" + b) == |a|
    decreases |b|
  {
    var s := a + "-" + b;
    if b != [] {
      assert s[..|s| - 1] == a + "-" + b[..|b| - 1];
      LastDashBeforeDigits(a, b[..|b| - 1]);
    }
  }

  function ParseNat(s: string): Option<int> {
    if s != [] && AllDigits(s) then Some(DigitsValue(s)) else None
  }

  function ParseInt(s: string): Option<int> {
    if s != [] && s[0] == '-' then
      match ParseNat(s[1..])
      case None => None
      case Some(v) => Some(-v)
    else ParseNat(s)
  }

  lemma ParseIntRoundTrip(i: int)
    ensures ParseInt(IntToString(i)) == Some(i)
  {
  }

  /** Reads the year and the suffix back out of a camp code. */
  function ParseCampCode(code: string): Option<(int, int)> {
    if |code| < 4 || code[..4] != "CAMP" then None
    else
      var rest := code[4..];
      var k := LastDash(rest);
      if k < 0 then None
      else
        var year := ParseInt(rest[..k]);
        var n := ParseNat(rest[k + 1..]);
        if year.Some? && n.Some? then Some((year.value, n.value)) else None
  }

  /** Every camp code can be read back: it determines the year and the suffix. */
  lemma ParseCampCodeRoundTrip(year: int, n: FourDigit)
    ensures ParseCampCode(CampCode(year, n)) == Some((year, n))
  {
    var y, d := IntToString(year), NatToString(n);
    var code := CampCode(year, n);
    assert code == "CAMP" + y + "-" + d;
    var rest := code[4..];
    assert rest == y + "-" + d;
    LastDashBeforeDigits(y, d);
    assert rest[..|y|] == y && rest[|y| + 1..] == d;
    ParseIntRoundTrip(year);
  }

  /** Two camps get the same code exactly when they were created in the same
      year and drew the same suffix; nothing else in the code tells them apart. */
  lemma CampCodeInjective(y1: int, n1: FourDigit, y2: int, n2: FourDigit)
    ensures CampCode(y1, n1) == CampCode(y2, n2) <==> y1 == y2 && n1 == n2
  {
    ParseCampCodeRoundTrip(y1, n1);
    ParseCampCodeRoundTrip(y2, n2);
  }
}
