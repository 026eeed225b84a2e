/**
 * Time arithmetic and the MM:SS display of the timer.
 * Time is measured in integer nanoseconds, as Go's time.Duration is.
 */
module Clock {
  import opened Optional

  const NanosPerSecond: int := 1_000_000_000
  const SecondsPerMinute: int := 60
  const NanosPerMinute: int := SecondsPerMinute * NanosPerSecond

  /** `time.Duration(m) * time.Minute`, with unbounded arithmetic (see Findings for the 64-bit form). */
  function MinutesToNanos(m: int): (d: int)
    ensures m > 0 ==> d >= m * SecondsPerMinute * NanosPerSecond > 0
    ensures d / NanosPerSecond == m * SecondsPerMinute
  {
    m * NanosPerMinute
  }

  /** `int(d.Seconds())` for a positive duration: the whole seconds left, truncated. */
  function WholeSeconds(d: int): (s: nat)
    requires d > 0
    ensures s * NanosPerSecond <= d < (s + 1) * NanosPerSecond
  {
    d / NanosPerSecond
  }

  /** Fewer nanoseconds left never shows more whole seconds. */
  lemma WholeSecondsMonotone(d1: int, d2: int)
    requires 0 < d2 <= d1
    ensures WholeSeconds(d2) <= WholeSeconds(d1)
  {
  }

  /** A count of seconds shown as minutes and seconds. */
  datatype MinSec = MinSec(minutes: nat, seconds: nat)

  /** `remaining / 60` and `remaining % 60`. */
  function Split(r: nat): (t: MinSec)
    ensures t.seconds < SecondsPerMinute
    ensures t.minutes * SecondsPerMinute + t.seconds == r
  {
    MinSec(r / SecondsPerMinute, r % SecondsPerMinute)
  }

  /** The split is the only minutes/seconds pair with seconds below 60 that adds up to r. */
  lemma SplitUnique(r: nat, t: MinSec)
    requires t.seconds < SecondsPerMinute
    requires t.minutes * SecondsPerMinute + t.seconds == r
    ensures t == Split(r)
  {
  }

  predicate IsDigit(c: char) {
    '0' <= c <= '9'
  }

  predicate AllDigits(s: string) {
    forall k :: 0 <= k < |s| ==> IsDigit(s[k])
  }

  function DigitChar(d: nat): (c: char)
    requires d < 10
    ensures IsDigit(c) && c as int - '0' as int == d
  {
    ('0' as int + d) as char
  }

  /** The decimal numeral of n, without leading zeros (Go's `%d`). */
  function Decimal(n: nat): (s: string)
    ensures AllDigits(s)
    ensures |s| == 1 <==> n < 10
    ensures 1 <= |s| && (n < 100 ==> |s| <= 2)
    ensures n > 0 ==> s[0] != '0'
    decreases n
  {
    if n < 10 then [DigitChar(n)] else Decimal(n / 10) + [DigitChar(n % 10)]
  }

  /** The number a string of decimal digits denotes. */
  function ValueOf(s: string): nat
    requires AllDigits(s)
  {
    if s == [] then 0 else ValueOf(s[..|s| - 1]) * 10 + (s[|s| - 1] as int - '0' as int)
  }

  lemma {:induction false} ValueOfDecimal(n: nat)
    ensures ValueOf(Decimal(n)) == n
    decreases n
  {
    if n >= 10 {
      var s := Decimal(n);
      assert s[..|s| - 1] == Decimal(n / 10);
      ValueOfDecimal(n / 10);
    }
  }

  /** A leading zero does not change the value of a numeral. */
  lemma {:induction false} ValueOfLeadingZero(s: string)
    requires AllDigits(s)
    ensures AllDigits("0" + s) && ValueOf("0" + s) == ValueOf(s)
    decreases |s|
  {
    if s != [] {
      var z := "0" + s;
      assert z[..|z| - 1] == "0" + s[..|s| - 1];
      ValueOfLeadingZero(s[..|s| - 1]);
    }
  }

  /** Go's `%02d` for a non-negative number: at least two digits, zero padded. */
  function Pad2(n: nat): (s: string)
    ensures AllDigits(s) && ValueOf(s) == n
    ensures 2 <= |s| && (n < 100 ==> |s| == 2)
    ensures n >= 10 ==> s[0] != '0'
  {
    ValueOfDecimal(n);
    if n < 10 then
      ValueOfLeadingZero(Decimal(n));
      "0" + Decimal(n)
    else
      Decimal(n)
  }

  /** `fmt.Sprintf("%02d:%02d", minutes, seconds)`. */
  function Format(t: MinSec): string {
    Pad2(t.minutes) + ":" + Pad2(t.seconds)
  }

  /** The timer text for r seconds left. */
  function ClockText(r: nat): string {
    Format(Split(r))
  }

  /** Reads back a timer text: digits, a colon, and exactly two digits of seconds. */
  function ParseClock(s: string): Option<MinSec> {
    if |s| >= 4 && s[|s| - 3] == ':' && AllDigits(s[..|s| - 3]) && AllDigits(s[|s| - 2..]) then
      Some(MinSec(ValueOf(s[..|s| - 3]), ValueOf(s[|s| - 2..])))
    else
      None
  }

  /** Every displayed text reads back as the minutes and seconds it was made from. */
  lemma ClockTextRoundTrip(r: nat)
    ensures ParseClock(ClockText(r)) == Some(Split(r))
  {
    var t := Split(r);
    var mm, ss := Pad2(t.minutes), Pad2(t.seconds);
    var s := ClockText(r);
    assert s == mm + ":" + ss;
    assert |ss| == 2;
    assert s[..|s| - 3] == mm;
    assert s[|s| - 2..] == ss;
    assert s[|s| - 3] == ':';
  }

  /** Different whole seconds give different texts, so the text changes exactly when the second does. */
  lemma ClockTextInjective(a: nat, b: nat)
    ensures ClockText(a) == ClockText(b) <==> a == b
  {
    if ClockText(a) == ClockText(b) {
      ClockTextRoundTrip(a);
      ClockTextRoundTrip(b);
    }
  }

  /** `fmt.Sprintf("%02d:00", minutes)`, the text shown when the timer is reset. */
  function ResetText(minutes: nat): string {
    Pad2(minutes) + ":00"
  }

  /** The reset text is the timer text for the whole minutes, with zero seconds. */
  lemma ResetTextIsClockText(minutes: nat)
    ensures ResetText(minutes) == ClockText(minutes * SecondsPerMinute)
    ensures ParseClock(ResetText(minutes)) == Some(MinSec(minutes, 0))
  {
    var r := minutes * SecondsPerMinute;
    SplitUnique(r, MinSec(minutes, 0));
    ClockTextRoundTrip(r);
  }
}
