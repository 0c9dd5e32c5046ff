/** Go's time.Duration as a count of nanoseconds, with the integer
    arithmetic the countdown display relies on. */
module Durations {

  /** A time.Duration, or an instant on the monotonic clock: nanoseconds. */
  type Duration = int

  const SECOND: Duration := 1_000_000_000
  const MINUTE: Duration := 60 * SECOND
  const HALF_SECOND: Duration := SECOND / 2

  /** Go's `a / b` on integers: the quotient truncated toward zero. */
  function Quot(a: int, b: int): (q: int)
    requires b > 0
    ensures 0 <= a ==> q * b <= a < q * b + b
    ensures a < 0 ==> q * b - b < a <= q * b
  {
    if a >= 0 then a / b else -((-a) / b)
  }

  /** Go's `a % b` on integers: the remainder takes the sign of `a`. */
  function Rem(a: int, b: int): (r: int)
    requires b > 0
    ensures Quot(a, b) * b + r == a
    ensures 0 <= a ==> 0 <= r < b
    ensures a < 0 ==> -b < r <= 0
  {
    if a >= 0 then a % b else -((-a) % b)
  }

  /** `int(math.Round(d.Seconds()))`: whole seconds nearest to `d`, halves
      rounded away from zero. */
  function RoundSeconds(d: Duration): (s: int)
    ensures 0 <= d ==> s * SECOND - HALF_SECOND <= d < s * SECOND + HALF_SECOND
    ensures d < 0 ==> s * SECOND - HALF_SECOND < d <= s * SECOND + HALF_SECOND
  {
    if d >= 0 then (d + HALF_SECOND) / SECOND else -((-d + HALF_SECOND) / SECOND)
  }

  /** `time.Duration(seconds)` for a float64 count of seconds: the whole
      seconds of `d`, truncated toward zero. */
  function TruncSeconds(d: Duration): (s: int)
    ensures 0 <= d ==> 0 <= s * SECOND <= d < s * SECOND + SECOND
    ensures d < 0 ==> s * SECOND - SECOND < d <= s * SECOND <= 0
  {
    Quot(d, SECOND)
  }

  /** Rounding is determined by its bounds: any whole count of seconds
      within half a second of `d` (ties away from zero) is RoundSeconds(d). */
  lemma RoundSecondsUnique(d: Duration, s: int)
    requires 0 <= d ==> s * SECOND - HALF_SECOND <= d < s * SECOND + HALF_SECOND
    requires d < 0 ==> s * SECOND - HALF_SECOND < d <= s * SECOND + HALF_SECOND
    ensures s == RoundSeconds(d)
  {
    var r := RoundSeconds(d);
    assert (s - r) * SECOND < SECOND && (r - s) * SECOND < SECOND;
  }

  /** A rounded remainder is at most zero exactly when less than half a
      second is left. */
  lemma RoundSecondsNonPositive(d: Duration)
    ensures RoundSeconds(d) <= 0 <==> d < HALF_SECOND
    ensures -HALF_SECOND < d < HALF_SECOND <==> RoundSeconds(d) == 0
  {
    var s := RoundSeconds(d);
    assert s >= 1 ==> s * SECOND >= SECOND;
    assert s <= -1 ==> s * SECOND <= -SECOND;
  }

  /** The two boundary cases of the display: 30.5s shows as 31, 30.49s as 30. */
  lemma RoundSecondsExamples()
    ensures RoundSeconds(30_500_000_000) == 31
    ensures RoundSeconds(30_490_000_000) == 30
    ensures RoundSeconds(-500_000_000) == -1
  {
  }
}
