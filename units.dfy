/**
 * Unit conversions and time arithmetic of the station web service.
 * Conversions are over `real`: the model states the exact arithmetic, not IEEE rounding.
 * Timestamps are integer milliseconds since the Unix epoch.
 */
module Units {

  /** Knots to miles per hour, as the service's constant (a rounded figure). */
  const KNOTS_TO_MPH: real := 1.152
  /** Metres to feet. */
  const METER_TO_FT: real := 3.28084

  const MS_PER_SECOND: int := 1000
  const MS_PER_MINUTE: int := 60000

  /** Celsius to Fahrenheit, `value * 9 / 5 + 32`; the inverse conversion gives the input back. */
  function CtoF(c: real): (f: real)
    ensures (f - 32.0) * 5.0 / 9.0 == c
  {
    c * 9.0 / 5.0 + 32.0
  }

  lemma CtoFFixedPoints()
    ensures CtoF(0.0) == 32.0 && CtoF(100.0) == 212.0 && CtoF(-40.0) == -40.0
  {
  }

  /** The conversion is strictly increasing, hence injective. */
  lemma CtoFMonotone(a: real, b: real)
    ensures a < b <==> CtoF(a) < CtoF(b)
  {
  }

  /** Wind speed in knots to miles per hour. */
  function KnotsToMph(k: real): (m: real)
    ensures m / KNOTS_TO_MPH == k
  {
    k * KNOTS_TO_MPH
  }

  /** Wave height in metres to feet. */
  function MetersToFeet(x: real): (ft: real)
    ensures ft / METER_TO_FT == x
  {
    x * METER_TO_FT
  }

  /** Both multiplicative conversions are linear: zero maps to zero, sums and scalings are kept. */
  lemma ConversionsLinear(x: real, y: real, a: real)
    ensures KnotsToMph(0.0) == 0.0 && MetersToFeet(0.0) == 0.0
    ensures KnotsToMph(x + y) == KnotsToMph(x) + KnotsToMph(y)
    ensures MetersToFeet(x + y) == MetersToFeet(x) + MetersToFeet(y)
    ensures KnotsToMph(a * x) == a * KnotsToMph(x)
    ensures MetersToFeet(a * x) == a * MetersToFeet(x)
  {
  }

  /**
   * `Math.round(ms / 1000)`: the Unix time in whole seconds nearest to `nowMs`, halves rounded up.
   * Dafny's `/` by a positive divisor is floor division, so `(ms + 500) / 1000` is `floor(ms/1000 + 0.5)`.
   */
  function GetTimeStamp(nowMs: int): (s: int)
    ensures s * MS_PER_SECOND - 500 <= nowMs < s * MS_PER_SECOND + 500
  {
    (nowMs + 500) / MS_PER_SECOND
  }

  /** The Unix time in whole seconds of a millisecond instant, rounded down (`moment(t).unix()`). */
  function UnixSeconds(ms: int): (s: int)
    ensures s * MS_PER_SECOND <= ms < s * MS_PER_SECOND + MS_PER_SECOND
  {
    ms / MS_PER_SECOND
  }

  /** The instant with its seconds and milliseconds set to zero: the start of its minute. */
  function TruncateToMinute(ms: int): (m: int)
    ensures m % MS_PER_MINUTE == 0
    ensures m <= ms < m + MS_PER_MINUTE
  {
    ms - ms % MS_PER_MINUTE
  }

  /** Truncating twice is truncating once, and truncation keeps the order of instants. */
  lemma TruncateToMinuteProperties(a: int, b: int)
    ensures TruncateToMinute(TruncateToMinute(a)) == TruncateToMinute(a)
    ensures a <= b ==> TruncateToMinute(a) <= TruncateToMinute(b)
  {
  }
}
