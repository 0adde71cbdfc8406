/** Shared vocabulary of the flash-claim backend: optional values, the response codes
    the services raise, row statuses, and the clock types (times of day in minutes,
    calendar dates, instants in epoch seconds). */
module Common {

  datatype Option<T> = None | Some(value: T)

  /** The subset of the backend's response codes that the modelled operations raise.
      CourtCountUpdateWindowClosed is raised by the configuration update although the
      enumeration of codes in this revision does not declare it. */
  datatype Code =
    | ParamError
    | TooManyRequests
    | Ungated
    | DupReq
    | OutOfStock
    | Failed
    | TimeUndevided
    | TokenInvalid
    | TokenExpired
    | Forbidden
    | CourtCountUpdateWindowClosed
    | Unexpected  // an exception the services do not map to a response code

  /** The outcome of an operation: a value, or the response code it was rejected with. */
  datatype Result<T> = Ok(value: T) | Err(code: Code)

  datatype ReservationStatus = PendingPayment | Confirmed | Cancelled

  datatype PayOrderStatus = Paying | Success | Failed | Closed | Refunded

  const MinInt32: int := -0x8000_0000
  const MaxInt32: int := 0x7fff_ffff

  /** Java's Integer range: every id the backend handles is a boxed Integer. */
  predicate InInt32(x: int) {
    MinInt32 <= x <= MaxInt32
  }

  const MinutesPerDay: int := 1440

  /** A LocalTime, at minute precision: minutes since midnight. */
  type TimeOfDay = t: int | 0 <= t < MinutesPerDay

  /** LocalTime.plusMinutes: arithmetic modulo one day, for either sign of n. */
  function PlusMinutes(t: TimeOfDay, n: int): (r: TimeOfDay)
    ensures (r - t - n) % MinutesPerDay == 0
  {
    (t + n) % MinutesPerDay
  }

  /** LocalTime.minusMinutes. */
  function MinusMinutes(t: TimeOfDay, n: int): (r: TimeOfDay)
    ensures (t - r - n) % MinutesPerDay == 0
  {
    PlusMinutes(t, -n)
  }

  const SecondsPerDay: int := 86400

  /** A clock reading of LocalTime.now: seconds since midnight. */
  type SecondOfDay = s: int | 0 <= s < SecondsPerDay

  /** The clock reading truncated to its minute (seconds dropped). */
  function TruncateToMinute(now: SecondOfDay): (m: TimeOfDay)
    ensures m * 60 <= now < m * 60 + 60
  {
    now / 60
  }

  /** LocalTime.isBefore between a clock reading and a minute-precision time. */
  predicate ClockBefore(now: SecondOfDay, t: TimeOfDay) {
    now < t * 60
  }

  /** A LocalDate whose ISO form has a four-digit year. */
  datatype Date = Date(year: int, month: int, day: int)

  predicate ValidDate(d: Date) {
    0 <= d.year <= 9999 && 1 <= d.month <= 12 && 1 <= d.day <= 31
  }

  /** LocalDate.isBefore: chronological order of valid dates. */
  predicate DateBefore(a: Date, b: Date) {
    a.year < b.year
    || (a.year == b.year && a.month < b.month)
    || (a.year == b.year && a.month == b.month && a.day < b.day)
  }

  /** A LocalDateTime: seconds since the epoch in the configured zone. */
  type Instant = int

  /** LocalDateTime.plusMinutes on instants. */
  function PlusMinutesAt(t: Instant, n: int): Instant {
    t + 60 * n
  }

  /** Character.isWhitespace: the Unicode space, line and paragraph separators other than
      the non-breaking spaces, and the ASCII controls HT, LF, VT, FF, CR and FS to US. */
  predicate JavaWhitespace(c: char) {
    || c == ' ' || c == '\U{1680}' || ('\U{2000}' <= c <= '\U{200A}' && c != '\U{2007}')
    || c == '\U{205F}' || c == '\U{3000}' || c == '\U{2028}' || c == '\U{2029}'
    || ('\U{9}' <= c <= '\U{D}') || ('\U{1C}' <= c <= '\U{1F}')
  }

  /** String.isBlank: empty or whitespace only. */
  predicate IsBlank(s: string) {
    forall i :: 0 <= i < |s| ==> JavaWhitespace(s[i])
  }
}
