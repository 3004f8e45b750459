/** The browser's `Date` object as the frontend uses it. A device runs at a
    fixed UTC offset (no daylight-saving changes), so a `Date` is known by
    its local getters: the device-local date-time to the minute, and the
    milliseconds elapsed within that minute (seconds included). */
module JsDates {
  import opened Dates
  import opened Text
  import opened Rfc3339

  /** A `Date` object: a moment read through its local getters, or an
      Invalid Date (whose getters all return NaN). */
  datatype JsDate = Moment(local: DateTime, millis: int) | InvalidDate

  predicate ValidJs(d: JsDate) {
    d.Moment? ==> ValidDateTime(d.local) && 0 <= d.millis < 60000
  }

  /** The browser's surroundings: the device's UTC offset in minutes (east
      positive) and the clock reading that `new Date()` returns. */
  datatype Env = Env(offset: int, now: DateTime, nowMillis: int)

  predicate ValidEnv(env: Env) {
    ValidOffset(env.offset) && ValidDateTime(env.now) && 0 <= env.nowMillis < 60000
  }

  /** `new Date()`. */
  function Now(env: Env): (d: JsDate)
    requires ValidEnv(env)
    ensures d.Moment? && ValidJs(d)
  {
    Moment(env.now, env.nowMillis)
  }

  /** The instant a device-local date-time denotes. */
  function InstantOf(env: Env, t: DateTime, millis: int): (ts: Timestamp)
    requires ValidEnv(env) && ValidDateTime(t) && 0 <= millis < 60000
    ensures ValidTimestamp(ts)
  {
    Timestamp(ShiftMinutes(t, -env.offset), millis)
  }

  /** The `Date` for an instant, read on this device. */
  function AtInstant(env: Env, ts: Timestamp): (d: JsDate)
    requires ValidEnv(env) && ValidTimestamp(ts)
    ensures d.Moment? && ValidJs(d)
  {
    Moment(ShiftMinutes(ts.utc, env.offset), ts.millis)
  }

  lemma InstantRoundTrip(env: Env, t: DateTime, millis: int)
    requires ValidEnv(env) && ValidDateTime(t) && 0 <= millis < 60000
    ensures AtInstant(env, InstantOf(env, t, millis)) == Moment(t, millis)
  {
    ShiftInverse(t, -env.offset);
  }

  /** `new Date(s)` on the two forms the screens produce: the input form
      `YYYY-MM-DDTHH:MM` without an offset is device-local time (as
      ECMAScript reads a date-time form without an offset), and an RFC 3339
      timestamp with an offset is that instant. Every other text, including
      forms ECMAScript does accept (seconds without an offset, a date
      alone), is read here as an Invalid Date. */
  function ParseDate(env: Env, s: string): (d: JsDate)
    requires ValidEnv(env)
    ensures ValidJs(d)
  {
    match ParseInputForm(s)
    case Some(t) => Moment(t, 0)
    case None =>
      match ParseTimestamp(s)
      case Some(ts) => AtInstant(env, ts)
      case None => InvalidDate
  }

  lemma ParseDateInputForm(env: Env, t: DateTime)
    requires ValidEnv(env) && ValidDateTime(t) && 0 <= t.date.year < 10000
    ensures ParseDate(env, InputForm(t)) == Moment(t, 0)
  {
    InputFormRoundTrip(t);
  }

  /** The backend's text for an instant, whatever its offset, reads as that instant. */
  lemma ParseDateTimestamp(env: Env, ts: Timestamp, off: int)
    requires ValidEnv(env) && ValidTimestamp(ts) && ValidOffset(off)
    requires 0 <= ShiftMinutes(ts.utc, off).date.year < 10000
    ensures ParseDate(env, TimestampText(ts, off)) == AtInstant(env, ts)
  {
    TimestampRoundTrip(ts, off);
    assert |TimestampText(ts, off)| >= 20;
  }

  lemma ParseDateEmpty(env: Env)
    requires ValidEnv(env)
    ensures ParseDate(env, "") == InvalidDate
  {
  }

  /** `d.toISOString()`: `None` where it throws a RangeError (an Invalid Date). */
  function ToIsoString(env: Env, d: JsDate): (r: Option<string>)
    requires ValidEnv(env) && ValidJs(d)
    ensures r.None? <==> d.InvalidDate?
  {
    match d
    case InvalidDate => None
    case Moment(t, ms) => Some(IsoString(InstantOf(env, t, ms)))
  }

  /** `new Date(d.toISOString())` is `d` again. */
  lemma IsoReadBack(env: Env, d: JsDate)
    requires ValidEnv(env) && ValidJs(d) && d.Moment?
    requires 0 <= InstantOf(env, d.local, d.millis).utc.date.year < 10000
    ensures ParseDate(env, ToIsoString(env, d).value) == d
  {
    var ts := InstantOf(env, d.local, d.millis);
    IsoStringRoundTrip(ts);
    assert |IsoString(ts)| > 16;
    InstantRoundTrip(env, d.local, d.millis);
  }

  /** `d.setDate(n)`: day `n` of `d`'s month, rolling into neighbouring
      months when `n` is outside it; the time of day is kept. */
  function SetDate(d: JsDate, n: int): (r: JsDate)
    requires ValidJs(d)
    ensures ValidJs(r) && r.Moment? == d.Moment?
  {
    match d
    case InvalidDate => InvalidDate
    case Moment(t, ms) => Moment(DateTime(AddDays(Date(t.date.year, t.date.month, 1), n - 1), t.minute), ms)
  }

  /** Setting the day to `getDate() + k` moves the date by `k` days. */
  lemma SetDateRelative(t: DateTime, millis: int, k: int)
    requires ValidDateTime(t) && 0 <= millis < 60000
    ensures SetDate(Moment(t, millis), t.date.day + k) == Moment(DateTime(AddDays(t.date, k), t.minute), millis)
  {
    var first := Date(t.date.year, t.date.month, 1);
    AddDaysWithinMonth(t.date.year, t.date.month, t.date.day);
    AddDaysAdd(first, t.date.day - 1, k);
  }

  /** `d.setHours(h, m)`: keeps the seconds and milliseconds. */
  function SetHours(d: JsDate, h: int, m: int): (r: JsDate)
    requires ValidJs(d)
    ensures ValidJs(r) && r.Moment? == d.Moment?
  {
    match d
    case InvalidDate => InvalidDate
    case Moment(t, ms) => Moment(ShiftMinutes(DateTime(t.date, 0), 60 * h + m), ms)
  }

  /** `d.setHours(h, m, 0, 0)`: seconds and milliseconds zeroed. */
  function SetTime(d: JsDate, h: int, m: int): (r: JsDate)
    requires ValidJs(d)
    ensures ValidJs(r) && r.Moment? == d.Moment?
  {
    match d
    case InvalidDate => InvalidDate
    case Moment(t, _) => Moment(ShiftMinutes(DateTime(t.date, 0), 60 * h + m), 0)
  }

  /** Within a day, setting the hours sets the minute of the day and keeps the date. */
  lemma SetHoursWithinDay(d: JsDate, h: int, m: int)
    requires ValidJs(d) && d.Moment? && 0 <= h < 24 && 0 <= m < 60
    ensures SetHours(d, h, m) == Moment(DateTime(d.local.date, 60 * h + m), d.millis)
    ensures SetTime(d, h, m) == Moment(DateTime(d.local.date, 60 * h + m), 0)
  {
  }
}
