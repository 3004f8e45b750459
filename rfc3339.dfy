/** The date-time text formats the system exchanges, all drawn from the
    grammar of section 5.6 of RFC 3339:
    - the backend's timestamps, `full-date "T" full-time`, with a `Z` or
      numeric offset and an optional fraction of a second;
    - the browser's `toISOString()` output, `YYYY-MM-DDTHH:MM:SS.sssZ`;
    - the `datetime-local` input form, `full-date "T" time-hour ":" time-minute`
      (the seconds dropped). */
module Rfc3339 {
  import opened Dates
  import opened Text

  /** An absolute instant: its UTC wall-clock date-time and the
      milliseconds elapsed within that minute. */
  datatype Timestamp = Timestamp(utc: DateTime, millis: int)

  predicate ValidTimestamp(ts: Timestamp) {
    ValidDateTime(ts.utc) && 0 <= ts.millis < 60000
  }

  /** A numeric offset as RFC 3339 allows it: less than a day either way. */
  predicate ValidOffset(off: int) { -MinutesPerDay < off < MinutesPerDay }

  function TwoDigits(n: int): (s: string)
    requires 0 <= n < 100
    ensures |s| == 2 && AllDigits(s)
  {
    [DigitChar(n / 10), DigitChar(n % 10)]
  }

  function ThreeDigits(n: int): (s: string)
    requires 0 <= n < 1000
    ensures |s| == 3 && AllDigits(s)
  {
    [DigitChar(n / 100)] + TwoDigits(n % 100)
  }

  function FourDigits(n: int): (s: string)
    requires 0 <= n < 10000
    ensures |s| == 4 && AllDigits(s)
  {
    TwoDigits(n / 100) + TwoDigits(n % 100)
  }

  /** `String(n).padStart(2, '0')` is the two-digit form for `n < 100`. */
  lemma Pad2IsTwoDigits(n: nat)
    requires n < 100
    ensures Pad2(n) == TwoDigits(n)
  {
    if n >= 10 {
      assert NatToString(n / 10) == [DigitChar(n / 10)];
      assert NatToString(n) == [DigitChar(n / 10)] + [DigitChar(n % 10)];
      assert Pad2(n) == NatToString(n);
    } else {
      assert NatToString(n) == [DigitChar(n)];
      assert seq(1, _ => '0') == ['0'];
      assert Pad2(n) == ['0'] + [DigitChar(n)];
      assert n / 10 == 0 && n % 10 == n;
    }
  }

  lemma DecimalSplit(n: int)
    requires 0 <= n
    ensures n / 10 / 10 == n / 100 && n / 10 % 10 == n % 100 / 10 && n % 10 == n % 100 % 10
  {
    DivUnique(n % 100, 10, n % 100 / 10, n % 100 % 10);
    DivUnique(n, 10, 10 * (n / 100) + n % 100 / 10, n % 100 % 10);
    DivUnique(n / 10, 10, n / 100, n % 100 / 10);
  }

  /** `String(n)` of a four-digit number is its fixed-width form. */
  lemma NatToStringFourDigits(n: nat)
    requires 1000 <= n < 10000
    ensures NatToString(n) == FourDigits(n)
  {
    var m := n / 10;
    DecimalSplit(m);
    DecimalSplit(n);
    DivUnique(n, 100, m / 10, m % 10 * 10 + n % 10);
    assert NatToString(m / 10) == TwoDigits(m / 10);
    assert NatToString(m) == TwoDigits(m / 10) + [DigitChar(m % 10)];
  }

  function ReadTwo(s: string, i: int): int
    requires 0 <= i && i + 2 <= |s| && IsDigit(s[i]) && IsDigit(s[i + 1])
  {
    10 * DigitValue(s[i]) + DigitValue(s[i + 1])
  }

  function ReadFour(s: string, i: int): int
    requires 0 <= i && i + 4 <= |s|
    requires IsDigit(s[i]) && IsDigit(s[i + 1]) && IsDigit(s[i + 2]) && IsDigit(s[i + 3])
  {
    100 * ReadTwo(s, i) + ReadTwo(s, i + 2)
  }

  predicate DigitsAt(s: string, i: int, n: int) {
    0 <= i && i + n <= |s| && forall k :: i <= k < i + n ==> IsDigit(s[k])
  }

  /** `full-date`: `date-fullyear "-" date-month "-" date-mday` (four-digit year). */
  function FullDate(d: Date): (s: string)
    requires 0 <= d.year < 10000 && ValidDate(d)
    ensures |s| == 10
  {
    FourDigits(d.year) + "-" + TwoDigits(d.month) + "-" + TwoDigits(d.day)
  }

  /** Reads a `full-date` from the first ten characters of `s`. */
  function ParseFullDate(s: string): (r: Option<Date>)
    ensures r.Some? ==> ValidDate(r.value) && 0 <= r.value.year < 10000
  {
    if |s| >= 10 && DigitsAt(s, 0, 4) && s[4] == '-' && DigitsAt(s, 5, 2) && s[7] == '-' && DigitsAt(s, 8, 2)
    then
      var y, m, d := ReadFour(s, 0), ReadTwo(s, 5), ReadTwo(s, 8);
      if 1 <= m <= 12 && 1 <= d <= DaysInMonth(y, m) then Some(Date(y, m, d)) else None
    else None
  }

  lemma ReadTwoDigits(n: int, s: string, i: int)
    requires 0 <= n < 100 && 0 <= i && i + 2 <= |s| && s[i..i + 2] == TwoDigits(n)
    ensures IsDigit(s[i]) && IsDigit(s[i + 1]) && ReadTwo(s, i) == n
  {
    assert s[i] == TwoDigits(n)[0] && s[i + 1] == TwoDigits(n)[1];
    DigitRoundTrip(n / 10);
    DigitRoundTrip(n % 10);
  }

  lemma ReadFourDigits(n: int, s: string, i: int)
    requires 0 <= n < 10000 && 0 <= i && i + 4 <= |s| && s[i..i + 4] == FourDigits(n)
    ensures DigitsAt(s, i, 4) && ReadFour(s, i) == n
  {
    assert s[i..i + 2] == s[i..i + 4][..2];
    assert s[i + 2..i + 4] == s[i..i + 4][2..];
    ReadTwoDigits(n / 100, s, i);
    ReadTwoDigits(n % 100, s, i + 2);
  }

  lemma FullDateRoundTrip(d: Date, rest: string)
    requires 0 <= d.year < 10000 && ValidDate(d)
    ensures ParseFullDate(FullDate(d) + rest) == Some(d)
  {
    var s := FullDate(d) + rest;
    assert s[0..4] == FourDigits(d.year);
    assert s[5..7] == TwoDigits(d.month);
    assert s[8..10] == TwoDigits(d.day);
    ReadFourDigits(d.year, s, 0);
    ReadTwoDigits(d.month, s, 5);
    ReadTwoDigits(d.day, s, 8);
  }

  /** Reads `time-hour ":" time-minute` at index `i` as a minute of the day. */
  function ParseHourMinute(s: string, i: int): (r: Option<int>)
    requires 0 <= i
    ensures r.Some? ==> 0 <= r.value < MinutesPerDay
  {
    if i + 5 <= |s| && DigitsAt(s, i, 2) && s[i + 2] == ':' && DigitsAt(s, i + 3, 2) then
      var h, m := ReadTwo(s, i), ReadTwo(s, i + 3);
      if h < 24 && m < 60 then Some(60 * h + m) else None
    else None
  }

  function HourMinute(minute: int): (s: string)
    requires 0 <= minute < MinutesPerDay
    ensures |s| == 5
  {
    TwoDigits(minute / 60) + ":" + TwoDigits(minute % 60)
  }

  lemma HourMinuteRoundTrip(minute: int, s: string, i: int)
    requires 0 <= minute < MinutesPerDay && 0 <= i && i + 5 <= |s| && s[i..i + 5] == HourMinute(minute)
    ensures ParseHourMinute(s, i) == Some(minute)
  {
    var w := s[i..i + 5];
    assert w[..2] == TwoDigits(minute / 60) && w[2] == ':' && w[3..] == TwoDigits(minute % 60);
    assert s[i..i + 2] == w[..2] && s[i + 2] == w[2] && s[i + 3..i + 5] == w[3..];
    ReadTwoDigits(minute / 60, s, i);
    ReadTwoDigits(minute % 60, s, i + 3);
  }

  // ---------------------------------------------------------------------
  // The input form YYYY-MM-DDTHH:MM

  /** The `datetime-local` input form with a four-digit year. */
  function InputForm(t: DateTime): (s: string)
    requires ValidDateTime(t) && 0 <= t.date.year < 10000
    ensures |s| == 16
  {
    FullDate(t.date) + "T" + HourMinute(t.minute)
  }

  /** Reads the input form: exactly `full-date "T" HH ":" MM`. */
  function ParseInputForm(s: string): (r: Option<DateTime>)
    ensures r.Some? ==> ValidDateTime(r.value)
  {
    if |s| != 16 || s[10] != 'T' then None
    else match (ParseFullDate(s), ParseHourMinute(s, 11))
      case (Some(d), Some(m)) => Some(DateTime(d, m))
      case _ => None
  }

  lemma InputFormRoundTrip(t: DateTime)
    requires ValidDateTime(t) && 0 <= t.date.year < 10000
    ensures ParseInputForm(InputForm(t)) == Some(t)
  {
    var s := InputForm(t);
    assert s == FullDate(t.date) + ("T" + HourMinute(t.minute));
    FullDateRoundTrip(t.date, "T" + HourMinute(t.minute));
    assert s[11..16] == HourMinute(t.minute);
    HourMinuteRoundTrip(t.minute, s, 11);
  }

  // ---------------------------------------------------------------------
  // Timestamps with an offset

  function OffsetText(off: int): (s: string)
    requires ValidOffset(off)
  {
    if off == 0 then "Z"
    else (if off < 0 then "-" else "+") + HourMinute(if off < 0 then -off else off)
  }

  /** Reads `time-offset`, the whole of `s`: `Z` or a signed `HH:MM`. */
  function ParseOffset(s: string): (r: Option<int>)
    ensures r.Some? ==> ValidOffset(r.value)
  {
    if s == "Z" then Some(0)
    else if |s| == 6 && (s[0] == '+' || s[0] == '-') then
      match ParseHourMinute(s, 1)
      case Some(m) => Some(if s[0] == '-' then -m else m)
      case None => None
    else None
  }

  lemma OffsetRoundTrip(off: int)
    requires ValidOffset(off)
    ensures ParseOffset(OffsetText(off)) == Some(off)
  {
    if off != 0 {
      var s := OffsetText(off);
      var a := if off < 0 then -off else off;
      assert s[1..6] == HourMinute(a);
      HourMinuteRoundTrip(a, s, 1);
    }
  }

  /** Milliseconds of a fraction of a second: the first three digits, padded
      on the right with zeros (browsers keep millisecond precision). */
  function FractionMillis(frac: string): (ms: int)
    requires AllDigits(frac)
    ensures 0 <= ms < 1000
  {
    if |frac| == 0 then 0
    else if |frac| == 1 then 100 * DigitValue(frac[0])
    else if |frac| == 2 then 100 * DigitValue(frac[0]) + 10 * DigitValue(frac[1])
    else 100 * DigitValue(frac[0]) + 10 * DigitValue(frac[1]) + DigitValue(frac[2])
  }

  /** The local wall time `local` at offset `off` as an instant. */
  function AtOffset(local: DateTime, millis: int, off: int): (ts: Timestamp)
    requires ValidDateTime(local) && 0 <= millis < 60000
    ensures ValidTimestamp(ts)
  {
    Timestamp(ShiftMinutes(local, -off), millis)
  }

  /** Reads `[time-secfrac] time-offset`, all of `rest`: the milliseconds
      of the fraction and the offset in minutes. */
  function ParseTail(rest: string): (r: Option<(int, int)>)
    ensures r.Some? ==> 0 <= r.value.0 < 1000 && ValidOffset(r.value.1)
  {
    if |rest| > 0 && rest[0] == '.' then
      var frac := TakeDigits(rest[1..]);
      if frac == "" then None
      else match ParseOffset(rest[1 + |frac|..])
        case Some(off) => Some((FractionMillis(frac), off))
        case None => None
    else match ParseOffset(rest)
      case Some(off) => Some((0, off))
      case None => None
  }

  /** Reads an RFC 3339 `date-time`: `full-date "T" HH:MM:SS [secfrac] time-offset`. */
  function ParseTimestamp(s: string): (r: Option<Timestamp>)
    ensures r.Some? ==> ValidTimestamp(r.value)
  {
    if |s| < 20 || s[10] != 'T' || s[16] != ':' || !DigitsAt(s, 17, 2) then None
    else Assemble(ParseFullDate(s), ParseHourMinute(s, 11), ReadTwo(s, 17), ParseTail(s[19..]))
  }

  /** The instant of the parsed fields, when every field was read and the
      seconds are below 60. */
  function Assemble(date: Option<Date>, minute: Option<int>, sec: int, tail: Option<(int, int)>): (r: Option<Timestamp>)
    ensures r.Some? ==> ValidTimestamp(r.value)
  {
    if date.Some? && minute.Some? && tail.Some? && ValidDate(date.value) && 0 <= minute.value < MinutesPerDay
      && 0 <= sec < 60 && 0 <= tail.value.0 < 1000 && ValidOffset(tail.value.1)
    then Some(AtOffset(DateTime(date.value, minute.value), 1000 * sec + tail.value.0, tail.value.1))
    else None
  }

  function FractionText(ms: int): (s: string)
    requires 0 <= ms < 1000
  {
    if ms == 0 then "" else "." + ThreeDigits(ms)
  }

  /** The backend's rendering of an instant at offset `off`: seconds always,
      a three-digit fraction only when the milliseconds are not whole. */
  function TimestampText(ts: Timestamp, off: int): (s: string)
    requires ValidTimestamp(ts) && ValidOffset(off)
    requires 0 <= ShiftMinutes(ts.utc, off).date.year < 10000
  {
    var local := ShiftMinutes(ts.utc, off);
    TimestampHead(local, ts.millis / 1000) + (FractionText(ts.millis % 1000) + OffsetText(off))
  }

  /** The first nineteen characters: `full-date "T" HH:MM:SS`. */
  function TimestampHead(local: DateTime, sec: int): (s: string)
    requires ValidDateTime(local) && 0 <= local.date.year < 10000 && 0 <= sec < 60
    ensures |s| == 19
  {
    FullDate(local.date) + "T" + HourMinute(local.minute) + ":" + TwoDigits(sec)
  }

  lemma FractionRoundTrip(n: int)
    requires 0 <= n < 1000
    ensures FractionMillis(ThreeDigits(n)) == n
  {
    var t := ThreeDigits(n);
    assert t[1..3] == TwoDigits(n % 100);
    DigitRoundTrip(n / 100);
    ReadTwoDigits(n % 100, t, 1);
  }

  lemma DottedTailRoundTrip(ms: int, off: int)
    requires 0 <= ms < 1000 && ValidOffset(off)
    ensures ParseTail("." + ThreeDigits(ms) + OffsetText(off)) == Some((ms, off))
  {
    var o := OffsetText(off);
    var rest := "." + ThreeDigits(ms) + o;
    OffsetRoundTrip(off);
    assert |o| > 0 && !IsDigit(o[0]);
    assert rest[1..] == ThreeDigits(ms) + o;
    TakeDigitsStops(ThreeDigits(ms), o);
    assert rest[1 + 3..] == o;
    FractionRoundTrip(ms);
  }

  lemma TailRoundTrip(ms: int, off: int)
    requires 0 <= ms < 1000 && ValidOffset(off)
    ensures ParseTail(FractionText(ms) + OffsetText(off)) == Some((ms, off))
  {
    var o := OffsetText(off);
    OffsetRoundTrip(off);
    if ms == 0 {
      assert FractionText(ms) + o == o && o[0] != '.';
    } else {
      DottedTailRoundTrip(ms, off);
    }
  }

  lemma HeadRoundTrip(local: DateTime, sec: int, tail: string, s: string)
    requires ValidDateTime(local) && 0 <= local.date.year < 10000 && 0 <= sec < 60
    requires s == TimestampHead(local, sec) + tail
    ensures |s| >= 20 ==> s[10] == 'T' && s[16] == ':' && DigitsAt(s, 17, 2) && ReadTwo(s, 17) == sec
    ensures ParseFullDate(s) == Some(local.date) && ParseHourMinute(s, 11) == Some(local.minute)
    ensures s[19..] == tail
  {
    var rest := "T" + HourMinute(local.minute) + ":" + TwoDigits(sec) + tail;
    assert s == FullDate(local.date) + rest;
    FullDateRoundTrip(local.date, rest);
    assert s[11..16] == HourMinute(local.minute);
    HourMinuteRoundTrip(local.minute, s, 11);
    assert s[17..19] == TwoDigits(sec);
    ReadTwoDigits(sec, s, 17);
  }

  /** Reading back the backend's text gives the same instant, whatever
      offset it was written at. */
  lemma TimestampRoundTrip(ts: Timestamp, off: int)
    requires ValidTimestamp(ts) && ValidOffset(off)
    requires 0 <= ShiftMinutes(ts.utc, off).date.year < 10000
    ensures ParseTimestamp(TimestampText(ts, off)) == Some(ts)
  {
    var local := ShiftMinutes(ts.utc, off);
    assert ParseTimestamp(TimestampText(ts, off)) == Some(AtOffset(local, ts.millis, off)) by {
      var sec, ms := ts.millis / 1000, ts.millis % 1000;
      var tail := FractionText(ms) + OffsetText(off);
      assert TimestampText(ts, off) == TimestampHead(local, sec) + tail;
      assert ParseTail(tail) == Some((ms, off)) by {
        TailRoundTrip(ms, off);
      }
      ParseHeadTail(local, sec, tail, ms, off);
      assert 1000 * sec + ms == ts.millis;
    }
    assert AtOffset(local, ts.millis, off) == ts by {
      ShiftInverse(ts.utc, off);
    }
  }

  lemma {:induction false} TakeDigitsStops(d: string, t: string)
    requires AllDigits(d) && |t| > 0 && !IsDigit(t[0])
    ensures TakeDigits(d + t) == d
    decreases |d|
  {
    if |d| > 0 {
      assert (d + t)[1..] == d[1..] + t;
      TakeDigitsStops(d[1..], t);
    } else {
      assert d + t == t;
    }
  }

  // ---------------------------------------------------------------------
  // Date.prototype.toISOString

  /** Year as `toISOString` writes it: four digits for 0..9999, otherwise a
      sign and at least six digits. */
  function IsoYear(y: int): (s: string)
    ensures 'T' !in s && |s| >= 4
  {
    if 0 <= y < 10000 then FourDigits(y)
    else
      var digits := PadStart(NatToString(if y < 0 then -y else y), 6, '0');
      PadStartDigits(NatToString(if y < 0 then -y else y), 6);
      (if y < 0 then "-" else "+") + digits
  }

  /** `toISOString()` of an instant: its UTC fields, to the millisecond, then `Z`. */
  function IsoString(ts: Timestamp): (s: string)
    requires ValidTimestamp(ts)
    ensures |s| >= 24
  {
    var d := ts.utc.date;
    IsoYear(d.year) + "-" + TwoDigits(d.month) + "-" + TwoDigits(d.day) + "T"
      + HourMinute(ts.utc.minute) + ":" + TwoDigits(ts.millis / 1000) + "." + ThreeDigits(ts.millis % 1000) + "Z"
  }

  /** `s.split('T')[0]`. */
  function BeforeT(s: string): string { Split(s, 'T')[0] }

  lemma {:induction false} SplitFirst(a: string, b: string, sep: char)
    requires sep !in a
    ensures Split(a + [sep] + b, sep)[0] == a
    decreases |a|
  {
    if |a| == 0 {
      assert a + [sep] + b == [sep] + b;
    } else {
      assert (a + [sep] + b)[1..] == a[1..] + [sep] + b;
      SplitFirst(a[1..], b, sep);
    }
  }

  /** The date part of `toISOString()`: the UTC calendar date, and exactly
      ten characters for years 0..9999. */
  lemma IsoDatePart(ts: Timestamp)
    requires ValidTimestamp(ts)
    ensures var d := ts.utc.date;
      BeforeT(IsoString(ts)) == IsoYear(d.year) + "-" + TwoDigits(d.month) + "-" + TwoDigits(d.day)
    ensures 0 <= ts.utc.date.year < 10000 ==>
      BeforeT(IsoString(ts)) == FullDate(ts.utc.date) && |BeforeT(IsoString(ts))| == 10
  {
    var d := ts.utc.date;
    var head := IsoYear(d.year) + "-" + TwoDigits(d.month) + "-" + TwoDigits(d.day);
    var tail := HourMinute(ts.utc.minute) + ":" + TwoDigits(ts.millis / 1000) + "." + ThreeDigits(ts.millis % 1000) + "Z";
    assert IsoString(ts) == head + ['T'] + tail;
    assert 'T' !in head by {
      assert forall i :: 0 <= i < |TwoDigits(d.month)| ==> IsDigit(TwoDigits(d.month)[i]);
      assert forall i :: 0 <= i < |TwoDigits(d.day)| ==> IsDigit(TwoDigits(d.day)[i]);
    }
    SplitFirst(head, tail, 'T');
  }

  /** `toISOString()` output reads back as the same instant. */
  lemma IsoStringRoundTrip(ts: Timestamp)
    requires ValidTimestamp(ts) && 0 <= ts.utc.date.year < 10000
    ensures ParseTimestamp(IsoString(ts)) == Some(ts)
  {
    assert ParseTimestamp(IsoString(ts)) == Some(AtOffset(ts.utc, ts.millis, 0)) by {
      var sec, ms := ts.millis / 1000, ts.millis % 1000;
      var tail := "." + ThreeDigits(ms) + OffsetText(0);
      assert IsoString(ts) == TimestampHead(ts.utc, sec) + tail by {
        IsoStringSplit(ts);
      }
      assert ParseTail(tail) == Some((ms, 0)) by {
        DottedTailRoundTrip(ms, 0);
      }
      ParseHeadTail(ts.utc, sec, tail, ms, 0);
      assert 1000 * sec + ms == ts.millis;
    }
    assert AtOffset(ts.utc, ts.millis, 0) == ts by {
      ShiftZero(ts.utc);
    }
  }

  lemma ParseHeadTail(local: DateTime, sec: int, tail: string, ms: int, off: int)
    requires ValidDateTime(local) && 0 <= local.date.year < 10000 && 0 <= sec < 60
    requires ParseTail(tail) == Some((ms, off))
    ensures ParseTimestamp(TimestampHead(local, sec) + tail) == Some(AtOffset(local, 1000 * sec + ms, off))
  {
    var s := TimestampHead(local, sec) + tail;
    assert ParseTimestamp(s) == Assemble(Some(local.date), Some(local.minute), sec, ParseTail(tail)) by {
      HeadRoundTrip(local, sec, tail, s);
      assert |tail| > 0;
    }
    AssembleFields(local, sec, ms, off);
  }

  lemma AssembleFields(local: DateTime, sec: int, ms: int, off: int)
    requires ValidDateTime(local) && 0 <= sec < 60 && 0 <= ms < 1000 && ValidOffset(off)
    ensures Assemble(Some(local.date), Some(local.minute), sec, Some((ms, off))) == Some(AtOffset(local, 1000 * sec + ms, off))
  {
  }

  /** The first sixteen characters of `toISOString()` are the UTC date-time
      in the input form. */
  lemma IsoStringPrefix(ts: Timestamp)
    requires ValidTimestamp(ts) && 0 <= ts.utc.date.year < 10000
    ensures IsoString(ts)[..16] == InputForm(ts.utc)
  {
    IsoStringSplit(ts);
    var sec := ts.millis / 1000;
    var head := TimestampHead(ts.utc, sec);
    assert head == InputForm(ts.utc) + (":" + TwoDigits(sec));
    assert head[..16] == InputForm(ts.utc);
  }

  lemma IsoStringSplit(ts: Timestamp)
    requires ValidTimestamp(ts) && 0 <= ts.utc.date.year < 10000
    ensures IsoString(ts) == TimestampHead(ts.utc, ts.millis / 1000) + ("." + ThreeDigits(ts.millis % 1000) + OffsetText(0))
  {
    var d := ts.utc.date;
    assert IsoYear(d.year) == FourDigits(d.year);
    var a := FourDigits(d.year) + "-" + TwoDigits(d.month) + "-" + TwoDigits(d.day);
    var b := HourMinute(ts.utc.minute) + ":" + TwoDigits(ts.millis / 1000);
    var c := ThreeDigits(ts.millis % 1000);
    assert IsoString(ts) == a + "T" + b + "." + c + "Z";
    assert TimestampHead(ts.utc, ts.millis / 1000) == a + "T" + b;
  }
}
