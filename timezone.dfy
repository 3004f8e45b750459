/** The frontend's Ecuador-time helpers. Each is an early-return guard for a
    missing input followed by an expression over `Date` fields.
    `toEcuadorTime` renders a moment as a wall-clock string in
    America/Guayaquil and parses that string back on the device. Its effect
    is modelled as a fixed-offset change of the local fields, by the
    distance from the device's offset to Ecuador's. */
module Timezone {
  import opened Dates
  import opened Text
  import opened Rfc3339
  import opened JsDates

  /** America/Guayaquil: UTC-5 all year, with no daylight-saving time. */
  const EcuadorOffset: int := -300

  /** Minutes from the device's clock to Ecuador's; zero on a device that
      runs at UTC-5. */
  function Skew(env: Env): int { EcuadorOffset - env.offset }

  /** What a helper may be handed: `undefined`, `null`, a `Date` or a string. */
  datatype Arg = Undefined | Null | Given(date: JsDate) | Str(text: string)

  predicate ValidArg(a: Arg) { a.Given? ==> ValidJs(a.date) }

  /** JavaScript falsiness of an argument: a `Date` object is always truthy,
      even an Invalid Date; only the empty string is a falsy string. */
  predicate Falsy(a: Arg) { a.Undefined? || a.Null? || (a.Str? && a.text == "") }

  /** The `Date` the helper works on: the one given, or `new Date(s)` for a string. */
  function AsDate(env: Env, a: Arg): (d: JsDate)
    requires ValidEnv(env) && ValidArg(a) && !Falsy(a)
    ensures ValidJs(d)
  {
    match a
    case Given(d) => d
    case Str(s) => ParseDate(env, s)
  }

  /** The locale-string round trip on one `Date`. The result's local fields
      are the moment's wall time in Ecuador, and the milliseconds are lost,
      because the locale string stops at seconds. An Invalid Date stays
      invalid. */
  function Convert(env: Env, d: JsDate): (r: JsDate)
    requires ValidEnv(env) && ValidJs(d)
    ensures ValidJs(r) && r.Moment? == d.Moment?
  {
    match d
    case InvalidDate => InvalidDate
    case Moment(t, ms) => Moment(ShiftMinutes(t, Skew(env)), ms / 1000 * 1000)
  }

  /** Milliseconds truncated to whole seconds stay whole seconds. */
  lemma WholeSeconds(ms: int)
    requires 0 <= ms < 60000
    ensures 0 <= ms / 1000 * 1000 < 60000 && (ms / 1000 * 1000) % 1000 == 0
    ensures (ms / 1000 * 1000) / 1000 * 1000 == ms / 1000 * 1000
  {
    DivUnique(ms / 1000 * 1000, 1000, ms / 1000, 0);
  }

  /** What the conversion means: the local fields it yields are the
      Ecuador wall-clock time of the moment's instant. */
  lemma ConvertShowsEcuadorTime(env: Env, t: DateTime, ms: int)
    requires ValidEnv(env) && ValidDateTime(t) && 0 <= ms < 60000
    ensures Convert(env, Moment(t, ms)).local == ShiftMinutes(InstantOf(env, t, ms).utc, EcuadorOffset)
  {
    ShiftAdd(t, -env.offset, EcuadorOffset);
  }

  /** On a device running at UTC-5 the conversion changes nothing but the milliseconds. */
  lemma ConvertOnEcuadorDevice(env: Env, t: DateTime, ms: int)
    requires ValidEnv(env) && ValidDateTime(t) && 0 <= ms < 60000 && env.offset == EcuadorOffset
    ensures Convert(env, Moment(t, ms)) == Moment(t, ms / 1000 * 1000)
  {
    ShiftZero(t);
  }

  /** Converting twice moves the fields by twice the skew. */
  lemma ConvertTwice(env: Env, t: DateTime, ms: int)
    requires ValidEnv(env) && ValidDateTime(t) && 0 <= ms < 60000
    ensures Convert(env, Convert(env, Moment(t, ms))) == Moment(ShiftMinutes(t, 2 * Skew(env)), ms / 1000 * 1000)
  {
    ShiftAdd(t, Skew(env), Skew(env));
  }

  /** A second conversion is harmless exactly on a device running at UTC-5. */
  lemma ConvertIdempotentIff(env: Env, t: DateTime, ms: int)
    requires ValidEnv(env) && ValidDateTime(t) && 0 <= ms < 60000
    ensures Convert(env, Convert(env, Moment(t, ms))) == Convert(env, Moment(t, ms)) <==> Skew(env) == 0
  {
    ConvertTwice(env, t, ms);
    var once := ShiftMinutes(t, Skew(env));
    ShiftAdd(t, Skew(env), Skew(env));
    if Skew(env) != 0 {
      ShiftMoves(once, Skew(env));
    } else {
      ShiftZero(t);
    }
  }

  /** `toEcuadorTime(date)`: the current time for a missing input. */
  function ToEcuadorTime(env: Env, a: Arg): (r: JsDate)
    requires ValidEnv(env) && ValidArg(a)
    ensures ValidJs(r)
    ensures Falsy(a) ==> r == Now(env)
    ensures !Falsy(a) ==> (r.Moment? <==> AsDate(env, a).Moment?)
  {
    if Falsy(a) then Now(env) else Convert(env, AsDate(env, a))
  }

  /** `formatDateForBackend(date)`: `''` for a missing input, otherwise the
      ISO string of the converted date; `None` where `toISOString` throws. */
  function FormatDateForBackend(env: Env, a: Arg): (r: Option<string>)
    requires ValidEnv(env) && ValidArg(a)
    ensures Falsy(a) ==> r == Some("")
    ensures !Falsy(a) ==> (r.None? <==> AsDate(env, a).InvalidDate?)
  {
    if Falsy(a) then Some("") else ToIsoString(env, ToEcuadorTime(env, a))
  }

  /** The instant sent for a `Date` is its own instant moved by the skew, so
      only a device at UTC-5 sends the instant it was given. */
  lemma BackendInstantMovedBySkew(env: Env, t: DateTime, ms: int)
    requires ValidEnv(env) && ValidDateTime(t) && 0 <= ms < 60000
    ensures FormatDateForBackend(env, Given(Moment(t, ms)))
         == Some(IsoString(Timestamp(ShiftMinutes(InstantOf(env, t, ms).utc, Skew(env)), ms / 1000 * 1000)))
  {
    ConvertedInstant(env, t, ms);
  }

  /** The instant of the converted date: the original one moved by the skew. */
  lemma ConvertedInstant(env: Env, t: DateTime, ms: int)
    requires ValidEnv(env) && ValidDateTime(t) && 0 <= ms < 60000
    ensures InstantOf(env, ShiftMinutes(t, Skew(env)), ms / 1000 * 1000)
         == Timestamp(ShiftMinutes(InstantOf(env, t, ms).utc, Skew(env)), ms / 1000 * 1000)
  {
    ShiftCommute(t, Skew(env), -env.offset);
  }

  /** On a device at UTC-5 the instant itself is sent, to the second. */
  lemma BackendInstantOnEcuadorDevice(env: Env, t: DateTime, ms: int)
    requires ValidEnv(env) && ValidDateTime(t) && 0 <= ms < 60000 && env.offset == EcuadorOffset
    ensures FormatDateForBackend(env, Given(Moment(t, ms))) == Some(IsoString(InstantOf(env, t, ms / 1000 * 1000)))
  {
    BackendInstantMovedBySkew(env, t, ms);
    ShiftZero(InstantOf(env, t, ms).utc);
  }

  /** `formatDateFromBackend(isoString)`: `toEcuadorTime(new Date(isoString))`,
      and the current time for a missing input. */
  function FormatDateFromBackend(env: Env, a: Arg): (r: JsDate)
    requires ValidEnv(env) && ValidArg(a)
    ensures ValidJs(r)
  {
    if Falsy(a) then Now(env) else ToEcuadorTime(env, Given(AsDate(env, a)))
  }

  /** A backend timestamp, written at any offset, shows its Ecuador
      wall-clock time on every device. */
  lemma FromBackendShowsEcuadorTime(env: Env, ts: Timestamp, off: int)
    requires ValidEnv(env) && ValidTimestamp(ts) && ValidOffset(off)
    requires 0 <= ShiftMinutes(ts.utc, off).date.year < 10000
    ensures FormatDateFromBackend(env, Str(TimestampText(ts, off)))
         == Moment(ShiftMinutes(ts.utc, EcuadorOffset), ts.millis / 1000 * 1000)
  {
    var s, d := TimestampText(ts, off), AtInstant(env, ts);
    assert ParseDate(env, s) == d && s != "" by {
      ParseDateTimestamp(env, ts, off);
    }
    FromBackendOfDate(env, s, d);
    assert Convert(env, d) == Moment(ShiftMinutes(ts.utc, EcuadorOffset), ts.millis / 1000 * 1000) by {
      ShiftAdd(ts.utc, env.offset, Skew(env));
    }
  }

  lemma FromBackendOfDate(env: Env, s: string, d: JsDate)
    requires ValidEnv(env) && s != "" && ParseDate(env, s) == d
    ensures FormatDateFromBackend(env, Str(s)) == Convert(env, d)
  {
  }

  /** `${year}-${MM}-${DD}T${HH}:${mm}` of a date-time's fields: the year
      unpadded, the rest `padStart(2, '0')`, seconds dropped. */
  function FieldsText(t: DateTime): (s: string)
    requires ValidDateTime(t)
  {
    IntToString(t.date.year) + FieldsAfterYear(t)
  }

  /** Everything after the year. */
  function FieldsAfterYear(t: DateTime): string
    requires ValidDateTime(t)
  {
    "-" + Pad2(t.date.month) + "-" + Pad2(t.date.day) + "T" + Pad2(Hour(t)) + ":" + Pad2(MinuteOfHour(t))
  }

  /** Reads the twelve characters after the year: `-MM-DDTHH:mm`. */
  function ReadAfterYear(f: string): (r: Option<(int, int, int, int)>)
  {
    if |f| == 12 && f[0] == '-' && DigitsAt(f, 1, 2) && f[3] == '-' && DigitsAt(f, 4, 2)
       && f[6] == 'T' && DigitsAt(f, 7, 2) && f[9] == ':' && DigitsAt(f, 10, 2)
    then Some((ReadTwo(f, 1), ReadTwo(f, 4), ReadTwo(f, 7), ReadTwo(f, 10)))
    else None
  }

  /** Reads a `FieldsText` string back: the year is everything before the
      last twelve characters. */
  function ReadFields(s: string): (r: Option<DateTime>)
    ensures r.Some? ==> ValidDateTime(r.value)
  {
    if |s| < 13 then None
    else match (ParseIntJs(s[..|s| - 12]), ReadAfterYear(s[|s| - 12..]))
      case (Some(y), Some((mo, d, h, mi))) =>
        if 1 <= mo <= 12 && 1 <= d <= DaysInMonth(y, mo) && h < 24 && mi < 60
        then Some(DateTime(Date(y, mo, d), 60 * h + mi)) else None
      case _ => None
  }

  lemma TwelveLayout(f: string, a: string, b: string, c: string, d: string)
    requires |a| == 2 && |b| == 2 && |c| == 2 && |d| == 2
    requires f == "-" + a + "-" + b + "T" + c + ":" + d
    ensures f[0] == '-' && f[1..3] == a && f[3] == '-' && f[4..6] == b
    ensures f[6] == 'T' && f[7..9] == c && f[9] == ':' && f[10..12] == d
  {
  }

  /** The two-digit fields sit at fixed places after the year. */
  lemma FieldsAfterYearLayout(t: DateTime)
    requires ValidDateTime(t)
    ensures |FieldsAfterYear(t)| == 12
    ensures FieldsAfterYear(t)[0] == '-' && FieldsAfterYear(t)[3] == '-'
    ensures FieldsAfterYear(t)[6] == 'T' && FieldsAfterYear(t)[9] == ':'
    ensures FieldsAfterYear(t)[1..3] == TwoDigits(t.date.month)
    ensures FieldsAfterYear(t)[4..6] == TwoDigits(t.date.day)
    ensures FieldsAfterYear(t)[7..9] == TwoDigits(Hour(t))
    ensures FieldsAfterYear(t)[10..12] == TwoDigits(MinuteOfHour(t))
  {
    var mo, d, h, mi := t.date.month, t.date.day, Hour(t), MinuteOfHour(t);
    Pad2IsTwoDigits(mo);
    Pad2IsTwoDigits(d);
    Pad2IsTwoDigits(h);
    Pad2IsTwoDigits(mi);
    var a, b, c, e := TwoDigits(mo), TwoDigits(d), TwoDigits(h), TwoDigits(mi);
    var f := FieldsAfterYear(t);
    assert f == "-" + a + "-" + b + "T" + c + ":" + e;
    TwelveLayout(f, a, b, c, e);
  }

  lemma ReadAfterYearRoundTrip(t: DateTime)
    requires ValidDateTime(t)
    ensures ReadAfterYear(FieldsAfterYear(t)) == Some((t.date.month, t.date.day, Hour(t), MinuteOfHour(t)))
  {
    var mo, d, h, mi := t.date.month, t.date.day, Hour(t), MinuteOfHour(t);
    assert FieldsAfterYear(t) == "-" + TwoDigits(mo) + "-" + TwoDigits(d) + "T" + TwoDigits(h) + ":" + TwoDigits(mi) by {
      Pad2IsTwoDigits(mo);
      Pad2IsTwoDigits(d);
      Pad2IsTwoDigits(h);
      Pad2IsTwoDigits(mi);
    }
    ReadTwelve(mo, d, h, mi);
  }

  lemma ReadTwelve(mo: int, d: int, h: int, mi: int)
    requires 0 <= mo < 100 && 0 <= d < 100 && 0 <= h < 100 && 0 <= mi < 100
    ensures ReadAfterYear("-" + TwoDigits(mo) + "-" + TwoDigits(d) + "T" + TwoDigits(h) + ":" + TwoDigits(mi))
         == Some((mo, d, h, mi))
  {
    var f := "-" + TwoDigits(mo) + "-" + TwoDigits(d) + "T" + TwoDigits(h) + ":" + TwoDigits(mi);
    TwelveLayout(f, TwoDigits(mo), TwoDigits(d), TwoDigits(h), TwoDigits(mi));
    assert DigitsAt(f, 1, 2) && ReadTwo(f, 1) == mo by {
      ReadTwoDigits(mo, f, 1);
    }
    assert DigitsAt(f, 4, 2) && ReadTwo(f, 4) == d by {
      ReadTwoDigits(d, f, 4);
    }
    assert DigitsAt(f, 7, 2) && ReadTwo(f, 7) == h by {
      ReadTwoDigits(h, f, 7);
    }
    assert DigitsAt(f, 10, 2) && ReadTwo(f, 10) == mi by {
      ReadTwoDigits(mi, f, 10);
    }
    ReadAfterYearOf(f);
  }

  lemma ReadAfterYearOf(f: string)
    requires |f| == 12 && f[0] == '-' && f[3] == '-' && f[6] == 'T' && f[9] == ':'
    requires DigitsAt(f, 1, 2) && DigitsAt(f, 4, 2) && DigitsAt(f, 7, 2) && DigitsAt(f, 10, 2)
    ensures ReadAfterYear(f) == Some((ReadTwo(f, 1), ReadTwo(f, 4), ReadTwo(f, 7), ReadTwo(f, 10)))
  {
  }

  /** Reading the input text back recovers year, month, day, hour and minute. */
  lemma FieldsTextRoundTrip(t: DateTime)
    requires ValidDateTime(t)
    ensures ReadFields(FieldsText(t)) == Some(t)
  {
    var y := IntToString(t.date.year);
    var f := FieldsAfterYear(t);
    var s := FieldsText(t);
    assert |f| == 12 by {
      FieldsAfterYearLayout(t);
    }
    assert s[..|s| - 12] == y && s[|s| - 12..] == f;
    assert ParseIntJs(y) == Some(t.date.year) by {
      ParseIntRoundTrip(t.date.year);
    }
    ReadAfterYearRoundTrip(t);
    ReadFieldsParts(t, s);
  }

  lemma ReadFieldsParts(t: DateTime, s: string)
    requires ValidDateTime(t) && |s| >= 13
    requires ParseIntJs(s[..|s| - 12]) == Some(t.date.year)
    requires ReadAfterYear(s[|s| - 12..]) == Some((t.date.month, t.date.day, Hour(t), MinuteOfHour(t)))
    ensures ReadFields(s) == Some(t)
  {
  }

  /** Different dates or minutes always give different input text. */
  lemma FieldsTextInjective(a: DateTime, b: DateTime)
    requires ValidDateTime(a) && ValidDateTime(b) && FieldsText(a) == FieldsText(b)
    ensures a == b
  {
    FieldsTextRoundTrip(a);
    FieldsTextRoundTrip(b);
  }

  /** For four-digit years the text is exactly the input form of RFC 3339
      section 5.6 (full-date "T" hour ":" minute), so the browser reads it back. */
  lemma FieldsTextIsInputForm(t: DateTime)
    requires ValidDateTime(t) && 1000 <= t.date.year < 10000
    ensures FieldsText(t) == InputForm(t)
    ensures ParseInputForm(FieldsText(t)) == Some(t)
  {
    var y := FourDigits(t.date.year);
    var a, b, c, e := TwoDigits(t.date.month), TwoDigits(t.date.day), TwoDigits(Hour(t)), TwoDigits(MinuteOfHour(t));
    assert FieldsText(t) == y + ("-" + a + "-" + b + "T" + c + ":" + e) by {
      NatToStringFourDigits(t.date.year);
      Pad2IsTwoDigits(t.date.month);
      Pad2IsTwoDigits(t.date.day);
      Pad2IsTwoDigits(Hour(t));
      Pad2IsTwoDigits(MinuteOfHour(t));
    }
    assert InputForm(t) == y + "-" + a + "-" + b + "T" + (c + ":" + e);
    Regroup(y, a, b, c, e);
    InputFormRoundTrip(t);
  }

  lemma Regroup(y: string, a: string, b: string, c: string, e: string)
    ensures y + ("-" + a + "-" + b + "T" + c + ":" + e) == y + "-" + a + "-" + b + "T" + (c + ":" + e)
  {
  }

  /** `String(NaN)` in every field. */
  const InvalidFieldsText: string := "NaN-NaN-NaNTNaN:NaN"

  /** `formatDateTimeLocal(date)`: `''` for a missing input, otherwise the
      fields of the converted date. */
  function FormatDateTimeLocal(env: Env, a: Arg): (s: string)
    requires ValidEnv(env) && ValidArg(a)
    ensures Falsy(a) ==> s == ""
    ensures !Falsy(a) && AsDate(env, a).InvalidDate? ==> s == InvalidFieldsText
  {
    if Falsy(a) then ""
    else match ToEcuadorTime(env, a)
      case InvalidDate => InvalidFieldsText
      case Moment(t, _) => FieldsText(t)
  }

  /** `parseDateTimeLocal(value)`: `toEcuadorTime(new Date(value))`, and the
      current time for a missing input. */
  function ParseDateTimeLocal(env: Env, a: Arg): (r: JsDate)
    requires ValidEnv(env) && ValidArg(a)
    ensures ValidJs(r)
  {
    if Falsy(a) then Now(env) else ToEcuadorTime(env, Given(AsDate(env, a)))
  }

  /** The three helpers agree with `toEcuadorTime` on every input,
      and a missing input gives `''` or the current time. */
  lemma HelpersAgree(env: Env, a: Arg)
    requires ValidEnv(env) && ValidArg(a)
    ensures FormatDateFromBackend(env, a) == ToEcuadorTime(env, a)
    ensures ParseDateTimeLocal(env, a) == ToEcuadorTime(env, a)
    ensures Falsy(a) ==>
      (ToEcuadorTime(env, a) == Now(env) && FormatDateTimeLocal(env, a) == "" && FormatDateForBackend(env, a) == Some(""))
  {
  }

  /** Typed input text is read as device time and converted once more. */
  lemma ParseInputText(env: Env, t: DateTime)
    requires ValidEnv(env) && ValidDateTime(t) && 1000 <= t.date.year < 10000
    ensures ParseDateTimeLocal(env, Str(FieldsText(t))) == Moment(ShiftMinutes(t, Skew(env)), 0)
  {
    FieldsTextIsInputForm(t);
    ParseDateInputForm(env, t);
    ParseLocalOfDate(env, FieldsText(t), Moment(t, 0));
  }

  lemma ParseLocalOfDate(env: Env, s: string, d: JsDate)
    requires ValidEnv(env) && s != "" && ParseDate(env, s) == d
    ensures ParseDateTimeLocal(env, Str(s)) == Convert(env, d)
  {
  }

  /** On a device at UTC-5, formatting what was parsed from the input gives
      the same text back. */
  lemma InputTextRoundTrip(env: Env, t: DateTime)
    requires ValidEnv(env) && ValidDateTime(t) && 1000 <= t.date.year < 10000 && Skew(env) == 0
    ensures FormatDateTimeLocal(env, Given(ParseDateTimeLocal(env, Str(FieldsText(t))))) == FieldsText(t)
  {
    ParseInputText(env, t);
    ShiftZero(t);
  }

  /** `getEcuadorDateString(date = new Date())`: the part before `T` of the
      converted date's ISO string; `None` where `toISOString` throws. Only
      `undefined` takes the default, so a `null` reaches `toEcuadorTime`,
      which returns the current time unconverted. */
  function GetEcuadorDateString(env: Env, a: Arg): (r: Option<string>)
    requires ValidEnv(env) && ValidArg(a)
  {
    var d := if a.Undefined? then Given(Now(env)) else a;
    match ToIsoString(env, ToEcuadorTime(env, d))
    case Some(iso) => Some(BeforeT(iso))
    case None => None
  }

  /** As written, the result is the UTC date of the converted moment's
      instant, not its Ecuador date. */
  lemma EcuadorDateStringIsUtcDate(env: Env, t: DateTime, ms: int)
    requires ValidEnv(env) && ValidDateTime(t) && 0 <= ms < 60000
    ensures var u := InstantOf(env, ShiftMinutes(t, Skew(env)), ms / 1000 * 1000).utc.date;
      GetEcuadorDateString(env, Given(Moment(t, ms)))
        == Some(IsoYear(u.year) + "-" + TwoDigits(u.month) + "-" + TwoDigits(u.day))
  {
    IsoDatePart(InstantOf(env, ShiftMinutes(t, Skew(env)), ms / 1000 * 1000));
  }

  /** `undefined` takes the default `new Date()`. */
  lemma DefaultIsNow(env: Env)
    requires ValidEnv(env)
    ensures GetEcuadorDateString(env, Undefined) == GetEcuadorDateString(env, Given(Now(env)))
  {
  }

  lemma JuneDigits()
    ensures IsoYear(2024) + "-" + TwoDigits(6) + "-" + TwoDigits(10) == "2024-06-10"
    ensures IsoYear(2024) + "-" + TwoDigits(6) + "-" + TwoDigits(11) == "2024-06-11"
  {
    assert IsoYear(2024) == "2024" && TwoDigits(6) == "06" && TwoDigits(10) == "10" && TwoDigits(11) == "11";
  }

  /** In Ecuador at 20:00 on 10 June 2024 the helper names 11 June. */
  lemma EcuadorDateStringEvening()
    ensures var env := Env(EcuadorOffset, DateTime(Date(2024, 6, 10), 20 * 60), 0);
      GetEcuadorDateString(env, Undefined) == Some("2024-06-11")
  {
    var env := Env(EcuadorOffset, DateTime(Date(2024, 6, 10), 20 * 60), 0);
    assert ShiftMinutes(env.now, Skew(env)) == env.now;
    assert AddDays(Date(2024, 6, 10), 1) == Date(2024, 6, 11);
    assert ShiftMinutes(env.now, 300) == DateTime(Date(2024, 6, 11), 60);
    var u := InstantOf(env, env.now, 0).utc.date;
    assert u == Date(2024, 6, 11);
    EcuadorDateStringIsUtcDate(env, env.now, 0);
    assert GetEcuadorDateString(env, Given(Moment(env.now, 0)))
        == Some(IsoYear(u.year) + "-" + TwoDigits(u.month) + "-" + TwoDigits(u.day));
    DefaultIsNow(env);
    assert Now(env) == Moment(env.now, 0);
    JuneDigits();
  }

  /** The Ecuador calendar date of a moment as `YYYY-MM-DD`, the text the
      week query needs; `None` for an Invalid Date. */
  function EcuadorDateString(env: Env, a: Arg): (r: Option<string>)
    requires ValidEnv(env) && ValidArg(a)
  {
    var d := if a.Undefined? then Given(Now(env)) else a;
    match ToEcuadorTime(env, d)
    case Moment(t, _) => Some(IsoYear(t.date.year) + "-" + TwoDigits(t.date.month) + "-" + TwoDigits(t.date.day))
    case InvalidDate => None
  }

  /** The corrected text names the Ecuador date of the instant on every
      device, and for four-digit years it is a `full-date` that reads back. */
  lemma EcuadorDateStringMeaning(env: Env, t: DateTime, ms: int)
    requires ValidEnv(env) && ValidDateTime(t) && 0 <= ms < 60000
    ensures var e := ShiftMinutes(InstantOf(env, t, ms).utc, EcuadorOffset).date;
      EcuadorDateString(env, Given(Moment(t, ms)))
        == Some(IsoYear(e.year) + "-" + TwoDigits(e.month) + "-" + TwoDigits(e.day))
      && (0 <= e.year < 10000 ==> ParseFullDate(EcuadorDateString(env, Given(Moment(t, ms))).value) == Some(e))
  {
    ConvertShowsEcuadorTime(env, t, ms);
    var e := ShiftMinutes(InstantOf(env, t, ms).utc, EcuadorOffset).date;
    if 0 <= e.year < 10000 {
      assert IsoYear(e.year) + "-" + TwoDigits(e.month) + "-" + TwoDigits(e.day) == FullDate(e) + "";
      FullDateRoundTrip(e, "");
    }
  }

  lemma EcuadorDateStringEveningCorrected()
    ensures var env := Env(EcuadorOffset, DateTime(Date(2024, 6, 10), 20 * 60), 0);
      EcuadorDateString(env, Undefined) == Some("2024-06-10")
  {
    var env := Env(EcuadorOffset, DateTime(Date(2024, 6, 10), 20 * 60), 0);
    assert ShiftMinutes(env.now, Skew(env)) == env.now;
    assert ToEcuadorTime(env, Given(Now(env))) == Moment(env.now, 0);
    assert EcuadorDateString(env, Undefined) == Some(IsoYear(2024) + "-" + TwoDigits(6) + "-" + TwoDigits(10));
    JuneDigits();
  }

  /** `isWorkingHours(date)`: the converted hour lies in 8..15; an Invalid
      Date's NaN hour fails both comparisons. */
  function IsWorkingHours(env: Env, a: Arg): (b: bool)
    requires ValidEnv(env) && ValidArg(a)
    ensures b <==> ToEcuadorTime(env, a).Moment? && 8 <= Hour(ToEcuadorTime(env, a).local) < 16
  {
    match ToEcuadorTime(env, a)
    case InvalidDate => false
    case Moment(t, _) => 8 <= Hour(t) && Hour(t) < 16
  }

  /** For a `Date`, working hours are judged on the Ecuador clock of its
      instant, whatever the device's zone. */
  lemma WorkingHoursOnEcuadorClock(env: Env, t: DateTime, ms: int)
    requires ValidEnv(env) && ValidDateTime(t) && 0 <= ms < 60000
    ensures IsWorkingHours(env, Given(Moment(t, ms)))
        <==> 8 <= Hour(ShiftMinutes(InstantOf(env, t, ms).utc, EcuadorOffset)) < 16
  {
    ConvertShowsEcuadorTime(env, t, ms);
  }
}
