/** What the two weekly calendar grids share, line for line: the Monday of
    an anchor's week, the `HH:MM` slot labels and their parsing, the day
    headers, the week-range label and the slot a click selects. */
module Grid {
  import opened Dates
  import opened Text
  import opened Rfc3339
  import opened JsDates

  // ---------------------------------------------------------------------
  // The week of an anchor date

  /** `getDate() - day + (day === 0 ? -6 : 1)` as a move in days. */
  function MondayDelta(w: int): int { (if w == 0 then -6 else 1) - w }

  /** The Monday on or before `d`: a Sunday belongs to the week that
      started six days earlier. */
  function MondayOf(d: Date): (m: Date)
    requires ValidDate(d)
    ensures ValidDate(m) && Weekday(m) == 1
    ensures DayNumber(d) - 6 <= DayNumber(m) <= DayNumber(d)
    ensures Weekday(d) == 0 ==> DayNumber(m) == DayNumber(d) - 6
  {
    MondayDeltaMoves(d, MondayDelta(Weekday(d)));
    AddDays(d, MondayDelta(Weekday(d)))
  }

  lemma MondayDeltaMoves(d: Date, delta: int)
    requires ValidDate(d) && delta == MondayDelta(Weekday(d))
    ensures ValidDate(AddDays(d, delta)) && Weekday(AddDays(d, delta)) == 1
    ensures DayNumber(AddDays(d, delta)) == DayNumber(d) + delta
  {
    assert Weekday(AddDays(d, delta)) == 1 by {
      WeekdayAddDays(d, delta);
      MondayDeltaLandsOnMonday(Weekday(d), delta);
    }
    DayNumberAddDays(d, delta);
  }

  lemma MondayDeltaLandsOnMonday(w: int, delta: int)
    requires 0 <= w < 7 && delta == MondayDelta(w)
    ensures (w + delta) % 7 == 1
  {
    if w == 0 {
      assert w + delta == -6;
    } else {
      assert w + delta == 1;
    }
  }

  /** Moving a date by whole weeks keeps its Monday moving with it. */
  lemma MondayOfWeeks(d: Date, k: int)
    requires ValidDate(d)
    ensures MondayOf(AddDays(d, 7 * k)) == AddDays(MondayOf(d), 7 * k)
  {
    var d2 := AddDays(d, 7 * k);
    var delta := MondayDelta(Weekday(d));
    assert MondayOf(d2) == AddDays(d2, delta) by {
      WeekdayWeeks(d, k);
    }
    assert MondayOf(d) == AddDays(d, delta);
    AddDaysSwap(d, 7 * k, delta);
  }

  /** `startOfWeek.setDate(diff)`: the anchor moved to its Monday, time kept. */
  function StartOfWeek(d: JsDate): (r: JsDate)
    requires ValidJs(d)
    ensures ValidJs(r) && r.Moment? == d.Moment?
  {
    match d
    case InvalidDate => InvalidDate
    case Moment(t, _) => SetDate(d, t.date.day + MondayDelta(Weekday(t.date)))
  }

  lemma StartOfWeekIsMonday(t: DateTime, ms: int)
    requires ValidDateTime(t) && 0 <= ms < 60000
    ensures StartOfWeek(Moment(t, ms)) == Moment(DateTime(MondayOf(t.date), t.minute), ms)
  {
    SetDateRelative(t, ms, MondayDelta(Weekday(t.date)));
  }

  /** The six displayed days built on copies of the `Date`: `new
      Date(startOfWeek)` then `setDate(startOfWeek.getDate() + i)`. */
  function CopyWeekDay(start: JsDate, i: int): (r: JsDate)
    requires ValidJs(start)
    ensures ValidJs(r)
  {
    match start
    case InvalidDate => InvalidDate
    case Moment(t, _) => SetDate(start, t.date.day + i)
  }

  /** `getWeekDays(date)` over copies, with no time-zone conversion. */
  function CopyWeekDays(date: JsDate): (days: seq<JsDate>)
    requires ValidJs(date)
    ensures |days| == 6 && forall i :: 0 <= i < 6 ==> ValidJs(days[i])
  {
    var start := StartOfWeek(date);
    seq(6, i requires 0 <= i < 6 => CopyWeekDay(start, i))
  }

  /** Six consecutive days from the Monday of the anchor's week, at the
      anchor's time of day. */
  lemma CopyWeekDaysFromMonday(t: DateTime, ms: int)
    requires ValidDateTime(t) && 0 <= ms < 60000
    ensures CopyWeekDays(Moment(t, ms)) == WeekFrom(MondayOf(t.date), t.minute, ms)
  {
    StartOfWeekIsMonday(t, ms);
    var m := MondayOf(t.date);
    forall i | 0 <= i < 6
      ensures CopyWeekDays(Moment(t, ms))[i] == WeekFrom(m, t.minute, ms)[i]
    {
      SetDateRelative(DateTime(m, t.minute), ms, i);
    }
  }

  /** `newWeek.setDate(newWeek.getDate() + direction * 7)` on a copy. */
  function CopyNavigate(d: JsDate, direction: int): (r: JsDate)
    requires ValidJs(d)
    ensures ValidJs(r) && r.Moment? == d.Moment?
  {
    match d
    case InvalidDate => InvalidDate
    case Moment(t, _) => SetDate(d, t.date.day + 7 * direction)
  }

  /** Navigation moves the anchor by exactly seven days per step and keeps
      its time. */
  lemma CopyNavigateMoves(t: DateTime, ms: int, direction: int)
    requires ValidDateTime(t) && 0 <= ms < 60000
    ensures CopyNavigate(Moment(t, ms), direction) == Moment(DateTime(AddDays(t.date, 7 * direction), t.minute), ms)
  {
    SetDateRelative(t, ms, 7 * direction);
  }

  /** The displayed week after a step is the old one moved by seven days. */
  lemma CopyNavigateShiftsWeek(t: DateTime, ms: int, direction: int)
    requires ValidDateTime(t) && 0 <= ms < 60000
    ensures CopyWeekDays(CopyNavigate(Moment(t, ms), direction))
         == WeekFrom(AddDays(MondayOf(t.date), 7 * direction), t.minute, ms)
  {
    CopyNavigateMoves(t, ms, direction);
    CopyWeekDaysFromMonday(DateTime(AddDays(t.date, 7 * direction), t.minute), ms);
    MondayOfWeeks(t.date, direction);
  }

  /** A step forward and one back show the same six days. */
  lemma CopyNavigateBackAndForth(t: DateTime, ms: int, direction: int)
    requires ValidDateTime(t) && 0 <= ms < 60000
    ensures CopyWeekDays(CopyNavigate(CopyNavigate(Moment(t, ms), direction), -direction))
         == CopyWeekDays(Moment(t, ms))
  {
    CopyNavigateMoves(t, ms, direction);
    CopyNavigateMoves(DateTime(AddDays(t.date, 7 * direction), t.minute), ms, -direction);
    AddDaysInverse(t.date, 7 * direction);
    assert 7 * -direction == -(7 * direction);
  }

  /** Every step shows a different first day. */
  lemma CopyNavigateChangesWeek(t: DateTime, ms: int, direction: int)
    requires ValidDateTime(t) && 0 <= ms < 60000 && direction != 0
    ensures CopyWeekDays(CopyNavigate(Moment(t, ms), direction))[0] != CopyWeekDays(Moment(t, ms))[0]
  {
    CopyNavigateShiftsWeek(t, ms, direction);
    CopyWeekDaysFromMonday(t, ms);
    var m := MondayOf(t.date);
    DayNumberAddDays(m, 7 * direction);
    DayNumberAddDays(m, 0);
  }

  // ---------------------------------------------------------------------
  // Slot labels `HH:MM`

  /** `${String(h).padStart(2, '0')}:${String(m).padStart(2, '0')}`. */
  function SlotText(h: nat, m: nat): (s: string)
    requires h < 100 && m < 100
    ensures |s| == 5 && s[2] == ':'
  {
    Pad2(h) + ":" + Pad2(m)
  }

  /** A slot label is the two-digit hour, a colon and the two-digit minute. */
  lemma SlotTextDigits(h: nat, m: nat)
    requires h < 100 && m < 100
    ensures SlotText(h, m) == TwoDigits(h) + ":" + TwoDigits(m)
  {
    Pad2IsTwoDigits(h);
    Pad2IsTwoDigits(m);
  }

  /** `const [hours, minutes] = time.split(':')` read with `parseInt`;
      `None` stands for `NaN` (a missing or non-numeric part). */
  function SlotFields(time: string): (r: (Option<int>, Option<int>))
  {
    var parts := Split(time, ':');
    (ParseIntJs(parts[0]), if |parts| > 1 then ParseIntJs(parts[1]) else None)
  }

  /** A slot label reads back as the hour and minute it was made from. */
  lemma SlotTextReadBack(h: nat, m: nat)
    requires h < 100 && m < 100
    ensures SlotFields(SlotText(h, m)) == (Some(h as int), Some(m as int))
  {
    assert ':' !in Pad2(h) by { assert AllDigits(Pad2(h)); }
    assert ':' !in Pad2(m) by { assert AllDigits(Pad2(m)); }
    assert SlotText(h, m) == Pad2(h) + [':'] + Pad2(m);
    SplitAround(Pad2(h), Pad2(m), ':');
    ParseIntPad2(h);
    ParseIntPad2(m);
  }

  /** Different slot labels come from different times. */
  lemma SlotTextInjective(h1: nat, m1: nat, h2: nat, m2: nat)
    requires h1 < 100 && m1 < 100 && h2 < 100 && m2 < 100
    requires SlotText(h1, m1) == SlotText(h2, m2)
    ensures h1 == h2 && m1 == m2
  {
    SlotTextReadBack(h1, m1);
    SlotTextReadBack(h2, m2);
  }

  /** `d.setHours(parseInt(hours), parseInt(minutes))`, keeping the seconds
      and milliseconds when `keepSeconds`, and `setHours(h, m, 0, 0)`
      otherwise. A `NaN` argument turns the date into an Invalid Date. */
  function AtSlot(d: JsDate, time: string, keepSeconds: bool): (r: JsDate)
    requires ValidJs(d)
    ensures ValidJs(r)
    ensures r.Moment? ==> d.Moment?
  {
    match SlotFields(time)
    case (Some(h), Some(m)) => if keepSeconds then SetHours(d, h, m) else SetTime(d, h, m)
    case _ => InvalidDate
  }

  /** At a slot label of the working day the date keeps its day and takes
      the slot's minute of the day. */
  lemma AtSlotText(t: DateTime, ms: int, h: nat, m: nat, keepSeconds: bool)
    requires ValidDateTime(t) && 0 <= ms < 60000 && h < 24 && m < 60
    ensures AtSlot(Moment(t, ms), SlotText(h, m), keepSeconds)
         == Moment(DateTime(t.date, 60 * h + m), if keepSeconds then ms else 0)
  {
    SlotTextReadBack(h, m);
    SetHoursWithinDay(Moment(t, ms), h, m);
  }

  // ---------------------------------------------------------------------
  // Labels

  const DayNames: seq<string> := ["Lun", "Mar", "Mié", "Jue", "Vie", "Sáb"]

  const MonthNames: seq<string> := ["Ene", "Feb", "Mar", "Abr", "May", "Jun", "Jul", "Ago", "Sep", "Oct", "Nov", "Dic"]

  /** `days[date.getDay() - 1] || 'Sáb'`: Sunday's index -1 (and an
      Invalid Date's `NaN`) finds nothing and falls back to `'Sáb'`. */
  function DayName(d: JsDate): string
    requires ValidJs(d)
  {
    if d.Moment? && 1 <= Weekday(d.local.date) <= 6 then DayNames[Weekday(d.local.date) - 1] else "Sáb"
  }

  /** `getDate()`, `getFullYear()` and `monthNames[getMonth()]` as
      template text; an Invalid Date shows `NaN` and `undefined`. */
  function DayText(d: JsDate): string { if d.Moment? then IntToString(d.local.date.day) else "NaN" }

  function YearText(d: JsDate): string { if d.Moment? then IntToString(d.local.date.year) else "NaN" }

  function MonthText(d: JsDate): string
    requires ValidJs(d)
  {
    if d.Moment? then MonthNames[d.local.date.month - 1] else "undefined"
  }

  /** `formatDateHeader(date)` of the grids: `${dayName} ${dayNumber}`. */
  function FormatDateHeader(d: JsDate): (s: string)
    requires ValidJs(d)
  {
    DayName(d) + " " + DayText(d)
  }

  /** The six headers of a week that starts on a Monday read Lun..Sáb in order. */
  lemma HeadersOfWeek(m: Date, minute: int, ms: int, i: int)
    requires ValidDate(m) && Weekday(m) == 1 && 0 <= minute < MinutesPerDay && 0 <= ms < 60000
    requires 0 <= i < 6
    ensures FormatDateHeader(Moment(DateTime(AddDays(m, i), minute), ms))
         == DayNames[i] + " " + IntToString(AddDays(m, i).day)
  {
    WeekdayAddDays(m, i);
    DivUnique(1 + i, 7, 0, 1 + i);
    assert Weekday(AddDays(m, i)) == 1 + i;
  }

  /** A Sunday is labelled as a Saturday. */
  lemma SundayHeader(t: DateTime, ms: int)
    requires ValidDateTime(t) && 0 <= ms < 60000 && Weekday(t.date) == 0
    ensures FormatDateHeader(Moment(t, ms)) == "Sáb " + IntToString(t.date.day)
  {
  }

  /** `getWeekRange()`: `d1 - d2 Mon YYYY` when the first and last day share
      a month, otherwise `d1 Mon1 - d2 Mon2 YYYY`, always with the first
      day's year. */
  function WeekRange(days: seq<JsDate>): (s: string)
    requires |days| > 0 && forall i :: 0 <= i < |days| ==> ValidJs(days[i])
  {
    var start, end := days[0], days[|days| - 1];
    if start.Moment? && end.Moment? && start.local.date.month == end.local.date.month then
      DayText(start) + " - " + DayText(end) + " " + MonthText(start) + " " + YearText(start)
    else
      DayText(start) + " " + MonthText(start) + " - " + DayText(end) + " " + MonthText(end) + " " + YearText(start)
  }

  /** Six days at one time of day, from `m` on. */
  function WeekFrom(m: Date, minute: int, ms: int): (days: seq<JsDate>)
    requires ValidDate(m) && 0 <= minute < MinutesPerDay && 0 <= ms < 60000
    ensures |days| == 6
    ensures forall i :: 0 <= i < 6 ==> ValidJs(days[i]) && days[i].Moment?
  {
    seq(6, i requires 0 <= i < 6 => Moment(DateTime(AddDays(m, i), minute), ms))
  }

  /** The label of a displayed week names its first day and the day five
      days later: day numbers only when the two share a month, each with its
      month otherwise. */
  lemma WeekRangeOfWeek(m: Date, minute: int, ms: int)
    requires ValidDate(m) && 0 <= minute < MinutesPerDay && 0 <= ms < 60000
    ensures var e := AddDays(m, 5);
      WeekRange(WeekFrom(m, minute, ms))
      == if e.month == m.month
         then IntToString(m.day) + " - " + IntToString(e.day) + " " + MonthNames[m.month - 1] + " " + IntToString(m.year)
         else IntToString(m.day) + " " + MonthNames[m.month - 1] + " - " + IntToString(e.day) + " " + MonthNames[e.month - 1] + " " + IntToString(m.year)
  {
    AddDaysZero(m);
  }

  lemma AddDaysZero(d: Date)
    requires ValidDate(d)
    ensures AddDays(d, 0) == d
  {
  }

  /** A week from Monday 10 June 2024, at any time of day. */
  lemma WeekRangeSameMonth(m: Date, minute: int, ms: int)
    requires m == Date(2024, 6, 10) && 0 <= minute < MinutesPerDay && 0 <= ms < 60000
    ensures WeekRange(WeekFrom(m, minute, ms)) == "10 - 15 Jun 2024"
  {
    JuneFifteenth();
    WeekRangeOfWeek(m, minute, ms);
    SameMonthText();
  }

  lemma JuneFifteenth()
    ensures AddDays(Date(2024, 6, 10), 5) == Date(2024, 6, 15)
  {
    AddDaysWithinMonth(2024, 6, 15);
    AddDaysWithinMonth(2024, 6, 10);
    AddDaysAdd(Date(2024, 6, 1), 9, 5);
  }

  lemma SameMonthText()
    ensures IntToString(10) + " - " + IntToString(15) + " " + MonthNames[5] + " " + IntToString(2024) == "10 - 15 Jun 2024"
  {
    SmallNumbers();
  }

  /** A week from Monday 30 September 2024 ends in October. */
  lemma WeekRangeAcrossMonths(m: Date, minute: int, ms: int)
    requires m == Date(2024, 9, 30) && 0 <= minute < MinutesPerDay && 0 <= ms < 60000
    ensures WeekRange(WeekFrom(m, minute, ms)) == "30 Sep - 5 Oct 2024"
  {
    FiveDaysAfter(m, Date(2024, 10, 1), 1, Date(2024, 10, 5));
    WeekRangeOfWeek(m, minute, ms);
    AcrossMonthsText();
  }

  lemma AcrossMonthsText()
    ensures IntToString(30) + " " + MonthNames[8] + " - " + IntToString(5) + " " + MonthNames[9] + " " + IntToString(2024)
      == "30 Sep - 5 Oct 2024"
  {
    SmallNumbers();
  }

  /** A week from Monday 30 December is labelled with the year it starts in. */
  lemma WeekRangeAcrossYears(m: Date, minute: int, ms: int)
    requires m == Date(2024, 12, 30) && 0 <= minute < MinutesPerDay && 0 <= ms < 60000
    ensures WeekRange(WeekFrom(m, minute, ms)) == "30 Dic - 4 Ene 2024"
  {
    NewYearsDay();
    FiveDaysAfter(m, Date(2025, 1, 1), 2, Date(2025, 1, 4));
    WeekRangeOfWeek(m, minute, ms);
    AcrossYearsText();
  }

  lemma NewYearsDay()
    ensures AddDays(Date(2024, 12, 30), 2) == Date(2025, 1, 1)
  {
    assert AddDays(Date(2024, 12, 30), 1) == Date(2024, 12, 31);
    AddDaysAdd(Date(2024, 12, 30), 1, 1);
  }

  lemma AcrossYearsText()
    ensures IntToString(30) + " " + MonthNames[11] + " - " + IntToString(4) + " " + MonthNames[0] + " " + IntToString(2024)
      == "30 Dic - 4 Ene 2024"
  {
    SmallNumbers();
  }

  /** Five days after `m`, passing the first of the next month `k` days in. */
  lemma FiveDaysAfter(m: Date, first: Date, k: int, e: Date)
    requires ValidDate(m) && 0 < k <= 5 && AddDays(m, k) == first && first.day == 1
    requires e == Date(first.year, first.month, 6 - k) && 6 - k <= DaysInMonth(first.year, first.month)
    ensures AddDays(m, 5) == e
  {
    AddDaysAdd(m, k, 5 - k);
    AddDaysWithinMonth(first.year, first.month, 6 - k);
  }

  lemma SmallNumbers()
    ensures IntToString(4) == "4" && IntToString(5) == "5"
    ensures IntToString(10) == "10" && IntToString(15) == "15" && IntToString(30) == "30"
    ensures IntToString(2024) == "2024"
  {
    assert NatToString(1) == "1" && NatToString(3) == "3";
    assert NatToString(20) == "20";
    assert NatToString(202) == "202";
  }

  // ---------------------------------------------------------------------
  // The slot a click selects

  /** `selectedSlot`: the label, the `Date` of the slot and the first
      sixteen characters of its ISO string. */
  datatype Slot = Slot(time: string, date: JsDate, formatted: string)

  /** `handleSlotClick(time, date)` up to the state update: a copy of the
      date set to the slot's hour and minute (seconds kept) and
      `toISOString().slice(0, 16)`; `None` where `toISOString` throws. */
  function SlotSelection(env: Env, time: string, day: JsDate): (r: Option<Slot>)
    requires ValidEnv(env) && ValidJs(day)
    ensures r.Some? ==> ValidJs(r.value.date) && r.value.date.Moment? && r.value.time == time
  {
    var dt := AtSlot(day, time, true);
    match ToIsoString(env, dt)
    case None => None
    case Some(iso) => Some(Slot(time, dt, iso[..16]))
  }

  /** Only a slot label that leaves an Invalid Date selects nothing. */
  lemma SlotSelectionFails(env: Env, time: string, day: JsDate)
    requires ValidEnv(env) && ValidJs(day)
    ensures SlotSelection(env, time, day).None? <==> AtSlot(day, time, true).InvalidDate?
  {
  }

  /** The selected slot carries the day at the slot's time, and its
      `formatted` text is the UTC wall time of that moment, not the local
      or Ecuador time. */
  lemma SlotSelectionMeaning(env: Env, t: DateTime, ms: int, h: nat, m: nat)
    requires ValidEnv(env) && ValidDateTime(t) && 0 <= ms < 60000 && h < 24 && m < 60
    requires 0 <= InstantOf(env, DateTime(t.date, 60 * h + m), ms).utc.date.year < 10000
    ensures var slot := DateTime(t.date, 60 * h + m);
      SlotSelection(env, SlotText(h, m), Moment(t, ms))
      == Some(Slot(SlotText(h, m), Moment(slot, ms), InputForm(InstantOf(env, slot, ms).utc)))
  {
    AtSlotText(t, ms, h, m, true);
    IsoStringPrefix(InstantOf(env, DateTime(t.date, 60 * h + m), ms));
  }
}
