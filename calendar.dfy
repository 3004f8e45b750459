/** The refactored weekly calendar grid: hour slots from 08:00 to 16:00, a
    Monday-to-Saturday week built through `toEcuadorTime`, week navigation,
    the appointments of each cell and the component's state. */
module Calendar {
  import opened Dates
  import opened Text
  import opened Rfc3339
  import opened JsDates
  import opened Json
  import opened Lists
  import opened Timezone
  import opened Grid

  // ---------------------------------------------------------------------
  // Hour slots

  /** `${hour.toString().padStart(2, '0')}:00`. */
  function HourSlot(h: nat): (s: string)
  {
    Pad2(h) + ":00"
  }

  /** The slots from 08:00 to 16:00, one per whole hour. */
  function HourSlots(): (slots: seq<string>)
    ensures |slots| == 9
  {
    HourSlotsBetween(8, 17)
  }

  /** The slots of the hours from `a` up to but excluding `b`. */
  function HourSlotsBetween(a: nat, b: nat): (slots: seq<string>)
    requires a <= b
    ensures |slots| == b - a
  {
    seq(b - a, i requires 0 <= i < b - a => HourSlot(a + i))
  }

  lemma HourSlotsBetweenStep(a: nat, b: nat)
    requires a <= b
    ensures HourSlotsBetween(a, b + 1) == HourSlotsBetween(a, b) + [HourSlot(b)]
  {
  }

  /** `generateTimeSlots()`: the loop over `hour` from 8 to 16 inclusive. */
  method GenerateTimeSlots() returns (slots: seq<string>)
    ensures slots == HourSlots()
  {
    slots := [];
    for hour := 8 to 17
      invariant slots == HourSlotsBetween(8, hour)
    {
      HourSlotsBetweenStep(8, hour);
      slots := slots + [HourSlot(hour)];
    }
  }

  lemma HourSlotIsSlotText(h: nat)
    requires h < 100
    ensures HourSlot(h) == SlotText(h, 0)
  {
    assert Pad2(0) == "00";
  }

  /** Nine slots, the first `08:00` and the last `16:00`. */
  lemma HourSlotsBounds()
    ensures |HourSlots()| == 9 && HourSlots()[0] == "08:00" && HourSlots()[8] == "16:00"
  {
    HourSlotsIndex(0);
    HourSlotsIndex(8);
    EdgeSlots();
  }

  lemma HourSlotsIndex(i: int)
    requires 0 <= i < 9
    ensures HourSlots()[i] == HourSlot(8 + i)
  {
  }

  lemma EdgeSlots()
    ensures HourSlot(8) == "08:00" && HourSlot(16) == "16:00"
  {
    assert Pad2(8) == "08";
    assert NatToString(16) == "16";
  }

  /** Slot `i` reads back as hour `8 + i`, minute 0. */
  lemma HourSlotReadBack(i: int)
    requires 0 <= i < 9
    ensures SlotFields(HourSlots()[i]) == (Some(8 + i), Some(0))
  {
    HourSlotAt(i);
    SlotTextReadBack(8 + i, 0);
  }

  /** The slots are strictly increasing in the hour they read back as, so
      no two are equal. */
  lemma HourSlotsIncreasing(i: int, j: int)
    requires 0 <= i < j < 9
    ensures SlotFields(HourSlots()[i]).0.Some? && SlotFields(HourSlots()[j]).0.Some?
      && SlotFields(HourSlots()[i]).0.value < SlotFields(HourSlots()[j]).0.value
    ensures HourSlots()[i] != HourSlots()[j]
  {
    HourSlotReadBack(i);
    HourSlotReadBack(j);
  }

  // ---------------------------------------------------------------------
  // The displayed week

  /** One day of the loop: `toEcuadorTime(startOfWeek)` then
      `setDate(startOfWeek.getDate() + i)`. */
  function WeekDay(env: Env, start: JsDate, i: int): (r: JsDate)
    requires ValidEnv(env) && ValidJs(start)
    ensures ValidJs(r)
  {
    match start
    case InvalidDate => InvalidDate
    case Moment(t, _) => SetDate(ToEcuadorTime(env, Given(start)), t.date.day + i)
  }

  /** The six days `getWeekDays(date)` returns: the converted anchor moved
      to its Monday, each day converted again before its day is set. */
  function WeekDays(env: Env, date: JsDate): (days: seq<JsDate>)
    requires ValidEnv(env) && ValidJs(date)
    ensures |days| == 6 && forall i :: 0 <= i < 6 ==> ValidJs(days[i])
  {
    DaysFrom(env, StartOfWeek(ToEcuadorTime(env, Given(date))))
  }

  /** The six days the loop builds from a start. */
  function DaysFrom(env: Env, start: JsDate): (days: seq<JsDate>)
    requires ValidEnv(env) && ValidJs(start)
    ensures |days| == 6 && forall i :: 0 <= i < 6 ==> ValidJs(days[i])
  {
    seq(6, i requires 0 <= i < 6 => WeekDay(env, start, i))
  }

  /** `getWeekDays(date)`. */
  method GetWeekDays(env: Env, date: JsDate) returns (week: seq<JsDate>)
    requires ValidEnv(env) && ValidJs(date)
    ensures week == WeekDays(env, date)
  {
    var startOfWeek := ToEcuadorTime(env, Given(date));
    startOfWeek := StartOfWeek(startOfWeek);
    week := [];
    var i := 0;
    while i < 6
      invariant 0 <= i <= 6
      invariant |week| == i
      invariant forall k :: 0 <= k < i ==> week[k] == WeekDay(env, startOfWeek, k)
    {
      var day := ToEcuadorTime(env, Given(startOfWeek));
      match startOfWeek {
        case Moment(t, _) => day := SetDate(day, t.date.day + i);
        case InvalidDate =>
      }
      week := week + [day];
      i := i + 1;
    }
  }

  /** On a device at UTC-5 the grid shows six consecutive days from the
      Monday of the anchor's week (a Sunday going back six days). */
  lemma WeekDaysOnEcuadorDevice(env: Env, t: DateTime, ms: int)
    requires ValidEnv(env) && ValidDateTime(t) && 0 <= ms < 60000 && Skew(env) == 0
    ensures WeekDays(env, Moment(t, ms)) == WeekFrom(MondayOf(t.date), t.minute, ms / 1000 * 1000)
  {
    var tr := ms / 1000 * 1000;
    var start := StartOfWeek(ToEcuadorTime(env, Given(Moment(t, ms))));
    ConvertedStart(env, t, ms, start);
    WholeSeconds(ms);
    WeekFromStart(env, start, MondayOf(t.date), t.minute, tr);
  }

  lemma ConvertedStart(env: Env, t: DateTime, ms: int, start: JsDate)
    requires ValidEnv(env) && ValidDateTime(t) && 0 <= ms < 60000 && Skew(env) == 0
    requires start == StartOfWeek(ToEcuadorTime(env, Given(Moment(t, ms))))
    ensures start == Moment(DateTime(MondayOf(t.date), t.minute), ms / 1000 * 1000)
  {
    ShiftZero(t);
    StartOfWeekIsMonday(t, ms / 1000 * 1000);
  }

  /** The six days built from a start on a device at UTC-5. */
  lemma WeekFromStart(env: Env, start: JsDate, m: Date, minute: int, tr: int)
    requires ValidEnv(env) && ValidDate(m) && 0 <= minute < MinutesPerDay && 0 <= tr < 60000 && tr % 1000 == 0
    requires Skew(env) == 0 && start == Moment(DateTime(m, minute), tr)
    ensures DaysFrom(env, start) == WeekFrom(m, minute, tr)
  {
    forall i | 0 <= i < 6
      ensures WeekDay(env, start, i) == WeekFrom(m, minute, tr)[i]
    {
      WeekDayOnEcuadorDevice(env, m, minute, tr, i);
    }
  }

  lemma WeekDayOnEcuadorDevice(env: Env, m: Date, minute: int, tr: int, i: int)
    requires ValidEnv(env) && ValidDate(m) && 0 <= minute < MinutesPerDay && 0 <= tr < 60000 && tr % 1000 == 0
    requires Skew(env) == 0
    ensures WeekDay(env, Moment(DateTime(m, minute), tr), i) == Moment(DateTime(AddDays(m, i), minute), tr)
  {
    var mt := DateTime(m, minute);
    ConvertUnchanged(env, mt, tr);
    SetDateRelative(mt, tr, i);
  }

  /** On a device at UTC-5 the conversion leaves a whole-second moment as it is. */
  lemma ConvertUnchanged(env: Env, t: DateTime, tr: int)
    requires ValidEnv(env) && ValidDateTime(t) && 0 <= tr < 60000 && tr % 1000 == 0
    requires Skew(env) == 0
    ensures ToEcuadorTime(env, Given(Moment(t, tr))) == Moment(t, tr)
  {
    ShiftZero(t);
    assert tr / 1000 * 1000 == tr;
  }

  /** On a device at UTC-5 the grid's week is the one built on copies with
      no conversion. */
  lemma WeekDaysAgreeWithCopies(env: Env, t: DateTime, ms: int)
    requires ValidEnv(env) && ValidDateTime(t) && 0 <= ms < 60000 && Skew(env) == 0
    ensures WeekDays(env, Moment(t, ms)) == CopyWeekDays(Convert(env, Moment(t, ms)))
  {
    WeekDaysOnEcuadorDevice(env, t, ms);
    ShiftZero(t);
    CopyWeekDaysFromMonday(t, ms / 1000 * 1000);
  }

  // ---------------------------------------------------------------------
  // Navigation

  /** `navigateWeek(direction)`: the new anchor after the conversion, the
      seven-day move and a second conversion. */
  function NavigatedWeek(env: Env, current: JsDate, direction: int): (r: JsDate)
    requires ValidEnv(env) && ValidJs(current)
    ensures ValidJs(r) && r.Moment? == current.Moment?
  {
    var newWeek := ToEcuadorTime(env, Given(current));
    var moved := match newWeek
      case InvalidDate => InvalidDate
      case Moment(t, _) => SetDate(newWeek, t.date.day + direction * 7);
    ToEcuadorTime(env, Given(moved))
  }

  /** On a device at UTC-5 a step moves the anchor by exactly seven days. */
  lemma NavigateOnEcuadorDevice(env: Env, t: DateTime, ms: int, direction: int)
    requires ValidEnv(env) && ValidDateTime(t) && 0 <= ms < 60000 && Skew(env) == 0
    ensures NavigatedWeek(env, Moment(t, ms), direction)
         == Moment(DateTime(AddDays(t.date, 7 * direction), t.minute), ms / 1000 * 1000)
  {
    var tr := ms / 1000 * 1000;
    ShiftZero(t);
    SetDateRelative(t, tr, direction * 7);
    ShiftZero(DateTime(AddDays(t.date, 7 * direction), t.minute));
    WholeSeconds(ms);
  }

  /** ... so the displayed week moves by seven days. */
  lemma NavigateShiftsWeek(env: Env, t: DateTime, ms: int, direction: int)
    requires ValidEnv(env) && ValidDateTime(t) && 0 <= ms < 60000 && Skew(env) == 0
    ensures WeekDays(env, NavigatedWeek(env, Moment(t, ms), direction))
         == WeekFrom(AddDays(MondayOf(t.date), 7 * direction), t.minute, ms / 1000 * 1000)
  {
    var tr := ms / 1000 * 1000;
    NavigateOnEcuadorDevice(env, t, ms, direction);
    WeekDaysOnEcuadorDevice(env, DateTime(AddDays(t.date, 7 * direction), t.minute), tr);
    WholeSeconds(ms);
    MondayOfWeeks(t.date, direction);
  }

  /** ... and a step and a step back show the same six days again. */
  lemma NavigateBackAndForth(env: Env, t: DateTime, ms: int, direction: int)
    requires ValidEnv(env) && ValidDateTime(t) && 0 <= ms < 60000 && Skew(env) == 0
    ensures WeekDays(env, NavigatedWeek(env, NavigatedWeek(env, Moment(t, ms), direction), -direction))
         == WeekDays(env, Moment(t, ms))
  {
    BackAndForthAnchor(env, t, ms, direction);
    WeekDaysOfRounded(env, t, ms);
  }

  /** A step and a step back return to the anchor, its milliseconds
      truncated to whole seconds. */
  lemma BackAndForthAnchor(env: Env, t: DateTime, ms: int, direction: int)
    requires ValidEnv(env) && ValidDateTime(t) && 0 <= ms < 60000 && Skew(env) == 0
    ensures NavigatedWeek(env, NavigatedWeek(env, Moment(t, ms), direction), -direction)
         == Moment(t, ms / 1000 * 1000)
  {
    var tr := ms / 1000 * 1000;
    NavigateOnEcuadorDevice(env, t, ms, direction);
    var t1 := DateTime(AddDays(t.date, 7 * direction), t.minute);
    NavigateOnEcuadorDevice(env, t1, tr, -direction);
    AddDaysInverse(t.date, 7 * direction);
    assert 7 * -direction == -(7 * direction);
    WholeSeconds(ms);
  }

  /** The week shown does not depend on the anchor's milliseconds. */
  lemma WeekDaysOfRounded(env: Env, t: DateTime, ms: int)
    requires ValidEnv(env) && ValidDateTime(t) && 0 <= ms < 60000 && Skew(env) == 0
    ensures WeekDays(env, Moment(t, ms / 1000 * 1000)) == WeekDays(env, Moment(t, ms))
  {
    var tr := ms / 1000 * 1000;
    WholeSeconds(ms);
    WeekDaysOnEcuadorDevice(env, t, ms);
    WeekDaysOnEcuadorDevice(env, t, tr);
  }

  /** On a device at UTC+0, from Monday 10 June 2024 at 08:00, pressing
      "Siguiente" shows the same week again: each conversion moves the
      anchor back five hours, and the second one lands on Sunday evening,
      whose Monday is the old one. */
  lemma NavigateStallsOffEcuador()
    ensures var env := Env(0, DateTime(Date(2024, 6, 10), 480), 0);
      var current := Moment(DateTime(Date(2024, 6, 10), 480), 0);
      NavigatedWeek(env, current, 1) == Moment(DateTime(Date(2024, 6, 16), 1320), 0)
      && WeekDays(env, NavigatedWeek(env, current, 1))[0].local.date == Date(2024, 6, 10)
      && WeekDays(env, current)[0].local.date == Date(2024, 6, 10)
  {
    var env := Env(0, DateTime(Date(2024, 6, 10), 480), 0);
    var current := Moment(DateTime(Date(2024, 6, 10), 480), 0);
    StallFirstStep(env, current);
    StallSecondWeek(env);
    StallFirstWeek(env, current);
  }

  lemma StallFirstStep(env: Env, current: JsDate)
    requires env == Env(0, DateTime(Date(2024, 6, 10), 480), 0)
    requires current == Moment(DateTime(Date(2024, 6, 10), 480), 0)
    ensures NavigatedWeek(env, current, 1) == Moment(DateTime(Date(2024, 6, 16), 1320), 0)
  {
    var c := Moment(DateTime(Date(2024, 6, 10), 180), 0);
    FiveHoursBackSameDay(env, Date(2024, 6, 10), 480, 0);
    var moved := Moment(DateTime(Date(2024, 6, 17), 180), 0);
    SetDateInMonth(c, 17);
    FiveHoursBackDayBefore(env, Date(2024, 6, 17), Date(2024, 6, 16), 180, 0);
  }

  lemma StallSecondWeek(env: Env)
    requires env == Env(0, DateTime(Date(2024, 6, 10), 480), 0)
    ensures WeekDays(env, Moment(DateTime(Date(2024, 6, 16), 1320), 0))[0].local.date == Date(2024, 6, 10)
  {
    FiveHoursBackSameDay(env, Date(2024, 6, 16), 1320, 0);
    var c := Moment(DateTime(Date(2024, 6, 16), 1020), 0);
    SundayStart(c);
    var start := Moment(DateTime(Date(2024, 6, 10), 1020), 0);
    FiveHoursBackSameDay(env, Date(2024, 6, 10), 1020, 0);
    FirstDisplayedDay(env, Moment(DateTime(Date(2024, 6, 16), 1320), 0), start, Moment(DateTime(Date(2024, 6, 10), 720), 0));
  }

  lemma StallFirstWeek(env: Env, current: JsDate)
    requires env == Env(0, DateTime(Date(2024, 6, 10), 480), 0)
    requires current == Moment(DateTime(Date(2024, 6, 10), 480), 0)
    ensures WeekDays(env, current)[0].local.date == Date(2024, 6, 10)
  {
    FiveHoursBackSameDay(env, Date(2024, 6, 10), 480, 0);
    var c := Moment(DateTime(Date(2024, 6, 10), 180), 0);
    MondayStart(c);
    FiveHoursBackDayBefore(env, Date(2024, 6, 10), Date(2024, 6, 9), 180, 0);
    FirstDisplayedDay(env, current, c, Moment(DateTime(Date(2024, 6, 9), 1320), 0));
  }

  /** On a device at UTC+0 the conversion moves a moment five hours back,
      here within its day. */
  lemma FiveHoursBackSameDay(env: Env, d: Date, minute: int, ms: int)
    requires ValidEnv(env) && env.offset == 0 && ValidDate(d) && 300 <= minute < MinutesPerDay
    requires 0 <= ms < 60000 && ms % 1000 == 0
    ensures ToEcuadorTime(env, Given(Moment(DateTime(d, minute), ms))) == Moment(DateTime(d, minute - 300), ms)
  {
    DivUnique(minute - 300, MinutesPerDay, 0, minute - 300);
    assert AddDays(d, 0) == d;
    assert ms / 1000 * 1000 == ms;
  }

  /** ... and here across midnight into the day before. */
  lemma FiveHoursBackDayBefore(env: Env, d: Date, prev: Date, minute: int, ms: int)
    requires ValidEnv(env) && env.offset == 0 && ValidDate(d) && PrevDay(d) == prev && 0 <= minute < 300
    requires 0 <= ms < 60000 && ms % 1000 == 0
    ensures ToEcuadorTime(env, Given(Moment(DateTime(d, minute), ms)))
         == Moment(DateTime(prev, minute - 300 + MinutesPerDay), ms)
  {
    DivUnique(minute - 300, MinutesPerDay, -1, minute - 300 + MinutesPerDay);
    assert AddDays(d, -1) == AddDays(PrevDay(d), 0);
    assert ms / 1000 * 1000 == ms;
  }

  /** `setDate(n)` to a day of the same month. */
  lemma SetDateInMonth(c: JsDate, n: int)
    requires ValidJs(c) && c.Moment? && 1 <= n <= DaysInMonth(c.local.date.year, c.local.date.month)
    ensures SetDate(c, n) == Moment(DateTime(Date(c.local.date.year, c.local.date.month, n), c.local.minute), c.millis)
  {
    AddDaysWithinMonth(c.local.date.year, c.local.date.month, n);
  }

  /** From Sunday 16 June 2024 the week starts on Monday 10 June. */
  lemma SundayStart(c: JsDate)
    requires c.Moment? && c.local.date == Date(2024, 6, 16) && 0 <= c.local.minute < MinutesPerDay && 0 <= c.millis < 60000
    ensures StartOfWeek(c) == Moment(DateTime(Date(2024, 6, 10), c.local.minute), c.millis)
  {
    SundayJune16();
    SetDateInMonth(c, 10);
  }

  /** Monday 10 June 2024 is its own week's start. */
  lemma MondayStart(c: JsDate)
    requires c.Moment? && c.local.date == Date(2024, 6, 10) && 0 <= c.local.minute < MinutesPerDay && 0 <= c.millis < 60000
    ensures StartOfWeek(c) == c
  {
    MondayJune10();
    SetDateInMonth(c, 10);
  }

  /** The first displayed day: the converted start with the start's day of
      the month set. */
  lemma FirstDisplayedDay(env: Env, date: JsDate, start: JsDate, converted: JsDate)
    requires ValidEnv(env) && ValidJs(date) && start == StartOfWeek(ToEcuadorTime(env, Given(date)))
    requires start.Moment? && ToEcuadorTime(env, Given(start)) == converted && converted.Moment?
    requires 1 <= start.local.date.day <= DaysInMonth(converted.local.date.year, converted.local.date.month)
    ensures WeekDays(env, date)[0].local.date
         == Date(converted.local.date.year, converted.local.date.month, start.local.date.day)
  {
    assert DaysFrom(env, start)[0] == WeekDay(env, start, 0);
    SetDateInMonth(converted, start.local.date.day);
  }

  lemma SundayJune16()
    ensures Weekday(Date(2024, 6, 16)) == 0
  {
    assert DayNumber(Date(2024, 6, 16)) == 739053;
  }

  lemma MondayJune10()
    ensures Weekday(Date(2024, 6, 10)) == 1
  {
    assert DayNumber(Date(2024, 6, 10)) == 739047;
  }

  // ---------------------------------------------------------------------
  // The appointments of a cell

  /** `apt.appointment_date` as the argument the helper receives: the
      backend sends a string or `null`. */
  function DateArg(v: Option<Json>): Arg
  {
    match v
    case Some(JStr(s)) => Str(s)
    case Some(JNull) => Null
    case _ => Undefined
  }

  /** `formatDateFromBackend(apt.appointment_date)`. */
  function AppointmentDate(env: Env, apt: Json): (d: JsDate)
    requires ValidEnv(env)
    ensures ValidJs(d)
  {
    FormatDateFromBackend(env, DateArg(Field(apt, "appointment_date")))
  }

  /** The filter of `getAppointmentsForSlot(time, date)`: the slot is the
      converted day at the slot's hour and minute with seconds zeroed, and
      an appointment matches on year, month, day, hour and
      `Math.floor(minutes / 60)`. `NaN` fields of an Invalid Date equal
      nothing. */
  predicate SlotMatches(env: Env, time: string, day: JsDate, apt: Json)
    requires ValidEnv(env) && ValidJs(day)
  {
    var slot := AtSlot(ToEcuadorTime(env, Given(day)), time, false);
    var a := AppointmentDate(env, apt);
    a.Moment? && slot.Moment? && a.local.date == slot.local.date && Hour(a.local) == Hour(slot.local)
    && MinuteOfHour(a.local) / 60 == MinuteOfHour(slot.local) / 60
  }

  /** `getAppointmentsForSlot(time, date)`: the matching appointments, in order. */
  function AppointmentsForSlot(env: Env, appointments: seq<Json>, time: string, day: JsDate): (r: seq<Json>)
    requires ValidEnv(env) && ValidJs(day)
    ensures |r| <= |appointments|
    decreases |appointments|
  {
    if |appointments| == 0 then []
    else
      var rest := AppointmentsForSlot(env, appointments[1..], time, day);
      if SlotMatches(env, time, day, appointments[0]) then [appointments[0]] + rest else rest
  }

  /** The cell keeps its appointments in the order of the list. */
  lemma {:induction false} AppointmentsForSlotSublist(env: Env, appointments: seq<Json>, time: string, day: JsDate)
    requires ValidEnv(env) && ValidJs(day)
    ensures Sublist(AppointmentsForSlot(env, appointments, time, day), appointments)
    decreases |appointments|
  {
    if |appointments| > 0 {
      var rest := AppointmentsForSlot(env, appointments[1..], time, day);
      AppointmentsForSlotSublist(env, appointments[1..], time, day);
      SublistCons(appointments[0], rest, appointments);
    }
  }

  /** An appointment is in the cell exactly when it is in the list and
      matches the cell. */
  lemma {:induction false} AppointmentsForSlotMembers(env: Env, appointments: seq<Json>, time: string, day: JsDate, x: Json)
    requires ValidEnv(env) && ValidJs(day)
    ensures x in AppointmentsForSlot(env, appointments, time, day)
      <==> x in appointments && SlotMatches(env, time, day, x)
    decreases |appointments|
  {
    if |appointments| > 0 {
      var rest := AppointmentsForSlot(env, appointments[1..], time, day);
      AppointmentsForSlotMembers(env, appointments[1..], time, day, x);
      MemberOfCons(appointments[0], appointments[1..], x);
      MemberOfCons(appointments[0], rest, x);
      assert appointments == [appointments[0]] + appointments[1..];
    }
  }

  /** The minute term of the match is always 0 = 0. */
  lemma MinuteTermVanishes(t: DateTime)
    ensures 0 <= t.minute ==> MinuteOfHour(t) / 60 == 0
  {
  }

  /** An appointment lands in the cell of hour slot `h` on a day exactly
      when its Ecuador date is the converted day's date and its hour is
      `h`: its minutes play no part. */
  lemma SlotMatchIff(env: Env, t: DateTime, ms: int, h: nat, apt: Json)
    requires ValidEnv(env) && ValidDateTime(t) && 0 <= ms < 60000 && h < 24
    ensures var a := AppointmentDate(env, apt);
      SlotMatches(env, SlotText(h, 0), Moment(t, ms), apt)
      <==> a.Moment? && a.local.date == Convert(env, Moment(t, ms)).local.date && Hour(a.local) == h
  {
    var c := Convert(env, Moment(t, ms));
    var slot := Moment(DateTime(c.local.date, 60 * h), 0);
    HourSlotInstant(env, t, ms, h, slot);
    SlotMatchesAtSlot(env, SlotText(h, 0), Moment(t, ms), apt, slot);
  }

  /** The cell's instant: the converted day at `h`:00:00.000. */
  lemma HourSlotInstant(env: Env, t: DateTime, ms: int, h: nat, slot: JsDate)
    requires ValidEnv(env) && ValidDateTime(t) && 0 <= ms < 60000 && h < 24
    requires slot == Moment(DateTime(Convert(env, Moment(t, ms)).local.date, 60 * h), 0)
    ensures AtSlot(ToEcuadorTime(env, Given(Moment(t, ms))), SlotText(h, 0), false) == slot
    ensures Hour(slot.local) == h && MinuteOfHour(slot.local) == 0
  {
    var c := Convert(env, Moment(t, ms));
    assert ToEcuadorTime(env, Given(Moment(t, ms))) == c;
    AtSlotText(c.local, c.millis, h, 0, false);
    OnTheHour(c.local.date, h);
  }

  lemma OnTheHour(d: Date, h: nat)
    ensures Hour(DateTime(d, 60 * h)) == h && MinuteOfHour(DateTime(d, 60 * h)) == 0
  {
    DivUnique(60 * h, 60, h, 0);
  }

  /** Against a valid slot instant on the hour, the match compares the
      date and the hour only. */
  lemma SlotMatchesAtSlot(env: Env, time: string, day: JsDate, apt: Json, slot: JsDate)
    requires ValidEnv(env) && ValidJs(day)
    requires AtSlot(ToEcuadorTime(env, Given(day)), time, false) == slot
    requires slot.Moment? && MinuteOfHour(slot.local) == 0
    ensures var a := AppointmentDate(env, apt);
      SlotMatches(env, time, day, apt)
      <==> a.Moment? && a.local.date == slot.local.date && Hour(a.local) == Hour(slot.local)
  {
    var a := AppointmentDate(env, apt);
    if a.Moment? {
      MinuteTermVanishes(a.local);
    }
  }

  /** An appointment record holding only its `appointment_date` text. */
  function DatedAppointment(text: string): (apt: Json)
    ensures Field(apt, "appointment_date") == Some(JStr(text))
  {
    JObject(map["appointment_date" := JStr(text)])
  }

  lemma DatedAppointmentDate(env: Env, text: string)
    requires ValidEnv(env)
    ensures AppointmentDate(env, DatedAppointment(text)) == FormatDateFromBackend(env, Str(text))
  {
    assert DateArg(Field(DatedAppointment(text), "appointment_date")) == Str(text);
  }

  /** A backend appointment at Ecuador time 09:45 (any hour and minute)
      lands in the cell labelled with its hour, `09:00`, of the column
      whose converted date is its Ecuador date. */
  lemma AppointmentInItsHourCell(env: Env, ts: Timestamp, off: int, t: DateTime, ms: int, h: nat)
    requires ValidEnv(env) && ValidTimestamp(ts) && ValidOffset(off)
    requires 0 <= ShiftMinutes(ts.utc, off).date.year < 10000
    requires ValidDateTime(t) && 0 <= ms < 60000
    requires Convert(env, Moment(t, ms)).local.date == ShiftMinutes(ts.utc, EcuadorOffset).date
    requires h == Hour(ShiftMinutes(ts.utc, EcuadorOffset)) && h < 24
    ensures SlotMatches(env, SlotText(h, 0), Moment(t, ms), DatedAppointment(TimestampText(ts, off)))
  {
    var apt := DatedAppointment(TimestampText(ts, off));
    DatedAppointmentDate(env, TimestampText(ts, off));
    FromBackendShowsEcuadorTime(env, ts, off);
    SlotMatchIff(env, t, ms, h, apt);
  }

  /** On a device at UTC-5, an appointment on one of the six displayed days
      at hour 8..16 matches exactly one (day, slot) cell of the grid. */
  lemma ExactlyOneCell(env: Env, t: DateTime, ms: int, apt: Json, i0: int)
    requires ValidEnv(env) && ValidDateTime(t) && 0 <= ms < 60000 && Skew(env) == 0
    requires 0 <= i0 < 6
    requires AppointmentDate(env, apt).Moment?
    requires AppointmentDate(env, apt).local.date == AddDays(MondayOf(t.date), i0)
    requires 8 <= Hour(AppointmentDate(env, apt).local) <= 16
    ensures forall i, j :: 0 <= i < 6 && 0 <= j < 9 ==>
      (SlotMatches(env, HourSlots()[j], WeekDays(env, Moment(t, ms))[i], apt)
       <==> i == i0 && j == Hour(AppointmentDate(env, apt).local) - 8)
  {
    var a := AppointmentDate(env, apt);
    var m := MondayOf(t.date);
    forall i, j | 0 <= i < 6 && 0 <= j < 9
      ensures SlotMatches(env, HourSlots()[j], WeekDays(env, Moment(t, ms))[i], apt)
          <==> i == i0 && j == Hour(a.local) - 8
    {
      CellCondition(env, t, ms, apt, i, j);
      if i != i0 {
        AddDaysDistinct(m, i, i0);
      }
    }
  }

  /** On a device at UTC-5, an appointment on a Sunday or outside hours
      8..16 matches no cell. */
  lemma NoCell(env: Env, t: DateTime, ms: int, apt: Json)
    requires ValidEnv(env) && ValidDateTime(t) && 0 <= ms < 60000 && Skew(env) == 0
    requires AppointmentDate(env, apt).Moment? ==>
      Weekday(AppointmentDate(env, apt).local.date) == 0
      || Hour(AppointmentDate(env, apt).local) < 8 || Hour(AppointmentDate(env, apt).local) > 16
    ensures forall i, j :: 0 <= i < 6 && 0 <= j < 9 ==>
      !SlotMatches(env, HourSlots()[j], WeekDays(env, Moment(t, ms))[i], apt)
  {
    forall i, j | 0 <= i < 6 && 0 <= j < 9
      ensures !SlotMatches(env, HourSlots()[j], WeekDays(env, Moment(t, ms))[i], apt)
    {
      CellCondition(env, t, ms, apt, i, j);
      DisplayedDayIsNotSunday(MondayOf(t.date), i);
    }
  }

  /** The six displayed days run from Monday to Saturday. */
  lemma DisplayedDayIsNotSunday(m: Date, i: int)
    requires ValidDate(m) && Weekday(m) == 1 && 0 <= i < 6
    ensures Weekday(AddDays(m, i)) == 1 + i
  {
    WeekdayAddDays(m, i);
    DivUnique(1 + i, 7, 0, 1 + i);
  }

  /** The match condition of cell (i, j) on a device at UTC-5. */
  lemma CellCondition(env: Env, t: DateTime, ms: int, apt: Json, i: int, j: int)
    requires ValidEnv(env) && ValidDateTime(t) && 0 <= ms < 60000 && Skew(env) == 0
    requires 0 <= i < 6 && 0 <= j < 9
    ensures var a := AppointmentDate(env, apt);
      SlotMatches(env, HourSlots()[j], WeekDays(env, Moment(t, ms))[i], apt)
      <==> a.Moment? && a.local.date == AddDays(MondayOf(t.date), i) && Hour(a.local) == 8 + j
  {
    var tr := ms / 1000 * 1000;
    var day := DateTime(AddDays(MondayOf(t.date), i), t.minute);
    DisplayedDay(env, t, ms, i, day);
    HourSlotAt(j);
    SlotMatchIff(env, day, tr, 8 + j, apt);
    UnshiftedDate(env, day, tr);
  }

  lemma DisplayedDay(env: Env, t: DateTime, ms: int, i: int, day: DateTime)
    requires ValidEnv(env) && ValidDateTime(t) && 0 <= ms < 60000 && Skew(env) == 0
    requires 0 <= i < 6 && day == DateTime(AddDays(MondayOf(t.date), i), t.minute)
    ensures WeekDays(env, Moment(t, ms))[i] == Moment(day, ms / 1000 * 1000)
  {
    WeekDaysOnEcuadorDevice(env, t, ms);
  }

  lemma HourSlotAt(j: int)
    requires 0 <= j < 9
    ensures HourSlots()[j] == SlotText(8 + j, 0)
  {
    HourSlotsIndex(j);
    HourSlotIsSlotText(8 + j);
  }

  lemma UnshiftedDate(env: Env, day: DateTime, tr: int)
    requires ValidEnv(env) && ValidDateTime(day) && 0 <= tr < 60000 && Skew(env) == 0
    ensures Convert(env, Moment(day, tr)).local == day
  {
    ShiftZero(day);
  }

  // ---------------------------------------------------------------------
  // The component's state

  /** `data.citas || data.appointments || []` of a week response: an array
      is truthy even when empty, so a present `citas` list always wins. */
  function WeekList(data: Json): (r: seq<Json>)
    ensures (Field(data, "citas").Some? && Field(data, "citas").value.JList?) ==> r == Field(data, "citas").value.items
    ensures !Truthy(Field(data, "citas")) && (Field(data, "appointments").Some? && Field(data, "appointments").value.JList?)
      ==> r == Field(data, "appointments").value.items
    ensures !Truthy(Field(data, "citas")) && !Truthy(Field(data, "appointments")) ==> r == []
  {
    var v := Or(Field(data, "citas"), Or(Field(data, "appointments"), JList([])));
    if v.JList? then v.items else []
  }

  class CalendarView {
    const env: Env
    var appointments: seq<Json>
    var currentWeek: JsDate
    var loading: bool
    var showModal: bool
    var selectedSlot: Option<Slot>
    var selectedAppointment: Option<Json>

    predicate Valid()
      reads this
    {
      ValidEnv(env) && ValidJs(currentWeek)
    }

    /** The initial state: the converted current time, loading, no modal. */
    constructor (env: Env)
      requires ValidEnv(env)
      ensures Valid() && this.env == env
      ensures currentWeek == ToEcuadorTime(env, Given(Now(env)))
      ensures appointments == [] && loading && !showModal
      ensures selectedSlot.None? && selectedAppointment.None?
    {
      this.env := env;
      appointments := [];
      currentWeek := ToEcuadorTime(env, Given(Now(env)));
      loading := true;
      showModal := false;
      selectedSlot := None;
      selectedAppointment := None;
    }

    /** `weekDays`, computed on each render. */
    method Days() returns (days: seq<JsDate>)
      requires Valid()
      ensures days == WeekDays(env, currentWeek)
    {
      days := GetWeekDays(env, currentWeek);
    }

    method NavigateWeek(direction: int)
      requires Valid()
      modifies this
      ensures Valid()
      ensures currentWeek == NavigatedWeek(env, old(currentWeek), direction)
      ensures appointments == old(appointments) && loading == old(loading) && showModal == old(showModal)
      ensures selectedSlot == old(selectedSlot) && selectedAppointment == old(selectedAppointment)
    {
      currentWeek := NavigatedWeek(env, currentWeek, direction);
    }

    /** The start of `fetchWeekAppointments()`: loading on, and the date the
      request asks for. */
    method StartFetch() returns (dateStr: Option<string>)
      requires Valid()
      modifies this
      ensures Valid() && loading
      ensures dateStr == GetEcuadorDateString(env, Given(currentWeek))
      ensures currentWeek == old(currentWeek) && appointments == old(appointments) && showModal == old(showModal)
      ensures selectedSlot == old(selectedSlot) && selectedAppointment == old(selectedAppointment)
    {
      loading := true;
      dateStr := GetEcuadorDateString(env, Given(currentWeek));
    }

    /** The end of the fetch: the list of an ok response is kept; loading
      ends whatever happened. */
    method FinishFetch(outcome: Outcome)
      requires Valid()
      modifies this
      ensures Valid() && !loading
      ensures appointments == if outcome.Ok? then WeekList(outcome.body) else old(appointments)
      ensures currentWeek == old(currentWeek) && showModal == old(showModal)
      ensures selectedSlot == old(selectedSlot) && selectedAppointment == old(selectedAppointment)
    {
      if outcome.Ok? {
        appointments := WeekList(outcome.body);
      }
      loading := false;
    }

    /** `handleSlotClick(time, date)`: nothing changes where `toISOString`
      throws. */
    method SlotClick(time: string, day: JsDate)
      requires Valid() && ValidJs(day)
      modifies this
      ensures Valid()
      ensures SlotSelection(env, time, day).Some? ==>
        selectedSlot == SlotSelection(env, time, day) && selectedAppointment.None? && showModal
      ensures SlotSelection(env, time, day).None? ==>
        selectedSlot == old(selectedSlot) && selectedAppointment == old(selectedAppointment) && showModal == old(showModal)
      ensures currentWeek == old(currentWeek)
      ensures appointments == old(appointments)
      ensures loading == old(loading)
    {
      var s := SlotSelection(env, time, day);
      if s.Some? {
        OpenForSlot(s.value);
      }
    }

    /** The state update of a slot click: create mode for `slot`. */
    method OpenForSlot(slot: Slot)
      requires Valid()
      modifies this
      ensures Valid()
      ensures selectedSlot == Some(slot) && selectedAppointment.None? && showModal
      ensures currentWeek == old(currentWeek) && appointments == old(appointments) && loading == old(loading)
    {
      selectedSlot, selectedAppointment, showModal := Some(slot), None, true;
    }

    /** The cell's `onClick`: create mode only when the cell is empty. */
    method CellClick(time: string, day: JsDate)
      requires Valid() && ValidJs(day)
      modifies this
      ensures Valid()
      ensures |AppointmentsForSlot(env, appointments, time, day)| > 0 ==>
        selectedSlot == old(selectedSlot) && selectedAppointment == old(selectedAppointment) && showModal == old(showModal)
      ensures |AppointmentsForSlot(env, appointments, time, day)| == 0 && SlotSelection(env, time, day).Some? ==>
        selectedSlot == SlotSelection(env, time, day) && selectedAppointment.None? && showModal
      ensures |AppointmentsForSlot(env, appointments, time, day)| == 0 && SlotSelection(env, time, day).None? ==>
        selectedSlot == old(selectedSlot) && selectedAppointment == old(selectedAppointment) && showModal == old(showModal)
      ensures currentWeek == old(currentWeek) && appointments == old(appointments) && loading == old(loading)
    {
      if |AppointmentsForSlot(env, appointments, time, day)| == 0 {
        SlotClick(time, day);
      }
    }

    /** `handleAppointmentClick(appointment)`, reached through
      `stopPropagation`, so the cell's own click does not run. */
    method AppointmentClick(appointment: Json)
      requires Valid()
      modifies this
      ensures Valid()
      ensures selectedAppointment == Some(appointment) && selectedSlot.None? && showModal
      ensures currentWeek == old(currentWeek) && appointments == old(appointments) && loading == old(loading)
    {
      selectedAppointment := Some(appointment);
      selectedSlot := None;
      showModal := true;
    }

    method CloseModal()
      requires Valid()
      modifies this
      ensures Valid()
      ensures !showModal && selectedSlot.None? && selectedAppointment.None?
      ensures currentWeek == old(currentWeek) && appointments == old(appointments) && loading == old(loading)
    {
      showModal := false;
      selectedSlot := None;
      selectedAppointment := None;
    }

    /** `handleAppointmentSaved()`: a new fetch starts and the modal closes. */
    method AppointmentSaved() returns (dateStr: Option<string>)
      requires Valid()
      modifies this
      ensures Valid() && loading
      ensures dateStr == GetEcuadorDateString(env, Given(currentWeek))
      ensures !showModal && selectedSlot.None? && selectedAppointment.None?
      ensures currentWeek == old(currentWeek) && appointments == old(appointments)
    {
      dateStr := StartFetch();
      CloseModal();
    }
  }
}
