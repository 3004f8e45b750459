/** The legacy weekly calendar grid: half-hour slots from 08:00 to 18:00, a
    Monday-to-Saturday week built on copies of the anchor `Date` with no
    time-zone conversion, and cells that match appointments by exact
    instant. */
module LegacyCalendar {
  import opened Dates
  import opened Text
  import opened Rfc3339
  import opened JsDates
  import opened Json
  import opened Lists
  import opened Grid

  // ---------------------------------------------------------------------
  // Half-hour slots

  /** The hour of slot `k`: two slots per hour from 8, and 18 for the last. */
  function SlotHour(k: nat): (h: nat)
    ensures 8 <= h <= 18
  {
    if k < 20 then 8 + k / 2 else 18
  }

  /** The minute of slot `k`: 0 and 30 in turn, and 0 for the last. */
  function SlotMinute(k: nat): (m: nat)
    ensures m == 0 || m == 30
  {
    if k < 20 then 30 * (k % 2) else 0
  }

  /** The labels of the working day's half hours, `"08:00"` to `"18:00"`. */
  function HalfHourSlots(): (slots: seq<string>)
    ensures |slots| == 21
  {
    seq(21, k requires 0 <= k < 21 => SlotText(SlotHour(k), SlotMinute(k)))
  }

  /** `generateTimeSlots()`: hours 8 to 17, minutes 0 and 30, then 18:00. */
  method GenerateTimeSlots() returns (slots: seq<string>)
    ensures slots == HalfHourSlots()
  {
    slots := [];
    var hour := 8;
    while hour <= 17
      invariant 8 <= hour <= 18
      invariant slots == SlotsUpTo(2 * (hour - 8))
    {
      var minute := 0;
      while minute < 60
        invariant minute == 0 || minute == 30 || minute == 60
        invariant slots == SlotsUpTo(2 * (hour - 8) + minute / 30)
      {
        PushSlot(hour, minute);
        slots := slots + [SlotText(hour, minute)];
        minute := minute + 30;
      }
      hour := hour + 1;
    }
    LastPush(slots);
    slots := slots + ["18:00"];
  }

  /** The first `n` labels. */
  function SlotsUpTo(n: nat): (slots: seq<string>)
    requires n <= 21
    ensures |slots| == n
  {
    HalfHourSlots()[..n]
  }

  /** The label pushed after the loops completes the list. */
  lemma LastPush(slots: seq<string>)
    requires slots == SlotsUpTo(20)
    ensures slots + ["18:00"] == HalfHourSlots()
  {
    LastSlotIndex();
    PushAt(HalfHourSlots(), 20, "18:00");
    assert HalfHourSlots()[..21] == HalfHourSlots();
  }

  /** The label the inner loop pushes at `hour` and `minute` is the next slot. */
  lemma PushSlot(hour: nat, minute: int)
    requires 8 <= hour <= 17 && (minute == 0 || minute == 30)
    ensures SlotsUpTo(2 * (hour - 8) + minute / 30) + [SlotText(hour, minute)]
         == SlotsUpTo(2 * (hour - 8) + minute / 30 + 1)
  {
    var k := 2 * (hour - 8) + minute / 30;
    SlotIndexArithmetic(hour, minute);
    assert HalfHourSlots()[k] == SlotText(SlotHour(k), SlotMinute(k));
    PushAt(HalfHourSlots(), k, SlotText(hour, minute));
  }

  lemma SlotIndexArithmetic(hour: nat, minute: int)
    requires 8 <= hour <= 17 && (minute == 0 || minute == 30)
    ensures SlotHour(2 * (hour - 8) + minute / 30) == hour
    ensures SlotMinute(2 * (hour - 8) + minute / 30) == minute
  {
  }

  /** The minute of the day a slot label names; `None` where a part is `NaN`. */
  function SlotMinuteOfDay(time: string): Option<int>
  {
    var f := SlotFields(time);
    if f.0.Some? && f.1.Some? then Some(60 * f.0.value + f.1.value) else None
  }

  /** Slot `k` names minute `480 + 30 k` of the day: 30-minute steps from
      08:00 to 18:00, whatever the comment above the loops says. */
  lemma HalfHourSlotMinute(k: int)
    requires 0 <= k < 21
    ensures SlotMinuteOfDay(HalfHourSlots()[k]) == Some(480 + 30 * k)
  {
    var hm := SlotFieldsAt(k);
    SlotMinuteOfFields(HalfHourSlots()[k], hm.0, hm.1, 480 + 30 * k);
  }

  /** Slot `k` reads back as hour `h` and minute `m` with `60 h + m == 480 + 30 k`. */
  lemma SlotFieldsAt(k: int) returns (hm: (nat, nat))
    requires 0 <= k < 21
    ensures SlotFields(HalfHourSlots()[k]) == (Some(hm.0 as int), Some(hm.1 as int))
    ensures 60 * hm.0 + hm.1 == 480 + 30 * k
  {
    hm := SlotHourMinute(k);
    SlotFieldsOfText(HalfHourSlots()[k], hm.0, hm.1);
  }

  lemma SlotFieldsOfText(time: string, h: nat, m: nat)
    requires h < 24 && m < 60 && time == SlotText(h, m)
    ensures SlotFields(time) == (Some(h as int), Some(m as int))
  {
    SlotTextReadBack(h, m);
  }

  lemma SlotMinuteOfFields(time: string, h: nat, m: nat, v: int)
    requires SlotFields(time) == (Some(h as int), Some(m as int)) && v == 60 * h + m
    ensures SlotMinuteOfDay(time) == Some(v)
  {
  }

  lemma LastSlotIndex()
    ensures HalfHourSlots()[20] == "18:00"
  {
    SlotLabelAt(20, 18, 0, "18:00");
  }

  /** Slot `k` spelled out digit by digit. */
  lemma SlotLabelAt(k: int, h: nat, m: nat, text: string)
    requires 0 <= k < 21 && h == SlotHour(k) && m == SlotMinute(k)
    requires text == TwoDigits(h) + ":" + TwoDigits(m)
    ensures HalfHourSlots()[k] == text
  {
    SlotTextDigits(h, m);
  }

  /** The slots are strictly increasing in time, so no two are equal. */
  lemma HalfHourSlotsIncreasing(i: int, j: int)
    requires 0 <= i < j < 21
    ensures SlotMinuteOfDay(HalfHourSlots()[i]).Some? && SlotMinuteOfDay(HalfHourSlots()[j]).Some?
      && SlotMinuteOfDay(HalfHourSlots()[i]).value < SlotMinuteOfDay(HalfHourSlots()[j]).value
    ensures HalfHourSlots()[i] != HalfHourSlots()[j]
  {
    HalfHourSlotMinute(i);
    HalfHourSlotMinute(j);
  }

  /** Twenty-one slots; the first is `08:00`, the second `08:30`, the
      next-to-last `17:30` and the last `18:00`. */
  lemma HalfHourSlotsBounds()
    ensures |HalfHourSlots()| == 21
    ensures HalfHourSlots()[0] == "08:00" && HalfHourSlots()[1] == "08:30"
    ensures HalfHourSlots()[19] == "17:30" && HalfHourSlots()[20] == "18:00"
  {
    FirstSlot();
    SecondSlot();
    NextToLastSlot();
    LastSlotIndex();
  }

  lemma FirstSlot()
    ensures HalfHourSlots()[0] == "08:00"
  {
    SlotLabelAt(0, 8, 0, "08:00");
  }

  lemma SecondSlot()
    ensures HalfHourSlots()[1] == "08:30"
  {
    SlotLabelAt(1, 8, 30, "08:30");
  }

  lemma NextToLastSlot()
    ensures HalfHourSlots()[19] == "17:30"
  {
    SlotLabelAt(19, 17, 30, "17:30");
  }

  // ---------------------------------------------------------------------
  // The displayed week

  /** `getWeekDays(date)`: a copy of the anchor moved to its Monday, then
      six copies of it with their days set. */
  method GetWeekDays(date: JsDate) returns (week: seq<JsDate>)
    requires ValidJs(date)
    ensures week == CopyWeekDays(date)
  {
    var startOfWeek := StartOfWeek(date);
    week := [];
    var i := 0;
    while i < 6
      invariant 0 <= i <= 6
      invariant |week| == i
      invariant forall k :: 0 <= k < i ==> week[k] == CopyWeekDay(startOfWeek, k)
    {
      var day := startOfWeek;
      match startOfWeek {
        case Moment(t, _) => day := SetDate(day, t.date.day + i);
        case InvalidDate =>
      }
      week := week + [day];
      i := i + 1;
    }
  }

  // ---------------------------------------------------------------------
  // The appointments of a cell

  /** 1970-01-01T00:00:00.000Z, the instant `new Date(null)` denotes. */
  const Epoch: Timestamp := Timestamp(DateTime(Date(1970, 1, 1), 0), 0)

  /** `new Date(apt.appointment_date)`: text is parsed, `null` is the epoch,
      and a missing field is an Invalid Date. */
  function LegacyAppointmentDate(env: Env, apt: Json): (d: JsDate)
    requires ValidEnv(env)
    ensures ValidJs(d)
  {
    match Field(apt, "appointment_date")
    case Some(JStr(s)) => ParseDate(env, s)
    case Some(JNull) => AtInstant(env, Epoch)
    case _ => InvalidDate
  }

  /** `d.getTime()`: the instant, `None` standing for `NaN`. */
  function GetTime(env: Env, d: JsDate): (r: Option<Timestamp>)
    requires ValidEnv(env) && ValidJs(d)
    ensures r.Some? <==> d.Moment?
  {
    match d
    case InvalidDate => None
    case Moment(t, ms) => Some(InstantOf(env, t, ms))
  }

  /** The filter of `getAppointmentsForSlot(time, date)`: the slot is a
      copy of the day at the slot's hour and minute with its seconds and
      milliseconds kept, and an appointment matches when `getTime()` is
      `===`, which never holds for `NaN`. */
  predicate ExactMatch(env: Env, time: string, day: JsDate, apt: Json)
    requires ValidEnv(env) && ValidJs(day)
  {
    SameInstant(env, time, day, LegacyAppointmentDate(env, apt))
  }

  /** The slot and the `Date` `a` have one and the same instant. */
  predicate SameInstant(env: Env, time: string, day: JsDate, a: JsDate)
    requires ValidEnv(env) && ValidJs(day) && ValidJs(a)
  {
    var slot := GetTime(env, AtSlot(day, time, true));
    slot.Some? && slot == GetTime(env, a)
  }

  /** Equal instants are equal `Date`s on one device. */
  lemma GetTimeInjective(env: Env, a: JsDate, b: JsDate)
    requires ValidEnv(env) && ValidJs(a) && ValidJs(b) && a.Moment? && b.Moment?
    ensures GetTime(env, a) == GetTime(env, b) <==> a == b
  {
    InstantRoundTrip(env, a.local, a.millis);
    InstantRoundTrip(env, b.local, b.millis);
  }

  /** On a slot label of the working day, an appointment is in the cell
      exactly when its `Date` is the day at the slot's time with the day's
      own seconds and milliseconds. */
  lemma SameInstantIff(env: Env, t: DateTime, ms: int, time: string, h: nat, m: nat, a: JsDate)
    requires ValidEnv(env) && ValidDateTime(t) && 0 <= ms < 60000 && h < 24 && m < 60
    requires time == SlotText(h, m) && ValidJs(a)
    ensures SameInstant(env, time, Moment(t, ms), a) <==> a == Moment(DateTime(t.date, 60 * h + m), ms)
  {
    AtSlotText(t, ms, h, m, true);
    if a.Moment? {
      GetTimeInjective(env, a, Moment(DateTime(t.date, 60 * h + m), ms));
    }
  }

  /** An appointment off the half-hour grid is in no cell: every slot
      label names a minute `480 + 30 k`. */
  lemma OffGridInNoCell(env: Env, t: DateTime, ms: int, a: JsDate, k: int)
    requires ValidEnv(env) && ValidDateTime(t) && 0 <= ms < 60000 && 0 <= k < 21
    requires ValidJs(a) && a.Moment? && a.local.minute % 30 != 0
    ensures !SameInstant(env, HalfHourSlots()[k], Moment(t, ms), a)
  {
    var hm := SlotHourMinute(k);
    MinuteOffSlot(a.local.minute, k);
    OffGridAt(env, t, ms, HalfHourSlots()[k], hm.0, hm.1, a);
  }

  lemma MinuteOffSlot(x: int, k: int)
    requires x % 30 != 0
    ensures x != 480 + 30 * k
  {
  }

  lemma OffGridAt(env: Env, t: DateTime, ms: int, time: string, h: nat, m: nat, a: JsDate)
    requires ValidEnv(env) && ValidDateTime(t) && 0 <= ms < 60000 && h < 24 && m < 60
    requires time == SlotText(h, m)
    requires ValidJs(a) && a.Moment? && a.local.minute != 60 * h + m
    ensures !SameInstant(env, time, Moment(t, ms), a)
  {
    SameInstantIff(env, t, ms, time, h, m, a);
  }

  /** Slot `k` is the label of hour `h` and minute `m` with `60 h + m == 480 + 30 k`. */
  lemma SlotHourMinute(k: int) returns (hm: (nat, nat))
    requires 0 <= k < 21
    ensures hm.0 < 24 && hm.1 < 60 && HalfHourSlots()[k] == SlotText(hm.0, hm.1)
    ensures 60 * hm.0 + hm.1 == 480 + 30 * k
  {
    hm := (SlotHour(k), SlotMinute(k));
    SlotArithmetic(k);
  }

  lemma SlotArithmetic(k: nat)
    requires k < 21
    ensures 60 * SlotHour(k) + SlotMinute(k) == 480 + 30 * k
  {
  }

  /** `getAppointmentsForSlot(time, date)`: the matching appointments, in order. */
  function AppointmentsForSlot(env: Env, appointments: seq<Json>, time: string, day: JsDate): (r: seq<Json>)
    requires ValidEnv(env) && ValidJs(day)
    ensures |r| <= |appointments|
    decreases |appointments|
  {
    if |appointments| == 0 then []
    else
      var rest := AppointmentsForSlot(env, appointments[1..], time, day);
      if ExactMatch(env, time, day, appointments[0]) then [appointments[0]] + rest else rest
  }

  /** The cell keeps its appointments in the order of the list. */
  lemma {:induction false} AppointmentsForSlotSublist(env: Env, appointments: seq<Json>, time: string, day: JsDate)
    requires ValidEnv(env) && ValidJs(day)
    ensures Sublist(AppointmentsForSlot(env, appointments, time, day), appointments)
    decreases |appointments|
  {
    if |appointments| > 0 {
      var rest := AppointmentsForSlot(env, appointments[1..], time, day);
      AppointmentsForSlotSublist(env, appointments[1..], time, day);
      SublistCons(appointments[0], rest, appointments);
    }
  }

  /** An appointment is in the cell exactly when it is in the list and its
      instant is the slot's. */
  lemma {:induction false} AppointmentsForSlotMembers(env: Env, appointments: seq<Json>, time: string, day: JsDate, x: Json)
    requires ValidEnv(env) && ValidJs(day)
    ensures x in AppointmentsForSlot(env, appointments, time, day)
      <==> x in appointments && ExactMatch(env, time, day, x)
    decreases |appointments|
  {
    if |appointments| > 0 {
      var rest := AppointmentsForSlot(env, appointments[1..], time, day);
      AppointmentsForSlotMembers(env, appointments[1..], time, day, x);
      MemberOfCons(appointments[0], appointments[1..], x);
      MemberOfCons(appointments[0], rest, x);
      assert appointments == [appointments[0]] + appointments[1..];
    }
  }

  // ---------------------------------------------------------------------
  // Exact instants and the seconds of the anchor

  /** The grid's days are copies of `new Date()`, so they carry the seconds
      and milliseconds of the moment the page loaded; an appointment
      stored to the minute matches no cell unless that was a whole minute. */
  lemma WholeMinuteNeedsWholeMinuteDay(env: Env, t: DateTime, ms: int, k: int, a: JsDate)
    requires ValidEnv(env) && ValidDateTime(t) && 0 <= ms < 60000 && ms != 0 && 0 <= k < 21
    requires ValidJs(a) && a.Moment? && a.millis == 0
    ensures !SameInstant(env, HalfHourSlots()[k], Moment(t, ms), a)
  {
    var hm := SlotHourMinute(k);
    SameInstantIff(env, t, ms, HalfHourSlots()[k], hm.0, hm.1, a);
  }

  /** An appointment whose date is the input form of a device-local time. */
  function AppointmentAt(t: DateTime): (apt: Json)
    requires ValidDateTime(t) && 0 <= t.date.year < 10000
  {
    JObject(map["appointment_date" := JStr(InputForm(t))])
  }

  lemma AppointmentAtDate(env: Env, t: DateTime)
    requires ValidEnv(env) && ValidDateTime(t) && 0 <= t.date.year < 10000
    ensures LegacyAppointmentDate(env, AppointmentAt(t)) == Moment(t, 0)
  {
    ParseDateInputForm(env, t);
  }

  /** A page loaded five seconds after 08:00 on 10 June 2024 shows an
      appointment booked for 08:00 that day in no cell of that day; the
      minute match puts it in the first cell. */
  lemma LoadedFiveSecondsLate(env: Env, d: Date)
    requires ValidEnv(env) && d == Date(2024, 6, 10)
    ensures !ExactMatch(env, HalfHourSlots()[0], Moment(DateTime(d, 480), 5000), AppointmentAt(DateTime(d, 480)))
    ensures MinuteMatch(env, HalfHourSlots()[0], Moment(DateTime(d, 480), 5000), AppointmentAt(DateTime(d, 480)))
  {
    AppointmentAtDate(env, DateTime(d, 480));
    WholeMinuteNeedsWholeMinuteDay(env, DateTime(d, 480), 5000, 0, Moment(DateTime(d, 480), 0));
    SameMinuteIff(env, DateTime(d, 480), 5000, 0, Moment(DateTime(d, 480), 0));
  }

  /** The evidently intended match: the slot with its seconds zeroed and the
      appointment fall in the same minute on the device. */
  predicate MinuteMatch(env: Env, time: string, day: JsDate, apt: Json)
    requires ValidEnv(env) && ValidJs(day)
  {
    SameMinute(env, time, day, LegacyAppointmentDate(env, apt))
  }

  predicate SameMinute(env: Env, time: string, day: JsDate, a: JsDate)
    requires ValidEnv(env) && ValidJs(day)
  {
    var slot := AtSlot(day, time, false);
    slot.Moment? && a.Moment? && a.local == slot.local
  }

  /** With the minute match, an appointment is in cell `k` of a day exactly
      when it falls on that day at minute `480 + 30 k`, whatever the day's
      seconds. */
  lemma SameMinuteIff(env: Env, t: DateTime, ms: int, k: int, a: JsDate)
    requires ValidEnv(env) && ValidDateTime(t) && 0 <= ms < 60000 && 0 <= k < 21
    ensures SameMinute(env, HalfHourSlots()[k], Moment(t, ms), a)
        <==> (a.Moment? && a.local == DateTime(t.date, 480 + 30 * k))
  {
    var hm := SlotHourMinute(k);
    AtSlotText(t, ms, hm.0, hm.1, false);
  }

  /** With the minute match, an appointment on a day of the grid at a minute
      `480 + 30 k` of the working day is in exactly one slot of that day. */
  lemma SameMinuteOneSlot(env: Env, t: DateTime, ms: int, a: JsDate, k0: int)
    requires ValidEnv(env) && ValidDateTime(t) && 0 <= ms < 60000 && 0 <= k0 < 21
    requires a.Moment? && a.local == DateTime(t.date, 480 + 30 * k0)
    ensures forall k | 0 <= k < 21 :: SameMinute(env, HalfHourSlots()[k], Moment(t, ms), a) <==> k == k0
  {
    forall k | 0 <= k < 21
      ensures SameMinute(env, HalfHourSlots()[k], Moment(t, ms), a) <==> k == k0
    {
      SameMinuteIff(env, t, ms, k, a);
    }
  }

  // ---------------------------------------------------------------------
  // The component's state

  /** `currentWeek.toISOString().split('T')[0]`: the UTC date of the anchor;
      `None` where `toISOString` throws. */
  function UtcDateString(env: Env, d: JsDate): (r: Option<string>)
    requires ValidEnv(env) && ValidJs(d)
    ensures r.None? <==> d.InvalidDate?
  {
    match ToIsoString(env, d)
    case Some(iso) => Some(BeforeT(iso))
    case None => None
  }

  /** The date asked for is the anchor's UTC date in `YYYY-MM-DD` form. */
  lemma UtcDateStringIsFullDate(env: Env, t: DateTime, ms: int)
    requires ValidEnv(env) && ValidDateTime(t) && 0 <= ms < 60000
    requires 0 <= InstantOf(env, t, ms).utc.date.year < 10000
    ensures UtcDateString(env, Moment(t, ms)) == Some(FullDate(InstantOf(env, t, ms).utc.date))
  {
    IsoDatePart(InstantOf(env, t, ms));
  }

  /** `data.appointments || []`: only the `appointments` key is read. */
  function WeekAppointments(data: Json): (r: seq<Json>)
    ensures (Field(data, "appointments").Some? && Field(data, "appointments").value.JList?)
      ==> r == Field(data, "appointments").value.items
    ensures !Truthy(Field(data, "appointments")) ==> r == []
  {
    var v := Or(Field(data, "appointments"), JList([]));
    if v.JList? then v.items else []
  }

  /** A `citas` list is ignored. */
  lemma CitasIgnored(items: seq<Json>)
    ensures WeekAppointments(JObject(map["citas" := JList(items)])) == []
  {
    assert Field(JObject(map["citas" := JList(items)]), "appointments").None?;
  }

  class LegacyCalendarView {
    const env: Env
    var appointments: seq<Json>
    var currentWeek: JsDate
    var loading: bool
    var showModal: bool
    var selectedSlot: Option<Slot>
    var selectedAppointment: Option<Json>

    predicate Valid()
      reads this
    {
      ValidEnv(env) && ValidJs(currentWeek)
    }

    /** The initial state: the current time, unconverted, loading, no modal. */
    constructor (env: Env)
      requires ValidEnv(env)
      ensures Valid() && this.env == env && currentWeek == Now(env)
      ensures appointments == [] && loading && !showModal
      ensures selectedSlot.None? && selectedAppointment.None?
    {
      this.env := env;
      appointments := [];
      currentWeek := Now(env);
      loading := true;
      showModal := false;
      selectedSlot := None;
      selectedAppointment := None;
    }

    /** `weekDays`, computed on each render. */
    method Days() returns (days: seq<JsDate>)
      requires Valid()
      ensures days == CopyWeekDays(currentWeek)
    {
      days := GetWeekDays(currentWeek);
    }

    /** `timeSlots`, computed on each render. */
    method TimeSlots() returns (slots: seq<string>)
      ensures slots == HalfHourSlots()
    {
      slots := GenerateTimeSlots();
    }

    method NavigateWeek(direction: int)
      requires Valid()
      modifies this
      ensures Valid() && currentWeek == CopyNavigate(old(currentWeek), direction)
      ensures appointments == old(appointments) && loading == old(loading) && showModal == old(showModal)
      ensures selectedSlot == old(selectedSlot) && selectedAppointment == old(selectedAppointment)
    {
      currentWeek := CopyNavigate(currentWeek, direction);
    }

    /** The start of `fetchWeekAppointments()`: loading on and the date the
      request asks for; where `toISOString` throws, the `finally` turns
      loading off again and no request is made. */
    method StartFetch() returns (dateStr: Option<string>)
      requires Valid()
      modifies this
      ensures Valid() && dateStr == UtcDateString(env, currentWeek)
      ensures loading <==> dateStr.Some?
      ensures currentWeek == old(currentWeek) && appointments == old(appointments) && showModal == old(showModal)
      ensures selectedSlot == old(selectedSlot) && selectedAppointment == old(selectedAppointment)
    {
      loading := true;
      dateStr := UtcDateString(env, currentWeek);
      if dateStr.None? {
        loading := false;
      }
    }

    /** The end of the fetch: the list of an ok response is kept; loading
      ends whatever happened. */
    method FinishFetch(outcome: Outcome)
      requires Valid()
      modifies this
      ensures Valid() && !loading
      ensures appointments == if outcome.Ok? then WeekAppointments(outcome.body) else old(appointments)
      ensures currentWeek == old(currentWeek) && showModal == old(showModal)
      ensures selectedSlot == old(selectedSlot) && selectedAppointment == old(selectedAppointment)
    {
      if outcome.Ok? {
        appointments := WeekAppointments(outcome.body);
      }
      loading := false;
    }

    /** `handleSlotClick(time, date)`: nothing changes where `toISOString`
      throws. */
    method SlotClick(time: string, day: JsDate)
      requires Valid() && ValidJs(day)
      modifies this
      ensures Valid()
      ensures SlotSelection(env, time, day).Some? ==>
        selectedSlot == SlotSelection(env, time, day) && selectedAppointment.None? && showModal
      ensures SlotSelection(env, time, day).None? ==>
        selectedSlot == old(selectedSlot) && selectedAppointment == old(selectedAppointment) && showModal == old(showModal)
      ensures currentWeek == old(currentWeek) && appointments == old(appointments) && loading == old(loading)
    {
      var s := SlotSelection(env, time, day);
      if s.Some? {
        OpenForSlot(s.value);
      }
    }

    method OpenForSlot(slot: Slot)
      requires Valid()
      modifies this
      ensures Valid()
      ensures selectedSlot == Some(slot) && selectedAppointment.None? && showModal
      ensures currentWeek == old(currentWeek) && appointments == old(appointments) && loading == old(loading)
    {
      selectedSlot, selectedAppointment, showModal := Some(slot), None, true;
    }

    /** The cell's `onClick`: create mode only when the cell is empty. */
    method CellClick(time: string, day: JsDate)
      requires Valid() && ValidJs(day)
      modifies this
      ensures Valid()
      ensures |AppointmentsForSlot(env, appointments, time, day)| > 0 ==>
        selectedSlot == old(selectedSlot) && selectedAppointment == old(selectedAppointment) && showModal == old(showModal)
      ensures |AppointmentsForSlot(env, appointments, time, day)| == 0 && SlotSelection(env, time, day).Some? ==>
        selectedSlot == SlotSelection(env, time, day) && selectedAppointment.None? && showModal
      ensures |AppointmentsForSlot(env, appointments, time, day)| == 0 && SlotSelection(env, time, day).None? ==>
        selectedSlot == old(selectedSlot) && selectedAppointment == old(selectedAppointment) && showModal == old(showModal)
      ensures currentWeek == old(currentWeek) && appointments == old(appointments) && loading == old(loading)
    {
      if |AppointmentsForSlot(env, appointments, time, day)| == 0 {
        SlotClick(time, day);
      }
    }

    /** `handleAppointmentClick(appointment)`, reached through
      `stopPropagation`, so the cell's own click does not run. */
    method AppointmentClick(appointment: Json)
      requires Valid()
      modifies this
      ensures Valid()
      ensures selectedAppointment == Some(appointment) && selectedSlot.None? && showModal
      ensures currentWeek == old(currentWeek) && appointments == old(appointments) && loading == old(loading)
    {
      selectedAppointment := Some(appointment);
      selectedSlot := None;
      showModal := true;
    }

    method CloseModal()
      requires Valid()
      modifies this
      ensures Valid()
      ensures !showModal && selectedSlot.None? && selectedAppointment.None?
      ensures currentWeek == old(currentWeek) && appointments == old(appointments) && loading == old(loading)
    {
      showModal := false;
      selectedSlot := None;
      selectedAppointment := None;
    }

    /** `handleAppointmentSaved()`: a new fetch starts and the modal closes. */
    method AppointmentSaved() returns (dateStr: Option<string>)
      requires Valid()
      modifies this
      ensures Valid() && dateStr == UtcDateString(env, currentWeek)
      ensures loading <==> dateStr.Some?
      ensures !showModal && selectedSlot.None? && selectedAppointment.None?
      ensures currentWeek == old(currentWeek) && appointments == old(appointments)
    {
      dateStr := StartFetch();
      CloseModal();
    }
  }
}
