/** The appointment endpoints with rules of their own: the week the
    calendar asks for (`calendar_week`), the status change with its
    automatic times (`update_status`), and deletion, which spares completed
    appointments (`destroy`). The table of appointments is a map from
    primary keys to rows; `now` and today's date are parameters. */
module AppointmentViews {
  import opened Dates
  import opened Text
  import opened Rfc3339
  import opened Grid
  import opened Scheduling
  import Calendar

  /** The columns these views read and write. */
  datatype Row = Row(date: Instant, status: string, actualStart: Option<Instant>, actualEnd: Option<Instant>)

  predicate ValidRow(r: Row) {
    ValidInstant(r.date)
    && (r.actualStart.Some? ==> ValidInstant(r.actualStart.value))
    && (r.actualEnd.Some? ==> ValidInstant(r.actualEnd.value))
  }

  predicate ValidRows(rows: map<nat, Row>) {
    forall k :: k in rows ==> ValidRow(rows[k])
  }

  /** The four states an appointment can be in. */
  predicate KnownStatus(s: string) {
    s == "pendiente" || s == "confirmada" || s == "realizada" || s == "cancelada"
  }

  // ---------------------------------------------------------------------
  // calendar_week

  /** The answer of `calendar_week`. */
  datatype WeekReply =
    | BadDate(error: string)                          // 400
    | Week(start: Date, end: Date, citas: set<nat>)   // inicio_semana, fin_semana, citas

  /** Python's `date.weekday()`: Monday is 0 and Sunday 6. */
  function PyWeekday(d: Date): (w: int)
    requires ValidDate(d)
    ensures 0 <= w < 7
  {
    (Weekday(d) + 6) % 7
  }

  /** `datetime.strptime(s, '%Y-%m-%d').date()` on the strict form
      `YYYY-MM-DD`; `None` stands for the `ValueError`. */
  function ParseQueryDate(s: string): (r: Option<Date>)
    ensures r.Some? ==> ValidDate(r.value)
  {
    if |s| == 10 then ParseFullDate(s) else None
  }

  /** `appointment_date__date__gte=start, appointment_date__date__lte=end`. */
  predicate InRange(start: Date, end: Date, d: Date)
    requires ValidDate(start) && ValidDate(end) && ValidDate(d)
  {
    DayNumber(start) <= DayNumber(d) <= DayNumber(end)
  }

  /** `calendar_week(request)`: the given date or today, moved back to its
      Monday, and the appointments from that Monday to the Sunday after. */
  function CalendarWeek(rows: map<nat, Row>, dateParam: string, today: Date): (r: WeekReply)
    requires ValidRows(rows) && ValidDate(today)
    ensures r.Week? ==> ValidDate(r.start) && ValidDate(r.end)
  {
    var base := if dateParam == "" then Some(today) else ParseQueryDate(dateParam);
    match base
    case None => BadDate("Formato de fecha inválido")
    case Some(b) =>
      var start := AddDays(b, -PyWeekday(b));
      var end := AddDays(start, 6);
      Week(start, end, set k | k in rows && InRange(start, end, rows[k].date.at.date))
  }

  /** A date that is given and does not read as `YYYY-MM-DD` gets 400;
      no date and a well-formed one both get a week. */
  lemma CalendarWeekBadDate(rows: map<nat, Row>, dateParam: string, today: Date)
    requires ValidRows(rows) && ValidDate(today)
    ensures CalendarWeek(rows, dateParam, today).BadDate?
      <==> (dateParam != "" && ParseQueryDate(dateParam).None?)
    ensures CalendarWeek(rows, dateParam, today).BadDate?
      ==> CalendarWeek(rows, dateParam, today).error == "Formato de fecha inválido"
  {
  }

  /** Without a date the view answers as if today's date had been sent. */
  lemma CalendarWeekDefaultsToToday(rows: map<nat, Row>, today: Date)
    requires ValidRows(rows) && ValidDate(today) && 0 <= today.year < 10000
    ensures CalendarWeek(rows, "", today) == CalendarWeek(rows, FullDate(today), today)
  {
    assert FullDate(today) + "" == FullDate(today);
    FullDateRoundTrip(today, "");
  }

  /** `fecha_base - timedelta(days=fecha_base.weekday())` is the Monday the
      calendar grid starts its week on, Sundays included. */
  lemma BackendMondayIsGridMonday(b: Date)
    requires ValidDate(b)
    ensures AddDays(b, -PyWeekday(b)) == MondayOf(b)
  {
    assert -PyWeekday(b) == MondayDelta(Weekday(b));
  }

  /** The week starts on a Monday, ends six days later on a Sunday, and
      holds the date it was asked for. */
  lemma WeekShape(rows: map<nat, Row>, dateParam: string, today: Date)
    requires ValidRows(rows) && ValidDate(today)
    requires CalendarWeek(rows, dateParam, today).Week?
    ensures var w := CalendarWeek(rows, dateParam, today);
      var b := if dateParam == "" then today else ParseQueryDate(dateParam).value;
      w.start == MondayOf(b) && Weekday(w.start) == 1 && Weekday(w.end) == 0
      && DayNumber(w.end) == DayNumber(w.start) + 6
      && DayNumber(w.start) <= DayNumber(b) <= DayNumber(w.end)
  {
    var b := if dateParam == "" then today else ParseQueryDate(dateParam).value;
    WeekEnds(rows, dateParam, today, b);
    WeekOfDate(b);
  }

  lemma WeekEnds(rows: map<nat, Row>, dateParam: string, today: Date, b: Date)
    requires ValidRows(rows) && ValidDate(today)
    requires CalendarWeek(rows, dateParam, today).Week?
    requires b == if dateParam == "" then today else ParseQueryDate(dateParam).value
    ensures ValidDate(b)
    ensures CalendarWeek(rows, dateParam, today).start == AddDays(b, -PyWeekday(b))
    ensures CalendarWeek(rows, dateParam, today).end == AddDays(AddDays(b, -PyWeekday(b)), 6)
  {
  }

  /** The Monday-to-Sunday week around a date. */
  lemma WeekOfDate(b: Date)
    requires ValidDate(b)
    ensures AddDays(b, -PyWeekday(b)) == MondayOf(b)
    ensures Weekday(MondayOf(b)) == 1 && Weekday(AddDays(MondayOf(b), 6)) == 0
    ensures DayNumber(AddDays(MondayOf(b), 6)) == DayNumber(MondayOf(b)) + 6
    ensures DayNumber(MondayOf(b)) <= DayNumber(b) <= DayNumber(MondayOf(b)) + 6
  {
    BackendMondayIsGridMonday(b);
    SundayAfter(MondayOf(b));
  }

  /** Six days after a Monday is a Sunday. */
  lemma SundayAfter(m: Date)
    requires ValidDate(m) && Weekday(m) == 1
    ensures Weekday(AddDays(m, 6)) == 0 && DayNumber(AddDays(m, 6)) == DayNumber(m) + 6
  {
    DayNumberAddDays(m, 6);
    WeekdayAddDays(m, 6);
  }

  /** `citas` holds exactly the stored appointments dated from the Monday
      to the Sunday: every day the grid shows, and the Sunday it does not. */
  lemma WeekAppointments(rows: map<nat, Row>, dateParam: string, today: Date, k: nat)
    requires ValidRows(rows) && ValidDate(today)
    requires CalendarWeek(rows, dateParam, today).Week?
    ensures var w := CalendarWeek(rows, dateParam, today);
      k in w.citas <==> k in rows && exists i :: 0 <= i < 7 && DayNumber(rows[k].date.at.date) == DayNumber(AddDays(w.start, i))
  {
    var w := CalendarWeek(rows, dateParam, today);
    if k in rows {
      var n := DayNumber(rows[k].date.at.date) - DayNumber(w.start);
      if 0 <= n < 7 {
        DayNumberAddDays(w.start, n);
      }
      forall i | 0 <= i < 7
        ensures DayNumber(AddDays(w.start, i)) == DayNumber(w.start) + i
      {
        DayNumberAddDays(w.start, i);
      }
      DayNumberAddDays(w.start, 6);
    }
  }

  /** The backend week runs one day past the grid: its last day is a
      Sunday, which is none of the six days the grid shows. */
  lemma SundayOutsideGrid(b: Date, i: int)
    requires ValidDate(b) && 0 <= i < 6
    ensures Weekday(AddDays(MondayOf(b), 6)) == 0
    ensures AddDays(MondayOf(b), i) != AddDays(MondayOf(b), 6)
    ensures Weekday(AddDays(MondayOf(b), i)) != 0
  {
    var m := MondayOf(b);
    SundayAfter(m);
    WeekdayInWeek(m, i);
  }

  /** The `i`-th day after a Monday has weekday `i + 1`. */
  lemma WeekdayInWeek(m: Date, i: int)
    requires ValidDate(m) && Weekday(m) == 1 && 0 <= i < 6
    ensures Weekday(AddDays(m, i)) == i + 1
  {
    WeekdayAddDays(m, i);
  }

  /** The grid's last hour slot, `16:00`, is one the server always refuses:
      its hour is outside the serializer's and the model's hours. */
  lemma GridOffersRejectedSlot(now: Instant, value: Instant)
    requires ValidInstant(now) && ValidInstant(value) && HourOf(value) == 16
    ensures Calendar.HourSlots()[8] == "16:00"
    ensures SlotFields(Calendar.HourSlots()[8]) == (Some(16), Some(0))
    ensures ValidateAppointmentDate(now, value).Reject? && CleanAppointment(now, Some(value)).Invalid?
  {
    Calendar.HourSlotsBounds();
    Calendar.HourSlotReadBack(8);
    FourPmRejected(now, value);
  }

  // ---------------------------------------------------------------------
  // update_status

  /** The answers of `update_status`. */
  datatype StatusReply =
    | NotFound                                 // 404 from get_object
    | BadStatus                                // 400 'Estado inválido'
    | Rejected(field: string, message: string) // 400 from the model's clean
    | Updated(row: Row)                        // 200 with the saved row

  /** `update_status` on a found row: the new status, the times filled in
      when it is completed, and the model's validation before saving. */
  function StatusUpdate(row: Row, newStatus: Option<string>, now: Instant): (r: StatusReply)
    requires ValidRow(row) && ValidInstant(now)
    ensures r.Updated? ==> ValidRow(r.row)
  {
    if newStatus.None? || !KnownStatus(newStatus.value) then BadStatus
    else
      var s := newStatus.value;
      var r1 := row.(status := s);
      var r2 :=
        if s == "realizada" && r1.actualEnd.None? then
          r1.(actualEnd := Some(now), actualStart := if r1.actualStart.None? then Some(r1.date) else r1.actualStart)
        else r1;
      match CleanAppointment(now, Some(r2.date))
      case Invalid(f, m) => Rejected(f, m)
      case Clean => Updated(r2)
  }

  /** The status is refused exactly when it is missing or not one of the
      four; a known status is saved exactly when the appointment's date
      still passes the model's validation, and then with the new status and
      the same date. */
  lemma StatusUpdateIff(row: Row, newStatus: Option<string>, now: Instant)
    requires ValidRow(row) && ValidInstant(now)
    ensures StatusUpdate(row, newStatus, now) == BadStatus
      <==> (newStatus.None? || !KnownStatus(newStatus.value))
    ensures StatusUpdate(row, newStatus, now).Updated?
      <==> (newStatus.Some? && KnownStatus(newStatus.value) && CleanAppointment(now, Some(row.date)) == Clean)
    ensures StatusUpdate(row, newStatus, now).Updated?
      ==> (StatusUpdate(row, newStatus, now).row.status == newStatus.value
        && StatusUpdate(row, newStatus, now).row.date == row.date)
  {
  }

  /** Completing an appointment that has no end time stamps it with `now`
      and, when it has no start time either, starts it at its scheduled
      date; a start time already there is kept. */
  lemma CompletionFillsTimes(row: Row, now: Instant)
    requires ValidRow(row) && ValidInstant(now) && row.actualEnd.None?
    requires StatusUpdate(row, Some("realizada"), now).Updated?
    ensures StatusUpdate(row, Some("realizada"), now).row.actualEnd == Some(now)
    ensures StatusUpdate(row, Some("realizada"), now).row.actualStart
      == if row.actualStart.None? then Some(row.date) else row.actualStart
  {
  }

  /** The times stay as they were for any other status, and for a
      completion when an end time is already recorded. */
  lemma TimesKept(row: Row, newStatus: Option<string>, now: Instant)
    requires ValidRow(row) && ValidInstant(now)
    requires StatusUpdate(row, newStatus, now).Updated?
    requires newStatus != Some("realizada") || row.actualEnd.Some?
    ensures StatusUpdate(row, newStatus, now).row.actualStart == row.actualStart
    ensures StatusUpdate(row, newStatus, now).row.actualEnd == row.actualEnd
  {
  }

  /** Saving re-runs the model's validation, so no status at all can be
      set on an appointment dated more than a day before `now`. */
  lemma StaleAppointmentFrozen(row: Row, newStatus: Option<string>, now: Instant)
    requires ValidRow(row) && ValidInstant(now)
    requires newStatus.Some? && KnownStatus(newStatus.value)
    requires Ticks(row.date) < Ticks(now) - 24 * 60 * MicrosPerMinute
    ensures StatusUpdate(row, newStatus, now)
      == Rejected("appointment_date", "No se pueden crear citas con más de 1 día de antigüedad")
  {
  }

  // ---------------------------------------------------------------------
  // destroy

  /** The answers of `destroy`. */
  datatype DestroyReply =
    | Missing                  // 404 from get_object
    | Refused(error: string)   // 400
    | Deleted                  // 204

  /** `destroy`: the answer and the table afterwards. */
  function Destroyed(rows: map<nat, Row>, pk: nat): (r: (DestroyReply, map<nat, Row>))
  {
    if pk !in rows then (Missing, rows)
    else if rows[pk].status == "realizada" then
      (Refused("No se pueden eliminar citas que ya fueron realizadas"), rows)
    else (Deleted, rows - {pk})
  }

  /** Deletion removes the one appointment asked for and no other, never a
      completed one: the table shrinks by exactly `pk` when it answers 204
      and is untouched otherwise. */
  lemma DestroyedKeepsCompleted(rows: map<nat, Row>, pk: nat)
    ensures var (reply, after) := Destroyed(rows, pk);
      (reply == Deleted <==> pk in rows && rows[pk].status != "realizada")
      && (reply == Deleted ==> after.Keys == rows.Keys - {pk})
      && (reply != Deleted ==> after == rows)
      && (forall k :: k in after ==> k in rows && after[k] == rows[k])
      && (forall k :: k in rows && rows[k].status == "realizada" ==> k in after)
  {
  }

  // ---------------------------------------------------------------------
  // The table

  /** The appointments table as the view set changes it. */
  class AppointmentTable {
    var rows: map<nat, Row>

    predicate Valid()
      reads this
    {
      ValidRows(rows)
    }

    constructor ()
      ensures Valid() && rows == map[]
    {
      rows := map[];
    }

    /** `update_status(request, pk)`: look the row up, check the status,
        set it, fill the times, validate and save. */
    method UpdateStatus(pk: nat, newStatus: Option<string>, now: Instant) returns (reply: StatusReply)
      requires Valid() && ValidInstant(now)
      modifies this
      ensures Valid()
      ensures pk !in old(rows) ==> reply == NotFound
      ensures pk in old(rows) ==> reply == StatusUpdate(old(rows)[pk], newStatus, now)
      ensures rows == if reply.Updated? then old(rows)[pk := reply.row] else old(rows)
    {
      if pk !in rows {
        return NotFound;
      }
      var cita := rows[pk];
      if newStatus.None? || !KnownStatus(newStatus.value) {
        return BadStatus;
      }
      cita := cita.(status := newStatus.value);
      if newStatus.value == "realizada" && cita.actualEnd.None? {
        cita := cita.(actualEnd := Some(now));
        if cita.actualStart.None? {
          cita := cita.(actualStart := Some(cita.date));
        }
      }
      var cleaned := CleanAppointment(now, Some(cita.date));
      if cleaned.Invalid? {
        return Rejected(cleaned.field, cleaned.message);
      }
      rows := rows[pk := cita];
      reply := Updated(cita);
    }

    /** `destroy(request, pk)`. */
    method Destroy(pk: nat) returns (reply: DestroyReply)
      requires Valid()
      modifies this
      ensures Valid()
      ensures (reply, rows) == Destroyed(old(rows), pk)
    {
      if pk !in rows {
        return Missing;
      }
      if rows[pk].status == "realizada" {
        return Refused("No se pueden eliminar citas que ya fueron realizadas");
      }
      rows := rows - {pk};
      reply := Deleted;
    }
  }
}
