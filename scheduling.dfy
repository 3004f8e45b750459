/** The server's appointment rules: the model's `clean` (not more than a
    day in the past, hours 8 to 16), the serializer's date check (not more
    than an hour in the past, the same hours) and its medication
    cross-check, and the legacy model's wider hours with its check for a
    professional's overlapping appointments. Instants are date-times on
    the server's clock with the microseconds within the minute; `now` is
    a parameter. */
module Scheduling {
  import opened Dates
  import opened Text
  import opened Names

  const MicrosPerMinute: int := 60000000

  /** A `DateTimeField` value on the server's clock. */
  datatype Instant = Instant(at: DateTime, micros: int)

  predicate ValidInstant(i: Instant) {
    ValidDateTime(i.at) && 0 <= i.micros < MicrosPerMinute
  }

  /** The instant's place on a single time line, in microseconds. */
  function Ticks(i: Instant): int
    requires ValidInstant(i)
  {
    MinuteNumber(i.at) * MicrosPerMinute + i.micros
  }

  /** `i + timedelta(minutes=delta)`. */
  function Plus(i: Instant, delta: int): (r: Instant)
    requires ValidInstant(i)
    ensures ValidInstant(r) && Ticks(r) == Ticks(i) + delta * MicrosPerMinute
  {
    MinuteNumberShift(i.at, delta);
    Instant(ShiftMinutes(i.at, delta), i.micros)
  }

  /** `i.hour`. */
  function HourOf(i: Instant): int { Hour(i.at) }

  /** The outcome of a model's `clean`: nothing raised, or a
      `ValidationError` under a field. */
  datatype Cleaned = Clean | Invalid(field: string, message: string)

  // ---------------------------------------------------------------------
  // models/appointment.py

  /** `Appointment.clean()`: a missing date passes; otherwise it may be at
      most one day old and its hour must be from 8 to 15. */
  function CleanAppointment(now: Instant, date: Option<Instant>): (r: Cleaned)
    requires ValidInstant(now) && (date.Some? ==> ValidInstant(date.value))
  {
    if date.None? then Clean
    else if Ticks(date.value) < Ticks(Plus(now, -MinutesPerDay)) then
      Invalid("appointment_date", "No se pueden crear citas con más de 1 día de antigüedad")
    else if HourOf(date.value) < 8 || HourOf(date.value) >= 16 then
      Invalid("appointment_date", "Las citas deben ser entre 8:00 AM y 4:00 PM")
    else Clean
  }

  /** `clean` passes exactly for a missing date, or for one no earlier than
      24 hours before `now` whose hour lies in [8, 16). */
  lemma CleanAppointmentIff(now: Instant, date: Option<Instant>)
    requires ValidInstant(now) && (date.Some? ==> ValidInstant(date.value))
    ensures CleanAppointment(now, date) == Clean
      <==> (date.None?
        || (Ticks(date.value) >= Ticks(now) - 24 * 60 * MicrosPerMinute && 8 <= HourOf(date.value) < 16))
  {
  }

  // ---------------------------------------------------------------------
  // serializers/appointment.py and the legacy serializers.py

  /** `validate_appointment_date(valor)`: at most one hour old, and an hour
      from 8 to 15; an accepted date is returned as it came. */
  function ValidateAppointmentDate(now: Instant, value: Instant): (r: Checked<Instant>)
    requires ValidInstant(now) && ValidInstant(value)
    ensures r.Accept? ==> r.value == value
  {
    if Ticks(value) < Ticks(Plus(now, -60)) then
      Reject("appointment_date", "La cita no puede ser en el pasado")
    else if HourOf(value) < 8 || HourOf(value) >= 16 then
      Reject("appointment_date", "Las citas deben ser entre 8:00 AM y 4:00 PM")
    else Accept(value)
  }

  /** The serializer accepts exactly the dates no earlier than an hour
      before `now` whose hour lies in [8, 16). */
  lemma ValidateAppointmentDateIff(now: Instant, value: Instant)
    requires ValidInstant(now) && ValidInstant(value)
    ensures ValidateAppointmentDate(now, value).Accept?
      <==> Ticks(value) >= Ticks(now) - 60 * MicrosPerMinute && 8 <= HourOf(value) < 16
  {
  }

  /** Whatever the serializer accepts, the model's `clean` accepts too: the
      serializer's hour of grace is inside the model's day. */
  lemma SerializerStricterThanModel(now: Instant, value: Instant)
    requires ValidInstant(now) && ValidInstant(value)
    requires ValidateAppointmentDate(now, value).Accept?
    ensures CleanAppointment(now, Some(value)) == Clean
  {
    ValidateAppointmentDateIff(now, value);
    CleanAppointmentIff(now, Some(value));
  }

  /** An appointment at 16:00 or later in the hour is refused by both the
      serializer and the model, whatever `now` is. */
  lemma FourPmRejected(now: Instant, value: Instant)
    requires ValidInstant(now) && ValidInstant(value) && HourOf(value) == 16
    ensures ValidateAppointmentDate(now, value).Reject?
    ensures CleanAppointment(now, Some(value)).Invalid?
  {
  }

  /** The service an appointment refers to. */
  datatype Service = Service(name: string, requiresMedication: bool, durationMinutes: nat)

  /** The fields `validate(atributos)` reads: `None` for a key not sent. */
  datatype Attrs = Attrs(service: Option<Service>, medicationType: Option<string>)

  /** `atributos.get('medication_type', '')` is empty. */
  predicate NoMedication(attrs: Attrs) {
    attrs.medicationType.None? || attrs.medicationType.value == ""
  }

  /** `validate(atributos)`: a service that requires medication needs a
      medication type; everything else passes unchanged. */
  function ValidateMedication(attrs: Attrs): (r: Checked<Attrs>)
    ensures r.Accept? ==> r.value == attrs
  {
    if attrs.service.Some? && attrs.service.value.requiresMedication && NoMedication(attrs) then
      Reject("medication_type", "El servicio " + attrs.service.value.name + " requiere especificar el medicamento")
    else Accept(attrs)
  }

  /** The error is raised exactly when the service requires medication and
      none is given, under `medication_type` and naming the service. */
  lemma ValidateMedicationIff(attrs: Attrs)
    ensures ValidateMedication(attrs).Reject?
      <==> attrs.service.Some? && attrs.service.value.requiresMedication && NoMedication(attrs)
    ensures ValidateMedication(attrs).Reject? ==>
      ValidateMedication(attrs).field == "medication_type"
      && ValidateMedication(attrs).message[..12] == "El servicio "
      && ValidateMedication(attrs).message[12..12 + |attrs.service.value.name|] == attrs.service.value.name
  {
  }

  // ---------------------------------------------------------------------
  // The legacy models.py

  /** A stored appointment as the overlap query sees it. */
  datatype Stored = Stored(id: nat, professional: Option<nat>, date: Instant, durationMinutes: nat, status: string)

  /** The appointment being cleaned: no `id` before its first save. */
  datatype Candidate = Candidate(
    id: Option<nat>, date: Option<Instant>, professional: Option<nat>,
    professionalName: string, durationMinutes: nat)

  predicate ValidStored(others: seq<Stored>) {
    forall i :: 0 <= i < |others| ==> ValidInstant(others[i].date)
  }

  /** One row of the overlap query: the same professional, a date in
      [start - 60 min, start + duration), an open status, and not the
      candidate itself (`exclude(id=None)` excludes nothing). */
  predicate Overlapping(start: Instant, c: Candidate, o: Stored)
    requires ValidInstant(start) && ValidInstant(o.date) && c.professional.Some?
  {
    o.professional == c.professional
    && Ticks(o.date) < Ticks(Plus(start, c.durationMinutes))
    && Ticks(o.date) >= Ticks(Plus(start, -60))
    && (o.status == "pendiente" || o.status == "confirmada")
    && (c.id.None? || o.id != c.id.value)
  }

  /** `overlapping.exists()`. */
  predicate HasOverlap(start: Instant, c: Candidate, others: seq<Stored>)
    requires ValidInstant(start) && ValidStored(others) && c.professional.Some?
  {
    exists i :: 0 <= i < |others| && Overlapping(start, c, others[i])
  }

  /** The legacy `Appointment.clean()`: at most one day old, hours 8 to 17,
      and, when a professional is assigned, no open appointment of theirs
      starting from an hour before to the end of this one. */
  function LegacyClean(now: Instant, c: Candidate, others: seq<Stored>): (r: Cleaned)
    requires ValidInstant(now) && (c.date.Some? ==> ValidInstant(c.date.value)) && ValidStored(others)
  {
    if c.date.None? then Clean
    else if Ticks(c.date.value) < Ticks(Plus(now, -MinutesPerDay)) then
      Invalid("appointment_date", "No se pueden crear citas con más de 1 día de antigüedad")
    else if HourOf(c.date.value) < 8 || HourOf(c.date.value) >= 18 then
      Invalid("appointment_date", "Las citas deben ser entre 8:00 AM y 6:00 PM")
    else if c.professional.Some? && HasOverlap(c.date.value, c, others) then
      Invalid("appointment_date", "El profesional " + c.professionalName + " ya tiene una cita en ese horario")
    else Clean
  }

  /** Without a professional no overlap is looked for: the legacy `clean`
      then depends on the date alone. */
  lemma NoProfessionalNoOverlap(now: Instant, c: Candidate, others: seq<Stored>)
    requires ValidInstant(now) && (c.date.Some? ==> ValidInstant(c.date.value)) && ValidStored(others)
    requires c.professional.None?
    ensures LegacyClean(now, c, others) == LegacyClean(now, c, [])
  {
  }

  /** The legacy model allows the hours 16 and 17, which the refactored
      model refuses; on every other date both agree when nothing overlaps. */
  lemma LegacyHoursWider(now: Instant, c: Candidate)
    requires ValidInstant(now) && c.date.Some? && ValidInstant(c.date.value) && c.professional.None?
    ensures Ticks(c.date.value) >= Ticks(now) - 24 * 60 * MicrosPerMinute && 16 <= HourOf(c.date.value) < 18
      ==> LegacyClean(now, c, []) == Clean && CleanAppointment(now, c.date).Invalid?
    ensures HourOf(c.date.value) < 16 || HourOf(c.date.value) >= 18
      ==> (LegacyClean(now, c, []) == Clean <==> CleanAppointment(now, c.date) == Clean)
  {
  }

  /** An appointment that started more than an hour before never counts,
      however long its own service lasts. */
  lemma EarlierThanAnHourNeverOverlaps(start: Instant, c: Candidate, o: Stored)
    requires ValidInstant(start) && ValidInstant(o.date) && c.professional.Some?
    requires Ticks(o.date) < Ticks(start) - 60 * MicrosPerMinute
    ensures !Overlapping(start, c, o)
  {
  }

  /** Cancelled and completed appointments never count. */
  lemma ClosedNeverOverlaps(start: Instant, c: Candidate, o: Stored)
    requires ValidInstant(start) && ValidInstant(o.date) && c.professional.Some?
    requires o.status == "cancelada" || o.status == "realizada"
    ensures !Overlapping(start, c, o)
  {
  }

  /** Saving again does not clash with the stored copy of itself. */
  lemma SelfNeverOverlaps(start: Instant, c: Candidate, o: Stored)
    requires ValidInstant(start) && ValidInstant(o.date) && c.professional.Some?
    requires c.id == Some(o.id)
    ensures !Overlapping(start, c, o)
  {
  }

  /** The legacy `clean` refuses a date exactly when it is too old, outside
      the hours, or clashes with another open appointment of the same
      professional. */
  lemma LegacyCleanIff(now: Instant, c: Candidate, others: seq<Stored>)
    requires ValidInstant(now) && c.date.Some? && ValidInstant(c.date.value) && ValidStored(others)
    ensures LegacyClean(now, c, others) == Clean
      <==> (Ticks(c.date.value) >= Ticks(now) - 24 * 60 * MicrosPerMinute
        && 8 <= HourOf(c.date.value) < 18
        && (c.professional.Some? ==> forall i :: 0 <= i < |others| ==> !Overlapping(c.date.value, c, others[i])))
  {
  }

  // ---------------------------------------------------------------------
  // The overlap window, as written and as meant

  /** Two appointments of the same professional really clash when their
      time spans intersect: each starts before the other ends. */
  predicate Clashes(start: Instant, c: Candidate, o: Stored)
    requires ValidInstant(start) && ValidInstant(o.date) && c.professional.Some?
  {
    o.professional == c.professional
    && Ticks(o.date) < Ticks(Plus(start, c.durationMinutes))
    && Ticks(start) < Ticks(Plus(o.date, o.durationMinutes))
    && (o.status == "pendiente" || o.status == "confirmada")
    && (c.id.None? || o.id != c.id.value)
  }

  /** The written window misses a clash: an appointment of two hours that
      began ninety minutes before still runs when a half-hour one starts,
      but it began more than an hour before, so it is not looked at. */
  lemma LookbackMissesLongAppointment(start: Instant, c: Candidate, o: Stored)
    requires ValidInstant(start) && c.professional.Some? && c.durationMinutes == 30
    requires o == Stored(o.id, c.professional, Plus(start, -90), 120, "pendiente")
    requires c.id.None?
    ensures Clashes(start, c, o) && !Overlapping(start, c, o)
  {
  }

  /** The written window also flags an appointment that is already over: a
      quarter of an hour that began half an hour before. */
  lemma LookbackFlagsFinishedAppointment(start: Instant, c: Candidate, o: Stored)
    requires ValidInstant(start) && c.professional.Some? && c.durationMinutes == 30
    requires o == Stored(o.id, c.professional, Plus(start, -30), 15, "confirmada")
    requires c.id.None?
    ensures Overlapping(start, c, o) && !Clashes(start, c, o)
  {
  }

  /** A clash is symmetric: swapping the two appointments' roles keeps it. */
  lemma ClashesSymmetric(start: Instant, c: Candidate, o: Stored, c2: Candidate, o2: Stored)
    requires ValidInstant(start) && ValidInstant(o.date) && c.professional.Some?
    requires c.id.Some? && c.id.value != o.id && o.professional == c.professional
    requires c2 == Candidate(Some(o.id), Some(o.date), c.professional, c.professionalName, o.durationMinutes)
    requires o2 == Stored(c.id.value, c.professional, start, c.durationMinutes, o.status)
    ensures Clashes(start, c, o) <==> Clashes(o.date, c2, o2)
  {
  }

  /** The written window catches every real clash with an appointment of
      an hour or less, so it was meant for services of at most an hour. */
  lemma LookbackRightForShortServices(start: Instant, c: Candidate, o: Stored)
    requires ValidInstant(start) && ValidInstant(o.date) && c.professional.Some?
    requires o.durationMinutes <= 60
    ensures Clashes(start, c, o) ==> Overlapping(start, c, o)
  {
  }

  /** `overlapping.exists()` with the intended intersection test. */
  predicate HasClash(start: Instant, c: Candidate, others: seq<Stored>)
    requires ValidInstant(start) && ValidStored(others) && c.professional.Some?
  {
    exists i :: 0 <= i < |others| && Clashes(start, c, others[i])
  }

  /** The legacy `clean` with the intended clash test: the same date rules,
      then no open appointment of the professional whose span meets this one. */
  function LegacyCleanIntended(now: Instant, c: Candidate, others: seq<Stored>): (r: Cleaned)
    requires ValidInstant(now) && (c.date.Some? ==> ValidInstant(c.date.value)) && ValidStored(others)
  {
    if c.date.None? then Clean
    else if Ticks(c.date.value) < Ticks(Plus(now, -MinutesPerDay)) then
      Invalid("appointment_date", "No se pueden crear citas con más de 1 día de antigüedad")
    else if HourOf(c.date.value) < 8 || HourOf(c.date.value) >= 18 then
      Invalid("appointment_date", "Las citas deben ser entre 8:00 AM y 6:00 PM")
    else if c.professional.Some? && HasClash(c.date.value, c, others) then
      Invalid("appointment_date", "El profesional " + c.professionalName + " ya tiene una cita en ese horario")
    else Clean
  }

  /** The intended `clean` refuses exactly the dates that are too old,
      outside the hours, or meet an open appointment of the same
      professional; when every stored appointment lasts an hour or less,
      whatever the written version accepts the intended one accepts too. */
  lemma LegacyCleanIntendedIff(now: Instant, c: Candidate, others: seq<Stored>)
    requires ValidInstant(now) && c.date.Some? && ValidInstant(c.date.value) && ValidStored(others)
    ensures LegacyCleanIntended(now, c, others) == Clean
      <==> (Ticks(c.date.value) >= Ticks(now) - 24 * 60 * MicrosPerMinute
        && 8 <= HourOf(c.date.value) < 18
        && (c.professional.Some? ==> forall i :: 0 <= i < |others| ==> !Clashes(c.date.value, c, others[i])))
    ensures ((forall i :: 0 <= i < |others| ==> others[i].durationMinutes <= 60) && LegacyClean(now, c, others) == Clean)
      ==> LegacyCleanIntended(now, c, others) == Clean
  {
    if c.professional.Some? && forall i :: 0 <= i < |others| ==> others[i].durationMinutes <= 60 {
      forall i | 0 <= i < |others|
        ensures Clashes(c.date.value, c, others[i]) ==> Overlapping(c.date.value, c, others[i])
      {
        LookbackRightForShortServices(c.date.value, c, others[i]);
      }
    }
  }
}
