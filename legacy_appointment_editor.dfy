/** The appointment editor of the first calendar: the same draft under the
    name `assigned_professional`, the date shown as the UTC wall time of
    the appointment and sent back as typed, and a cancellation in place of
    the deletion. The server is an oracle, as in `AppointmentEditor`. */
module LegacyAppointmentEditor {
  import opened Dates
  import opened Text
  import opened Rfc3339
  import opened Json
  import opened JsDates
  import opened Grid
  import opened Forms

  /** The draft's fields. */
  const DraftKeys: seq<string> := [
    "pet", "service", "appointment_date", "assigned_professional", "reason", "status",
    "medication_type", "medication_dosage", "instructions", "observations"]

  /** The general error of a request that threw. */
  const ConnectionError: Json := JObject(map["general" := JStr("Error de conexión")])

  /** The first `formData`: every field empty, the status `pendiente`. */
  function InitialDraft(): (d: Object)
  {
    map[
      "pet" := JStr(""), "service" := JStr(""), "appointment_date" := JStr(""),
      "assigned_professional" := JStr(""), "reason" := JStr(""), "status" := JStr("pendiente"),
      "medication_type" := JStr(""), "medication_dosage" := JStr(""),
      "instructions" := JStr(""), "observations" := JStr("")]
  }

  /** The initial draft has exactly the draft's fields, all empty but the
      status, which is `pendiente`. */
  lemma InitialDraftEmpty()
    ensures forall k :: k in InitialDraft() <==> k in DraftKeys
    ensures forall k :: k in InitialDraft() ==> InitialDraft()[k] == JStr(if k == "status" then "pendiente" else "")
  {
  }

  /** An appointment as the calendar hands it over. */
  predicate ServerRow(a: Object) {
    "pet" in a && "service" in a && "status" in a && "appointment_date" in a && a["appointment_date"].JStr?
  }

  /** `new Date(appointment.appointment_date).toISOString().slice(0, 16)`;
      `None` where `toISOString` throws. */
  function EditDate(env: Env, text: string): (r: Option<string>)
    requires ValidEnv(env)
    ensures r.Some? ==> |r.value| == 16
  {
    match ToIsoString(env, ParseDate(env, text))
    case None => None
    case Some(iso) => Some(iso[..16])
  }

  /** Edit mode shows the appointment's instant as UTC wall time, whatever
      offset the server wrote it with and whatever the device's zone: an
      appointment at 09:00 in Ecuador (UTC-5) appears as 14:00. */
  lemma EditDateIsUtc(env: Env, ts: Timestamp, off: int)
    requires ValidEnv(env) && ValidTimestamp(ts) && ValidOffset(off)
    requires 0 <= ShiftMinutes(ts.utc, off).date.year < 10000
    requires 0 <= ShiftMinutes(ts.utc, env.offset).date.year < 10000
    requires 0 <= ts.utc.date.year < 10000
    ensures EditDate(env, TimestampText(ts, off)) == Some(InputForm(ts.utc))
  {
    ParseDateTimestamp(env, ts, off);
    ShiftInverse(ts.utc, env.offset);
    assert InstantOf(env, ShiftMinutes(ts.utc, env.offset), ts.millis) == ts;
    IsoStringPrefix(ts);
  }

  /** An unreadable date stops the effect: nothing is set. */
  lemma EditDateEmpty(env: Env)
    requires ValidEnv(env)
    ensures EditDate(env, "").None?
  {
    ParseDateEmpty(env);
  }

  /** The draft set by the effect in edit mode, given the date text. */
  function EditDraft(a: Object, date: string): (d: Object)
    requires ServerRow(a)
  {
    map[
      "pet" := a["pet"], "service" := a["service"],
      "appointment_date" := JStr(date),
      "assigned_professional" := OrEmpty(a, "assigned_professional"),
      "reason" := OrEmpty(a, "reason"), "status" := a["status"],
      "medication_type" := OrEmpty(a, "medication_type"),
      "medication_dosage" := OrEmpty(a, "medication_dosage"),
      "instructions" := OrEmpty(a, "instructions"),
      "observations" := OrEmpty(a, "observations")]
  }

  /** Edit mode fills exactly the fields of the initial draft. */
  lemma EditDraftKeys(a: Object, date: string)
    requires ServerRow(a)
    ensures EditDraft(a, date).Keys == InitialDraft().Keys
  {
  }

  /** Edit mode copies the pet, the service and the status, and takes the
      professional when truthy and `''` otherwise. */
  lemma EditDraftCopies(a: Object, date: string)
    requires ServerRow(a)
    ensures EditDraft(a, date)["pet"] == a["pet"] && EditDraft(a, date)["service"] == a["service"]
    ensures EditDraft(a, date)["status"] == a["status"] && EditDraft(a, date)["appointment_date"] == JStr(date)
    ensures EditDraft(a, date)["assigned_professional"]
      == if Truthy(Get(a, "assigned_professional")) then a["assigned_professional"] else JStr("")
  {
  }

  /** The effect: edit mode (when its date converts), else create mode
      with `slot.formatted`, else the draft as it was. `None` where
      `toISOString` throws and the effect stops. */
  function SeededDraft(env: Env, appointment: Option<Object>, slot: Option<Slot>, prev: Object): (r: Option<Object>)
    requires ValidEnv(env) && (appointment.Some? ==> ServerRow(appointment.value))
  {
    if appointment.Some? then
      var date := EditDate(env, appointment.value["appointment_date"].s);
      if date.None? then None else Some(EditDraft(appointment.value, date.value))
    else if slot.Some? then Some(prev["appointment_date" := JStr(slot.value.formatted)])
    else Some(prev)
  }

  /** Create mode keeps every field but the date, which becomes the slot's
      `formatted` text; only edit mode can throw. */
  lemma SeededDraftCreate(env: Env, prev: Object, slot: Slot)
    requires ValidEnv(env)
    ensures SeededDraft(env, None, Some(slot), prev).Some?
    ensures SeededDraft(env, None, Some(slot), prev).value["appointment_date"] == JStr(slot.formatted)
    ensures forall k :: (k in prev && k != "appointment_date"
      ==> k in SeededDraft(env, None, Some(slot), prev).value && SeededDraft(env, None, Some(slot), prev).value[k] == prev[k])
  {
  }

  /** `formData.assigned_professional ? parseInt(...) : null`. */
  function ProfessionalJson(v: Option<Json>): (r: Json)
  {
    if Truthy(v) then NumberJson(ParseIntOf(v)) else JNull
  }

  /** `submitData`: the draft as typed, with the pet, the service and the
      professional read by `parseInt`. */
  function SubmitBody(draft: Object): (body: Object)
  {
    draft["pet" := NumberJson(ParseIntOf(Get(draft, "pet")))]
      ["service" := NumberJson(ParseIntOf(Get(draft, "service")))]
      ["assigned_professional" := ProfessionalJson(Get(draft, "assigned_professional"))]
  }

  /** The date is sent exactly as the input holds it, and every field but
      the three ids passes unchanged. */
  lemma SubmitBodyFields(draft: Object)
    ensures SubmitBody(draft).Keys == draft.Keys + {"pet", "service", "assigned_professional"}
    ensures forall k :: (k in draft && k !in {"pet", "service", "assigned_professional"}
      ==> SubmitBody(draft)[k] == draft[k])
    ensures Get(draft, "assigned_professional") == Some(JStr(""))
      ==> SubmitBody(draft)["assigned_professional"] == JNull
  {
  }

  /** The first editor's guard and the second's bare `parseInt` send the
      same professional for every value but the number 0, which the guard
      turns into `null`. */
  lemma ProfessionalAgrees(v: Option<Json>)
    ensures v != Some(JNum(0)) ==> ProfessionalJson(v) == NumberJson(ParseIntOf(v))
    ensures ProfessionalJson(Some(JNum(0))) == JNull && NumberJson(ParseIntOf(Some(JNum(0)))) == JNum(0)
  {
    if v.Some? && v.value.JStr? && v.value.s == "" {
      ParseIntEmpty();
    }
  }

  /** The request `handleSubmit` sends: a PUT to the appointment when
      editing, a POST to the collection otherwise. */
  function SubmitRequest(appointment: Option<Object>, draft: Object): (r: Request)
    ensures r.verb == PUT <==> appointment.Some?
    ensures r.body == Some(JObject(SubmitBody(draft)))
  {
    var (verb, path) := SaveTarget("appointments", if appointment.Some? then Some(IdText(Get(appointment.value, "id"))) else None);
    Request(verb, path, Some(JObject(SubmitBody(draft))))
  }

  /** The cancellation `handleDelete` sends: the status `cancelada`
      through `update_status`, never a deletion. */
  function CancelRequest(a: Object): (r: Request)
    ensures r.verb == PATCH && r.verb != DELETE
    ensures r.body == Some(JObject(map["status" := JStr("cancelada")]))
  {
    Request(PATCH, "/appointments/" + IdText(Get(a, "id")) + "/update_status/", Some(JObject(map["status" := JStr("cancelada")])))
  }

  /** The editor's state. */
  class Editor {
    const env: Env
    const slot: Option<Slot>
    const appointment: Option<Object>
    var formData: Object
    var errors: Json
    var loading: bool
    /** How many times `onSave` has been called. */
    var saves: nat

    predicate Valid()
      reads this
    {
      ValidEnv(env) && (appointment.Some? ==> ServerRow(appointment.value))
    }

    constructor (env: Env, slot: Option<Slot>, appointment: Option<Object>)
      requires ValidEnv(env) && (appointment.Some? ==> ServerRow(appointment.value))
      ensures Valid() && this.env == env && this.slot == slot && this.appointment == appointment
      ensures formData == InitialDraft() && errors == JObject(map[]) && !loading && saves == 0
    {
      this.env := env;
      this.slot := slot;
      this.appointment := appointment;
      formData := InitialDraft();
      errors := JObject(map[]);
      loading := false;
      saves := 0;
    }

    /** The effect run when the editor opens; `thrown` when the edit date
        cannot be converted, and then nothing changes. */
    method Seed() returns (thrown: bool)
      requires Valid()
      modifies this
      ensures Valid()
      ensures thrown <==> SeededDraft(env, appointment, slot, old(formData)).None?
      ensures formData == if thrown then old(formData) else SeededDraft(env, appointment, slot, old(formData)).value
      ensures errors == old(errors) && loading == old(loading) && saves == old(saves)
    {
      thrown := false;
      if appointment.Some? {
        var date := EditDate(env, appointment.value["appointment_date"].s);
        if date.None? {
          return true;
        }
        formData := EditDraft(appointment.value, date.value);
      } else if slot.Some? {
        formData := formData["appointment_date" := JStr(slot.value.formatted)];
      }
    }

    /** An input's `onChange`. */
    method Change(key: string, value: string)
      requires Valid()
      modifies this
      ensures Valid()
      ensures formData == old(formData)[key := JStr(value)]
      ensures errors == old(errors) && loading == old(loading) && saves == old(saves)
    {
      formData := formData[key := JStr(value)];
    }

    /** `handleSubmit`: errors cleared, the draft sent, and the answer
        applied; `loading` is off again at the end. */
    method Submit(outcome: Outcome) returns (sent: Request)
      requires Valid()
      modifies this
      ensures Valid() && !loading && formData == old(formData)
      ensures sent == SubmitRequest(appointment, old(formData))
      ensures outcome.Ok? ==> errors == JObject(map[]) && saves == old(saves) + 1
      ensures outcome.NotOk? ==> errors == outcome.body && saves == old(saves)
      ensures outcome.Failed? ==> errors == ConnectionError && saves == old(saves)
    {
      loading := true;
      errors := JObject(map[]);
      var (verb, path) := SaveTarget("appointments", if appointment.Some? then Some(IdText(Get(appointment.value, "id"))) else None);
      sent := Request(verb, path, Some(JObject(SubmitBody(formData))));
      match outcome {
        case Ok(_) => saves := saves + 1;
        case NotOk(body) => errors := body;
        case Failed => errors := ConnectionError;
      }
      loading := false;
    }

    /** `handleDelete`: nothing without an appointment or confirmation;
        otherwise the cancellation, and `onSave` only when it succeeds. */
    method Delete(confirmed: bool, outcome: Outcome) returns (sent: Option<Request>)
      requires Valid()
      modifies this
      ensures Valid() && formData == old(formData) && errors == old(errors)
      ensures appointment.None? || !confirmed ==> sent.None? && saves == old(saves) && loading == old(loading)
      ensures appointment.Some? && confirmed ==>
        sent == Some(CancelRequest(appointment.value)) && !loading
        && saves == old(saves) + (if outcome.Ok? then 1 else 0)
    {
      if appointment.None? || !confirmed {
        return None;
      }
      loading := true;
      sent := Some(CancelRequest(appointment.value));
      if outcome.Ok? {
        saves := saves + 1;
      }
      loading := false;
    }
  }
}
