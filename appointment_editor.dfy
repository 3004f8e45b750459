/** The appointment editor of the refactored calendar: its draft, seeded
    from an appointment (edit mode) or from a clicked slot (create mode);
    the save, which sends the draft with its date converted for the server;
    the deletion; and the error messages shown under the fields. The server
    is an oracle: each request is answered by an `Outcome` parameter. */
module AppointmentEditor {
  import opened Text
  import opened Json
  import opened JsDates
  import opened Timezone
  import opened Grid
  import opened Forms

  /** The draft's fields. */
  const DraftKeys: seq<string> := [
    "pet", "service", "professional", "appointment_date", "reason", "status",
    "medication_type", "medication_dosage", "instructions", "observations"]

  /** The fields edit mode fills with `appointment.x || ''`: the draft's
      name and the appointment's. */
  const OptionalFields: seq<(string, string)> := [
    ("professional", "assigned_professional"), ("reason", "reason"),
    ("medication_type", "medication_type"), ("medication_dosage", "medication_dosage"),
    ("instructions", "instructions"), ("observations", "observations")]

  /** The general error of a request that threw. */
  const ConnectionError: Json := JObject(map["general" := JStr("Error de conexión con el servidor")])

  /** The first `formData`: every field empty, the status `pendiente`. */
  function InitialDraft(): (d: Object)
  {
    map[
      "pet" := JStr(""), "service" := JStr(""), "professional" := JStr(""),
      "appointment_date" := JStr(""), "reason" := JStr(""), "status" := JStr("pendiente"),
      "medication_type" := JStr(""), "medication_dosage" := JStr(""),
      "instructions" := JStr(""), "observations" := JStr("")]
  }

  /** The initial draft has exactly the draft's fields, all empty but the
      status, which is `pendiente`. */
  lemma InitialDraftEmpty()
    ensures forall k :: k in InitialDraft() <==> k in DraftKeys
    ensures forall k :: k in InitialDraft() ==> InitialDraft()[k] == JStr(if k == "status" then "pendiente" else "")
  {
  }

  /** The draft's date is text, as every input sets it. */
  predicate DraftShape(d: Object) {
    "appointment_date" in d && d["appointment_date"].JStr?
  }

  /** An appointment as the calendar hands it over: a server row with its
      pet, service, status and date text. */
  predicate ServerRow(a: Object) {
    "pet" in a && "service" in a && "status" in a && "appointment_date" in a && a["appointment_date"].JStr?
  }

  /** The draft's date in edit mode: `formatDateTimeLocal(
      formatDateFromBackend(appointment.appointment_date))`. */
  function EditDate(env: Env, text: string): string
    requires ValidEnv(env)
  {
    FormatDateTimeLocal(env, Given(FormatDateFromBackend(env, Str(text))))
  }

  /** The draft set by the effect in edit mode, given the date text
      `EditDate` gives for the appointment's date. */
  function EditDraft(a: Object, date: string): (d: Object)
    requires ServerRow(a)
    ensures DraftShape(d)
  {
    map[
      "pet" := a["pet"], "service" := a["service"],
      "professional" := OrEmpty(a, "assigned_professional"),
      "appointment_date" := JStr(date),
      "reason" := OrEmpty(a, "reason"), "status" := a["status"],
      "medication_type" := OrEmpty(a, "medication_type"),
      "medication_dosage" := OrEmpty(a, "medication_dosage"),
      "instructions" := OrEmpty(a, "instructions"),
      "observations" := OrEmpty(a, "observations")]
  }

  /** Edit mode fills exactly the fields of the initial draft. */
  lemma EditDraftKeys(a: Object, date: string)
    requires ServerRow(a)
    ensures EditDraft(a, date).Keys == InitialDraft().Keys
  {
  }

  /** Edit mode copies the pet, the service and the status, and each
      optional field is the appointment's when truthy and `''` otherwise. */
  lemma EditDraftCopies(a: Object, date: string)
    requires ServerRow(a)
    ensures EditDraft(a, date)["pet"] == a["pet"] && EditDraft(a, date)["service"] == a["service"]
    ensures EditDraft(a, date)["status"] == a["status"] && EditDraft(a, date)["appointment_date"] == JStr(date)
    ensures forall i :: 0 <= i < |OptionalFields| ==>
      EditDraft(a, date)[OptionalFields[i].0]
        == if Truthy(Get(a, OptionalFields[i].1)) then a[OptionalFields[i].1] else JStr("")
  {
    var d := EditDraft(a, date);
    forall i | 0 <= i < |OptionalFields|
      ensures d[OptionalFields[i].0] == if Truthy(Get(a, OptionalFields[i].1)) then a[OptionalFields[i].1] else JStr("")
    {
      var (dk, ak) := OptionalFields[i];
      assert d[dk] == OrEmpty(a, ak);
    }
  }

  /** The draft set by the effect in create mode: `appointment_date` from
      the slot's date, converted, and everything else as it was. */
  function CreateDraft(env: Env, prev: Object, slot: Slot): (d: Object)
    requires ValidEnv(env) && ValidJs(slot.date)
    ensures DraftShape(d)
  {
    prev["appointment_date" := JStr(FormatDateTimeLocal(env, Given(ToEcuadorTime(env, Given(slot.date)))))]
  }

  /** Create mode changes the date alone. */
  lemma CreateDraftKeepsFields(env: Env, prev: Object, slot: Slot)
    requires ValidEnv(env) && ValidJs(slot.date)
    ensures CreateDraft(env, prev, slot).Keys == prev.Keys + {"appointment_date"}
    ensures forall k :: k in prev && k != "appointment_date" ==> CreateDraft(env, prev, slot)[k] == prev[k]
  {
  }

  /** The effect: edit mode wins over create mode, and with neither the
      draft stays. */
  function SeededDraft(env: Env, appointment: Option<Object>, slot: Option<Slot>, prev: Object): (d: Object)
    requires ValidEnv(env) && (appointment.Some? ==> ServerRow(appointment.value))
    requires slot.Some? ==> ValidJs(slot.value.date)
    requires DraftShape(prev)
    ensures DraftShape(d)
  {
    if appointment.Some? then EditDraft(appointment.value, EditDate(env, appointment.value["appointment_date"].s))
    else if slot.Some? then CreateDraft(env, prev, slot.value)
    else prev
  }

  /** `new Date(formData.appointment_date)` sent through
      `formatDateForBackend`; `None` where `toISOString` throws. */
  function BackendDate(env: Env, draft: Object): (r: Option<string>)
    requires ValidEnv(env) && DraftShape(draft)
  {
    FormatDateForBackend(env, Given(ParseDate(env, draft["appointment_date"].s)))
  }

  /** An empty date throws before any request is made. */
  lemma EmptyDateThrows(env: Env, draft: Object)
    requires ValidEnv(env) && DraftShape(draft) && draft["appointment_date"] == JStr("")
    ensures BackendDate(env, draft).None?
  {
    ParseDateEmpty(env);
  }

  /** `submitData`: the draft with the converted date and the three ids
      read by `parseInt` (`NaN` is sent as `null`). */
  function SubmitBody(draft: Object, date: string): (body: Object)
  {
    draft["appointment_date" := JStr(date)]
      ["pet" := NumberJson(ParseIntOf(Get(draft, "pet")))]
      ["service" := NumberJson(ParseIntOf(Get(draft, "service")))]
      ["assigned_professional" := NumberJson(ParseIntOf(Get(draft, "professional")))]
  }

  /** Every other field of the draft is sent unchanged, `professional`
      included, and an empty professional is sent as `null`. */
  lemma SubmitBodyFields(draft: Object, date: string)
    ensures SubmitBody(draft, date).Keys == draft.Keys + {"appointment_date", "pet", "service", "assigned_professional"}
    ensures forall k :: (k in draft && k !in {"appointment_date", "pet", "service", "assigned_professional"}
      ==> SubmitBody(draft, date)[k] == draft[k])
    ensures SubmitBody(draft, date)["appointment_date"] == JStr(date)
    ensures Get(draft, "professional") == Some(JStr(""))
      ==> SubmitBody(draft, date)["assigned_professional"] == JNull
  {
    ParseIntEmpty();
  }

  /** The request `handleSubmit` sends once the date has been converted
      (`None`: the conversion threw, and nothing is sent). */
  function SubmitRequestFor(appointment: Option<Object>, draft: Object, date: Option<string>): (r: Option<Request>)
  {
    if date.None? then None
    else
      var (verb, path) := SaveTarget("appointments", if appointment.Some? then Some(IdText(Get(appointment.value, "id"))) else None);
      Some(Request(verb, path, Some(JObject(SubmitBody(draft, date.value)))))
  }

  /** The request `handleSubmit` sends, if it gets that far. */
  function SubmitRequest(env: Env, appointment: Option<Object>, draft: Object): (r: Option<Request>)
    requires ValidEnv(env) && DraftShape(draft)
  {
    SubmitRequestFor(appointment, draft, BackendDate(env, draft))
  }

  /** A request is sent exactly when the date converts; it is a PUT to the
      appointment's own path when editing and a POST to the collection
      otherwise, and it carries the draft with the converted date. */
  lemma SubmitRequestMethod(appointment: Option<Object>, draft: Object, date: Option<string>)
    ensures SubmitRequestFor(appointment, draft, date).Some? <==> date.Some?
    ensures SubmitRequestFor(appointment, draft, date).Some? ==>
      (SubmitRequestFor(appointment, draft, date).value.verb == PUT <==> appointment.Some?)
      && (appointment.None? ==> SubmitRequestFor(appointment, draft, date).value.path == "/appointments/")
      && (appointment.Some? ==>
            (SubmitRequestFor(appointment, draft, date).value.path
               == "/appointments/" + IdText(Get(appointment.value, "id")) + "/"))
      && SubmitRequestFor(appointment, draft, date).value.body == Some(JObject(SubmitBody(draft, date.value)))
  {
  }

  /** The editor's state. */
  class Editor {
    const env: Env
    const slot: Option<Slot>
    const appointment: Option<Object>
    var formData: Object
    var errors: Json
    var loading: bool
    /** How many times `onSave` has been called. */
    var saves: nat

    predicate Valid()
      reads this
    {
      ValidEnv(env) && (slot.Some? ==> ValidJs(slot.value.date))
      && (appointment.Some? ==> ServerRow(appointment.value))
      && DraftShape(formData)
    }

    constructor (env: Env, slot: Option<Slot>, appointment: Option<Object>)
      requires ValidEnv(env) && (slot.Some? ==> ValidJs(slot.value.date))
      requires appointment.Some? ==> ServerRow(appointment.value)
      ensures Valid() && this.env == env && this.slot == slot && this.appointment == appointment
      ensures formData == InitialDraft() && errors == JObject(map[]) && !loading && saves == 0
    {
      this.env := env;
      this.slot := slot;
      this.appointment := appointment;
      formData := InitialDraft();
      errors := JObject(map[]);
      loading := false;
      saves := 0;
    }

    /** The effect run when the editor opens. */
    method Seed()
      requires Valid()
      modifies this
      ensures Valid()
      ensures formData == SeededDraft(env, appointment, slot, old(formData))
      ensures errors == old(errors) && loading == old(loading) && saves == old(saves)
    {
      if appointment.Some? {
        formData := EditDraft(appointment.value, EditDate(env, appointment.value["appointment_date"].s));
      } else if slot.Some? {
        formData := CreateDraft(env, formData, slot.value);
      }
    }

    /** An input's `onChange`: `setFormData({...formData, key: value})`. */
    method Change(key: string, value: string)
      requires Valid()
      modifies this
      ensures Valid()
      ensures formData == old(formData)[key := JStr(value)]
      ensures errors == old(errors) && loading == old(loading) && saves == old(saves)
    {
      formData := formData[key := JStr(value)];
    }

    /** `handleSubmit`: errors cleared, the request built and sent, and the
        answer applied; `loading` is off again at the end whatever happened. */
    method Submit(outcome: Outcome) returns (sent: Option<Request>)
      requires Valid()
      modifies this
      ensures Valid() && !loading && formData == old(formData)
      ensures sent == SubmitRequest(env, appointment, old(formData))
      ensures sent.None? ==> errors == ConnectionError
      ensures sent.Some? && outcome.Ok? ==> errors == JObject(map[])
      ensures sent.Some? && outcome.NotOk? ==> errors == outcome.body
      ensures sent.Some? && outcome.Failed? ==> errors == ConnectionError
      ensures saves == old(saves) + (if sent.Some? && outcome.Ok? then 1 else 0)
    {
      loading := true;
      errors := JObject(map[]);
      sent := SubmitRequest(env, appointment, formData);
      if sent.None? {
        errors := ConnectionError;
        loading := false;
        return;
      }
      match outcome {
        case Ok(_) => saves := saves + 1;
        case NotOk(body) => errors := body;
        case Failed => errors := ConnectionError;
      }
      loading := false;
    }

    /** `handleDelete`: nothing without an appointment or without the
        user's confirmation; otherwise a `DELETE` of the appointment, and
        `onSave` only when it succeeds. */
    method Delete(confirmed: bool, outcome: Outcome) returns (sent: Option<Request>)
      requires Valid()
      modifies this
      ensures Valid() && formData == old(formData) && errors == old(errors)
      ensures appointment.None? || !confirmed ==> sent.None? && saves == old(saves) && loading == old(loading)
      ensures appointment.Some? && confirmed ==>
        sent == Some(Request(DELETE, "/appointments/" + IdText(Get(appointment.value, "id")) + "/", None))
        && !loading
        && saves == old(saves) + (if outcome.Ok? then 1 else 0)
    {
      if appointment.None? || !confirmed {
        return None;
      }
      loading := true;
      sent := Some(Request(DELETE, "/appointments/" + IdText(Get(appointment.value, "id")) + "/", None));
      if outcome.Ok? {
        saves := saves + 1;
      }
      loading := false;
    }

    /** `getFieldError(field)` on the current errors. */
    function FieldErrorOf(field: string): (r: Option<Json>)
      reads this
      ensures r == FieldError(errors, field)
    {
      FieldError(errors, field)
    }
  }
}
