/** What the editing screens share: the requests they send, the lookup of
    a field's error message, `parseInt` of a form value and its JSON text,
    and the search for the selected item of a list by its id. */
module Forms {
  import opened Text
  import opened Json

  datatype HttpMethod = GET | POST | PUT | PATCH | DELETE

  /** A request the screen sends: the method, the resource path and the
      JSON body (`None` for a request without one). */
  datatype Request = Request(verb: HttpMethod, path: string, body: Option<Json>)

  /** `/resource/` for a new record, `/resource/{id}/` for an existing one:
      the method and path `handleSubmit` picks. */
  function SaveTarget(resource: string, editingId: Option<string>): (r: (HttpMethod, string))
    ensures r.0 == PUT <==> editingId.Some?
    ensures r.0 == POST <==> editingId.None?
  {
    if editingId.Some? then (PUT, "/" + resource + "/" + editingId.value + "/")
    else (POST, "/" + resource + "/")
  }

  /** The path names the record exactly when editing: it is longer than
      the collection's path, and starts with it. */
  lemma SaveTargetPath(resource: string, editingId: Option<string>)
    ensures var (_, path) := SaveTarget(resource, editingId);
      IsPrefix("/" + resource + "/", path)
      && (editingId.None? <==> path == "/" + resource + "/")
  {
    var (_, path) := SaveTarget(resource, editingId);
    var base := "/" + resource + "/";
    if editingId.Some? {
      assert path == base + editingId.value + "/";
      assert path[..|base|] == base;
      assert |path| > |base|;
    }
  }

  /** `String(v)` of a JSON value: an array is its items joined with
      commas (a `null` item giving nothing), an object `[object Object]`. */
  function JsText(v: Json): string
    decreases v, 1
  {
    match v
    case JNull => "null"
    case JBool(b) => if b then "true" else "false"
    case JNum(n) => IntToString(n)
    case JStr(s) => s
    case JList(_) => ItemsText(v, 0)
    case JObject(_) => "[object Object]"
  }

  /** The items of an array from index `i` on, as `join(',')` writes them. */
  function ItemsText(v: Json, i: nat): string
    requires v.JList? && i <= |v.items|
    decreases v, 0, |v.items| - i
  {
    if i == |v.items| then ""
    else
      var item := if v.items[i].JNull? then "" else JsText(v.items[i]);
      if i + 1 == |v.items| then item else item + "," + ItemsText(v, i + 1)
  }

  /** A number's text reads back as that number, and a one-element array
      writes as its element. */
  lemma JsTextReadBack(n: int, item: Json)
    ensures ParseIntJs(JsText(JNum(n))) == Some(n)
    ensures !item.JNull? ==> JsText(JList([item])) == JsText(item)
  {
    ParseIntRoundTrip(n);
  }

  /** `${v}` of an id as it appears in a path: `undefined` when missing. */
  function IdText(v: Option<Json>): (r: string)
    ensures v.Some? ==> r == JsText(v.value)
  {
    if v.None? then "undefined" else JsText(v.value)
  }

  /** `v.toString()`: `None` where it throws, on `undefined` and `null`. */
  function ToStringOf(v: Option<Json>): (r: Option<string>)
    ensures r.None? <==> v.None? || v.value.JNull?
    ensures r.Some? ==> r.value == IdText(v)
  {
    if v.None? || v.value.JNull? then None else Some(JsText(v.value))
  }

  /** How a list fetched on mount or after a save ended: the records of an
      ok response, a response that was not ok, or an exception. */
  datatype Fetched<T> = Fetched(items: seq<T>) | Refused | Unreachable

  /** The alert of a save the server refused: `prefix + (errorData.detail
      || fallback)`; reading `detail` of a `null` body throws, and the
      connection alert is shown instead. */
  function SaveAlert(prefix: string, body: Json, fallback: string, connection: string): (r: string)
    ensures body.JNull? ==> r == connection
    ensures !body.JNull? && !Truthy(Field(body, "detail")) ==> r == prefix + fallback
    ensures !body.JNull? ==> IsPrefix(prefix, r)
  {
    if body.JNull? then connection
    else if Truthy(Field(body, "detail")) then prefix + JsText(Field(body, "detail").value)
    else prefix + fallback
  }

  /** The server's own message, when it sends one in `detail`, follows the
      prefix. */
  lemma SaveAlertDetail(prefix: string, detail: string, fallback: string, connection: string)
    requires detail != ""
    ensures SaveAlert(prefix, JObject(map["detail" := JStr(detail)]), fallback, connection) == prefix + detail
  {
  }

  /** `v[0]`: the first element of an array, the first character of a
      string, and `undefined` for anything else or an empty one. */
  function FirstOf(v: Json): (r: Option<Json>)
  {
    match v
    case JList(items) => if |items| > 0 then Some(items[0]) else None
    case JStr(s) => if |s| > 0 then Some(JStr([s[0]])) else None
    case JObject(fields) => Get(fields, "0")
    case _ => None
  }

  /** `getFieldError(field)`: `errors[field] ? errors[field][0] ||
      errors[field] : null`, with `None` standing for `null`. */
  function FieldError(errors: Json, field: string): (r: Option<Json>)
  {
    var e := Field(errors, field);
    if !Truthy(e) then None
    else if Truthy(FirstOf(e.value)) then FirstOf(e.value)
    else e
  }

  /** A field without an error shows nothing; a list of messages (what the
      server sends) shows its first one; any other truthy value whose first
      element is falsy or missing shows itself, and a non-empty string
      shows only its first character. */
  lemma FieldErrorCases(errors: Json, field: string)
    ensures !Truthy(Field(errors, field)) ==> FieldError(errors, field).None?
    ensures Field(errors, field).Some? && Field(errors, field).value.JList?
      && |Field(errors, field).value.items| > 0 && Truthy(Some(Field(errors, field).value.items[0]))
      ==> FieldError(errors, field) == Some(Field(errors, field).value.items[0])
    ensures Truthy(Field(errors, field)) && !Truthy(FirstOf(Field(errors, field).value))
      ==> FieldError(errors, field) == Field(errors, field)
    ensures Field(errors, field).Some? && Field(errors, field).value.JStr? && |Field(errors, field).value.s| > 0
      ==> FieldError(errors, field) == Some(JStr([Field(errors, field).value.s[0]]))
    ensures FieldError(errors, field).Some? ==> Truthy(FieldError(errors, field))
  {
  }

  /** `parseInt(v)` of a form value; `None` stands for `NaN`. A number is
      itself, a string is read as `parseInt` reads it, an array is read
      through its text (so `[12]` gives 12), and any other value (`undefined`,
      `null`, a boolean, an object), whose text starts with a letter or `[`,
      is `NaN`. */
  function ParseIntOf(v: Option<Json>): (r: Option<int>)
  {
    match v
    case Some(JNum(n)) => Some(n)
    case Some(JStr(s)) => ParseIntJs(s)
    case Some(JList(_)) => ParseIntJs(JsText(v.value))
    case _ => None
  }

  /** `JSON.stringify` writes `NaN` as `null`. */
  function NumberJson(n: Option<int>): (r: Json)
    ensures n.None? <==> r == JNull
  {
    if n.Some? then JNum(n.value) else JNull
  }

  /** An id written as text reads back as itself. */
  lemma ParseIntOfIdText(n: int)
    ensures ParseIntOf(Some(JStr(IntToString(n)))) == Some(n)
  {
    ParseIntRoundTrip(n);
  }

  /** `items.find(x => x.id === id)`: the first item whose `id` is that
      number; `NaN` matches none. */
  function FindById(items: seq<Json>, id: Option<int>): (r: Option<Json>)
    decreases |items|
  {
    if |items| == 0 || id.None? then None
    else if Field(items[0], "id") == Some(JNum(id.value)) then Some(items[0])
    else FindById(items[1..], id)
  }

  /** `find` returns the first item with the id, and nothing exactly when
      no item has it. */
  lemma {:induction false} FindByIdFirst(items: seq<Json>, id: Option<int>)
    ensures FindById(items, id).None?
      <==> (id.None? || forall i :: 0 <= i < |items| ==> Field(items[i], "id") != Some(JNum(id.value)))
    ensures FindById(items, id).Some? ==>
      exists i :: (0 <= i < |items|
        && items[i] == FindById(items, id).value
        && Field(items[i], "id") == Some(JNum(id.value))
        && forall j :: 0 <= j < i ==> Field(items[j], "id") != Some(JNum(id.value)))
    decreases |items|
  {
    if |items| > 0 && id.Some? && Field(items[0], "id") != Some(JNum(id.value)) {
      FindByIdFirst(items[1..], id);
      var r := FindById(items[1..], id);
      if r.Some? {
        var i :| 0 <= i < |items[1..]| && items[1..][i] == r.value
          && Field(items[1..][i], "id") == Some(JNum(id.value))
          && forall j :: 0 <= j < i ==> Field(items[1..][j], "id") != Some(JNum(id.value));
        assert items[i + 1] == r.value;
        assert forall j :: 0 <= j < i + 1 ==> Field(items[j], "id") != Some(JNum(id.value)) by {
          forall j | 0 <= j < i + 1
            ensures Field(items[j], "id") != Some(JNum(id.value))
          {
            if j > 0 {
              assert items[j] == items[1..][j - 1];
            }
          }
        }
      } else {
        assert forall i :: 1 <= i < |items| ==> items[i] == items[1..][i - 1];
      }
    }
  }

  /** `selectedService?.requires_medication`: the medication inputs are
      shown, and required, exactly when the service whose id is
      `parseInt(draft.service)` asks for medication. */
  predicate MedicationShown(services: seq<Json>, draft: Object) {
    var s := FindById(services, ParseIntOf(Get(draft, "service")));
    s.Some? && Truthy(Field(s.value, "requires_medication"))
  }

  /** Medication inputs appear only for a service that is in the list and
      asks for medication; a service picked by the numeric text of its id
      shows them exactly when the first service with that id asks. */
  lemma MedicationShownIff(services: seq<Json>, draft: Object, n: int)
    requires Get(draft, "service") == Some(JStr(IntToString(n)))
    ensures MedicationShown(services, draft)
      <==> (FindById(services, Some(n)).Some? && Truthy(Field(FindById(services, Some(n)).value, "requires_medication")))
    ensures (forall i :: 0 <= i < |services| ==> Field(services[i], "id") != Some(JNum(n)))
      ==> !MedicationShown(services, draft)
  {
    ParseIntOfIdText(n);
    FindByIdFirst(services, Some(n));
  }

  /** Nothing is selected while the service field is empty. */
  lemma NoServiceNoMedication(services: seq<Json>, draft: Object)
    requires Get(draft, "service") == Some(JStr(""))
    ensures !MedicationShown(services, draft)
  {
    ParseIntEmpty();
  }
}
