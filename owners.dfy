/** The owner screen: the owner form, whose first and last names are split
    from the stored full name when editing and joined back into it when
    saving, the search over the loaded owners, and the screen's state. The
    pet screen's "new owner" form is the same form and the same join. */
module Owners {
  import opened Text
  import opened Json
  import opened Lists
  import opened Forms

  /** The owner form's fields, and `full_name`, which only the request
      carries. */
  datatype OwnerField =
    | FirstNames | LastNames | IdentificationType | IdentificationNumber
    | Address | Phone | Email | FullName

  /** The field's name in the form and in the JSON body. */
  function FieldName(f: OwnerField): string
  {
    match f
    case FirstNames => "first_names"
    case LastNames => "last_names"
    case IdentificationType => "identification_type"
    case IdentificationNumber => "identification_number"
    case Address => "address"
    case Phone => "phone"
    case Email => "email"
    case FullName => "full_name"
  }

  /** The owner form: text by field. */
  type OwnerForm = map<OwnerField, string>

  /** The fields of the owner form. */
  const FormFields: set<OwnerField> := {FirstNames, LastNames, IdentificationType, IdentificationNumber, Address, Phone, Email}

  /** An owner as the server lists it; `email` is `None` for `null`. */
  datatype OwnerRow = OwnerRow(
    id: int, fullName: string, identificationType: string,
    identificationNumber: string, address: string, phone: string, email: Option<string>)

  /** The empty owner form: every field empty, the identification type
      `cedula`. */
  function EmptyOwnerForm(): (f: OwnerForm)
  {
    map[
      FirstNames := "", LastNames := "", IdentificationType := "cedula",
      IdentificationNumber := "", Address := "", Phone := "", Email := ""]
  }

  /** The empty form has exactly the form's fields, all empty but the
      identification type. */
  lemma EmptyOwnerFormDefaults()
    ensures EmptyOwnerForm().Keys == FormFields
    ensures forall k :: k in EmptyOwnerForm() ==> EmptyOwnerForm()[k] == if k == IdentificationType then "cedula" else ""
  {
  }

  // ---------------------------------------------------------------------
  // Splitting and joining names

  /** `handleEdit`'s split of `full_name` on single spaces: one part is all
      first names; two parts are one of each; with three or more, the first
      two parts are the first names and the rest the last names. */
  function SplitFullName(fullName: string): (r: (string, string))
  {
    var parts := Split(fullName, ' ');
    if |parts| == 1 then (parts[0], "")
    else if |parts| == 2 then (parts[0], parts[1])
    else if |parts| == 3 then (Join(parts[..2], " "), parts[2])
    else (Join(parts[..2], " "), Join(parts[2..], " "))
  }

  /** `` `${first_names} ${last_names}`.trim() ``. */
  function JoinNames(first: string, last: string): (r: string)
  {
    Trim(first + " " + last)
  }

  /** A name without spaces is all first names; any other name is its
      first and last names with one space between. */
  lemma SplitFullNameJoins(fullName: string)
    ensures ' ' !in fullName ==> SplitFullName(fullName) == (fullName, "")
    ensures ' ' in fullName ==> SplitFullName(fullName).0 + " " + SplitFullName(fullName).1 == fullName
  {
    var parts := Split(fullName, ' ');
    JoinSplit(fullName, ' ');
    assert Join(parts, " ") == fullName;
    if ' ' !in fullName {
      SplitNoSeparator(fullName, ' ');
    } else {
      assert |parts| >= 2;
      var first := Join(parts[..2], " ");
      assert Join(parts[..2][1..], " ") == parts[1];
      assert first == parts[0] + " " + parts[1];
      if |parts| == 2 {
        assert Join(parts[1..], " ") == parts[1];
      } else {
        JoinAppend(parts[..2], parts[2..], " ");
        assert parts[..2] + parts[2..] == parts;
        if |parts| == 3 {
          assert Join(parts[2..], " ") == parts[2];
        }
      }
    }
  }

  /** A trailing space changes nothing that `trim` keeps. */
  lemma TrimSpaceAfter(s: string)
    ensures Trim(s + " ") == Trim(s)
  {
    TrimStartAppend(s, ' ');
    if !AllSpace(s) {
      var t := TrimStart(s);
      assert (t + " ")[..|t|] == t;
    }
  }

  lemma {:induction false} TrimStartAppend(s: string, c: char)
    ensures TrimStart(s + [c]) == if AllSpace(s) then TrimStart([c]) else TrimStart(s) + [c]
    decreases |s|
  {
    if |s| == 0 {
      assert s + [c] == [c];
    } else {
      assert (s + [c])[0] == s[0] && (s + [c])[1..] == s[1..] + [c];
      if IsSpace(s[0]) {
        TrimStartAppend(s[1..], c);
        assert AllSpace(s) <==> AllSpace(s[1..]);
      } else {
        assert !AllSpace(s);
      }
    }
  }

  /** Splitting a full name for editing and joining it back when saving
      gives the name again, trimmed; a name without surrounding whitespace
      comes back exactly. */
  lemma NameRoundTrip(fullName: string)
    ensures JoinNames(SplitFullName(fullName).0, SplitFullName(fullName).1) == Trim(fullName)
    ensures (|fullName| > 0 ==> !IsSpace(fullName[0]) && !IsSpace(fullName[|fullName| - 1]))
      ==> JoinNames(SplitFullName(fullName).0, SplitFullName(fullName).1) == fullName
  {
    SplitFullNameJoins(fullName);
    if ' ' !in fullName {
      assert fullName + " " + "" == fullName + " ";
      TrimSpaceAfter(fullName);
    }
    if |fullName| > 0 ==> !IsSpace(fullName[0]) && !IsSpace(fullName[|fullName| - 1]) {
      TrimUntrimmed(fullName);
    }
  }

  // ---------------------------------------------------------------------
  // The form and the request

  /** `formData.key` in a template literal: `undefined` when missing. */
  function Lookup(form: OwnerForm, key: OwnerField): string
  {
    if key in form then form[key] else "undefined"
  }

  /** The form `handleEdit` fills from an owner. */
  function EditOwnerForm(o: OwnerRow): (f: OwnerForm)
  {
    FilledOwnerForm(o, SplitFullName(o.fullName).0, SplitFullName(o.fullName).1)
  }

  /** The owner's fields with the given first and last names. */
  function FilledOwnerForm(o: OwnerRow, first: string, last: string): (f: OwnerForm)
  {
    map[
      FirstNames := first, LastNames := last,
      IdentificationType := o.identificationType,
      IdentificationNumber := o.identificationNumber,
      Address := o.address, Phone := o.phone,
      Email := if o.email.Some? then o.email.value else ""]
  }

  /** `dataToSend`: the form with `full_name` joined from the two name
      fields, which are then deleted. */
  function OwnerPayload(form: OwnerForm): (body: OwnerForm)
  {
    (form - {FirstNames, LastNames})[FullName := JoinNames(Lookup(form, FirstNames), Lookup(form, LastNames))]
  }

  /** The payload names the owner by `full_name` only, and every other
      field of the form passes unchanged. */
  lemma OwnerPayloadFields(form: OwnerForm)
    ensures OwnerPayload(form).Keys == form.Keys - {FirstNames, LastNames} + {FullName}
    ensures FirstNames !in OwnerPayload(form) && LastNames !in OwnerPayload(form)
    ensures forall k :: k in form && k !in {FirstNames, LastNames, FullName} ==> OwnerPayload(form)[k] == form[k]
  {
    OwnerPayloadKeys(form);
    OwnerPayloadKeeps(form);
  }

  lemma OwnerPayloadKeys(form: OwnerForm)
    ensures OwnerPayload(form).Keys == form.Keys - {FirstNames, LastNames} + {FullName}
  {
  }

  lemma OwnerPayloadKeeps(form: OwnerForm)
    ensures forall k :: k in form && k !in {FirstNames, LastNames, FullName} ==> OwnerPayload(form)[k] == form[k]
  {
  }

  /** Editing an owner and saving without changes sends back the owner's
      own fields, its full name trimmed, and an empty email for a `null` one. */
  lemma EditSaveRoundTrip(o: OwnerRow)
    ensures OwnerPayload(EditOwnerForm(o)).Keys == FormFields - {FirstNames, LastNames} + {FullName}
    ensures OwnerPayload(EditOwnerForm(o))[FullName] == Trim(o.fullName)
    ensures OwnerPayload(EditOwnerForm(o))[IdentificationNumber] == o.identificationNumber
    ensures OwnerPayload(EditOwnerForm(o))[IdentificationType] == o.identificationType
    ensures OwnerPayload(EditOwnerForm(o))[Address] == o.address
    ensures OwnerPayload(EditOwnerForm(o))[Phone] == o.phone
    ensures OwnerPayload(EditOwnerForm(o))[Email] == if o.email.Some? then o.email.value else ""
  {
    NameRoundTrip(o.fullName);
    FilledPayload(o, SplitFullName(o.fullName).0, SplitFullName(o.fullName).1);
  }

  lemma FilledPayload(o: OwnerRow, first: string, last: string)
    ensures OwnerPayload(FilledOwnerForm(o, first, last)).Keys == FormFields - {FirstNames, LastNames} + {FullName}
    ensures OwnerPayload(FilledOwnerForm(o, first, last))[FullName] == JoinNames(first, last)
    ensures OwnerPayload(FilledOwnerForm(o, first, last))[IdentificationNumber] == o.identificationNumber
    ensures OwnerPayload(FilledOwnerForm(o, first, last))[IdentificationType] == o.identificationType
    ensures OwnerPayload(FilledOwnerForm(o, first, last))[Address] == o.address
    ensures OwnerPayload(FilledOwnerForm(o, first, last))[Phone] == o.phone
    ensures OwnerPayload(FilledOwnerForm(o, first, last))[Email] == if o.email.Some? then o.email.value else ""
  {
    FilledPayloadKeys(o, first, last);
    FilledPayloadName(o, first, last);
    FilledPayloadIdentification(o, first, last);
    FilledPayloadContact(o, first, last);
  }

  lemma FilledPayloadKeys(o: OwnerRow, first: string, last: string)
    ensures OwnerPayload(FilledOwnerForm(o, first, last)).Keys == FormFields - {FirstNames, LastNames} + {FullName}
  {
  }

  lemma FilledPayloadName(o: OwnerRow, first: string, last: string)
    ensures OwnerPayload(FilledOwnerForm(o, first, last))[FullName] == JoinNames(first, last)
  {
  }

  lemma FilledPayloadIdentification(o: OwnerRow, first: string, last: string)
    ensures OwnerPayload(FilledOwnerForm(o, first, last))[IdentificationNumber] == o.identificationNumber
    ensures OwnerPayload(FilledOwnerForm(o, first, last))[IdentificationType] == o.identificationType
  {
  }

  lemma FilledPayloadContact(o: OwnerRow, first: string, last: string)
    ensures OwnerPayload(FilledOwnerForm(o, first, last))[Address] == o.address
    ensures OwnerPayload(FilledOwnerForm(o, first, last))[Phone] == o.phone
    ensures OwnerPayload(FilledOwnerForm(o, first, last))[Email] == if o.email.Some? then o.email.value else ""
  {
  }

  /** The text fields as a JSON object under their names. */
  function FormJson(form: OwnerForm): (obj: Object)
    ensures forall k :: k in form ==> FieldName(k) in obj && obj[FieldName(k)] == JStr(form[k])
  {
    map k | k in form :: FieldName(k) := JStr(form[k])
  }

  /** The request `handleSubmit` sends: a PUT to the owner being edited, a
      POST to the collection otherwise. */
  function OwnerRequest(editing: Option<OwnerRow>, form: OwnerForm): (r: Request)
    ensures r.verb == PUT <==> editing.Some?
    ensures r.body == Some(JObject(FormJson(OwnerPayload(form))))
  {
    var (verb, path) := SaveTarget("owners", if editing.Some? then Some(IntToString(editing.value.id)) else None);
    Request(verb, path, Some(JObject(FormJson(OwnerPayload(form)))))
  }

  // ---------------------------------------------------------------------
  // The search

  /** `filteredOwners`' test: the name or the email contains the term
      ignoring case, or the identification number or the phone contains it
      exactly; an empty phone or a missing email never matches. */
  predicate OwnerMatches(o: OwnerRow, term: string) {
    Contains(ToLower(o.fullName), ToLower(term))
    || Contains(o.identificationNumber, term)
    || (o.phone != "" && Contains(o.phone, term))
    || (o.email.Some? && o.email.value != "" && Contains(ToLower(o.email.value), ToLower(term)))
  }

  /** `filteredOwners`. */
  function FilteredOwners(owners: seq<OwnerRow>, term: string): seq<OwnerRow>
  {
    Filter(owners, o => OwnerMatches(o, term))
  }

  /** The search keeps the owners' order, keeps exactly the owners that
      match, and keeps them all for an empty term. */
  lemma FilteredOwnersSearch(owners: seq<OwnerRow>, term: string, o: OwnerRow)
    ensures Sublist(FilteredOwners(owners, term), owners)
    ensures o in FilteredOwners(owners, term) <==> o in owners && OwnerMatches(o, term)
    ensures term == "" ==> FilteredOwners(owners, term) == owners
  {
    FilterSublist(owners, o => OwnerMatches(o, term));
    FilterMembers(owners, o => OwnerMatches(o, term), o);
    if term == "" {
      forall i | 0 <= i < |owners|
        ensures OwnerMatches(owners[i], term)
      {
        ContainsEmpty(ToLower(owners[i].fullName));
      }
      FilterAll(owners, o => OwnerMatches(o, term));
    }
  }

  // ---------------------------------------------------------------------
  // The screen

  /** The alert of a save that threw. */
  const ConnectionAlert := "Error de conexión con el servidor"

  /** The owner screen's state. */
  class OwnerScreen {
    var owners: seq<OwnerRow>
    var loading: bool
    /** The load error that replaces the screen; empty while there is none. */
    var error: string
    var showModal: bool
    var editing: Option<OwnerRow>
    var searchTerm: string
    var formData: OwnerForm

    constructor ()
      ensures owners == [] && loading && error == "" && !showModal && editing.None?
      ensures searchTerm == "" && formData == EmptyOwnerForm()
    {
      owners := [];
      loading := true;
      error := "";
      showModal := false;
      editing := None;
      searchTerm := "";
      formData := EmptyOwnerForm();
    }

    /** `obtenerDuenos`: the listed owners, or the error that replaces the
        screen; `loading` ends false. */
    method Load(fetched: Fetched<OwnerRow>)
      modifies this
      ensures fetched.Fetched? ==> owners == fetched.items && error == old(error)
      ensures fetched.Refused? ==> owners == old(owners) && error == "Error al cargar dueños"
      ensures fetched.Unreachable? ==> owners == old(owners) && error == "Error de conexión"
      ensures !loading
      ensures showModal == old(showModal) && editing == old(editing)
      ensures searchTerm == old(searchTerm) && formData == old(formData)
    {
      match fetched {
        case Fetched(items) => owners := items;
        case Refused => error := "Error al cargar dueños";
        case Unreachable => error := "Error de conexión";
      }
      loading := false;
    }

    /** `resetForm`: the empty form, nobody edited, the modal closed. */
    method ResetForm()
      modifies this
      ensures formData == EmptyOwnerForm() && editing.None? && !showModal
      ensures owners == old(owners) && loading == old(loading) && error == old(error)
      ensures searchTerm == old(searchTerm)
    {
      formData := EmptyOwnerForm();
      editing := None;
      showModal := false;
    }

    /** `handleNew`: the empty form in an open modal. */
    method New()
      modifies this
      ensures formData == EmptyOwnerForm() && editing.None? && showModal
      ensures owners == old(owners) && loading == old(loading) && error == old(error)
      ensures searchTerm == old(searchTerm)
    {
      ResetForm();
      showModal := true;
    }

    /** `handleEdit(owner)`: the owner's fields in an open modal. */
    method Edit(o: OwnerRow)
      modifies this
      ensures formData == EditOwnerForm(o) && editing == Some(o) && showModal
      ensures owners == old(owners) && loading == old(loading) && error == old(error)
      ensures searchTerm == old(searchTerm)
    {
      formData := EditOwnerForm(o);
      editing := Some(o);
      showModal := true;
    }

    /** The search input's `onChange`. */
    method Search(term: string)
      modifies this
      ensures searchTerm == term
      ensures owners == old(owners) && loading == old(loading) && error == old(error)
      ensures formData == old(formData) && editing == old(editing) && showModal == old(showModal)
    {
      searchTerm := term;
    }

    /** The owners the table shows. */
    function Shown(): (r: seq<OwnerRow>)
      reads this
      ensures Sublist(r, owners)
      ensures searchTerm == "" ==> r == owners
    {
      FilteredOwnersSearch(owners, searchTerm, OwnerRow(0, "", "", "", "", "", None));
      FilteredOwners(owners, searchTerm)
    }

    /** `handleSubmit`: the request is sent; an ok answer reloads the list
        and resets the form; otherwise the form stays and an alert is
        shown. `loading` ends false. */
    method Submit(outcome: Outcome, reload: Fetched<OwnerRow>) returns (sent: Request, alert: Option<string>)
      modifies this
      ensures sent == OwnerRequest(old(editing), old(formData))
      ensures outcome.Ok? ==>
        (alert.None? && formData == EmptyOwnerForm() && editing.None? && !showModal
         && owners == (if reload.Fetched? then reload.items else old(owners)))
      ensures outcome.NotOk? ==>
        (alert == Some(SaveAlert("Error al guardar: ", outcome.body, "Error inesperado", ConnectionAlert))
         && formData == old(formData) && editing == old(editing) && showModal == old(showModal) && owners == old(owners))
      ensures outcome.Failed? ==>
        (alert == Some(ConnectionAlert)
         && formData == old(formData) && editing == old(editing) && showModal == old(showModal) && owners == old(owners))
      ensures outcome.Ok? && reload.Refused? ==> error == "Error al cargar dueños"
      ensures outcome.Ok? && reload.Unreachable? ==> error == "Error de conexión"
      ensures !(outcome.Ok? && !reload.Fetched?) ==> error == old(error)
      ensures !loading && searchTerm == old(searchTerm)
    {
      loading := true;
      sent := OwnerRequest(editing, formData);
      alert := None;
      match outcome {
        case Ok(_) =>
          Load(reload);
          ResetForm();
        case NotOk(body) =>
          alert := Some(SaveAlert("Error al guardar: ", body, "Error inesperado", ConnectionAlert));
        case Failed =>
          alert := Some(ConnectionAlert);
      }
      loading := false;
    }
  }
}
