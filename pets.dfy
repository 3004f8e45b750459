/** The pet screen: the pet form, filled from a pet when editing and sent
    back with its weight and owner read as numbers; the search by text and
    owner; the owner created from the screen, which becomes the pet's owner;
    and the screen's state. The first version of the screen has the same
    form, search and save, with other alert texts and no owner creation. */
module Pets {
  import opened Text
  import opened Json
  import opened Lists
  import opened Forms
  import opened Owners

  /** The pet form's fields. */
  datatype PetField =
    | Name | Breed | BirthDate | Gender | Color | Weight
    | Allergies | MedicalConditions | AdditionalNotes | Owner

  /** The pet form: text by field. */
  type PetForm = map<PetField, string>

  const PetFields: set<PetField> := {Name, Breed, BirthDate, Gender, Color, Weight, Allergies, MedicalConditions, AdditionalNotes, Owner}

  /** A pet as the server lists it: the weight is the decimal's text, the
      optional notes are `None` for `null`, and `ownerName` is the owner's
      full name. */
  datatype PetRow = PetRow(
    id: int, name: string, breed: string, birthDate: string, gender: string, color: string,
    weight: string, allergies: Option<string>, medicalConditions: Option<string>,
    additionalNotes: Option<string>, owner: int, ownerName: string)

  /** The empty pet form: every field empty, the gender `M`. */
  function EmptyPetForm(): (f: PetForm)
  {
    map[
      Name := "", Breed := "", BirthDate := "", Gender := "M", Color := "", Weight := "",
      Allergies := "", MedicalConditions := "", AdditionalNotes := "", Owner := ""]
  }

  /** The empty form has every field, all empty but the gender. */
  lemma EmptyPetFormDefaults()
    ensures EmptyPetForm().Keys == PetFields
    ensures forall k :: k in EmptyPetForm() ==> EmptyPetForm()[k] == if k == Gender then "M" else ""
  {
  }

  /** `x || ''` of a nullable text. */
  function OrEmptyText(v: Option<string>): (r: string)
    ensures v.None? ==> r == ""
    ensures v.Some? ==> r == v.value
  {
    if v.Some? then v.value else ""
  }

  /** The form `handleEdit` fills from a pet: the weight's text and the
      owner's id as text, and `''` for missing notes. */
  function EditPetForm(p: PetRow): (f: PetForm)
  {
    map[
      Name := p.name, Breed := p.breed, BirthDate := p.birthDate, Gender := p.gender,
      Color := p.color, Weight := p.weight,
      Allergies := OrEmptyText(p.allergies),
      MedicalConditions := OrEmptyText(p.medicalConditions),
      AdditionalNotes := OrEmptyText(p.additionalNotes),
      Owner := IntToString(p.owner)]
  }

  /** `formData.key`: `undefined` when missing. */
  function LookupPet(form: PetForm, key: PetField): string
  {
    if key in form then form[key] else "undefined"
  }

  /** The body `handleSubmit` sends: the form's other fields as text, the
      weight's text (sent through `parseFloat`), and `parseInt` of the
      owner (`None` for `NaN`, sent as `null`). */
  datatype PetBody = PetBody(text: PetForm, weight: string, owner: Option<int>)

  function PetPayload(form: PetForm): (body: PetBody)
  {
    PetBody(form - {Weight, Owner}, LookupPet(form, Weight), if Owner in form then ParseIntJs(form[Owner]) else None)
  }

  /** The text fields pass unchanged; the weight and the owner leave the
      text and are sent as numbers. */
  lemma PetPayloadFields(form: PetForm)
    ensures PetPayload(form).text.Keys == form.Keys - {Weight, Owner}
    ensures forall k :: k in form && k !in {Weight, Owner} ==> PetPayload(form).text[k] == form[k]
  {
  }

  /** The edit form has every field: the pet's own texts, the owner's id
      as text, and `''` for a missing note. */
  lemma EditPetFormFields(p: PetRow)
    ensures EditPetForm(p).Keys == PetFields
    ensures EditPetForm(p)[Weight] == p.weight && EditPetForm(p)[Owner] == IntToString(p.owner)
    ensures EditPetForm(p)[Allergies] == OrEmptyText(p.allergies)
    ensures EditPetForm(p)[MedicalConditions] == OrEmptyText(p.medicalConditions)
    ensures EditPetForm(p)[AdditionalNotes] == OrEmptyText(p.additionalNotes)
  {
  }

  /** Editing a pet and saving without changes sends back its own owner,
      its weight's text and its notes, `''` standing for `null`. */
  lemma PetEditSaveRoundTrip(p: PetRow)
    ensures PetPayload(EditPetForm(p)).owner == Some(p.owner)
    ensures PetPayload(EditPetForm(p)).weight == p.weight
    ensures PetPayload(EditPetForm(p)).text.Keys == PetFields - {Weight, Owner}
    ensures PetPayload(EditPetForm(p)).text[Allergies] == OrEmptyText(p.allergies)
  {
    var f := EditPetForm(p);
    EditPetFormFields(p);
    PetPayloadFields(f);
    ParseIntRoundTrip(p.owner);
  }

  /** The request `handleSubmit` sends: a PUT to the pet being edited, a
      POST to the collection otherwise. */
  datatype PetRequest = PetRequest(verb: HttpMethod, path: string, body: PetBody)

  function SavePetRequest(editing: Option<PetRow>, form: PetForm): (r: PetRequest)
    ensures r.verb == PUT <==> editing.Some?
    ensures r.body == PetPayload(form)
  {
    var (verb, path) := SaveTarget("pets", if editing.Some? then Some(IntToString(editing.value.id)) else None);
    PetRequest(verb, path, PetPayload(form))
  }

  // ---------------------------------------------------------------------
  // The search

  /** `filteredPets`' test: the name, the breed or the owner's name
      contains the term ignoring case, and no owner is selected or the
      pet's owner id, as text, is the selection. */
  predicate PetMatches(p: PetRow, term: string, selectedOwner: string) {
    (Contains(ToLower(p.name), ToLower(term)) || Contains(ToLower(p.breed), ToLower(term))
     || Contains(ToLower(p.ownerName), ToLower(term)))
    && (selectedOwner == "" || IntToString(p.owner) == selectedOwner)
  }

  function FilteredPets(pets: seq<PetRow>, term: string, selectedOwner: string): seq<PetRow>
  {
    Filter(pets, p => PetMatches(p, term, selectedOwner))
  }

  /** The search keeps the pets' order, keeps exactly the pets that match,
      and keeps them all with an empty term and no owner selected. */
  lemma FilteredPetsSearch(pets: seq<PetRow>, term: string, selectedOwner: string, p: PetRow)
    ensures Sublist(FilteredPets(pets, term, selectedOwner), pets)
    ensures p in FilteredPets(pets, term, selectedOwner) <==> p in pets && PetMatches(p, term, selectedOwner)
    ensures term == "" && selectedOwner == "" ==> FilteredPets(pets, term, selectedOwner) == pets
  {
    FilterSublist(pets, p => PetMatches(p, term, selectedOwner));
    FilterMembers(pets, p => PetMatches(p, term, selectedOwner), p);
    if term == "" && selectedOwner == "" {
      forall i | 0 <= i < |pets|
        ensures PetMatches(pets[i], term, selectedOwner)
      {
        ContainsEmpty(ToLower(pets[i].name));
      }
      FilterAll(pets, p => PetMatches(p, term, selectedOwner));
    }
  }

  /** Selecting an owner keeps exactly that owner's pets: ids are compared
      as text, and distinct ids have distinct texts. */
  lemma OwnerSelection(p: PetRow, owner: int)
    ensures PetMatches(p, "", IntToString(owner)) <==> p.owner == owner
  {
    ContainsEmpty(ToLower(p.name));
    if IntToString(p.owner) == IntToString(owner) {
      IntToStringInjective(p.owner, owner);
    }
  }

  // ---------------------------------------------------------------------
  // The owner created from the pet screen

  /** The request `handleOwnerSubmit` sends: always a POST of a new owner. */
  function NewOwnerRequest(form: OwnerForm): (r: Request)
    ensures r.verb == POST && r.path == "/owners/"
  {
    Request(POST, "/owners/", Some(JObject(FormJson(OwnerPayload(form)))))
  }

  /** The new owner is sent under `full_name`, the join of the names the
      form holds, with its identification type as the form has it. */
  lemma NewOwnerBody(form: OwnerForm)
    requires FirstNames in form && LastNames in form && IdentificationType in form
    ensures NewOwnerRequest(form).body.Some? && NewOwnerRequest(form).body.value.JObject?
    ensures var obj := NewOwnerRequest(form).body.value.fields;
      "full_name" in obj && obj["full_name"] == JStr(JoinNames(form[FirstNames], form[LastNames]))
      && "identification_type" in obj && obj["identification_type"] == JStr(form[IdentificationType])
  {
    OwnerPayloadFields(form);
    var p := OwnerPayload(form);
    assert FieldName(FullName) == "full_name";
    assert FieldName(IdentificationType) == "identification_type";
    assert FullName in p && IdentificationType in p;
  }

  /** The owner just created becomes the pet's owner: its id, written by
      `toString`, is read back by the save's `parseInt`, and the rest of
      the pet form is untouched. */
  lemma NewOwnerSelected(form: PetForm, id: int)
    ensures PetPayload(form[Owner := JsText(JNum(id))]).owner == Some(id)
    ensures PetPayload(form[Owner := JsText(JNum(id))]).text == PetPayload(form).text
  {
    JsTextReadBack(id, JNum(id));
  }

  // ---------------------------------------------------------------------
  // The screen

  /** The alert texts of a save: the fallback for a refusal without
      `detail`, and the alert of a save that threw. */
  datatype SaveMessages = SaveMessages(fallback: string, connection: string)

  /** The texts of the current screen. */
  const CurrentMessages := SaveMessages("Error inesperado", "Error de conexión con el servidor")

  /** The texts of the first version of the screen. */
  const FirstMessages := SaveMessages("Error desconocido", "Error de conexión")

  /** The pet screen's state. */
  class PetScreen {
    const messages: SaveMessages
    var pets: seq<PetRow>
    var owners: seq<OwnerRow>
    var loading: bool
    var showForm: bool
    var showOwnerModal: bool
    var editing: Option<PetRow>
    var searchTerm: string
    var selectedOwner: string
    var ownerForm: OwnerForm
    var formData: PetForm

    constructor (messages: SaveMessages)
      ensures this.messages == messages
      ensures pets == [] && owners == [] && loading && !showForm && !showOwnerModal && editing.None?
      ensures searchTerm == "" && selectedOwner == ""
      ensures ownerForm == EmptyOwnerForm() && formData == EmptyPetForm()
    {
      this.messages := messages;
      pets := [];
      owners := [];
      loading := true;
      showForm := false;
      showOwnerModal := false;
      editing := None;
      searchTerm := "";
      selectedOwner := "";
      ownerForm := EmptyOwnerForm();
      formData := EmptyPetForm();
    }

    /** `fetchPets`: the listed pets when the answer is ok; `loading` ends
        false whatever happened. */
    method LoadPets(fetched: Fetched<PetRow>)
      modifies this
      ensures pets == if fetched.Fetched? then fetched.items else old(pets)
      ensures !loading
      ensures owners == old(owners) && showForm == old(showForm) && showOwnerModal == old(showOwnerModal)
      ensures editing == old(editing) && formData == old(formData) && ownerForm == old(ownerForm)
      ensures searchTerm == old(searchTerm) && selectedOwner == old(selectedOwner)
    {
      if fetched.Fetched? {
        pets := fetched.items;
      }
      loading := false;
    }

    /** `fetchOwners`: the listed owners when the answer is ok. */
    method LoadOwners(fetched: Fetched<OwnerRow>)
      modifies this
      ensures owners == if fetched.Fetched? then fetched.items else old(owners)
      ensures pets == old(pets) && loading == old(loading)
      ensures showForm == old(showForm) && showOwnerModal == old(showOwnerModal)
      ensures editing == old(editing) && formData == old(formData) && ownerForm == old(ownerForm)
      ensures searchTerm == old(searchTerm) && selectedOwner == old(selectedOwner)
    {
      if fetched.Fetched? {
        owners := fetched.items;
      }
    }

    /** `resetForm`: the empty form, no pet edited, the form hidden. */
    method ResetForm()
      modifies this
      ensures formData == EmptyPetForm() && editing.None? && !showForm
      ensures pets == old(pets) && owners == old(owners) && loading == old(loading)
      ensures showOwnerModal == old(showOwnerModal) && ownerForm == old(ownerForm)
      ensures searchTerm == old(searchTerm) && selectedOwner == old(selectedOwner)
    {
      formData := EmptyPetForm();
      editing := None;
      showForm := false;
    }

    /** `handleEdit(pet)`: the pet's fields in the shown form. */
    method Edit(p: PetRow)
      modifies this
      ensures formData == EditPetForm(p) && editing == Some(p) && showForm
      ensures pets == old(pets) && owners == old(owners) && loading == old(loading)
      ensures showOwnerModal == old(showOwnerModal) && ownerForm == old(ownerForm)
      ensures searchTerm == old(searchTerm) && selectedOwner == old(selectedOwner)
    {
      formData := EditPetForm(p);
      editing := Some(p);
      showForm := true;
    }

    /** The search box and the owner select. */
    method Search(term: string, owner: string)
      modifies this
      ensures searchTerm == term && selectedOwner == owner
      ensures pets == old(pets) && owners == old(owners) && loading == old(loading)
      ensures formData == old(formData) && editing == old(editing) && showForm == old(showForm)
      ensures showOwnerModal == old(showOwnerModal) && ownerForm == old(ownerForm)
    {
      searchTerm := term;
      selectedOwner := owner;
    }

    /** The pets the list shows. */
    function Shown(): (r: seq<PetRow>)
      reads this
      ensures Sublist(r, pets)
      ensures searchTerm == "" && selectedOwner == "" ==> r == pets
    {
      FilteredPetsSearch(pets, searchTerm, selectedOwner, PetRow(0, "", "", "", "", "", "", None, None, None, 0, ""));
      FilteredPets(pets, searchTerm, selectedOwner)
    }

    /** `handleSubmit`: an ok answer reloads the pets and resets the form;
        otherwise the form stays and an alert is shown. `loading` ends
        false. */
    method Submit(outcome: Outcome, reload: Fetched<PetRow>) returns (sent: PetRequest, alert: Option<string>)
      modifies this
      ensures sent == SavePetRequest(old(editing), old(formData))
      ensures outcome.Ok? ==>
        (alert.None? && formData == EmptyPetForm() && editing.None? && !showForm
         && pets == (if reload.Fetched? then reload.items else old(pets)))
      ensures outcome.NotOk? ==>
        (alert == Some(SaveAlert("Error al guardar: ", outcome.body, messages.fallback, messages.connection))
         && formData == old(formData) && editing == old(editing) && showForm == old(showForm) && pets == old(pets))
      ensures outcome.Failed? ==>
        (alert == Some(messages.connection)
         && formData == old(formData) && editing == old(editing) && showForm == old(showForm) && pets == old(pets))
      ensures !loading && owners == old(owners) && ownerForm == old(ownerForm) && showOwnerModal == old(showOwnerModal)
      ensures searchTerm == old(searchTerm) && selectedOwner == old(selectedOwner)
    {
      loading := true;
      sent := SavePetRequest(editing, formData);
      alert := None;
      match outcome {
        case Ok(_) =>
          if reload.Fetched? {
            pets := reload.items;
          }
          formData := EmptyPetForm();
          editing := None;
          showForm := false;
        case NotOk(body) =>
          alert := Some(SaveAlert("Error al guardar: ", body, messages.fallback, messages.connection));
        case Failed =>
          alert := Some(messages.connection);
      }
      loading := false;
    }

    /** The "Nueva Mascota" button: the form opens as it was left, with no
        reset. */
    method OpenForm()
      modifies this
      ensures showForm
      ensures formData == old(formData) && editing == old(editing)
      ensures pets == old(pets) && owners == old(owners) && loading == old(loading)
      ensures showOwnerModal == old(showOwnerModal) && ownerForm == old(ownerForm)
      ensures searchTerm == old(searchTerm) && selectedOwner == old(selectedOwner)
    {
      showForm := true;
    }

    /** The owner dialog's close and cancel buttons: the dialog closes and
        its form is kept. */
    method CloseOwnerModal()
      modifies this
      ensures !showOwnerModal
      ensures ownerForm == old(ownerForm) && formData == old(formData) && editing == old(editing)
      ensures showForm == old(showForm) && pets == old(pets) && owners == old(owners) && loading == old(loading)
      ensures searchTerm == old(searchTerm) && selectedOwner == old(selectedOwner)
    {
      showOwnerModal := false;
    }

    /** `handleNewOwner`: the empty owner form in an open modal. */
    method NewOwner()
      modifies this
      ensures showOwnerModal && ownerForm == EmptyOwnerForm()
      ensures formData == old(formData) && editing == old(editing) && showForm == old(showForm)
      ensures pets == old(pets) && owners == old(owners) && loading == old(loading)
      ensures searchTerm == old(searchTerm) && selectedOwner == old(selectedOwner)
    {
      showOwnerModal := true;
      ownerForm := EmptyOwnerForm();
    }

    /** The end of a created owner's save: its id's text becomes the pet's
        owner, the modal closes and the owner form resets; an answer without
        an id throws, and the connection alert is shown instead. */
    method SelectCreated(id: Option<string>) returns (alert: Option<string>)
      modifies this
      ensures id.Some? ==>
        (alert.None? && !showOwnerModal && ownerForm == EmptyOwnerForm()
         && formData == old(formData)[Owner := id.value])
      ensures id.None? ==>
        (alert == Some("Error de conexión con el servidor")
         && formData == old(formData) && showOwnerModal == old(showOwnerModal) && ownerForm == old(ownerForm))
      ensures pets == old(pets) && owners == old(owners) && loading == old(loading)
      ensures editing == old(editing) && showForm == old(showForm)
      ensures searchTerm == old(searchTerm) && selectedOwner == old(selectedOwner)
    {
      alert := None;
      if id.None? {
        alert := Some("Error de conexión con el servidor");
      } else {
        formData := formData[Owner := id.value];
        showOwnerModal := false;
        ownerForm := EmptyOwnerForm();
      }
    }

    /** `handleOwnerSubmit`: the new owner's payload is posted, as
        `NewOwnerRequest` of the owner form; on an ok answer the
        owners are reloaded and then the new owner's id, read from the
        answer, becomes the pet's owner and the modal closes. Reading the id
        of an answer without one throws after the reload, and the
        connection alert is shown with the modal still open. */
    method SubmitOwner(outcome: Outcome, reload: Fetched<OwnerRow>) returns (posted: OwnerForm, alert: Option<string>)
      modifies this
      ensures posted == OwnerPayload(old(ownerForm))
      ensures outcome.Ok? ==> owners == (if reload.Fetched? then reload.items else old(owners))
      ensures outcome.Ok? && ToStringOf(Field(outcome.body, "id")).Some? ==>
        (alert.None? && !showOwnerModal && ownerForm == EmptyOwnerForm()
         && formData == old(formData)[Owner := ToStringOf(Field(outcome.body, "id")).value])
      ensures outcome.Ok? && ToStringOf(Field(outcome.body, "id")).None? ==>
        (alert == Some("Error de conexión con el servidor")
         && formData == old(formData) && showOwnerModal == old(showOwnerModal) && ownerForm == old(ownerForm))
      ensures outcome.NotOk? ==>
        (alert == Some(SaveAlert("Error al guardar dueño: ", outcome.body, "Error inesperado", "Error de conexión con el servidor"))
         && formData == old(formData) && showOwnerModal == old(showOwnerModal) && owners == old(owners)
         && ownerForm == old(ownerForm))
      ensures outcome.Failed? ==>
        (alert == Some("Error de conexión con el servidor")
         && formData == old(formData) && showOwnerModal == old(showOwnerModal) && owners == old(owners)
         && ownerForm == old(ownerForm))
      ensures !loading && pets == old(pets) && editing == old(editing) && showForm == old(showForm)
      ensures searchTerm == old(searchTerm) && selectedOwner == old(selectedOwner)
    {
      loading := true;
      posted := OwnerPayload(ownerForm);
      match outcome {
        case Ok(body) =>
          LoadOwners(reload);
          alert := SelectCreated(ToStringOf(Field(body, "id")));
        case NotOk(body) =>
          alert := Some(SaveAlert("Error al guardar dueño: ", body, "Error inesperado", "Error de conexión con el servidor"));
        case Failed =>
          alert := Some("Error de conexión con el servidor");
      }
      loading := false;
    }
  }
}
