/** The server's pet rules: the serializers' checks of a birth date, a
    weight and an owner, and the legacy model's own birth-date check.
    Dates are compared by their day number; weights are exact decimals,
    modelled as reals. */
module PetRules {
  import opened Dates
  import opened Text
  import opened Names
  import opened Scheduling

  /** `(today - value).days`. */
  function DaysBetween(value: Date, today: Date): int
    requires ValidDate(value) && ValidDate(today)
  {
    DayNumber(today) - DayNumber(value)
  }

  /** `validate_birth_date(valor)` (and the legacy `validate_birth_date`):
      no date after today, and none more than twenty years of 365 days
      back, measured by true division. */
  function ValidateBirthDate(today: Date, value: Date): (r: Checked<Date>)
    requires ValidDate(today) && ValidDate(value)
    ensures r.Accept? ==> r.value == value
  {
    if DayNumber(value) > DayNumber(today) then
      Reject("birth_date", "La fecha de nacimiento no puede ser futura")
    else if (DaysBetween(value, today) as real) / 365.0 > 20.0 then
      Reject("birth_date", "La fecha parece muy antigua. Verifique la fecha.")
    else Accept(value)
  }

  /** A birth date passes exactly when it lies from 7300 days before today
      up to today. */
  lemma ValidateBirthDateIff(today: Date, value: Date)
    requires ValidDate(today) && ValidDate(value)
    ensures ValidateBirthDate(today, value).Accept? <==> 0 <= DaysBetween(value, today) <= 7300
  {
    var days := DaysBetween(value, today);
    if days > 7300 {
      assert (days as real) / 365.0 > 20.0;
    } else if days >= 0 {
      assert (days as real) <= 7300.0;
      assert (days as real) / 365.0 <= 20.0;
    }
  }

  /** `validate_weight(valor)`: positive and at most 100. */
  function ValidateWeight(value: real): (r: Checked<real>)
    ensures r.Accept? ==> r.value == value
  {
    if value <= 0.0 then Reject("weight", "El peso debe ser mayor a 0")
    else if value > 100.0 then Reject("weight", "El peso parece muy alto. Verifique el valor.")
    else Accept(value)
  }

  /** A weight passes exactly when `0 < w <= 100`; each side of the range
      has its own message. */
  lemma ValidateWeightIff(value: real)
    ensures ValidateWeight(value).Accept? <==> 0.0 < value <= 100.0
    ensures value <= 0.0 ==> ValidateWeight(value).message == "El peso debe ser mayor a 0"
    ensures value > 100.0 ==> ValidateWeight(value).message == "El peso parece muy alto. Verifique el valor."
  {
  }

  /** The owner a pet is assigned to. */
  datatype Owner = Owner(id: nat, fullName: string, isActive: bool)

  /** `validate_owner(valor)`: only an active owner. */
  function ValidateOwner(value: Owner): (r: Checked<Owner>)
    ensures r.Accept? <==> value.isActive
    ensures r.Accept? ==> r.value == value
    ensures r.Reject? ==> r.field == "owner" && r.message == "El dueño seleccionado no está activo"
  {
    if !value.isActive then Reject("owner", "El dueño seleccionado no está activo") else Accept(value)
  }

  /** The legacy `Pet.clean()`: a birth date after today is refused; a
      missing one passes. */
  function PetClean(today: Date, birthDate: Option<Date>): (r: Cleaned)
    requires ValidDate(today) && (birthDate.Some? ==> ValidDate(birthDate.value))
  {
    if birthDate.Some? && DayNumber(birthDate.value) > DayNumber(today) then
      Invalid("birth_date", "La fecha de nacimiento no puede ser futura")
    else Clean
  }

  /** The model refuses only future dates: whatever the serializer accepts
      it accepts, and it also accepts the old dates the serializer refuses. */
  lemma SerializerStricterThanPetClean(today: Date, value: Date)
    requires ValidDate(today) && ValidDate(value)
    ensures ValidateBirthDate(today, value).Accept? ==> PetClean(today, Some(value)) == Clean
    ensures PetClean(today, Some(value)) == Clean <==> DaysBetween(value, today) >= 0
  {
  }
}
