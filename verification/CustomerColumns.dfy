/**
 The personal columns of a customer and what an update request makes of them. A field of the request is
 absent, an explicit null, or given; validation lets an explicit null through for every optional field.
 */
module CustomerColumns {
  import opened Options

  /** A text as it is after trimming. */
  type Text = string

  /** Milliseconds since 1 January 1970. */
  type Date = int

  datatype Sent<T> = Absent | Null | Given(value: T)

  /** An address as it is written, and in the lower case addresses are compared in. */
  datatype Email = Email(written: Text, lower: Text)

  datatype Columns = Columns(
    fullName: Text,
    email: Email,
    phone: Option<Text>,
    dateOfBirth: Option<Date>,
    country: Option<Text>,
    city: Option<Text>,
    postalCode: Option<Text>,
    line1: Option<Text>,
    contractSigned: bool)

  /** The parts of `address`, each optional and nullable; the code writes an absent part and a null one alike. */
  datatype Address = Address(country: Sent<Text>, city: Sent<Text>, postalCode: Sent<Text>, line1: Sent<Text>)

  datatype Changes = Changes(
    fullName: Sent<Text>,
    email: Sent<Email>,
    phone: Sent<Text>,
    dateOfBirth: Sent<Date>,
    address: Sent<Address>,
    contractSigned: Sent<bool>)

  const NO_CHANGES := Changes(Absent, Absent, Absent, Absent, Absent, Absent)

  /** What JavaScript makes of `new Date(null)`. */
  const EPOCH: Date := 0

  /** `dto.fullName.trim()`, `dto.phone.trim()` and `dto.address.country` throw on an explicit null. */
  predicate Throws(d: Changes) {
    d.fullName.Null? || d.phone.Null? || d.address.Null?
  }

  predicate ChangesEmail(d: Changes, existing: Columns) {
    d.email.Given? && d.email.value.lower != existing.email.lower
  }

  /** `part?.trim() ?? null`. */
  function Written(part: Sent<Text>): Option<Text> {
    if part.Given? then Some(part.value) else None
  }

  /** The data object of the write. */
  function Merged(d: Changes, existing: Columns): Columns
    requires !Throws(d)
  {
    Columns(
      if d.fullName.Absent? then existing.fullName else d.fullName.value,
      if d.email.Given? then d.email.value else existing.email,
      if d.phone.Absent? then existing.phone else if d.phone.value == "" then None else Some(d.phone.value),
      if d.dateOfBirth.Absent? then existing.dateOfBirth
      else if d.dateOfBirth.Null? then Some(EPOCH) else Some(d.dateOfBirth.value),
      if d.address.Absent? then existing.country else Written(d.address.value.country),
      if d.address.Absent? then existing.city else Written(d.address.value.city),
      if d.address.Absent? then existing.postalCode else Written(d.address.value.postalCode),
      if d.address.Absent? then existing.line1 else Written(d.address.value.line1),
      if d.contractSigned.Given? then d.contractSigned.value else existing.contractSigned)
  }

  // ---------------------------------------------------------------- column by column

  datatype Column = FullName | EmailAddress | Phone | DateOfBirth | Country | City | PostalCode | Line1 | ContractSigned

  datatype Cell = TextCell(text: Text) | EmailCell(email: Email) | DateCell(date: Date) | FlagCell(flag: bool) | NullCell

  function TextOrNull(t: Option<Text>): Cell {
    if t.Some? then TextCell(t.value) else NullCell
  }

  function CellOf(r: Columns, c: Column): Cell {
    match c
    case FullName => TextCell(r.fullName)
    case EmailAddress => EmailCell(r.email)
    case Phone => TextOrNull(r.phone)
    case DateOfBirth => if r.dateOfBirth.Some? then DateCell(r.dateOfBirth.value) else NullCell
    case Country => TextOrNull(r.country)
    case City => TextOrNull(r.city)
    case PostalCode => TextOrNull(r.postalCode)
    case Line1 => TextOrNull(r.line1)
    case ContractSigned => FlagCell(r.contractSigned)
  }

  predicate IsAddress(c: Column) {
    c == Country || c == City || c == PostalCode || c == Line1
  }

  function Part(a: Address, c: Column): Sent<Text>
    requires IsAddress(c)
  {
    match c
    case Country => a.country
    case City => a.city
    case PostalCode => a.postalCode
    case Line1 => a.line1
  }

  /**
   What a request asks a column to hold: the given value, null where it sends null to a nullable column (an
   empty phone included), nothing where it does not mention the column.
   */
  function Asked(d: Changes, c: Column): Option<Cell> {
    match c
    case FullName => if d.fullName.Given? then Some(TextCell(d.fullName.value)) else None
    case EmailAddress => if d.email.Given? then Some(EmailCell(d.email.value)) else None
    case Phone => if d.phone.Absent? then None
                  else if d.phone.Null? || d.phone.value == "" then Some(NullCell) else Some(TextCell(d.phone.value))
    case DateOfBirth => if d.dateOfBirth.Absent? then None
                        else if d.dateOfBirth.Null? then Some(NullCell) else Some(DateCell(d.dateOfBirth.value))
    case ContractSigned => if d.contractSigned.Given? then Some(FlagCell(d.contractSigned.value)) else None
    case _ => if !d.address.Given? || Part(d.address.value, c).Absent? then None
              else Some(TextOrNull(Written(Part(d.address.value, c))))
  }

  /** Every column the request does not name is kept. */
  predicate KeepsUnnamed(d: Changes, before: Columns, after: Columns) {
    forall c: Column :: Asked(d, c).None? ==> CellOf(after, c) == CellOf(before, c)
  }

  /** Every column the request names holds what was asked. */
  predicate StoresNamed(d: Changes, after: Columns) {
    forall c: Column :: Asked(d, c).Some? ==> CellOf(after, c) == Asked(d, c).value
  }

  /** The request sends no address, or one that names, if only with null, every address column the row has a value in. */
  predicate AddressComplete(d: Changes, before: Columns) {
    d.address.Given? ==>
      && (d.address.value.country.Absent? ==> before.country.None?)
      && (d.address.value.city.Absent? ==> before.city.None?)
      && (d.address.value.postalCode.Absent? ==> before.postalCode.None?)
      && (d.address.value.line1.Absent? ==> before.line1.None?)
  }

  /** An address is written as a whole: the unnamed columns are kept exactly when it is absent or complete for the row. */
  lemma KeepsUnnamedIff(d: Changes, before: Columns)
    requires !Throws(d)
    ensures KeepsUnnamed(d, before, Merged(d, before)) <==> AddressComplete(d, before)
  {
    var after := Merged(d, before);
    if KeepsUnnamed(d, before, after) {
      assert Asked(d, Country).None? ==> CellOf(after, Country) == CellOf(before, Country);
      assert Asked(d, City).None? ==> CellOf(after, City) == CellOf(before, City);
      assert Asked(d, PostalCode).None? ==> CellOf(after, PostalCode) == CellOf(before, PostalCode);
      assert Asked(d, Line1).None? ==> CellOf(after, Line1) == CellOf(before, Line1);
    }
  }

  /** What is asked is what is stored, exactly when no null is sent for the date of birth. */
  lemma StoresNamedIff(d: Changes, before: Columns)
    requires !Throws(d)
    ensures StoresNamed(d, Merged(d, before)) <==> !d.dateOfBirth.Null?
  {
    if d.dateOfBirth.Null? {
      assert CellOf(Merged(d, before), DateOfBirth) == DateCell(EPOCH);
    }
  }

  /** An address of a country alone clears city, postal code and street. */
  lemma CountryAloneClears(before: Columns, country: Text)
    ensures var after := Merged(NO_CHANGES.(address := Given(Address(Given(country), Absent, Absent, Absent))), before);
            after == before.(country := Some(country), city := None, postalCode := None, line1 := None)
  {
  }

  /** A null date of birth stores 1 January 1970. */
  lemma NullDateStoresEpoch(before: Columns)
    ensures Merged(NO_CHANGES.(dateOfBirth := Null), before) == before.(dateOfBirth := Some(EPOCH))
  {
  }
}
