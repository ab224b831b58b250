/**
 * The data model of the inspection-booking back end: the two enumerations,
 * the submitted payload (`ContactInquiryCreate`), its field constraints, and
 * the stored record (`ContactInquiry`).
 */
module InquiryModel {
  import opened Wrappers

  /** `InspectionType`: a str-valued enum with exactly two members. */
  datatype InspectionType = PrePurchase | NewHome

  /** `InquiryStatus`: a str-valued enum with five members; `New` is the default. */
  datatype InquiryStatus = New | Contacted | Scheduled | Completed | Cancelled

  /** The enum members in declaration order (the order `for x in Enum` visits them). */
  const AllInspectionTypes: seq<InspectionType> := [PrePurchase, NewHome]
  const AllStatuses: seq<InquiryStatus> := [New, Contacted, Scheduled, Completed, Cancelled]

  /** The wire value of each enum member (`.value`). */
  function TypeValue(t: InspectionType): string {
    match t
    case PrePurchase => "pre-purchase"
    case NewHome => "new-home"
  }

  function StatusValue(s: InquiryStatus): string {
    match s
    case New => "new"
    case Contacted => "contacted"
    case Scheduled => "scheduled"
    case Completed => "completed"
    case Cancelled => "cancelled"
  }

  /** Enum coercion of a JSON or query string: only an exact member value is accepted. */
  function ParseInspectionType(s: string): (r: Option<InspectionType>)
    ensures r.Some? ==> TypeValue(r.value) == s
    ensures r.None? ==> forall t: InspectionType :: TypeValue(t) != s
  {
    if s == "pre-purchase" then Some(PrePurchase)
    else if s == "new-home" then Some(NewHome)
    else None
  }

  function ParseStatus(s: string): (r: Option<InquiryStatus>)
    ensures r.Some? ==> StatusValue(r.value) == s
    ensures r.None? ==> forall st: InquiryStatus :: StatusValue(st) != s
  {
    if s == "new" then Some(New)
    else if s == "contacted" then Some(Contacted)
    else if s == "scheduled" then Some(Scheduled)
    else if s == "completed" then Some(Completed)
    else if s == "cancelled" then Some(Cancelled)
    else None
  }

  /** Printing an enum value and parsing it back gives the same member. */
  lemma ParseStatusValue(st: InquiryStatus)
    ensures ParseStatus(StatusValue(st)) == Some(st)
  {
  }

  lemma ParseTypeValue(t: InspectionType)
    ensures ParseInspectionType(TypeValue(t)) == Some(t)
  {
  }

  // ---------------------------------------------------------------------
  // The submitted payload and its constraints (`ContactInquiryCreate`)
  // ---------------------------------------------------------------------

  /**
   * The JSON body as received: every key may be missing or `null` (None).
   * Lengths are counted in characters, as Python's `len` counts code points.
   */
  datatype Payload = Payload(
    name: Option<string>,
    email: Option<string>,
    phone: Option<string>,
    propertyAddress: Option<string>,
    inspectionType: Option<string>,
    preferredDate: Option<string>,
    message: Option<string>)

  /** The fields of `ContactInquiryCreate`, in declaration order. */
  datatype PayloadField =
    NameField | EmailField | PhoneField | PropertyAddressField
    | InspectionTypeField | PreferredDateField | MessageField

  const AllPayloadFields: seq<PayloadField> :=
    [NameField, EmailField, PhoneField, PropertyAddressField,
     InspectionTypeField, PreferredDateField, MessageField]

  /**
   * The `EmailStr` check, an unseen library: None rejects the address,
   * Some(e) accepts it and gives the normalised form that is stored.
   */
  type EmailValidator = string -> Option<string>

  /**
   * The normal form the validator returns is accepted again and left as it
   * is. Every construction of a record validates its address once more, so
   * this is what makes the stored address survive those re-validations.
   */
  ghost predicate NormalFormStable(emailCheck: EmailValidator) {
    forall e :: emailCheck(e).Some? ==> emailCheck(emailCheck(e).value) == emailCheck(e)
  }

  const NameMinLength := 1
  const NameMaxLength := 100
  const PhoneMinLength := 8
  const PhoneMaxLength := 20
  const AddressMinLength := 5
  const AddressMaxLength := 200
  const MessageMaxLength := 1000

  /** `Field(..., min_length, max_length)`: no trimming, so blanks count. */
  predicate NameLengthOk(s: string) { NameMinLength <= |s| <= NameMaxLength }
  predicate PhoneLengthOk(s: string) { PhoneMinLength <= |s| <= PhoneMaxLength }
  predicate AddressLengthOk(s: string) { AddressMinLength <= |s| <= AddressMaxLength }
  predicate MessageOk(m: Option<string>) { m.None? || |m.value| <= MessageMaxLength }

  /** The constraint table: whether field `f` of `p` passes its declared validator. */
  predicate FieldAccepted(p: Payload, f: PayloadField, emailCheck: EmailValidator) {
    match f
    case NameField => p.name.Some? && NameLengthOk(p.name.value)
    case EmailField => p.email.Some? && emailCheck(p.email.value).Some?
    case PhoneField => p.phone.Some? && PhoneLengthOk(p.phone.value)
    case PropertyAddressField => p.propertyAddress.Some? && AddressLengthOk(p.propertyAddress.value)
    case InspectionTypeField =>
      p.inspectionType.Some? && ParseInspectionType(p.inspectionType.value).Some?
    case PreferredDateField => true
    case MessageField => MessageOk(p.message)
  }

  lemma PayloadFieldListed(f: PayloadField)
    ensures f in AllPayloadFields
  {
    match f
    case NameField => assert AllPayloadFields[0] == f;
    case EmailField => assert AllPayloadFields[1] == f;
    case PhoneField => assert AllPayloadFields[2] == f;
    case PropertyAddressField => assert AllPayloadFields[3] == f;
    case InspectionTypeField => assert AllPayloadFields[4] == f;
    case PreferredDateField => assert AllPayloadFields[5] == f;
    case MessageField => assert AllPayloadFields[6] == f;
  }

  /** The validated creation record (`ContactInquiryCreate` after parsing). */
  datatype InquiryCreate = InquiryCreate(
    name: string,
    email: string,
    phone: string,
    propertyAddress: string,
    inspectionType: InspectionType,
    preferredDate: Option<string>,
    message: Option<string>)

  /** The fields among `fields` that fail, in the order given. */
  function FailingFields(p: Payload, fields: seq<PayloadField>, emailCheck: EmailValidator)
    : (r: seq<PayloadField>)
    ensures forall f :: f in r <==> f in fields && !FieldAccepted(p, f, emailCheck)
    ensures |r| <= |fields|
  {
    if fields == [] then []
    else
      var rest := FailingFields(p, fields[1..], emailCheck);
      if FieldAccepted(p, fields[0], emailCheck) then rest else [fields[0]] + rest
  }

  /**
   * Request-body validation: the whole payload is accepted iff every field
   * passes; otherwise the 422 answer lists exactly the failing fields.
   */
  function Validate(p: Payload, emailCheck: EmailValidator): (r: Result<InquiryCreate, seq<PayloadField>>)
    ensures r.Ok? <==> forall f :: FieldAccepted(p, f, emailCheck)
    ensures r.Err? ==> r.error != [] && forall f :: f in r.error <==> !FieldAccepted(p, f, emailCheck)
    ensures r.Ok? ==>
      && Some(r.value.name) == p.name
      && p.email.Some? && Some(r.value.email) == emailCheck(p.email.value)
      && Some(r.value.phone) == p.phone
      && Some(r.value.propertyAddress) == p.propertyAddress
      && Some(TypeValue(r.value.inspectionType)) == p.inspectionType
      && r.value.preferredDate == p.preferredDate
      && r.value.message == p.message
  {
    var failing := FailingFields(p, AllPayloadFields, emailCheck);
    if failing == [] then
      assert forall f :: FieldAccepted(p, f, emailCheck) by {
        forall f ensures FieldAccepted(p, f, emailCheck) { PayloadFieldListed(f); }
      }
      assert FieldAccepted(p, NameField, emailCheck) && FieldAccepted(p, EmailField, emailCheck);
      assert FieldAccepted(p, PhoneField, emailCheck);
      assert FieldAccepted(p, PropertyAddressField, emailCheck);
      assert FieldAccepted(p, InspectionTypeField, emailCheck);
      Ok(InquiryCreate(
        p.name.value, emailCheck(p.email.value).value, p.phone.value, p.propertyAddress.value,
        ParseInspectionType(p.inspectionType.value).value, p.preferredDate, p.message))
    else
      assert failing[0] in failing;
      Err(failing)
  }

  /** The JSON body a client sends for a creation record. */
  function ToPayload(c: InquiryCreate): Payload {
    Payload(Some(c.name), Some(c.email), Some(c.phone), Some(c.propertyAddress),
            Some(TypeValue(c.inspectionType)), c.preferredDate, c.message)
  }

  /** Lengths within bounds, as every stored creation record has them. */
  predicate CreateConforms(c: InquiryCreate) {
    NameLengthOk(c.name) && PhoneLengthOk(c.phone) && AddressLengthOk(c.propertyAddress)
    && MessageOk(c.message)
  }

  /**
   * Round trip: a record within the length bounds whose email is already in
   * normal form survives serialisation and validation unchanged.
   */
  lemma ValidateToPayload(c: InquiryCreate, emailCheck: EmailValidator)
    requires CreateConforms(c) && emailCheck(c.email) == Some(c.email)
    ensures Validate(ToPayload(c), emailCheck) == Ok(c)
  {
    var p := ToPayload(c);
    forall f ensures FieldAccepted(p, f, emailCheck) {
      if f == InspectionTypeField { ParseTypeValue(c.inspectionType); }
    }
    var r := Validate(p, emailCheck);
    ParseTypeValue(c.inspectionType);
    assert r.value.inspectionType == c.inspectionType by {
      assert Some(TypeValue(r.value.inspectionType)) == Some(TypeValue(c.inspectionType));
      ParseTypeValue(r.value.inspectionType);
    }
  }

  /** Validation is all-or-nothing: the constraint table decides it, field by field. */
  lemma ValidateRejectsEachBadField(p: Payload, emailCheck: EmailValidator, f: PayloadField)
    requires !FieldAccepted(p, f, emailCheck)
    ensures Validate(p, emailCheck).Err? && f in Validate(p, emailCheck).error
  {
  }

  // ---------------------------------------------------------------------
  // The stored record (`ContactInquiry`)
  // ---------------------------------------------------------------------

  /** uuid4 strings are modelled as naturals drawn from a fresh-id supply. */
  type Id = nat

  /** Timestamps are integer seconds. */
  datatype Inquiry = Inquiry(
    id: Id,
    name: string,
    email: string,
    phone: string,
    propertyAddress: string,
    inspectionType: InspectionType,
    preferredDate: Option<string>,
    message: Option<string>,
    status: InquiryStatus,
    createdAt: int,
    updatedAt: int)

  /** `ContactInquiry(**inquiry.dict())`: defaults filled in at time `now`. */
  function NewInquiry(id: Id, c: InquiryCreate, now: int): Inquiry {
    Inquiry(id, c.name, c.email, c.phone, c.propertyAddress, c.inspectionType,
            c.preferredDate, c.message, New, now, now)
  }

  /** The creation fields a stored record carries. */
  function CreateFields(r: Inquiry): InquiryCreate {
    InquiryCreate(r.name, r.email, r.phone, r.propertyAddress, r.inspectionType,
                  r.preferredDate, r.message)
  }

  /** Every persisted record satisfies the length constraints it was validated against. */
  predicate Conforms(r: Inquiry) { CreateConforms(CreateFields(r)) }

  /**
   * A record built from an accepted payload has status `new`, both stamps at
   * the call time, the given id, and every submitted field unchanged (the
   * email in its normalised form).
   */
  lemma NewInquiryFromPayload(p: Payload, emailCheck: EmailValidator, id: Id, now: int)
    requires Validate(p, emailCheck).Ok?
    ensures var r := NewInquiry(id, Validate(p, emailCheck).value, now);
      && r.id == id && r.status == New && r.createdAt == now && r.updatedAt == now
      && Some(r.name) == p.name && Some(r.phone) == p.phone
      && Some(r.propertyAddress) == p.propertyAddress
      && p.email.Some? && Some(r.email) == emailCheck(p.email.value)
      && Some(TypeValue(r.inspectionType)) == p.inspectionType
      && r.preferredDate == p.preferredDate && r.message == p.message
      && Conforms(r)
  {
    var c := Validate(p, emailCheck).value;
    assert FieldAccepted(p, NameField, emailCheck);
    assert FieldAccepted(p, PhoneField, emailCheck);
    assert FieldAccepted(p, PropertyAddressField, emailCheck);
    assert FieldAccepted(p, MessageField, emailCheck);
    assert CreateFields(NewInquiry(id, c, now)) == c;
  }
}
