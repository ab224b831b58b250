/**
 * The booking form of the contact section: its field values and error
 * messages as component state, the client-side validation, the per-keystroke
 * update, and the submission that maps the form to the back end's payload
 * and resets it after a successful request.
 */
module Contact {
  import opened Wrappers
  import opened JsStrings
  import InquiryModel

  /** The `name` attributes of the form's inputs. */
  datatype Field = Name | Email | Phone | PropertyAddress | InspectionType | PreferredDate | Message

  /** `formData`: every input holds a string (the empty string when untouched). */
  datatype FormData = FormData(
    name: string,
    email: string,
    phone: string,
    propertyAddress: string,
    inspectionType: string,
    preferredDate: string,
    message: string)

  /** The initial state, and the state a successful submission resets to. */
  const InitialForm: FormData := FormData("", "", "", "", "pre-purchase", "", "")

  /** `formData[name]` */
  function Get(f: FormData, fld: Field): string {
    match fld
    case Name => f.name
    case Email => f.email
    case Phone => f.phone
    case PropertyAddress => f.propertyAddress
    case InspectionType => f.inspectionType
    case PreferredDate => f.preferredDate
    case Message => f.message
  }

  /** `{...prev, [name]: value}`: the named field takes the value, every other keeps its own. */
  function WithField(f: FormData, fld: Field, value: string): (r: FormData)
    ensures Get(r, fld) == value
    ensures forall g :: g != fld ==> Get(r, g) == Get(f, g)
  {
    match fld
    case Name => f.(name := value)
    case Email => f.(email := value)
    case Phone => f.(phone := value)
    case PropertyAddress => f.(propertyAddress := value)
    case InspectionType => f.(inspectionType := value)
    case PreferredDate => f.(preferredDate := value)
    case Message => f.(message := value)
  }

  const NameRequired: string := "Full name is required"
  const EmailRequired: string := "Email is required"
  const EmailInvalid: string := "Please enter a valid email address"
  const PhoneRequired: string := "Phone number is required"
  const PhoneInvalid: string := "Please enter a valid phone number"
  const AddressRequired: string := "Property address is required"

  /** The message `validateForm` records for one field, if any: the check as the code performs it. */
  function FieldError(f: FormData, fld: Field): Option<string> {
    match fld
    case Name => if Trim(f.name) == "" then Some(NameRequired) else None
    case Email =>
      if Trim(f.email) == "" then Some(EmailRequired)
      else if !HasEmailMatch(f.email) then Some(EmailInvalid)
      else None
    case Phone =>
      if Trim(f.phone) == "" then Some(PhoneRequired)
      else if !PhoneRegexTest(f.phone) then Some(PhoneInvalid)
      else None
    case PropertyAddress => if Trim(f.propertyAddress) == "" then Some(AddressRequired) else None
    case _ => None
  }

  /**
   * What each check means: a blank value (all whitespace) gets the
   * "required" message, which takes precedence over the format message; the
   * email must contain a substring of the `\S+@\S+\.\S+` shape and the
   * whole phone must be of the phone class; the other three fields are
   * never checked.
   */
  lemma FieldErrorMeaning(f: FormData, fld: Field)
    ensures fld == Name ==> FieldError(f, fld) == if AllWhitespace(f.name) then Some(NameRequired) else None
    ensures fld == Email ==> (FieldError(f, fld) ==
      if AllWhitespace(f.email) then Some(EmailRequired)
      else if !EmailRegexTest(f.email) then Some(EmailInvalid)
      else None)
    ensures fld == Phone ==> (FieldError(f, fld) ==
      if AllWhitespace(f.phone) then Some(PhoneRequired)
      else if !PhoneRegexTest(f.phone) then Some(PhoneInvalid)
      else None)
    ensures fld == PropertyAddress ==>
      FieldError(f, fld) == if AllWhitespace(f.propertyAddress) then Some(AddressRequired) else None
    ensures fld == InspectionType || fld == PreferredDate || fld == Message ==> FieldError(f, fld).None?
  {
    TrimMeaning(Get(f, fld));
    EmailMatchIff(f.email);
  }

  /** The form passes client-side validation. */
  ghost predicate FormValid(f: FormData) {
    && !AllWhitespace(f.name)
    && !AllWhitespace(f.email) && EmailRegexTest(f.email)
    && !AllWhitespace(f.phone) && PhoneRegexTest(f.phone)
    && !AllWhitespace(f.propertyAddress)
  }

  /** The form is valid exactly when no field has an error. */
  lemma FormValidIff(f: FormData)
    ensures FormValid(f) <==> forall fld :: FieldError(f, fld).None?
  {
    FieldErrorMeaning(f, Name);
    FieldErrorMeaning(f, Email);
    FieldErrorMeaning(f, Phone);
    FieldErrorMeaning(f, PropertyAddress);
    if FormValid(f) {
      forall fld ensures FieldError(f, fld).None? {
        match fld
        case Name =>
        case Email =>
        case Phone =>
        case PropertyAddress =>
        case InspectionType =>
        case PreferredDate =>
        case Message =>
      }
    }
  }

  /** `errors` holds exactly the failing fields of `f`, each with its message. */
  ghost predicate ErrorsFor(errors: map<Field, string>, f: FormData) {
    forall fld :: AgreesAt(errors, f, fld)
  }

  /** `errors` agrees with the validation of `f` on one field. */
  ghost predicate AgreesAt(errors: map<Field, string>, f: FormData, fld: Field) {
    && (fld in errors <==> FieldError(f, fld).Some?)
    && (fld in errors ==> errors[fld] == FieldError(f, fld).value)
  }

  /** Agreement on the four checked fields, with no key for the other three, is agreement everywhere. */
  lemma ErrorsAgree(errors: map<Field, string>, f: FormData)
    requires InspectionType !in errors && PreferredDate !in errors && Message !in errors
    requires AgreesAt(errors, f, Name) && AgreesAt(errors, f, Email)
    requires AgreesAt(errors, f, Phone) && AgreesAt(errors, f, PropertyAddress)
    ensures ErrorsFor(errors, f)
  {
    forall fld ensures AgreesAt(errors, f, fld) {
      match fld
      case Name =>
      case Email =>
      case Phone =>
      case PropertyAddress =>
      case InspectionType =>
      case PreferredDate =>
      case Message =>
    }
  }

  /** A faithful error map is empty exactly when the form is valid. */
  lemma NoErrorsIff(errors: map<Field, string>, f: FormData)
    requires ErrorsFor(errors, f)
    ensures errors == map[] <==> FormValid(f)
  {
    FormValidIff(f);
    if errors != map[] {
      var fld :| fld in errors;
      assert AgreesAt(errors, f, fld);
    } else {
      forall fld ensures FieldError(f, fld).None? {
        assert AgreesAt(errors, f, fld);
      }
    }
  }

  /**
   * `if (errors[name]) setErrors({...prev, [name]: ''})`: a field whose error
   * is a non-empty message has it replaced by the empty string; no key is
   * added or removed, and every other entry stays.
   */
  function ClearError(errors: map<Field, string>, fld: Field): (r: map<Field, string>)
    ensures r.Keys == errors.Keys
    ensures forall g :: g in r ==> r[g] == if g == fld then "" else errors[g]
  {
    if fld in errors && errors[fld] != "" then errors[fld := ""] else errors
  }

  /** `x || null` on a string: only the empty string is falsy. */
  function OrNull(s: string): (r: Option<string>)
    ensures r.None? <==> s == ""
    ensures r.Some? ==> r.value == s
  {
    if s == "" then None else Some(s)
  }

  /** `submitData`: the snake_case body sent to the back end. */
  datatype SubmitData = SubmitData(
    name: string,
    email: string,
    phone: string,
    property_address: string,
    inspection_type: string,
    preferred_date: Option<string>,
    message: Option<string>)

  function ToSubmitData(f: FormData): SubmitData {
    SubmitData(f.name, f.email, f.phone, f.propertyAddress, f.inspectionType,
               OrNull(f.preferredDate), OrNull(f.message))
  }

  /** Reading a body back into form fields (`null` as the empty string). */
  function FromSubmitData(d: SubmitData): FormData {
    FormData(d.name, d.email, d.phone, d.property_address, d.inspection_type,
             if d.preferred_date.Some? then d.preferred_date.value else "",
             if d.message.Some? then d.message.value else "")
  }

  /** The mapping loses nothing: the form can be recovered from the body it sends. */
  lemma {:induction false} SubmitDataRoundTrip(f: FormData)
    ensures FromSubmitData(ToSubmitData(f)) == f
  {
    var d := ToSubmitData(f);
    assert d.preferred_date.Some? ==> d.preferred_date.value == f.preferredDate;
    assert d.preferred_date.None? ==> f.preferredDate == "";
    assert d.message.None? ==> f.message == "";
  }

  /** The body as the back end receives it: every key present, `null` for the empty optionals. */
  function AsPayload(d: SubmitData): InquiryModel.Payload {
    InquiryModel.Payload(Some(d.name), Some(d.email), Some(d.phone), Some(d.property_address),
                         Some(d.inspection_type), d.preferred_date, d.message)
  }

  /**
   * A form within the back end's length bounds, with an inspection type from
   * the select's two options and an already-normalised email, is accepted
   * by the back end with every field as typed and empty optionals as null.
   */
  lemma SubmittedFormAccepted(f: FormData, emailCheck: InquiryModel.EmailValidator)
    requires InquiryModel.NameLengthOk(f.name) && InquiryModel.PhoneLengthOk(f.phone)
    requires InquiryModel.AddressLengthOk(f.propertyAddress)
    requires |f.message| <= InquiryModel.MessageMaxLength
    requires InquiryModel.ParseInspectionType(f.inspectionType).Some?
    requires emailCheck(f.email) == Some(f.email)
    ensures InquiryModel.Validate(AsPayload(ToSubmitData(f)), emailCheck)
      == Ok(InquiryModel.InquiryCreate(f.name, f.email, f.phone, f.propertyAddress,
              InquiryModel.ParseInspectionType(f.inspectionType).value,
              OrNull(f.preferredDate), OrNull(f.message)))
  {
    var c := InquiryModel.InquiryCreate(f.name, f.email, f.phone, f.propertyAddress,
              InquiryModel.ParseInspectionType(f.inspectionType).value,
              OrNull(f.preferredDate), OrNull(f.message));
    assert InquiryModel.ToPayload(c) == AsPayload(ToSubmitData(f));
    InquiryModel.ValidateToPayload(c, emailCheck);
  }

  /**
   * The back end does not trim: a blank name that the form refuses is within
   * the server's length bounds.
   */
  lemma BlankNameOnlyRefusedByForm(f: FormData)
    requires f.name == " "
    ensures FieldError(f, Name) == Some(NameRequired)
    ensures InquiryModel.NameLengthOk(f.name)
  {
    FieldErrorMeaning(f, Name);
  }

  /** An address without an `@` is refused with the format message. */
  lemma EmailWithoutAt()
    ensures FieldError(InitialForm.(email := "bob"), Email) == Some(EmailInvalid)
  {
    var bad := "bob";
    assert !HasEmailMatch(bad);
    EmailMatchIff(bad);
    assert !IsWhitespace(bad[0]);
    FieldErrorMeaning(InitialForm.(email := bad), Email);
  }

  /** A plain address passes. */
  lemma EmailPlainAccepted()
    ensures FieldError(InitialForm.(email := "bob@example.com"), Email).None?
  {
    var good := "bob@example.com";
    var run := good[4..11];
    assert run == "example";
    assert AllNonSpace(run);
    assert MatchAt(good, 3, 11);
    EmailMatchIff(good);
    assert !IsWhitespace(good[0]);
    FieldErrorMeaning(InitialForm.(email := good), Email);
  }

  /** A blank address gets the "required" message, not the format one. */
  lemma EmailBlankRequired()
    ensures FieldError(InitialForm.(email := "  "), Email) == Some(EmailRequired)
  {
    FieldErrorMeaning(InitialForm.(email := "  "), Email);
  }

  /** Letters are not phone characters. */
  lemma PhoneWordsRefused()
    ensures FieldError(InitialForm.(phone := "call me"), Phone) == Some(PhoneInvalid)
  {
    var words := "call me";
    assert !PhoneChar(words[0]);
    assert !IsWhitespace(words[0]);
    FieldErrorMeaning(InitialForm.(phone := words), Phone);
  }

  /** Digits, spaces and a leading plus pass. */
  lemma PhoneInternationalAccepted()
    ensures FieldError(InitialForm.(phone := "+61 4 1234 5678"), Phone).None?
  {
    var number := "+61 4 1234 5678";
    assert !IsWhitespace(number[0]);
    forall k | 0 <= k < |number| ensures PhoneChar(number[k]) {
    }
    FieldErrorMeaning(InitialForm.(phone := number), Phone);
  }

  /** The component's state: `formData`, `errors` and `isSubmitting`. */
  class ContactForm {
    var formData: FormData
    var errors: map<Field, string>
    var isSubmitting: bool

    constructor ()
      ensures formData == InitialForm && errors == map[] && !isSubmitting
    {
      formData := InitialForm;
      errors := map[];
      isSubmitting := false;
    }

    /**
     * `validateForm`: records an error for exactly the failing fields and
     * answers whether there were none.
     */
    method ValidateForm() returns (ok: bool)
      modifies this`errors
      ensures ErrorsFor(errors, formData)
      ensures ok <==> errors == map[]
      ensures ok <==> FormValid(formData)
    {
      var f := formData;
      var e: map<Field, string> := map[];
      if Trim(f.name) == "" {
        e := e[Name := NameRequired];
      }
      if Trim(f.email) == "" {
        e := e[Email := EmailRequired];
      } else if !HasEmailMatch(f.email) {
        e := e[Email := EmailInvalid];
      }
      if Trim(f.phone) == "" {
        e := e[Phone := PhoneRequired];
      } else if !PhoneRegexTest(f.phone) {
        e := e[Phone := PhoneInvalid];
      }
      if Trim(f.propertyAddress) == "" {
        e := e[PropertyAddress := AddressRequired];
      }
      ErrorsAgree(e, f);
      NoErrorsIff(e, f);
      errors := e;
      ok := e == map[];
    }

    /**
     * `handleInputChange`: the named field takes the new value and its error,
     * if it showed one, is cleared; nothing else changes.
     */
    method HandleInputChange(fld: Field, value: string)
      modifies this`formData, this`errors
      ensures formData == WithField(old(formData), fld, value)
      ensures errors == ClearError(old(errors), fld)
      ensures !(fld in errors && errors[fld] != "")
    {
      formData := WithField(formData, fld, value);
      if fld in errors && errors[fld] != "" {
        errors := errors[fld := ""];
      }
    }

    /**
     * `handleSubmit`, with the outcome of the request as `requestOk` (the
     * request completed and the answer was a 2xx with a JSON body). An
     * invalid form sends nothing and keeps the values with the new errors; a
     * valid one sends its snake_case body and, when the request succeeds, is
     * reset to the initial values with no errors. The busy flag ends false.
     */
    method HandleSubmit(requestOk: bool) returns (sent: Option<SubmitData>)
      modifies this
      ensures !isSubmitting
      ensures sent.Some? <==> FormValid(old(formData))
      ensures sent.Some? ==> sent.value == ToSubmitData(old(formData))
      ensures !FormValid(old(formData)) ==> formData == old(formData) && ErrorsFor(errors, old(formData))
      ensures FormValid(old(formData)) ==> errors == map[]
      ensures FormValid(old(formData)) && requestOk ==> formData == InitialForm
      ensures FormValid(old(formData)) && !requestOk ==> formData == old(formData)
    {
      isSubmitting := true;
      var ok := ValidateForm();
      if !ok {
        isSubmitting := false;
        return None;
      }
      sent := Some(ToSubmitData(formData));
      if requestOk {
        formData := InitialForm;
        errors := map[];
      }
      isSubmitting := false;
    }
  }
}
