/**
  The registration form (src/pages/Register.tsx): field edits, the ordered
  client-side checks run on submit, and the request sent once they pass.

  String lengths are counted in characters; JavaScript counts UTF-16 code
  units, which differs only for characters outside the Basic Multilingual
  Plane.
 */
module Register {
  import opened Common

  datatype RegisterForm = RegisterForm(name: string, email: string, password: string, confirmPassword: string)

  /** The form fields, by their `name` attribute. */
  datatype Field = NameField | EmailField | PasswordField | ConfirmPasswordField

  function FieldValue(f: RegisterForm, field: Field): string {
    match field
    case NameField => f.name
    case EmailField => f.email
    case PasswordField => f.password
    case ConfirmPasswordField => f.confirmPassword
  }

  /** `handleChange`: the edited field takes the typed value. */
  function WithField(f: RegisterForm, field: Field, value: string): RegisterForm {
    match field
    case NameField => f.(name := value)
    case EmailField => f.(email := value)
    case PasswordField => f.(password := value)
    case ConfirmPasswordField => f.(confirmPassword := value)
  }

  /** An edit changes the edited field to the typed value and no other field. */
  lemma WithFieldEffect(f: RegisterForm, field: Field, value: string)
    ensures FieldValue(WithField(f, field, value), field) == value
    ensures forall other :: other != field ==> FieldValue(WithField(f, field, value), other) == FieldValue(f, other)
  {
  }

  /** The `RegisterDto` sent to the API. */
  datatype RegisterRequest = RegisterRequest(
    name: string,
    email: string,
    password: string,
    confirmPassword: string,
    phoneNumber: string)

  datatype RegisterError = MissingField | InvalidEmail | PasswordTooShort | PasswordMismatch

  function RegisterMessage(e: RegisterError): string {
    match e
    case MissingField => "Please fill in all fields"
    case InvalidEmail => "Please enter a valid email"
    case PasswordTooShort => "Password must be at least 6 characters"
    case PasswordMismatch => "Passwords do not match"
  }

  const MinPasswordLength: nat := 6

  predicate AnyEmpty(f: RegisterForm) {
    f.name == "" || f.email == "" || f.password == "" || f.confirmPassword == ""
  }

  /**
    `handleSubmit`: the checks in source order, then the request. A request
    is sent exactly when every field is filled, the email holds an '@', the
    password has at least six characters and the confirmation repeats it;
    the request carries the form's fields and an empty phone number.
   */
  function HandleRegister(f: RegisterForm): (r: Result<RegisterRequest, RegisterError>)
    ensures r.Ok? <==> !AnyEmpty(f) && '@' in f.email && |f.password| >= 6 && f.password == f.confirmPassword
    ensures r.Ok? ==> r.value == RegisterRequest(f.name, f.email, f.password, f.password, "")
  {
    if AnyEmpty(f) then Err(MissingField)
    else if '@' !in f.email then Err(InvalidEmail)
    else if |f.password| < MinPasswordLength then Err(PasswordTooShort)
    else if f.password != f.confirmPassword then Err(PasswordMismatch)
    else Ok(RegisterRequest(f.name, f.email, f.password, f.confirmPassword, ""))
  }

  /** Each error is reported exactly when every earlier check passed and its own check failed. */
  lemma RegisterFirstFailure(f: RegisterForm)
    ensures HandleRegister(f) == Err(MissingField) <==> AnyEmpty(f)
    ensures HandleRegister(f) == Err(InvalidEmail) <==> !AnyEmpty(f) && '@' !in f.email
    ensures HandleRegister(f) == Err(PasswordTooShort) <==>
      !AnyEmpty(f) && '@' in f.email && |f.password| < 6
    ensures HandleRegister(f) == Err(PasswordMismatch) <==>
      !AnyEmpty(f) && '@' in f.email && |f.password| >= 6 && f.password != f.confirmPassword
  {
  }

  /** Matching passwords are never reported as mismatched, whatever else is wrong. */
  lemma MatchingPasswordsNeverMismatch(f: RegisterForm)
    requires f.password == f.confirmPassword
    ensures HandleRegister(f) != Err(PasswordMismatch)
  {
  }
}
