/** The sign-in / sign-up page: its form record, the first-failure validator
    that runs before any request, and what a submit does to the page state. */
module AuthForm {

  datatype Mode = Login | Signup

  /** The page's form fields, all text. */
  datatype Form = Form(
    email: string,
    password: string,
    confirmPassword: string,
    name: string,
    phone: string,
    address: string,
    bloodGroup: string,
    city: string,
    state: string)

  const EmptyForm: Form := Form("", "", "", "", "", "", "", "", "")

  /** Shortest password accepted at sign-up. */
  const MinPasswordLength: nat := 6

  /** The validator's error messages, in the order the checks run. */
  datatype AuthError =
    | MissingCredentials    // "Email and password are required"
    | PasswordMismatch      // "Passwords do not match"
    | MissingProfileFields  // "Name, phone, and blood group are required for registration"
    | PasswordTooShort      // "Password must be at least 6 characters long"

  datatype Validation = Valid | Invalid(error: AuthError)

  /** Every sign-up check passes. */
  predicate SignupAcceptable(f: Form) {
    && f.password == f.confirmPassword
    && f.name != [] && f.phone != [] && f.bloodGroup != []
    && |f.password| >= MinPasswordLength
  }

  /** `validateForm`: the first failing check decides the message. */
  function ValidateForm(f: Form, mode: Mode): (r: Validation)
    ensures r == Valid <==> f.email != [] && f.password != [] && (mode == Login || SignupAcceptable(f))
    ensures r == Invalid(MissingCredentials) <==> f.email == [] || f.password == []
    ensures r == Invalid(PasswordMismatch) <==>
              f.email != [] && f.password != [] && mode.Signup? && f.password != f.confirmPassword
    ensures r == Invalid(MissingProfileFields) <==>
              f.email != [] && f.password != [] && mode.Signup? && f.password == f.confirmPassword &&
              (f.name == [] || f.phone == [] || f.bloodGroup == [])
    ensures r == Invalid(PasswordTooShort) <==>
              f.email != [] && f.password != [] && mode.Signup? && f.password == f.confirmPassword &&
              f.name != [] && f.phone != [] && f.bloodGroup != [] && |f.password| < MinPasswordLength
  {
    if f.email == [] || f.password == [] then Invalid(MissingCredentials)
    else if mode.Login? then Valid
    else if f.password != f.confirmPassword then Invalid(PasswordMismatch)
    else if f.name == [] || f.phone == [] || f.bloodGroup == [] then Invalid(MissingProfileFields)
    else if |f.password| < MinPasswordLength then Invalid(PasswordTooShort)
    else Valid
  }

  /** Address, city and state never affect validation, and in login mode
      only the email and password are looked at. */
  lemma ValidationIgnores(f: Form, mode: Mode, address: string, city: string, state: string)
    ensures ValidateForm(f.(address := address, city := city, state := state), mode) == ValidateForm(f, mode)
    ensures ValidateForm(f, Login) == ValidateForm(EmptyForm.(email := f.email, password := f.password), Login)
  {
  }

  /** A form good enough to register is good enough to sign in with. */
  lemma SignupStricterThanLogin(f: Form)
    ensures ValidateForm(f, Signup) == Valid ==> ValidateForm(f, Login) == Valid
    ensures ValidateForm(f, Login).Invalid? ==> ValidateForm(f, Signup) == ValidateForm(f, Login)
  {
  }

  /** Six characters is the boundary: five are refused, six pass. */
  lemma PasswordLengthBoundary()
    ensures ValidateForm(Form("a@b.in", "12345", "12345", "Asha", "98", "", "O-", "", ""), Signup)
            == Invalid(PasswordTooShort)
    ensures ValidateForm(Form("a@b.in", "123456", "123456", "Asha", "98", "", "O-", "", ""), Signup) == Valid
  {
  }

  // ---------------------------------------------------------------------
  // Submitting
  // ---------------------------------------------------------------------

  datatype Page = Page(mode: Mode, form: Form)

  /** What the authentication service answered; the request itself is not modelled. */
  datatype ServiceReply = Accepted | Refused(message: string)

  /** Shown when the service refuses without a message. */
  const DefaultAuthErrorMessage: string := "An error occurred during authentication"

  datatype SubmitOutcome =
    | Rejected(error: AuthError)   // validation failed, no request sent
    | SignedIn                     // login accepted, the app navigates home
    | Registered                   // sign-up accepted
    | ServiceError(message: string)

  /** `handleSubmit`: validate, send the request, and on a successful sign-up
      switch to login mode keeping only the email. */
  function Submit(p: Page, reply: ServiceReply): (r: (Page, SubmitOutcome))
    ensures ValidateForm(p.form, p.mode).Invalid? ==>
              r == (p, Rejected(ValidateForm(p.form, p.mode).error))
    ensures r.1 == Registered <==> p.mode.Signup? && ValidateForm(p.form, Signup) == Valid && reply == Accepted
    ensures r.1 == Registered ==> r.0 == Page(Login, EmptyForm.(email := p.form.email))
    ensures r.1 != Registered ==> r.0 == p
    ensures r.1 == SignedIn <==> p.mode == Login && ValidateForm(p.form, Login) == Valid && reply == Accepted
    ensures r.1.Rejected? <==> ValidateForm(p.form, p.mode).Invalid?
    ensures ValidateForm(p.form, p.mode) == Valid && reply.Refused? && reply.message != [] ==>
              r == (p, ServiceError(reply.message))
    ensures ValidateForm(p.form, p.mode) == Valid && reply == Refused([]) ==>
              r == (p, ServiceError(DefaultAuthErrorMessage))
    ensures r.1.ServiceError? ==> r.1.message != []
  {
    match ValidateForm(p.form, p.mode)
    case Invalid(e) => (p, Rejected(e))
    case Valid =>
      match reply
      case Refused(msg) => (p, ServiceError(if msg == [] then DefaultAuthErrorMessage else msg))
      case Accepted =>
        if p.mode == Login then (p, SignedIn)
        else (Page(Login, EmptyForm.(email := p.form.email)), Registered)
  }

  /** After registering, the login form asks for the password again: the
      reset form fails validation until one is typed. */
  lemma RegisteredNeedsPassword(p: Page, reply: ServiceReply)
    requires Submit(p, reply).1 == Registered
    ensures ValidateForm(Submit(p, reply).0.form, Login) == Invalid(MissingCredentials)
    ensures ValidateForm(Submit(p, reply).0.form.(password := p.form.password), Login) == Valid
  {
  }

  /** The "switch mode" link keeps what was typed. */
  function ToggleMode(p: Page): (p': Page)
    ensures p'.form == p.form && p'.mode != p.mode
  {
    p.(mode := if p.mode == Login then Signup else Login)
  }

  /** `handlePasswordReset`: refuses an empty email before calling the service. */
  function PasswordResetAllowed(f: Form): (ok: bool)
    ensures ok <==> f.email != []
    ensures ValidateForm(f, Login) == Valid ==> ok
  {
    f.email != []
  }
}
