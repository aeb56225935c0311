/** The sign-up route: the ordered checks of its `action` and the password-strength hint. */
module JoinRoute {
  import opened Wrappers

  /** What `formData.get` returns: nothing, a text entry, or an uploaded file. */
  datatype FormValue = Missing | Text(text: string) | Upload

  datatype JoinForm = JoinForm(email: FormValue, password: FormValue, confirmPassword: FormValue)

  /** The `errors` object of a 400 response; `null` fields are `None`. */
  datatype JoinErrors = JoinErrors(email: Option<string>, password: Option<string>, confirmPassword: Option<string>)

  /** A 400 response, or the call to `createUser` that follows the last check. */
  datatype JoinOutcome = Rejected(status: int, errors: JoinErrors) | CreateUser(email: string, password: string)

  const MinPasswordLength := 8

  /** `validateEmail` is a type guard: it only accepts text entries. */
  predicate Guarded(form: JoinForm, validateEmail: FormValue -> bool) {
    validateEmail(form.email) ==> form.email.Text?
  }

  /** `action`: each check returns its error at once; `getUserByEmail` is the `userExists` parameter. */
  function JoinAction(form: JoinForm, validateEmail: FormValue -> bool, userExists: string -> bool): (r: JoinOutcome)
    requires Guarded(form, validateEmail)
    ensures r.CreateUser? <==>
      && validateEmail(form.email)
      && form.password.Text? && |form.password.text| >= MinPasswordLength
      && form.confirmPassword == form.password
      && !userExists(form.email.text)
    ensures r.CreateUser? ==> Text(r.email) == form.email && Text(r.password) == form.password
    ensures r.Rejected? ==> r.status == 400
  {
    if !validateEmail(form.email) then
      Rejected(400, JoinErrors(Some("Email is invalid"), None, None))
    else if !form.password.Text? || |form.password.text| == 0 then
      Rejected(400, JoinErrors(None, Some("Password is required"), None))
    else if |form.password.text| < MinPasswordLength then
      Rejected(400, JoinErrors(None, Some("Password is too short"), None))
    else if form.password != form.confirmPassword then
      Rejected(400, JoinErrors(None, None, Some("Passwords do not match")))
    else if userExists(form.email.text) then
      Rejected(400, JoinErrors(Some("A user already exists with this email"), None, None))
    else
      CreateUser(form.email.text, form.password.text)
  }

  // ---------------------------------------------------------------------------
  // The same checks as a table

  datatype Check = ValidEmail | PasswordGiven | PasswordLongEnough | PasswordsMatch | EmailFree

  /** The order in which the checks run. */
  const CheckOrder := [ValidEmail, PasswordGiven, PasswordLongEnough, PasswordsMatch, EmailFree]

  predicate Passes(c: Check, form: JoinForm, validateEmail: FormValue -> bool, userExists: string -> bool) {
    match c
    case ValidEmail => validateEmail(form.email)
    case PasswordGiven => form.password.Text? && form.password.text != ""
    case PasswordLongEnough => form.password.Text? && |form.password.text| >= MinPasswordLength
    case PasswordsMatch => form.confirmPassword == form.password
    case EmailFree => form.email.Text? && !userExists(form.email.text)
  }

  /** The error a failed check reports. */
  function ErrorFor(c: Check): (e: JoinErrors)
    ensures (if e.email.Some? then 1 else 0) + (if e.password.Some? then 1 else 0)
            + (if e.confirmPassword.Some? then 1 else 0) == 1
  {
    match c
    case ValidEmail => JoinErrors(Some("Email is invalid"), None, None)
    case PasswordGiven => JoinErrors(None, Some("Password is required"), None)
    case PasswordLongEnough => JoinErrors(None, Some("Password is too short"), None)
    case PasswordsMatch => JoinErrors(None, None, Some("Passwords do not match"))
    case EmailFree => JoinErrors(Some("A user already exists with this email"), None, None)
  }

  /** The first check of `checks` that fails. */
  function FirstFailing(checks: seq<Check>, form: JoinForm, validateEmail: FormValue -> bool, userExists: string -> bool): (f: Option<Check>)
    ensures f.Some? ==> f.value in checks && !Passes(f.value, form, validateEmail, userExists)
    ensures f.None? <==> forall c :: c in checks ==> Passes(c, form, validateEmail, userExists)
  {
    if checks == [] then None
    else if !Passes(checks[0], form, validateEmail, userExists) then Some(checks[0])
    else FirstFailing(checks[1..], form, validateEmail, userExists)
  }

  /** The `if` chain of `action` is the table run in order: it rejects with the error of the first
      failing check, and creates the user only when every check passes. */
  lemma JoinFollowsChecks(form: JoinForm, validateEmail: FormValue -> bool, userExists: string -> bool)
    requires Guarded(form, validateEmail)
    ensures JoinAction(form, validateEmail, userExists).CreateUser? <==>
      FirstFailing(CheckOrder, form, validateEmail, userExists).None?
    ensures FirstFailing(CheckOrder, form, validateEmail, userExists).Some? ==>
      JoinAction(form, validateEmail, userExists) ==
        Rejected(400, ErrorFor(FirstFailing(CheckOrder, form, validateEmail, userExists).value))
  {
    FirstFailingInOrder(form, validateEmail, userExists);
  }

  lemma FirstFailingInOrder(form: JoinForm, validateEmail: FormValue -> bool, userExists: string -> bool)
    ensures FirstFailing(CheckOrder, form, validateEmail, userExists) ==
      if !Passes(ValidEmail, form, validateEmail, userExists) then Some(ValidEmail)
      else if !Passes(PasswordGiven, form, validateEmail, userExists) then Some(PasswordGiven)
      else if !Passes(PasswordLongEnough, form, validateEmail, userExists) then Some(PasswordLongEnough)
      else if !Passes(PasswordsMatch, form, validateEmail, userExists) then Some(PasswordsMatch)
      else if !Passes(EmailFree, form, validateEmail, userExists) then Some(EmailFree)
      else None
  {
    var c4 := [EmailFree];
    var c3 := [PasswordsMatch] + c4;
    var c2 := [PasswordLongEnough] + c3;
    var c1 := [PasswordGiven] + c2;
    assert CheckOrder == [ValidEmail] + c1;
    assert CheckOrder[1..] == c1 && c1[1..] == c2 && c2[1..] == c3 && c3[1..] == c4 && c4[1..] == [];
    assert FirstFailing(c4, form, validateEmail, userExists) ==
      if !Passes(EmailFree, form, validateEmail, userExists) then Some(EmailFree) else None;
    assert FirstFailing(c3, form, validateEmail, userExists) ==
      if !Passes(PasswordsMatch, form, validateEmail, userExists) then Some(PasswordsMatch)
      else FirstFailing(c4, form, validateEmail, userExists);
    assert FirstFailing(c2, form, validateEmail, userExists) ==
      if !Passes(PasswordLongEnough, form, validateEmail, userExists) then Some(PasswordLongEnough)
      else FirstFailing(c3, form, validateEmail, userExists);
    assert FirstFailing(c1, form, validateEmail, userExists) ==
      if !Passes(PasswordGiven, form, validateEmail, userExists) then Some(PasswordGiven)
      else FirstFailing(c2, form, validateEmail, userExists);
  }

  /** Every rejection names exactly one of the three fields. */
  lemma OneFieldPerError(form: JoinForm, validateEmail: FormValue -> bool, userExists: string -> bool)
    requires Guarded(form, validateEmail)
    requires JoinAction(form, validateEmail, userExists).Rejected?
    ensures var e := JoinAction(form, validateEmail, userExists).errors;
      (if e.email.Some? then 1 else 0) + (if e.password.Some? then 1 else 0)
      + (if e.confirmPassword.Some? then 1 else 0) == 1
  {
    JoinFollowsChecks(form, validateEmail, userExists);
    var c :| FirstFailing(CheckOrder, form, validateEmail, userExists) == Some(c);
    var e := ErrorFor(c);
  }

  /** With a valid email, a missing, non-text or empty password is "required", and one of 1 to 7
      characters is "too short". */
  lemma PasswordMessages(form: JoinForm, validateEmail: FormValue -> bool, userExists: string -> bool)
    requires Guarded(form, validateEmail) && validateEmail(form.email)
    ensures (!form.password.Text? || form.password.text == "") ==>
      JoinAction(form, validateEmail, userExists).errors.password == Some("Password is required")
    ensures form.password.Text? && 1 <= |form.password.text| < MinPasswordLength ==>
      JoinAction(form, validateEmail, userExists).errors.password == Some("Password is too short")
  {
  }

  // ---------------------------------------------------------------------------
  // The strength hint of the password field

  datatype Strength = Weak | Moderate | Strong

  function Rank(s: Strength): nat {
    match s
    case Weak => 0
    case Moderate => 1
    case Strong => 2
  }

  /** The hint the password field's `onChange` shows. */
  function PasswordStrength(password: string): (s: Strength)
    ensures s == Weak <==> |password| < 8
    ensures s == Strong <==> |password| >= 12
  {
    if |password| >= 12 then Strong else if |password| >= 8 then Moderate else Weak
  }

  /** A longer password never gets a weaker hint. */
  lemma StrengthMonotone(a: string, b: string)
    requires |a| <= |b|
    ensures Rank(PasswordStrength(a)) <= Rank(PasswordStrength(b))
  {
  }

  /** Every password the action accepts is at least `moderate`. */
  lemma AcceptedNotWeak(form: JoinForm, validateEmail: FormValue -> bool, userExists: string -> bool)
    requires Guarded(form, validateEmail)
    requires JoinAction(form, validateEmail, userExists).CreateUser?
    ensures PasswordStrength(JoinAction(form, validateEmail, userExists).password) != Weak
  {
  }
}
