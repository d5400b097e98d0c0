/**
 * The login form: two fields, the derived form validity and the decision
 * taken on submit. The validity flag is derived from the fields' current
 * validities rather than stored, and focusing a field is a reported outcome.
 */
module LoginForm {
  import opened Wrappers
  import opened JsLogic
  import opened FieldReducer
  import Validation

  datatype Form = Form(email: FieldState, password: FieldState)

  const InitialForm := Form(InitialEmailState, InitialPasswordState)

  /** The user's interactions with the form: typing into a field or leaving it. */
  datatype FormEvent = EmailChanged(text: string) | EmailBlurred | PasswordChanged(text: string) | PasswordBlurred

  /** Each event dispatches one action to the reducer of the field it concerns. */
  function Step(f: Form, e: FormEvent): (r: Form)
    ensures e.EmailChanged? ==> r.email.value == e.text && Settled(r.email, Validation.IsValidEmail)
    ensures e.EmailBlurred? ==> r.email.value == f.email.value && Settled(r.email, Validation.IsValidEmail)
    ensures e.PasswordChanged? ==> r.password.value == e.text && Settled(r.password, Validation.IsValidPassword)
    ensures e.PasswordBlurred? ==> r.password.value == f.password.value && Settled(r.password, Validation.IsValidPassword)
    ensures (e.EmailChanged? || e.EmailBlurred?) ==> r.password == f.password
    ensures (e.PasswordChanged? || e.PasswordBlurred?) ==> r.email == f.email
  {
    match e
    case EmailChanged(text) => f.(email := EmailReducer(f.email, UserInput(text)))
    case EmailBlurred => f.(email := EmailReducer(f.email, InputBlur))
    case PasswordChanged(text) => f.(password := PasswordReducer(f.password, UserInput(text)))
    case PasswordBlurred => f.(password := PasswordReducer(f.password, InputBlur))
  }

  /** Both fields are unchecked or agree with their validators. */
  predicate FormCoherent(f: Form) {
    Coherent(f.email, Validation.IsValidEmail) && Coherent(f.password, Validation.IsValidPassword)
  }

  /** The form after the events `events`, one by one, from a fresh form; every such form is coherent. */
  function Run(events: seq<FormEvent>): (r: Form)
    ensures FormCoherent(r)
  {
    if |events| == 0 then InitialForm
    else
      var before := Run(events[..|events| - 1]);
      StepKeepsCoherent(before, events[|events| - 1]);
      Step(before, events[|events| - 1])
  }

  /** Every event keeps a coherent form coherent. */
  lemma StepKeepsCoherent(f: Form, e: FormEvent)
    requires FormCoherent(f)
    ensures FormCoherent(Step(f, e))
  {
    match e
    case EmailChanged(_) =>
    case EmailBlurred =>
    case PasswordChanged(_) =>
    case PasswordBlurred =>
  }

  /** `emailIsValid && passwordIsValid`: `null`, `false` or `true`. */
  function FormIsValid(f: Form): (r: TriBool)
    ensures Truthy(r) <==> Truthy(f.email.isValid) && Truthy(f.password.isValid)
    ensures r == f.email.isValid || r == f.password.isValid
  {
    And(f.email.isValid, f.password.isValid)
  }

  /**
   * The form validity as a value: `true` iff both fields are; `null` while
   * the e-mail is unchecked, or the e-mail is good and the password
   * unchecked; `false` once the e-mail, or else the password, failed.
   */
  lemma FormValidityTable(f: Form)
    ensures FormIsValid(f) == Some(true) <==> f.email.isValid == Some(true) && f.password.isValid == Some(true)
    ensures FormIsValid(f) == None <==> f.email.isValid == None || (f.email.isValid == Some(true) && f.password.isValid == None)
    ensures FormIsValid(f) == Some(false) <==>
            f.email.isValid == Some(false) || (f.email.isValid == Some(true) && f.password.isValid == Some(false))
  {
    AndTable(f.email.isValid, f.password.isValid);
  }

  /** What submitting the form does: log in with the two texts, or move the focus to a field. */
  datatype SubmitOutcome = Login(email: string, password: string) | FocusEmail | FocusPassword

  /**
   * The submit decision: log in when the form is valid; otherwise focus the
   * e-mail field unless it is valid, and the password field if it is.
   */
  function Submit(f: Form): (r: SubmitOutcome)
    ensures r.Login? <==> Truthy(f.email.isValid) && Truthy(f.password.isValid)
    ensures r.Login? ==> r.email == f.email.value && r.password == f.password.value
    ensures r.FocusEmail? <==> !Truthy(f.email.isValid)
    ensures r.FocusPassword? <==> Truthy(f.email.isValid) && !Truthy(f.password.isValid)
  {
    if Truthy(FormIsValid(f)) then Login(f.email.value, f.password.value)
    else if !Truthy(f.email.isValid) then FocusEmail
    else FocusPassword
  }

  /**
   * On any form the user can reach, a login happens only with an e-mail and
   * a password that pass their validators, and the password field gets the
   * focus only when the e-mail passes.
   */
  lemma SubmitRespectsValidators(events: seq<FormEvent>)
    ensures Submit(Run(events)).Login? ==>
      Validation.IsValidEmail(Run(events).email.value) && Validation.IsValidPassword(Run(events).password.value)
    ensures Submit(Run(events)).FocusPassword? ==>
      Validation.IsValidEmail(Run(events).email.value) && !(Run(events).password.isValid == Some(true))
  {
  }

  /** A fresh form has unknown validity, and submitting it focuses the e-mail field. */
  lemma FreshFormSubmit()
    ensures FormIsValid(InitialForm) == None
    ensures Submit(InitialForm) == FocusEmail
  {
  }

  /** The form after typing and leaving the e-mail, then typing and leaving the password. */
  lemma FillIn(email: string, password: string)
    ensures Run([EmailChanged(email), EmailBlurred, PasswordChanged(password), PasswordBlurred])
         == Form(FieldState(email, Some(Validation.IsValidEmail(email))),
                 FieldState(password, Some(Validation.IsValidPassword(password))))
  {
    var e1, e2, e3, e4 := EmailChanged(email), EmailBlurred, PasswordChanged(password), PasswordBlurred;
    var ev := [e1, e2, e3, e4];
    assert ev[..3] == [e1, e2, e3] && ev[3] == e4;
    assert [e1, e2, e3][..2] == [e1, e2];
    assert [e1, e2][..1] == [e1];
    assert [e1][..0] == [];
    var f1 := Step(InitialForm, e1);
    assert Run([e1]) == f1;
    var f2 := Step(f1, e2);
    assert Run([e1, e2]) == f2;
    var f3 := Step(f2, e3);
    assert Run([e1, e2, e3]) == f3;
  }

  /** Good e-mail, short password: no login, the focus goes to the password. */
  lemma ShortPasswordScenario()
    ensures Submit(Run([EmailChanged("a@b.com"), EmailBlurred, PasswordChanged("short"), PasswordBlurred])) == FocusPassword
  {
    FillIn("a@b.com", "short");
    Validation.EmailSamples();
    Validation.PasswordSamples();
  }

  /** Good e-mail, long enough password: the login receives exactly the typed texts. */
  lemma ValidLoginScenario()
    ensures Submit(Run([EmailChanged("a@b.com"), EmailBlurred, PasswordChanged("longenough"), PasswordBlurred]))
         == Login("a@b.com", "longenough")
  {
    FillIn("a@b.com", "longenough");
    Validation.EmailSamples();
    Validation.PasswordSamples();
  }
}
