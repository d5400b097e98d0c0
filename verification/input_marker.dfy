/**
 * When an input field is drawn as invalid: its own validity must be
 * strictly `false` and the form as a whole must not be valid.
 */
module InputMarker {
  import opened Wrappers
  import opened JsLogic
  import opened LoginForm
  import Validation

  /** `isValid === false && !formIsValid`. */
  function MarkedInvalid(isValid: TriBool, formIsValid: TriBool): (r: bool)
    ensures r ==> isValid == Some(false)
    ensures r ==> !Truthy(formIsValid)
    ensures isValid == Some(false) && formIsValid != Some(true) ==> r
  {
    isValid == Some(false) && !Truthy(formIsValid)
  }

  /** A field whose validity is still unknown is never marked: the comparison with `false` is strict. */
  lemma UnknownNeverMarked(formIsValid: TriBool)
    ensures !MarkedInvalid(None, formIsValid)
  {
  }

  /** A field that passed its validator is never marked. */
  lemma ValidNeverMarked(formIsValid: TriBool)
    ensures !MarkedInvalid(Some(true), formIsValid)
  {
  }

  /** Once the form is valid every marker is suppressed, even a stale one. */
  lemma ValidFormSuppressesMarkers(isValid: TriBool)
    ensures !MarkedInvalid(isValid, Some(true))
  {
  }

  /** The e-mail input's marker, given the form validity it was drawn with. */
  function EmailMarked(f: Form, formIsValid: TriBool): (r: bool)
    ensures r ==> f.email.isValid == Some(false) && !Truthy(formIsValid)
    ensures f.email.isValid == Some(false) && !Truthy(formIsValid) ==> r
  {
    MarkedInvalid(f.email.isValid, formIsValid)
  }

  /** The password input's marker, given the form validity it was drawn with. */
  function PasswordMarked(f: Form, formIsValid: TriBool): (r: bool)
    ensures r ==> f.password.isValid == Some(false) && !Truthy(formIsValid)
    ensures f.password.isValid == Some(false) && !Truthy(formIsValid) ==> r
  {
    MarkedInvalid(f.password.isValid, formIsValid)
  }

  /**
   * With the form validity derived from the fields' current validities, the
   * suppression never fires: a field is marked exactly when it failed its
   * validator. Only a stale form validity can hide a failed field.
   */
  lemma CurrentValidityMarksFailedFields(f: Form)
    ensures EmailMarked(f, FormIsValid(f)) <==> f.email.isValid == Some(false)
    ensures PasswordMarked(f, FormIsValid(f)) <==> f.password.isValid == Some(false)
  {
  }

  /** A marked e-mail field is the one that gets the focus on submit. */
  lemma MarkedEmailGetsFocus(f: Form)
    requires EmailMarked(f, FormIsValid(f))
    ensures Submit(f) == FocusEmail
  {
  }

  /** A marked password field blocks the login: submit focuses one of the fields. */
  lemma MarkedPasswordBlocksLogin(f: Form)
    requires PasswordMarked(f, FormIsValid(f))
    ensures Submit(f) == FocusEmail || Submit(f) == FocusPassword
  {
  }

  /** An e-mail without `@`, typed and left: its field is marked and the form cannot be submitted. */
  lemma MissingAtScenario()
    ensures var f := Run([EmailChanged("noat.com"), EmailBlurred]);
            EmailMarked(f, FormIsValid(f)) && !Submit(f).Login?
  {
    var e1, e2 := EmailChanged("noat.com"), EmailBlurred;
    assert [e1, e2][..1] == [e1];
    assert [e1][..0] == [];
    assert Run([e1]) == Step(InitialForm, e1);
    Validation.EmailSamples();
  }
}
