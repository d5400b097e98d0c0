# Login form and mock session — a Dafny model

This project models the logic behind a small React login demo:

- the two field validators: an e-mail needs an `@`; a password needs more than six characters once it is trimmed;
- the shared per-field reducer (`USER_INPUT`, `INPUT_BLUR` and any other action type) over a `{value, isValid}` record whose validity is `null`, `true` or `false`;
- the form validity `emailIsValid && passwordIsValid`, computed with JavaScript's `&&`, which returns one of its operands;
- the submit decision: log in, focus the e-mail field, or focus the password field;
- the rule that draws an input as invalid;
- the logged-in flag of the application, kept in step with browser storage, and the choice between the login screen and the home screen.

Every piece is a pure function over immutable datatypes:

- `null` is `None` of an `Option<bool>`.
- Storage is a `map<string, string>`.
- UI side effects (moving the focus, calling the login handler) become values of a `SubmitOutcome` datatype.

Modules:

- `Wrappers`: the `Option` datatype.
- `JsLogic`: truthiness over `null`/`true`/`false` and the `&&` operator.
- `JsText`: `String.prototype.includes` and `String.prototype.trim`. `trim` removes the ECMAScript WhiteSpace and LineTerminator characters.
- `Validation`: `isValidEmail` and `isValidPassword`.
- `FieldReducer`: `reducerHelper`, the e-mail and password reducers, their initial states, and sequences of dispatched actions.
- `LoginForm`: the form, its events, the derived form validity and `submitHandler`'s decision.
- `InputMarker`: the invalid-marker condition of the `Input` component.
- `Session`: the logged-in flag of `App`: startup read, login, logout, and view selection.

Two points about the code that are easy to misread:

- The form validity is a three-valued JavaScript value (`null`, `false`, `true`), not a boolean. It is `null` while the e-mail is unchecked, and also while the e-mail is good but the password is unchecked.
- `Login` reads its login callback from the context, not from a prop.

## Model

| member | source | states |
|---|---|---|
| JsLogic.And | src/components/Login/Login.js:104 | `a && b` returns one of its two operands, and the result is truthy exactly when both operands are |
| JsLogic.AndTable | src/components/Login/Login.js:104 | the full value table of `&&` over null/true/false: true iff both are true; null iff the first is null, or the first is true and the second null; false iff the first is false, or the first is true and the second false |
| JsText.Includes | src/components/Login/Login.js:15 | `includes` holds iff the needle occurs as a contiguous slice at some index |
| JsText.IncludesChar | src/components/Login/Login.js:15 | searching for a one-character string holds iff that character is in the string |
| JsText.TrimStart | src/components/Login/Login.js:16 | the result is a suffix of the input; everything dropped is whitespace; the result is empty or starts with non-whitespace |
| JsText.TrimEnd | src/components/Login/Login.js:16 | the result is a prefix of the input; everything dropped is whitespace; the result is empty or ends with non-whitespace |
| JsText.Trim | src/components/Login/Login.js:16 | `trim` returns a tight core (empty, or non-whitespace at both ends) with only whitespace on either side of it in the input |
| JsText.TrimStartSkips | src/components/Login/Login.js:16 | when the text before index i is all whitespace and index i holds non-whitespace (or is the end), TrimStart returns exactly the suffix from i |
| JsText.TrimEndSkips | src/components/Login/Login.js:16 | when the text from index j on is all whitespace and index j-1 holds non-whitespace (or j is 0), TrimEnd returns exactly the prefix up to j |
| JsText.TrimUnique | src/components/Login/Login.js:16 | the trimmed core is unique: any tight core surrounded only by whitespace is what `trim` returns |
| JsText.SurroundsConcat | src/components/Login/Login.js:16 | a core placed between two all-whitespace strings is surrounded, starting right after the left one |
| JsText.SurroundsPadded | src/components/Login/Login.js:16 | whitespace padding keeps a surrounded core surrounded, shifted by the left padding |
| JsText.TrimOfPadded | src/components/Login/Login.js:16 | padding a string whose trim is a given tight core with more whitespace leaves that core as the trim |
| JsText.TrimAbsorbsWhitespace | src/components/Login/Login.js:16 | adding whitespace at either end never changes the result of `trim` |
| JsText.TrimIdempotent | src/components/Login/Login.js:16 | trimming twice gives the same result as trimming once |
| Validation.IsValidEmail | src/components/Login/Login.js:15 | an e-mail is valid iff `@` occurs at some position; nothing else is checked |
| Validation.IsValidPassword | src/components/Login/Login.js:16 | a valid password is longer than six characters; an all-whitespace password is never valid |
| Validation.PasswordCoreLength | src/components/Login/Login.js:16 | for a password made of whitespace around a tight core, the password is valid iff the core is longer than six characters |
| Validation.PasswordIgnoresPadding | src/components/Login/Login.js:16 | leading and trailing whitespace never affect password validity |
| Validation.EmailSamples | src/components/Login/Login.js:15 | "a@" and "a@b.com" are valid e-mails; "noat.com" and "" are not |
| Validation.AtMakesValid | src/components/Login/Login.js:15 | any text with `@` at some position is a valid e-mail |
| Validation.NoAtIsInvalid | src/components/Login/Login.js:15 | "noat.com" is not a valid e-mail |
| Validation.LongEnoughIsValid | src/components/Login/Login.js:16 | "longenough" is a valid password |
| Validation.PaddedSixIsInvalid | src/components/Login/Login.js:16 | "  abcdef  " is not a valid password, since only its six inner characters count |
| Validation.PasswordSamples | src/components/Login/Login.js:16 | "longenough" is a valid password; "short" is not; "  abcdef  " is not, since it trims to six characters |
| FieldReducer.Reduce | src/components/Login/Login.js:18-35 | USER_INPUT stores its payload; INPUT_BLUR keeps the text; after either, validity is the validator's verdict on the text; an action of any other type (a type string other than those two) returns the state unchanged |
| FieldReducer.EmailReducer | src/components/Login/Login.js:37-39 | after a known action, the e-mail field's validity is `isValidEmail` of its text |
| FieldReducer.PasswordReducer | src/components/Login/Login.js:41-43 | after a known action, the password field's validity is `isValidPassword` of its text |
| FieldReducer.InputForgetsHistory | src/components/Login/Login.js:20-24 | the state after USER_INPUT does not depend on the previous state |
| FieldReducer.BlurIdempotent | src/components/Login/Login.js:26-30 | blurring twice is the same as blurring once |
| FieldReducer.BlurOfSettledIsNoOp | src/components/Login/Login.js:26-30 | a blur changes nothing when the field's validity already agrees with its text, as it does right after USER_INPUT |
| FieldReducer.ReduceAll | src/components/Login/Login.js:18-43 | over any action sequence, a field that was unchecked or agreed with its validator stays so; after a known action it agrees with its validator; with only unknown actions it is unchanged |
| FieldReducer.ValueIsLastInput | src/components/Login/Login.js:20-33 | a field's text is the payload of the latest USER_INPUT, or its starting text if there was none |
| FieldReducer.UnknownUntilFirstAction | src/components/Login/Login.js:37-43 | from the initial e-mail and password states `{'', null}`, validity is null iff no USER_INPUT or INPUT_BLUR has been dispatched; otherwise it agrees with that field's validator |
| LoginForm.Step | src/components/Login/Login.js:109-123 | typing stores the text in its field and validates it; leaving a field re-validates the text already there, so leaving an untouched field makes it invalid; the other field is untouched |
| LoginForm.Run | src/components/Login/Login.js:50-60 | every form reachable from the initial state has each field unchecked or agreeing with its validator |
| LoginForm.FormIsValid | src/components/Login/Login.js:100-107 | the form validity is truthy iff both fields are valid, and it is always one of the two field validities |
| LoginForm.FormValidityTable | src/components/Login/Login.js:62-107 | the form validity is true iff both are true; null iff the e-mail is null, or it is true and the password null; false iff the e-mail is false, or it is true and the password false |
| LoginForm.Submit | src/components/Login/Login.js:125-137 | exactly one outcome: Login with the two texts iff both fields are valid; FocusEmail iff the e-mail is null or false; FocusPassword iff the e-mail is true and the password is not |
| LoginForm.SubmitRespectsValidators | src/components/Login/Login.js:125-137 | on reachable forms, a login happens only with texts that pass both validators, and the password gets the focus only when the e-mail passes |
| LoginForm.FreshFormSubmit | src/components/Login/Login.js:62 | a fresh form has null validity, and submitting it focuses the e-mail field |
| LoginForm.FillIn | src/components/Login/Login.js:109-123 | typing into and leaving both fields gives each field its text and its validator's verdict |
| LoginForm.ShortPasswordScenario | src/components/Login/Login.js:125-137 | with e-mail "a@b.com" and password "short", submit focuses the password field |
| LoginForm.ValidLoginScenario | src/components/Login/Login.js:125-137 | with e-mail "a@b.com" and password "longenough", submit logs in with exactly those texts |
| InputMarker.MarkedInvalid | src/components/UI/Input/Input.js:33 | a field is marked only if its validity is strictly false and the form is not valid; every such field is marked |
| InputMarker.EmailMarked | src/components/Login/Login.js:148-149 | the e-mail input, given the e-mail validity and the form validity as props, is marked only when its validity is false and the form is not valid, and always then |
| InputMarker.PasswordMarked | src/components/Login/Login.js:159-160 | the password input, given the password validity and the form validity as props, is marked only when its validity is false and the form is not valid, and always then |
| InputMarker.UnknownNeverMarked | src/components/UI/Input/Input.js:33 | a field with null validity is never marked, because the comparison with false is strict |
| InputMarker.ValidNeverMarked | src/components/UI/Input/Input.js:33 | a field with true validity is never marked |
| InputMarker.ValidFormSuppressesMarkers | src/components/UI/Input/Input.js:33 | once the form is valid, no field is marked, even one with a stale false |
| InputMarker.CurrentValidityMarksFailedFields | src/components/UI/Input/Input.js:33 | when the form validity is derived from the current fields, a field is marked exactly when its validity is false |
| InputMarker.MarkedEmailGetsFocus | src/components/UI/Input/Input.js:33 | a marked e-mail field is the one focused on submit |
| InputMarker.MarkedPasswordBlocksLogin | src/components/UI/Input/Input.js:33 | a marked password field blocks the login; submit focuses one of the fields |
| InputMarker.MissingAtScenario | src/components/UI/Input/Input.js:33 | typing "noat.com" into the e-mail field and leaving it marks the field, and the form cannot log in |
| Session.Mount | src/App.js:9 | the flag starts false, whatever storage holds |
| Session.Startup | src/App.js:31-38 | startup never writes storage; the flag is raised iff the key holds exactly "1", and it is never lowered |
| Session.Boot | src/App.js:9-38 | after startup the flag is true iff storage holds exactly "1" under "isLoggedIn", so flag and storage agree |
| Session.BootLoggedOutUnlessMarker | src/App.js:31-38 | an absent key, or any value other than "1", leaves the app logged out after startup |
| Session.Login | src/App.js:40-45 | login raises the flag and stores "1" under the key; other keys keep their values; flag and storage agree |
| Session.LoginIgnoresCredentials | src/App.js:40-45 | the result of login does not depend on the e-mail or password |
| Session.Logout | src/App.js:47-50 | logout lowers the flag and removes exactly the key; other keys keep their values; flag and storage agree |
| Session.Apply | src/App.js:40-50 | one handler call leaves the flag raised iff it was a login, keeps flag and storage in agreement, and writes no key other than "isLoggedIn" |
| Session.Lifetime | src/App.js:31-50 | after startup and any sequence of logins and logouts, flag and storage agree, and every key other than "isLoggedIn" still holds its value from before startup |
| Session.SessionStaysConsistent | src/App.js:31-50 | after startup and any sequence of logins and logouts, flag and storage agree; the flag is up iff the latest event was a login, or, with no events, iff storage held "1" |
| Session.Shown | src/App.js:56-57 | exactly one screen is shown: Login iff logged out, Home iff logged in |

## Left out

- React rendering, hooks, JSX, CSS class names and `console.log` calls. These are presentation, not logic.
- The lag of the form validity. In the component it is state, set by an effect that runs after the first render and then after any render in which a field's validity changed (src/components/Login/Login.js:103-107). The model derives it from the current field validities. `InputMarker.MarkedInvalid` still takes the form validity as a separate argument, so a stale value can be expressed.
- The commented-out debounce variant (src/components/Login/Login.js:69-98). It is dead code and depends on timers.
- Focus handles and refs (src/components/UI/Input/Input.js:18-28). The model reports `FocusEmail` and `FocusPassword` outcomes instead.
- The login callback wiring. `Login` reads `onLogin` from the context, but the provider in src/App.js:53 supplies only `isLoggedIn`. The prop passed at src/App.js:56 is never read. A `Login` outcome therefore stands for the call the form intends to make. `Session.Login` models the handler on its own.
- Real `localStorage` access. Storage is a map that is passed in and returned.
- src/components/MainHeader/Navigation.js and src/context/auth-context.js. They are conditional rendering and a context default value.
- A `USER_INPUT` action without a payload. The reducer would pass `undefined` to the validator, whose `.includes` or `.trim` call throws a TypeError before any state is returned. The component never sends such an action: its change handlers always pass `event.target.value` (src/components/Login/Login.js:110, 114). Actions are typed, so the model has no such action.
- String length is counted in characters (Unicode scalar values), not in UTF-16 code units. A password with characters outside the Basic Multilingual Plane has a larger JavaScript `length` than the model's length.
- `JsText.IsWhitespace` fixes the Unicode space-separator set as it is today. It does not track later Unicode versions.
- Validation.IsValidPassword: its own contract gives only necessary conditions (more than six characters; not all whitespace). The exact rule is `Validation.PasswordCoreLength`, together with the uniqueness of the trimmed core in `JsText.TrimUnique`.
