/**
 * The per-field reducer of the login form. Each field keeps its text and a
 * tri-state validity together in one record, and every change goes through
 * one transition function parameterised by the field's validator.
 */
module FieldReducer {
  import opened Wrappers
  import opened JsLogic
  import Validation

  /** One input field: its current text and whether it passed its validator (`None`: not yet checked). */
  datatype FieldState = FieldState(value: string, isValid: TriBool)

  /** An action type string that neither `USER_INPUT` nor `INPUT_BLUR` matches. */
  type OtherKind = k: string | k != "USER_INPUT" && k != "INPUT_BLUR" witness "RESET"

  /**
   * The actions dispatched to a field reducer: `USER_INPUT` carrying the new
   * text, `INPUT_BLUR`, and an action of any other type, named by its type string.
   */
  datatype Action = UserInput(payload: string) | InputBlur | Other(kind: OtherKind)

  /** Both fields start empty and unchecked. */
  const InitialEmailState := FieldState("", None)
  const InitialPasswordState := FieldState("", None)

  /** The field's validity is exactly what its validator says of its current text. */
  predicate Settled(f: FieldState, validate: string -> bool) {
    f.isValid == Some(validate(f.value))
  }

  /** The field has either not been checked yet or is settled. */
  predicate Coherent(f: FieldState, validate: string -> bool) {
    f.isValid == None || Settled(f, validate)
  }

  /**
   * The shared transition. New text replaces the old and is validated
   * straight away; a blur re-validates the text already there; an action of
   * any other type leaves the state as it was.
   */
  function Reduce(state: FieldState, action: Action, validate: string -> bool): (r: FieldState)
    ensures action.UserInput? ==> r.value == action.payload
    ensures action.InputBlur? ==> r.value == state.value
    ensures !action.Other? ==> Settled(r, validate)
    ensures action.Other? ==> r == state
  {
    match action
    case UserInput(payload) => FieldState(payload, Some(validate(payload)))
    case InputBlur => FieldState(state.value, Some(validate(state.value)))
    case Other(_) => state
  }

  /** The e-mail field's reducer. */
  function EmailReducer(state: FieldState, action: Action): (r: FieldState)
    ensures !action.Other? ==> r.isValid == Some(Validation.IsValidEmail(r.value))
  {
    Reduce(state, action, Validation.IsValidEmail)
  }

  /** The password field's reducer. */
  function PasswordReducer(state: FieldState, action: Action): (r: FieldState)
    ensures !action.Other? ==> r.isValid == Some(Validation.IsValidPassword(r.value))
  {
    Reduce(state, action, Validation.IsValidPassword)
  }

  /** New text fixes the next state completely: what the field held before does not matter. */
  lemma InputForgetsHistory(s1: FieldState, s2: FieldState, payload: string, validate: string -> bool)
    ensures Reduce(s1, UserInput(payload), validate) == Reduce(s2, UserInput(payload), validate)
  {
  }

  /** Blurring twice is blurring once. */
  lemma BlurIdempotent(s: FieldState, validate: string -> bool)
    ensures Reduce(Reduce(s, InputBlur, validate), InputBlur, validate) == Reduce(s, InputBlur, validate)
  {
  }

  /** A blur right after new text changes nothing, and neither does a blur of a settled field. */
  lemma BlurOfSettledIsNoOp(s: FieldState, validate: string -> bool)
    requires Settled(s, validate)
    ensures Reduce(s, InputBlur, validate) == s
  {
  }

  /** The states of a field after the actions `actions`, dispatched one by one from `start`. */
  function ReduceAll(start: FieldState, actions: seq<Action>, validate: string -> bool): (r: FieldState)
    ensures Coherent(start, validate) ==> Coherent(r, validate)
    ensures (exists k :: 0 <= k < |actions| && !actions[k].Other?) ==> Settled(r, validate)
    ensures (forall k :: 0 <= k < |actions| ==> actions[k].Other?) ==> r == start
  {
    if |actions| == 0 then start
    else
      var before := ReduceAll(start, actions[..|actions| - 1], validate);
      var last := actions[|actions| - 1];
      assert forall k :: 0 <= k < |actions| - 1 ==> actions[..|actions| - 1][k] == actions[k];
      Reduce(before, last, validate)
  }

  /** The text a field shows after `actions`: the payload of the last `USER_INPUT`, else `start`. */
  function LastInput(start: string, actions: seq<Action>): string {
    if |actions| == 0 then start
    else if actions[|actions| - 1].UserInput? then actions[|actions| - 1].payload
    else LastInput(start, actions[..|actions| - 1])
  }

  /** A field's text is always that of the latest `USER_INPUT`; blurs and other actions never alter it. */
  lemma {:induction false} ValueIsLastInput(start: FieldState, actions: seq<Action>, validate: string -> bool)
    ensures ReduceAll(start, actions, validate).value == LastInput(start.value, actions)
  {
    if |actions| > 0 {
      ValueIsLastInput(start, actions[..|actions| - 1], validate);
    }
  }

  /**
   * From the initial state, validity is unknown exactly until the first
   * `USER_INPUT` or `INPUT_BLUR`; from then on it is the validator's verdict
   * on the current text.
   */
  lemma UnknownUntilFirstAction(actions: seq<Action>)
    ensures ReduceAll(InitialEmailState, actions, Validation.IsValidEmail).isValid == None
        <==> forall k :: 0 <= k < |actions| ==> actions[k].Other?
    ensures Coherent(ReduceAll(InitialEmailState, actions, Validation.IsValidEmail), Validation.IsValidEmail)
    ensures ReduceAll(InitialPasswordState, actions, Validation.IsValidPassword).isValid == None
        <==> forall k :: 0 <= k < |actions| ==> actions[k].Other?
    ensures Coherent(ReduceAll(InitialPasswordState, actions, Validation.IsValidPassword), Validation.IsValidPassword)
  {
  }
}
