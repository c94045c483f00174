/**
 * `LoginForm` (src/components/auth/LoginForm.tsx): the double-submit guard,
 * the choice of the text shown after a failed sign-in, and the condition
 * under which a signed-in visitor is sent home. The sign-in call and the
 * navigation call are given by how they settled.
 */
module LoginForm {
  import opened Options
  import opened Strings
  import opened FirebaseErrors

  /** A thrown value: an `Error` with its message, or anything else. */
  datatype Thrown = ErrorObject(message: string) | NonError

  /** How an awaited call settled. */
  datatype Settled = Done | Threw(thrown: Thrown)

  const OpenerPolicyLoginText: string :=
    "Browser security policy is blocking the login. Please check your browser settings."
  const BlockedLoginText: string :=
    "Login blocked by security software. Please check your ad blocker or security extensions."
  const InvalidCredentialsText: string := "Invalid email or password"

  /**
   * The text shown for a failed submit: the opener-policy text, then the
   * blocked-connection text, then the error's own message; a thrown
   * non-`Error` gets the generic credentials text.
   */
  function LoginErrorMessage(t: Thrown): (text: string)
    ensures t.NonError? ==> text == InvalidCredentialsText
    ensures t.ErrorObject? && Contains(t.message, OpenerPolicyMarker) ==> text == OpenerPolicyLoginText
    ensures t.ErrorObject? && !Contains(t.message, OpenerPolicyMarker) && Contains(t.message, BlockedMarker) ==>
              text == BlockedLoginText
    ensures t.ErrorObject? && !Contains(t.message, OpenerPolicyMarker) && !Contains(t.message, BlockedMarker) ==>
              text == t.message
  {
    match t
    case NonError => InvalidCredentialsText
    case ErrorObject(message) =>
      if Contains(message, OpenerPolicyMarker) then OpenerPolicyLoginText
      else if Contains(message, BlockedMarker) then BlockedLoginText
      else message
  }

  /** The opener-policy test comes first: a message with both markers gets the opener-policy text. */
  lemma OpenerPolicyBeforeBlocked(a: string, b: string)
    ensures LoginErrorMessage(ErrorObject(OpenerPolicyMarker + a + BlockedMarker + b)) == OpenerPolicyLoginText
  {
    ContainsSelf(OpenerPolicyMarker);
    ContainsInConcat(OpenerPolicyMarker, a + BlockedMarker + b, OpenerPolicyMarker);
    assert OpenerPolicyMarker + a + BlockedMarker + b == OpenerPolicyMarker + (a + BlockedMarker + b);
  }

  /** A message is shown verbatim exactly when it carries neither marker, or it is one of the two fixed texts. */
  lemma VerbatimMessage(m: string)
    ensures LoginErrorMessage(ErrorObject(m)) == m <==>
              (!Contains(m, OpenerPolicyMarker) && !Contains(m, BlockedMarker))
              || (Contains(m, OpenerPolicyMarker) && m == OpenerPolicyLoginText)
              || (!Contains(m, OpenerPolicyMarker) && Contains(m, BlockedMarker) && m == BlockedLoginText)
  {
  }

  /** The form's own state. */
  datatype Form = Form(isSubmitting: bool, error: Option<string>)

  /** The calls a submit makes, in order. */
  datatype Call = EmailLogin(email: string, password: string) | ReplaceHome

  /** The form after a submit, and the calls it made. */
  datatype Submitted = Submitted(form: Form, calls: seq<Call>)

  /**
   * `handleSubmit`. While submitting or while the guard is navigating it does
   * nothing. Otherwise it clears the error, signs in, and on success asks the
   * guard to replace the route with "/". A failure of either call is shown
   * through `LoginErrorMessage`; the submitting flag is false afterwards on
   * every path.
   */
  function HandleSubmit(f: Form, isNavigating: bool, email: string, password: string,
                        login: Settled, navigation: Settled): (r: Submitted)
    ensures f.isSubmitting || isNavigating ==> r == Submitted(f, [])
    ensures !(f.isSubmitting || isNavigating) ==> !r.form.isSubmitting
    ensures !(f.isSubmitting || isNavigating) ==> |r.calls| >= 1 && r.calls[0] == EmailLogin(email, password)
    ensures ReplaceHome in r.calls <==> !(f.isSubmitting || isNavigating) && login.Done?
    ensures !(f.isSubmitting || isNavigating) ==>
              (r.form.error.None? <==> login.Done? && navigation.Done?)
  {
    if f.isSubmitting || isNavigating then Submitted(f, [])
    else
      var login1 := [EmailLogin(email, password)];
      match login
      case Threw(t) => Submitted(Form(false, Some(LoginErrorMessage(t))), login1)
      case Done =>
        match navigation
        case Threw(t) => Submitted(Form(false, Some(LoginErrorMessage(t))), login1 + [ReplaceHome])
        case Done => Submitted(Form(false, None), login1 + [ReplaceHome])
  }

  /** A failed submit shows the text chosen for what was thrown first. */
  lemma FailedSubmitShowsMessage(f: Form, email: string, password: string, login: Settled, navigation: Settled)
    requires !f.isSubmitting
    ensures login.Threw? ==>
              HandleSubmit(f, false, email, password, login, navigation).form.error ==
                Some(LoginErrorMessage(login.thrown))
    ensures login.Done? && navigation.Threw? ==>
              HandleSubmit(f, false, email, password, login, navigation).form.error ==
                Some(LoginErrorMessage(navigation.thrown))
  {
  }

  /** What the component renders for the authentication state. */
  datatype View = Spinner | Nothing | LoginFields

  /** Loading shows a spinner; a signed-in visitor sees nothing; everyone else sees the form. */
  function Render(hasUser: bool, loading: bool): (v: View)
    ensures v == LoginFields <==> !hasUser && !loading
  {
    if loading then Spinner else if hasUser then Nothing else LoginFields
  }

  /** The calls the redirect effect makes: `replaceTo("/")` once the user is known and no navigation runs. */
  function RedirectEffect(hasUser: bool, loading: bool, isNavigating: bool): (calls: seq<Call>)
    ensures calls == [] || calls == [ReplaceHome]
    ensures calls == [ReplaceHome] <==> hasUser && !loading && !isNavigating
  {
    if hasUser && !loading && !isNavigating then [ReplaceHome] else []
  }

  /** The redirect fires only while the form is hidden, so it never races a visible form. */
  lemma RedirectOnlyWhenHidden(hasUser: bool, loading: bool, isNavigating: bool)
    requires RedirectEffect(hasUser, loading, isNavigating) != []
    ensures Render(hasUser, loading) == Nothing
  {
  }
}
