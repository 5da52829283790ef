/**
 * The sign-up page of the browser: its hand-written `useMutation` hook (a
 * status machine idle -> loading -> success or error, with reset), the mock
 * `mutationFn` that decides the outcome from the three form fields, the field
 * errors read from the thrown error, and the redirects to `/home`.
 */
module SignupPage {
  import opened Wrappers

  /** The hook's `status`. */
  datatype Status = Idle | Loading | Error | Success

  /** `errors`: one optional list of messages per field. */
  datatype ValidationError = ValidationError(username: Option<seq<string>>, email: Option<seq<string>>, password: Option<seq<string>>)

  /** The thrown value's `response.data`: a general message and/or validation errors. */
  datatype SignupError = SignupError(message: Option<string>, errors: Option<ValidationError>)

  /** What `mutationFn` does: resolve with the auth data or throw an error. */
  datatype Outcome = Resolved(token: string, userId: string) | Thrown(error: SignupError)

  const FailErrors: ValidationError :=
    ValidationError(Some(["Username 'fail' is already taken."]), None, Some(["Password is too common."]))

  /**
   * The mock `mutationFn`: the username "fail" is refused with username and
   * password errors; otherwise three non-empty fields succeed; anything else
   * throws "Internal server error." with no field errors.
   */
  function MockOutcome(username: string, email: string, password: string): (r: Outcome)
    ensures r.Resolved? <==> username != "fail" && username != "" && email != "" && password != ""
    ensures r.Resolved? ==> r == Resolved("fake-jwt", "user-456")
    ensures username == "fail" ==> r == Thrown(SignupError(None, Some(FailErrors)))
    ensures username != "fail" && r.Thrown? ==> r == Thrown(SignupError(Some("Internal server error."), None))
  {
    if username == "fail" then Thrown(SignupError(None, Some(FailErrors)))
    else if username != "" && email != "" && password != "" then Resolved("fake-jwt", "user-456")
    else Thrown(SignupError(Some("Internal server error."), None))
  }

  /** The messages shown under one field: none when the list is absent. */
  function Messages(m: Option<seq<string>>): (r: seq<string>)
    ensures m.None? ==> r == []
    ensures m.Some? ==> r == m.value
  {
    if m.Some? then m.value else []
  }

  /** The three fields' messages read from `error?.response?.data?.errors || {}`. */
  datatype Shown = Shown(username: seq<string>, email: seq<string>, password: seq<string>)

  function FieldErrors(error: Option<SignupError>): (r: Shown)
    ensures error.None? || error.value.errors.None? ==> r == Shown([], [], [])
    ensures error.Some? && error.value.errors.Some? ==>
      r == Shown(Messages(error.value.errors.value.username), Messages(error.value.errors.value.email),
                 Messages(error.value.errors.value.password))
  {
    if error.Some? && error.value.errors.Some? then
      var v := error.value.errors.value;
      Shown(Messages(v.username), Messages(v.email), Messages(v.password))
    else Shown([], [], [])
  }

  /** The number of keys of `errors || {}`: the fields that carry a list. */
  function ErrorKeyCount(error: Option<SignupError>): (n: nat)
    ensures n <= 3
    ensures error.None? || error.value.errors.None? ==> n == 0
  {
    if error.Some? && error.value.errors.Some? then
      var v := error.value.errors.value;
      (if v.username.Some? then 1 else 0) + (if v.email.Some? then 1 else 0) + (if v.password.Some? then 1 else 0)
    else 0
  }

  /** The heading turns red exactly when the error carries validation errors. */
  predicate HeadingAlarmed(error: Option<SignupError>)
  {
    error.Some? && ErrorKeyCount(error) > 0
  }

  /** The submit button is disabled while the request is in flight. */
  predicate SubmitDisabled(status: Status)
  {
    status == Loading
  }

  /** The first render's redirect: an authenticated visitor goes to `/home` and sees no form. */
  function RedirectOnRender(isAuthenticated: bool): (r: Option<string>)
    ensures r.Some? <==> isAuthenticated
    ensures r.Some? ==> r.value == "/home"
  {
    if isAuthenticated then Some("/home") else None
  }

  /** The page's state: the form fields, the hook's `status` and `error`, and the title. */
  class SignupForm {
    var username: string
    var email: string
    var password: string
    var showPass: bool
    var status: Status
    var error: Option<SignupError>
    var title: string

    /** An error is stored exactly in the error status. */
    predicate Valid()
      reads this
    {
      status == Error <==> error.Some?
    }

    /** Mounting: empty fields, idle, no error, the page's title. */
    constructor ()
      ensures Valid()
      ensures username == "" && email == "" && password == "" && !showPass
      ensures status == Idle && error.None? && title == "Reddot | Signup"
    {
      username, email, password := "", "", "";
      showPass := false;
      status, error := Idle, None;
      title := "Reddot | Signup";
    }

    /** Typing into a field changes only that field: errors stay visible while typing. */
    method EditUsername(value: string)
      modifies this
      ensures username == value && email == old(email) && password == old(password)
      ensures status == old(status) && error == old(error) && showPass == old(showPass) && title == old(title)
    {
      username := value;
    }

    method EditEmail(value: string)
      modifies this
      ensures email == value && username == old(username) && password == old(password)
      ensures status == old(status) && error == old(error) && showPass == old(showPass) && title == old(title)
    {
      email := value;
    }

    method EditPassword(value: string)
      modifies this
      ensures password == value && username == old(username) && email == old(email)
      ensures status == old(status) && error == old(error) && showPass == old(showPass) && title == old(title)
    {
      password := value;
    }

    /** The eye icon shows or hides the password. */
    method TogglePass()
      modifies this
      ensures showPass == !old(showPass)
      ensures username == old(username) && email == old(email) && password == old(password)
      ensures status == old(status) && error == old(error) && title == old(title)
    {
      showPass := !showPass;
    }

    /** The synchronous start of `mutate`: loading, error cleared. */
    method Begin()
      modifies this
      ensures status == Loading && error.None? && Valid()
      ensures username == old(username) && email == old(email) && password == old(password)
      ensures showPass == old(showPass) && title == old(title)
    {
      status := Loading;
      error := None;
    }

    /**
     * The awaited end of `mutate`: success, then `onSuccess` navigates to
     * `/home`; or error, storing what was thrown. The error is not cleared on
     * success: `Begin` already cleared it.
     */
    method Resolve(outcome: Outcome) returns (navigateTo: Option<string>)
      modifies this
      ensures outcome.Resolved? ==> status == Success && error == old(error) && navigateTo == Some("/home")
      ensures outcome.Thrown? ==> status == Error && error == Some(outcome.error) && navigateTo.None?
      ensures outcome.Thrown? || old(error).None? ==> Valid()
      ensures username == old(username) && email == old(email) && password == old(password)
      ensures showPass == old(showPass) && title == old(title)
    {
      match outcome
      case Resolved(_, _) =>
        status := Success;
        navigateTo := Some("/home");
      case Thrown(e) =>
        status := Error;
        error := Some(e);
        navigateTo := None;
    }

    /** `handleSubmit`: `mutate()` with the mock `mutationFn` over the current fields. */
    method Submit() returns (navigateTo: Option<string>)
      modifies this
      ensures Valid()
      ensures var o := MockOutcome(old(username), old(email), old(password));
        (o.Resolved? ==> status == Success && error.None? && navigateTo == Some("/home"))
        && (o.Thrown? ==> status == Error && error == Some(o.error) && navigateTo.None?)
      ensures username == old(username) && email == old(email) && password == old(password)
      ensures showPass == old(showPass) && title == old(title)
    {
      Begin();
      navigateTo := Resolve(MockOutcome(username, email, password));
    }

    /** `reset`: back to idle with no error. */
    method Reset()
      modifies this
      ensures status == Idle && error.None? && Valid()
      ensures username == old(username) && email == old(email) && password == old(password)
      ensures showPass == old(showPass) && title == old(title)
    {
      status := Idle;
      error := None;
    }

    /** Leaving the page resets the title. */
    method Unmount()
      modifies this
      ensures title == "Reddot" && status == old(status) && error == old(error)
      ensures username == old(username) && email == old(email) && password == old(password)
      ensures showPass == old(showPass)
    {
      title := "Reddot";
    }
  }

  /** The status `mutate` ends in, as a function of the fields. */
  function SubmitStatus(username: string, email: string, password: string): (s: Status)
    ensures s == Success || s == Error
  {
    if MockOutcome(username, email, password).Resolved? then Success else Error
  }

  /** The error `mutate` leaves behind. */
  function SubmitError(username: string, email: string, password: string): (e: Option<SignupError>)
    ensures e.Some? <==> SubmitStatus(username, email, password) == Error
  {
    var o := MockOutcome(username, email, password);
    if o.Thrown? then Some(o.error) else None
  }

  /** Signing up as "fail" shows the username and password errors, none under email, and a red heading. */
  lemma FailShowsFieldErrors(email: string, password: string)
    ensures SubmitStatus("fail", email, password) == Error
    ensures FieldErrors(SubmitError("fail", email, password))
      == Shown(["Username 'fail' is already taken."], [], ["Password is too common."])
    ensures HeadingAlarmed(SubmitError("fail", email, password))
  {
  }

  /** The fallback error carries no field errors: nothing is shown under the fields and the heading stays calm. */
  lemma FallbackShowsNoFieldErrors(username: string, email: string, password: string)
    requires username != "fail"
    requires username == "" || email == "" || password == ""
    ensures SubmitStatus(username, email, password) == Error
    ensures SubmitError(username, email, password).value.message == Some("Internal server error.")
    ensures FieldErrors(SubmitError(username, email, password)) == Shown([], [], [])
    ensures !HeadingAlarmed(SubmitError(username, email, password))
  {
  }

  /** The heading is red exactly when some field shows a message list, and never without an error. */
  lemma HeadingAlarmedIff(error: Option<SignupError>)
    ensures HeadingAlarmed(error) <==>
      error.Some? && error.value.errors.Some? &&
      (error.value.errors.value.username.Some? || error.value.errors.value.email.Some? || error.value.errors.value.password.Some?)
    ensures error.None? ==> !HeadingAlarmed(error) && FieldErrors(error) == Shown([], [], [])
  {
  }

  /**
   * In a form that keeps its invariant, the button is disabled exactly while
   * loading, and then no field error and no red heading are shown; field errors
   * appear only in the error status.
   */
  lemma LoadingDisablesSubmit(status: Status, error: Option<SignupError>)
    requires status == Error <==> error.Some?
    ensures SubmitDisabled(status) <==> status == Loading
    ensures status == Loading ==> FieldErrors(error) == Shown([], [], []) && !HeadingAlarmed(error)
    ensures FieldErrors(error) != Shown([], [], []) ==> status == Error && !SubmitDisabled(status)
  {
  }

  /** Success navigates to `/home`, the same place an already-authenticated visitor is sent. */
  lemma SuccessAndRedirectAgree(username: string, email: string, password: string)
    requires SubmitStatus(username, email, password) == Success
    ensures username != "fail" && username != "" && email != "" && password != ""
    ensures SubmitError(username, email, password).None?
    ensures RedirectOnRender(true) == Some("/home")
  {
  }
}
