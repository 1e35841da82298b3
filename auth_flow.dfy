/**
 * The authentication screen (frontend/src/Auth.tsx): which of the login, register and verify
 * views is shown, and the email the verify view is given. The switch links are synchronous
 * clicks that exist only while their view is shown. A successful registration or verification
 * is reported after a request completes, and the screen's handlers stay live, so that report
 * may arrive after the user has already left the view that sent the request.
 */
module AuthFlow {
  import opened Wrappers

  datatype View = Login | Register | Verify

  datatype State = State(view: View, pendingEmail: string)

  const Initial: State := State(Login, "")

  /** The callbacks the three views can call. */
  datatype Event =
    | SwitchToRegister           // Login's `onSwitchToRegister`
    | SwitchToLogin              // Register's `onSwitchToLogin`
    | RegistrationSucceeded(email: string)  // Register's `onRegistrationSuccess`, after its request
    | Verified                   // Verify's `onVerified`, after its request
    | Back                       // Verify's `onBack`

  /** A synchronous click on a link of the view shown (as opposed to a request completing). */
  predicate IsClick(e: Event) {
    !e.RegistrationSucceeded? && !e.Verified?
  }

  /**
   * Whether the callback can happen while `view` is shown: a click only in the view that holds
   * its link, a completed request in any view.
   */
  predicate Enabled(view: View, e: Event) {
    match e
    case SwitchToRegister => view == Login
    case SwitchToLogin => view == Register
    case Back => view == Verify
    case RegistrationSucceeded(_) | Verified => true
  }

  /** One callback. */
  function Step(s: State, e: Event): (t: State)
    requires Enabled(s.view, e)
    ensures t.pendingEmail != s.pendingEmail ==> e.RegistrationSucceeded?
    ensures t.view == Verify <==> e.RegistrationSucceeded?
    ensures e.RegistrationSucceeded? ==> t == State(Verify, e.email)
    ensures e.Verified? ==> t == s.(view := Login)
  {
    match e
    case SwitchToRegister => s.(view := Register)
    case SwitchToLogin => s.(view := Login)
    case RegistrationSucceeded(email) => State(Verify, email)
    case Verified => s.(view := Login)
    case Back => s.(view := Register)
  }

  /** No click leads from the login view straight to the verify view. */
  lemma NoClickFromLoginToVerify(s: State, e: Event)
    requires s.view == Login && Enabled(s.view, e) && IsClick(e)
    ensures Step(s, e).view != Verify
  {
  }

  /**
   * Whatever callbacks came before, a completed request is taken in the view then shown: a
   * registration opens the verify view with its email, and a verification opens the login view
   * and keeps the pending email.
   */
  lemma CompletionInAnyView(s0: State, events: seq<Event>, email: string)
    requires Run(s0, events).Some?
    ensures Run(s0, events + [RegistrationSucceeded(email)]) == Some(State(Verify, email))
    ensures Run(s0, events + [Verified]) == Some(Run(s0, events).value.(view := Login))
  {
    assert (events + [RegistrationSucceeded(email)])[..|events|] == events;
    assert (events + [Verified])[..|events|] == events;
  }

  /**
   * Illustration of `CompletionInAnyView`: a registration that completes after the user went
   * back to the login view still opens the verify view, with that email, so login is followed
   * directly by verify.
   */
  lemma LateRegistrationFromLogin(email: string)
    ensures Run(Initial, [SwitchToRegister, SwitchToLogin]) == Some(State(Login, ""))
    ensures Run(Initial, [SwitchToRegister, SwitchToLogin, RegistrationSucceeded(email)]) ==
            Some(State(Verify, email))
  {
    var events := [SwitchToRegister, SwitchToLogin, RegistrationSucceeded(email)];
    assert events[..2] == [SwitchToRegister, SwitchToLogin];
    assert events[..2][..1] == [SwitchToRegister];
    assert events[..2][..1][..0] == [];
  }

  /**
   * Illustration of `CompletionInAnyView`: a verification that completes after the user went
   * back to the register view still switches to the login view.
   */
  lemma LateVerificationFromRegister(email: string)
    ensures Run(Initial, [SwitchToRegister, RegistrationSucceeded(email), Back]) == Some(State(Register, email))
    ensures Run(Initial, [SwitchToRegister, RegistrationSucceeded(email), Back, Verified]) ==
            Some(State(Login, email))
  {
    var events := [SwitchToRegister, RegistrationSucceeded(email), Back, Verified];
    assert events[..3] == [SwitchToRegister, RegistrationSucceeded(email), Back];
    assert events[..3][..2] == [SwitchToRegister, RegistrationSucceeded(email)];
    assert events[..3][..2][..1] == [SwitchToRegister];
    assert events[..3][..2][..1][..0] == [];
    assert Run(Initial, [SwitchToRegister]) == Some(State(Register, ""));
    assert Run(Initial, [SwitchToRegister, RegistrationSucceeded(email)]) == Some(State(Verify, email));
  }

  /** A sequence of callbacks from `s0`; None if one of them is a click on a link the view then shown lacks. */
  function Run(s0: State, events: seq<Event>): Option<State>
    decreases |events|
  {
    if events == [] then Some(s0)
    else
      match Run(s0, events[..|events| - 1])
      case None => None
      case Some(s) =>
        var e := events[|events| - 1];
        if Enabled(s.view, e) then Some(Step(s, e)) else None
  }

  /** The email of the latest registration among `events`, or `initial` if there is none. */
  function LastRegistered(initial: string, events: seq<Event>): string
    decreases |events|
  {
    if events == [] then initial
    else if events[|events| - 1].RegistrationSucceeded? then events[|events| - 1].email
    else LastRegistered(initial, events[..|events| - 1])
  }

  /** The verify view is always given the email of the latest successful registration. */
  lemma {:induction false} PendingIsLatest(s0: State, events: seq<Event>)
    requires Run(s0, events).Some?
    ensures Run(s0, events).value.pendingEmail == LastRegistered(s0.pendingEmail, events)
    decreases |events|
  {
    if events != [] {
      PendingIsLatest(s0, events[..|events| - 1]);
    }
  }

  /** Reaching the verify view from elsewhere, the last callback was the registration of the pending email. */
  lemma {:induction false} VerifyReachedByRegistration(s0: State, events: seq<Event>)
    requires s0.view != Verify && Run(s0, events).Some? && Run(s0, events).value.view == Verify
    ensures |events| > 0 && events[|events| - 1] == RegistrationSucceeded(Run(s0, events).value.pendingEmail)
  {
  }

  class AuthScreen {
    var view: View
    var pendingEmail: string

    function Current(): State
      reads this
    {
      State(view, pendingEmail)
    }

    constructor ()
      ensures Current() == Initial
    {
      view := Login;
      pendingEmail := "";
    }

    /** Login's switch link. */
    method SwitchToRegisterView()
      requires view == Login
      modifies this
      ensures Current() == Step(old(Current()), SwitchToRegister)
    {
      view := Register;
    }

    /** Register's switch link. */
    method SwitchToLoginView()
      requires view == Register
      modifies this
      ensures Current() == Step(old(Current()), SwitchToLogin)
    {
      view := Login;
    }

    /** `handleRegistrationSuccess`, in whichever view is shown when the request completes. */
    method HandleRegistrationSuccess(email: string)
      modifies this
      ensures Current() == Step(old(Current()), RegistrationSucceeded(email))
      ensures view == Verify && pendingEmail == email
    {
      pendingEmail := email;
      view := Verify;
    }

    /** `handleVerificationSuccess`, in whichever view is shown when the request completes. */
    method HandleVerificationSuccess()
      modifies this
      ensures Current() == Step(old(Current()), Verified)
      ensures view == Login && pendingEmail == old(pendingEmail)
    {
      view := Login;
    }

    /** Verify's back link. */
    method GoBack()
      requires view == Verify
      modifies this
      ensures Current() == Step(old(Current()), Back)
      ensures view == Register && pendingEmail == old(pendingEmail)
    {
      view := Register;
    }
  }
}
