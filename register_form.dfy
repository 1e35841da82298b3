/**
 * The registration form (frontend/src/pages/auth/Register.tsx): the two password checks, in
 * their order, and what a submit does to the form's error and loading state. The request's
 * result is a parameter.
 */
module RegisterForm {
  import opened Wrappers

  const MismatchError: string := "Şifreler eşleşmiyor"
  const TooShortError: string := "Şifre en az 8 karakter olmalıdır"
  const RegistrationFailed: string := "Registration failed"
  const GenericFailure: string := "Kayıt başarısız"
  const MinPasswordLength: nat := 8

  /**
   * The checks before any request: the mismatch first, then the length, so a short password
   * that does not match its confirmation is reported as a mismatch.
   */
  function Validate(password: string, confirmPassword: string): (error: Option<string>)
    ensures password != confirmPassword ==> error == Some(MismatchError)
    ensures password == confirmPassword && |password| < MinPasswordLength ==> error == Some(TooShortError)
    ensures error.None? <==> password == confirmPassword && |password| >= MinPasswordLength
  {
    if password != confirmPassword then Some(MismatchError)
    else if |password| < MinPasswordLength then Some(TooShortError)
    else None
  }

  /**
   * What the register request ends in: it threw (with an `Error`'s message, or None for any
   * other thrown value), the server answered not-ok (with the body's `message`, if any), or ok.
   */
  datatype Outcome = Threw(thrown: Option<string>) | NotOk(message: Option<string>) | Ok

  /** The error text a failed request leaves on the form. */
  function ErrorOf(outcome: Outcome): (error: string)
    requires !outcome.Ok?
    ensures outcome.NotOk? ==> error != ""
    ensures outcome.NotOk? && outcome.message.Some? && outcome.message.value != "" ==> error == outcome.message.value
    ensures outcome.NotOk? && (outcome.message.None? || outcome.message.value == "") ==> error == RegistrationFailed
    ensures outcome.Threw? ==> error == outcome.thrown.GetOr(GenericFailure)
  {
    match outcome
    case NotOk(message) => if message.Some? && message.value != "" then message.value else RegistrationFailed
    case Threw(thrown) => thrown.GetOr(GenericFailure)
  }

  class RegisterFormState {
    var email: string
    var password: string
    var confirmPassword: string
    var error: string
    var loading: bool

    constructor ()
      ensures email == "" && password == "" && confirmPassword == "" && error == "" && !loading
    {
      email, password, confirmPassword := "", "", "";
      error := "";
      loading := false;
    }

    /** The three inputs' change handlers. */
    method Edit(email: string, password: string, confirmPassword: string)
      modifies this
      ensures this.email == email && this.password == password && this.confirmPassword == confirmPassword
      ensures error == old(error) && loading == old(loading)
    {
      this.email, this.password, this.confirmPassword := email, password, confirmPassword;
    }

    /**
     * `handleSubmit`. `sent` tells whether the register request was made; `registered` is the
     * email handed to the success callback, if it was called.
     */
    method HandleSubmit(outcome: Outcome) returns (sent: bool, registered: Option<string>)
      modifies this
      ensures email == old(email) && password == old(password) && confirmPassword == old(confirmPassword)
      ensures sent <==> Validate(password, confirmPassword).None?
      ensures !sent ==> error == Validate(password, confirmPassword).value && loading == old(loading)
      ensures !sent ==> registered.None?
      ensures sent ==> !loading
      ensures sent && outcome.Ok? ==> registered == Some(email) && error == ""
      ensures sent && !outcome.Ok? ==> registered.None? && error == ErrorOf(outcome)
    {
      error := "";
      registered := None;
      if password != confirmPassword {
        error := MismatchError;
        return false, None;
      }
      if |password| < MinPasswordLength {
        error := TooShortError;
        return false, None;
      }
      loading := true;
      sent := true;
      if outcome.Ok? {
        registered := Some(email);
      } else {
        error := ErrorOf(outcome);
      }
      loading := false;
    }
  }

  /** A submit that fails for any reason other than a thrown error always leaves an error on the form. */
  lemma FailedSubmitShowsError(password: string, confirmPassword: string, outcome: Outcome)
    requires Validate(password, confirmPassword).Some? || outcome.NotOk?
    ensures Validate(password, confirmPassword).Some? ==> Validate(password, confirmPassword).value != ""
    ensures Validate(password, confirmPassword).None? ==> ErrorOf(outcome) != ""
  {
  }
}
