/**
 * The sign-in page (src/app/auth/signin/page.tsx): the client-side checks on
 * the credentials, the call to the credentials provider, and what the page
 * shows and where it goes for each outcome. The provider's answer is a
 * parameter.
 */
module SignIn {
  import opened Wrappers
  import opened Text

  const AllowedDomain := "@redefinesolutions.com"

  const FillAllFields := "Please fill in all fields"
  const DomainOnly := "Only @redefinesolutions.com email addresses are allowed"
  const InvalidCredentials := "Invalid credentials. Please check your email and password."
  const Welcome := "Welcome to Q&A Hub!"
  const SomethingFailed := "An error occurred. Please try again."

  /** The verdict of the page's own checks, in the order it makes them. */
  datatype Verdict = MissingField | WrongDomain | Proceed

  /**
   * Both fields must be non-empty, and only then is the e-mail required to end
   * with the company domain (an exact, case-sensitive suffix test).
   */
  function Validate(email: string, password: string): (v: Verdict)
    ensures v == Proceed <==> email != [] && password != [] && EndsWith(email, AllowedDomain)
    ensures v == MissingField <==> email == [] || password == []
    ensures v == WrongDomain <==> email != [] && password != [] && !EndsWith(email, AllowedDomain)
  {
    if email == [] || password == [] then MissingField
    else if !EndsWith(email, AllowedDomain) then WrongDomain
    else Proceed
  }

  /** The domain test does not fold case. */
  lemma DomainIsCaseSensitive()
    ensures Validate("ann@REDEFINESOLUTIONS.COM", "secret") == WrongDomain
  {
    assert "ann@REDEFINESOLUTIONS.COM"[3..] != AllowedDomain by {
      assert "ann@REDEFINESOLUTIONS.COM"[3..][1] == 'R' != AllowedDomain[1];
    }
  }

  /** The domain test is a bare suffix test: an address with nothing before the '@' passes it. */
  lemma EmptyLocalPartPasses()
    ensures Validate(AllowedDomain, "secret") == Proceed
  {
    assert AllowedDomain[|AllowedDomain| - |AllowedDomain|..] == AllowedDomain;
  }

  /** The `signIn('credentials', …)` call the page makes. */
  datatype SignInCall = SignInCall(provider: string, email: string, password: string, redirect: bool)

  /** What `signIn` yields: a result whose `error` may be set, no result at all, or a throw. */
  datatype SignInResult = Returned(error: Option<string>) | ReturnedNothing | Threw

  datatype Toast = ErrorToast(message: string) | SuccessToast(message: string)

  /** The toast after a call: an error toast for a truthy `error`, success otherwise, a failure toast on a throw. */
  function OutcomeToast(result: SignInResult): (t: Toast)
    ensures t.SuccessToast? <==> result.ReturnedNothing? || (result.Returned? && !Present(result.error))
    ensures t.ErrorToast? ==> t.message == if result.Threw? then SomethingFailed else InvalidCredentials
  {
    match result
    case Returned(e) => if Present(e) then ErrorToast(InvalidCredentials) else SuccessToast(Welcome)
    case ReturnedNothing => SuccessToast(Welcome)
    case Threw => ErrorToast(SomethingFailed)
  }

  class SignInForm {
    var email: string
    var password: string
    var loading: bool

    constructor ()
      ensures email == [] && password == [] && !loading
    {
      email, password, loading := [], [], false;
    }

    /**
     * `handleSubmit` up to its `await signIn`: the provider is called (without
     * redirect) only when the checks pass, and `loading` stays set until the
     * call settles. The submit button is disabled while loading, so a submit
     * arrives only when no call is pending.
     */
    method HandleSubmit() returns (call: Option<SignInCall>, toast: Option<Toast>)
      requires !loading
      modifies this`loading
      ensures call.Some? <==> Validate(email, password) == Proceed
      ensures call.Some? ==> call.value == SignInCall("credentials", email, password, false) && loading && toast.None?
      ensures call.None? ==>
                !loading &&
                toast == Some(ErrorToast(if Validate(email, password) == MissingField then FillAllFields else DomainOnly))
    {
      call := None;
      if email == [] || password == [] {
        toast := Some(ErrorToast(FillAllFields));
        return;
      }
      if !EndsWith(email, AllowedDomain) {
        toast := Some(ErrorToast(DomainOnly));
        return;
      }
      loading := true;
      call := Some(SignInCall("credentials", email, password, false));
      toast := None;
    }

    /** The rest of `handleSubmit`: the outcome's toast, "/" exactly on success, and `loading` ends. */
    method OnSignInResult(result: SignInResult) returns (toast: Toast, navigate: Option<string>)
      requires loading
      modifies this`loading
      ensures !loading
      ensures toast == OutcomeToast(result)
      ensures navigate.Some? <==> toast.SuccessToast?
      ensures navigate.Some? ==> navigate.value == "/"
    {
      toast := OutcomeToast(result);
      navigate := if toast.SuccessToast? then Some("/") else None;
      loading := false;
    }
  }
}
