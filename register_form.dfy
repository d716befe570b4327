/** The registration form's submit handler. The handler awaits the request,
    so it is split at the await: `BeginSubmit` runs the checks and the state
    updates before the request, `FinishSubmit` those after it. */
module RegisterForm {
  import opened Wrappers
  import AuthApi

  const MismatchError := "Passwords do not match"
  const TooShortError := "Password must be at least 6 characters long"
  const UnexpectedError := "An unexpected error occurred"
  const MinPasswordLength := 6

  /** The component's state variables. */
  datatype FormState = FormState(username: string, password: string, confirmPassword: string,
                                 loading: bool, error: string, success: bool)

  /** What `registerUser` is called with. */
  datatype RegisterData = RegisterData(username: string, password: string)

  /** How the awaited `registerUser` call ends: a reply with its `ok` flag and
      whether it carries a truthy `data`, or a thrown exception. */
  datatype Outcome = Replied(ok: bool, hasData: bool) | Threw

  /** The two checks, in order: the error that stops submission, if any. */
  function Check(password: string, confirmPassword: string): (r: Option<string>)
    ensures r.None? <==> password == confirmPassword && |password| >= MinPasswordLength
    ensures password != confirmPassword ==> r == Some(MismatchError)
    ensures password == confirmPassword && |password| < MinPasswordLength ==> r == Some(TooShortError)
  {
    if password != confirmPassword then Some(MismatchError)
    else if |password| < MinPasswordLength then Some(TooShortError)
    else None
  }

  /** Everything before the await: the new state and the request sent, if any. */
  function Begin(st: FormState): (r: (FormState, Option<RegisterData>))
    ensures Check(st.password, st.confirmPassword).Some? ==>
      r == (st.(error := Check(st.password, st.confirmPassword).value), None)
    ensures Check(st.password, st.confirmPassword).None? ==>
      r == (st.(loading := true, error := ""), Some(RegisterData(st.username, st.password)))
  {
    match Check(st.password, st.confirmPassword)
    case Some(message) => (st.(error := message), None)
    case None => (st.(loading := true, error := ""), Some(RegisterData(st.username, st.password)))
  }

  /** Everything after the await, `finally` included. */
  function Finish(st: FormState, outcome: Outcome): (r: FormState)
    ensures !r.loading
    ensures r.username == st.username && r.password == st.password && r.confirmPassword == st.confirmPassword
    ensures r.success <==> st.success || outcome == Replied(true, true)
    ensures r.error == if outcome.Threw? then UnexpectedError else st.error
  {
    match outcome
    case Threw => st.(error := UnexpectedError, loading := false)
    case Replied(ok, hasData) =>
      if ok && hasData then st.(success := true, loading := false)
      else st.(loading := false)
  }

  /** Only matching passwords of at least six characters are sent, and they
      are sent as typed, with the username as typed. */
  lemma SendsOnlyValid(st: FormState)
    ensures Begin(st).1.Some? <==> st.password == st.confirmPassword && |st.password| >= MinPasswordLength
    ensures Begin(st).1.Some? ==> Begin(st).1.value == RegisterData(st.username, st.password)
    ensures Begin(st).1.None? ==> Begin(st).0.loading == st.loading && Begin(st).0.success == st.success
  {
  }

  /** The mismatch check runs first: a short, mismatched password reports the mismatch. */
  lemma MismatchReportedFirst(st: FormState)
    requires st.password != st.confirmPassword && |st.password| < MinPasswordLength
    ensures Begin(st) == (st.(error := MismatchError), None)
  {
  }

  /** A submission that is sent and then refused by the server leaves no
      error on screen: the error was cleared before the request and the
      refusal branch sets nothing. */
  lemma RefusalShowsNoError(st: FormState, hasData: bool)
    requires Begin(st).1.Some?
    ensures var after := Finish(Begin(st).0, Replied(false, hasData));
      after.error == "" && !after.loading && after.success == st.success
  {
  }

  /** The reply `registerUser` hands back for a backend response: the JSON
      body as is, whose `ok` is true only for a successful register and which
      never has a `data` key. */
  function BackendReply(resp: AuthApi.Response): (r: Outcome)
    ensures r.Replied? && !r.hasData
    ensures r.ok <==> resp.body.Registered?
  {
    Replied(resp.body.Registered?, false)
  }

  /** Against the backend, the success branch is never taken: whatever the
      server answers, `success` keeps its value. */
  lemma BackendNeverShowsSuccess(st: FormState, resp: AuthApi.Response)
    ensures Finish(st, BackendReply(resp)).success == st.success
    ensures Finish(st, BackendReply(resp)).error == st.error
  {
  }

  /** The mounted component's state. */
  class RegisterPage {
    var username: string
    var password: string
    var confirmPassword: string
    var loading: bool
    var error: string
    var success: bool

    function State(): FormState
      reads this
    {
      FormState(username, password, confirmPassword, loading, error, success)
    }

    /** The form as filled in: the three inputs hold what was typed, the
        other state variables their `useState` initial values. */
    constructor (username: string, password: string, confirmPassword: string)
      ensures State() == FormState(username, password, confirmPassword, false, "", false)
    {
      this.username, this.password, this.confirmPassword := username, password, confirmPassword;
      loading, error, success := false, "", false;
    }

    /** `handleSubmit` up to the awaited `registerUser` call. */
    method BeginSubmit() returns (request: Option<RegisterData>)
      modifies this
      ensures (State(), request) == Begin(old(State()))
    {
      if password != confirmPassword {
        error := MismatchError;
        return None;
      }
      if |password| < MinPasswordLength {
        error := TooShortError;
        return None;
      }
      loading := true;
      error := "";
      request := Some(RegisterData(username, password));
    }

    /** `handleSubmit` from the awaited call's outcome to the `finally`. */
    method FinishSubmit(outcome: Outcome)
      modifies this
      ensures State() == Finish(old(State()), outcome)
    {
      match outcome {
        case Threw =>
          error := UnexpectedError;
        case Replied(ok, hasData) =>
          if ok && hasData {
            success := true;
          }
      }
      loading := false;
    }
  }
}
