/** The login form's submit handler, as the sequence of effects it performs. */
module LoginForm {
  import opened Wrappers
  import opened Credentials

  const LoggedInNotice := Notice("Logged in successfully!", false)

  /**
   * Submitting the login form with `reply` as the service's answer. A failed
   * check shows its toast and stops. Otherwise loading is switched on and the
   * sign-in request made; an error reply shows its message and switches
   * loading off; an accepted one shows the success toast, calls `onSuccess`
   * and then switches loading off. An exception thrown by the request leaves
   * the handler at once, with loading still on.
   */
  function HandleLogin(email: string, password: string, reply: AuthReply): (trace: seq<Effect>)
    ensures SignInRequest(email, password) in trace <==> Validate(email, password).None?
    ensures CallOnSuccess in trace <==> Validate(email, password).None? && reply == Accepted
    ensures forall loading: bool ::
              Validate(email, password).Some? ==> LoadingAfter(loading, trace) == loading
    ensures forall loading: bool ::
              Validate(email, password).None? ==> LoadingAfter(loading, trace) == reply.Threw?
    ensures Validate(email, password).Some? ==> trace == [Toast(ErrorNotice(Validate(email, password).value))]
    ensures Validate(email, password).None? && reply.Rejected? ==> Toast(Notice(reply.message, true)) in trace
    ensures Toast(LoggedInNotice) in trace <==> Validate(email, password).None? && reply == Accepted
    ensures Validate(email, password).None? && reply == Accepted ==>
              && |trace| >= 3
              && trace[|trace| - 3] == Toast(LoggedInNotice)
              && trace[|trace| - 2] == CallOnSuccess
              && trace[|trace| - 1] == SetLoading(false)
    ensures Validate(email, password).None? ==>
              && |trace| == (match reply case Accepted => 5 case Rejected(_) => 4 case Threw(_) => 2)
              && trace[..2] == [SetLoading(true), SignInRequest(email, password)]
    ensures Validate(email, password).None? && reply.Rejected? ==> trace[|trace| - 1] == SetLoading(false)
  {
    match Validate(email, password)
    case Some(err) => [Toast(ErrorNotice(err))]
    case None =>
      var start := [SetLoading(true), SignInRequest(email, password)];
      match reply
      case Accepted =>
        LoadingAfterLastSet(false, start + [Toast(LoggedInNotice), CallOnSuccess], false, []);
        LoadingAfterLastSet(true, start + [Toast(LoggedInNotice), CallOnSuccess], false, []);
        start + [Toast(LoggedInNotice), CallOnSuccess] + [SetLoading(false)]
      case Rejected(message) =>
        LoadingAfterLastSet(false, start + [Toast(Notice(message, true))], false, []);
        LoadingAfterLastSet(true, start + [Toast(Notice(message, true))], false, []);
        start + [Toast(Notice(message, true))] + [SetLoading(false)]
      case Threw(_) =>
        LoadingAfterLastSet(false, [], true, [SignInRequest(email, password)]);
        LoadingAfterLastSet(true, [], true, [SignInRequest(email, password)]);
        start
  }

  /** An invalid email is the only failure reported, even with a short password. */
  lemma InvalidEmailReportedFirst(email: string, password: string, reply: AuthReply)
    requires !ValidateEmail(email)
    ensures HandleLogin(email, password, reply) == [Toast(Notice("Invalid email address", true))]
  {
  }
}
