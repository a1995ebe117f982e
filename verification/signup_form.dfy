/** The sign-up form's submit handler, as the sequence of effects it performs. */
module SignUpForm {
  import opened Wrappers
  import opened Credentials
  import LoginForm

  const SignedUpNotice := Notice("Sign up successful! Please check your email to confirm.", false)

  /**
   * Submitting the sign-up form with `reply` as the service's answer. A failed
   * check shows its toast and stops. Otherwise loading is switched on and the
   * sign-up request made; an error reply and a thrown exception are both
   * caught and show their message; an accepted reply shows the success toast
   * and calls `onSuccess`. Loading is switched off at the end in every case.
   */
  function HandleSignUp(email: string, password: string, reply: AuthReply): (trace: seq<Effect>)
    ensures SignUpRequest(email, password) in trace <==> Validate(email, password).None?
    ensures CallOnSuccess in trace <==> Validate(email, password).None? && reply == Accepted
    ensures forall loading: bool ::
              Validate(email, password).Some? ==> LoadingAfter(loading, trace) == loading
    ensures forall loading: bool ::
              Validate(email, password).None? ==> !LoadingAfter(loading, trace)
    ensures Validate(email, password).Some? ==> trace == [Toast(ErrorNotice(Validate(email, password).value))]
    ensures Validate(email, password).None? && !reply.Accepted? ==> Toast(Notice(reply.message, true)) in trace
    ensures Toast(SignedUpNotice) in trace <==> Validate(email, password).None? && reply == Accepted
    ensures Validate(email, password).None? && reply == Accepted ==>
              && |trace| >= 3
              && trace[|trace| - 3] == Toast(SignedUpNotice)
              && trace[|trace| - 2] == CallOnSuccess
              && trace[|trace| - 1] == SetLoading(false)
    ensures Validate(email, password).None? ==>
              && |trace| == (if reply.Accepted? then 5 else 4)
              && trace[..2] == [SetLoading(true), SignUpRequest(email, password)]
              && trace[|trace| - 1] == SetLoading(false)
  {
    match Validate(email, password)
    case Some(err) => [Toast(ErrorNotice(err))]
    case None =>
      var start := [SetLoading(true), SignUpRequest(email, password)];
      var outcome := match reply
        case Accepted => [Toast(SignedUpNotice), CallOnSuccess]
        case Rejected(message) => [Toast(Notice(message, true))]
        case Threw(message) => [Toast(Notice(message, true))];
      LoadingAfterLastSet(false, start + outcome, false, []);
      LoadingAfterLastSet(true, start + outcome, false, []);
      start + outcome + [SetLoading(false)]
  }

  /**
   * The two forms gate their requests identically: on a failed check both
   * show the same single toast, and otherwise both make their request.
   */
  lemma SameGateAsLogin(email: string, password: string, reply: AuthReply)
    ensures Validate(email, password).Some? ==>
              HandleSignUp(email, password, reply) == LoginForm.HandleLogin(email, password, reply)
    ensures (SignUpRequest(email, password) in HandleSignUp(email, password, reply))
        <==> (SignInRequest(email, password) in LoginForm.HandleLogin(email, password, reply))
  {
  }
}
