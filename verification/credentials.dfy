/**
 * The checks the login and sign-up forms run before contacting the
 * authentication service: the email pattern `^[^\s@]+@[^\s@]+\.[^\s@]+$`,
 * the minimum password length, and the toasts and effects the handlers
 * produce.
 */
module Credentials {
  import opened Wrappers
  import opened Text

  /** A character the pattern's `[^\s@]` class admits. */
  predicate IsEmailChar(c: char) {
    !IsWhitespace(c) && c != '@'
  }

  ghost predicate AllEmailChars(s: string) {
    forall k | 0 <= k < |s| :: IsEmailChar(s[k])
  }

  /**
   * The pattern, read literally: a non-empty run of email characters, an
   * '@', another non-empty run, a '.', and a final non-empty run.
   */
  ghost predicate MatchesEmailPattern(s: string) {
    exists i, j | 0 < i && i + 1 < j < |s| - 1 ::
      && s[i] == '@' && s[j] == '.'
      && AllEmailChars(s[..i]) && AllEmailChars(s[i + 1..j]) && AllEmailChars(s[j + 1..])
  }

  /** The position of the first `c` in `s`, or `|s|` when there is none. */
  function IndexOf(s: string, c: char): (i: nat)
    ensures i <= |s|
    ensures i < |s| ==> s[i] == c
    ensures forall k | 0 <= k < i :: s[k] != c
  {
    if s == [] then 0
    else if s[0] == c then 0
    else 1 + IndexOf(s[1..], c)
  }

  /** The part after '@' holds a '.' that is neither its first nor its last character. */
  predicate HasInnerDot(d: string) {
    exists j | 0 < j < |d| - 1 :: d[j] == '.'
  }

  /**
   * The email check: no whitespace anywhere, exactly one '@' and not in
   * front, and an inner '.' after it.
   */
  function ValidateEmail(s: string): (ok: bool)
    ensures ok ==> 5 <= |s| && '@' in s && s[0] != '@'
  {
    var i := IndexOf(s, '@');
    && (forall k | 0 <= k < |s| :: !IsWhitespace(s[k]))
    && 0 < i < |s|
    && '@' !in s[i + 1..]
    && HasInnerDot(s[i + 1..])
  }

  /** "Exactly one '@'", as `ValidateEmail` puts it: every '@' sits at the first one's position. */
  lemma ValidEmailHasOneAt(s: string)
    requires ValidateEmail(s)
    ensures forall k | 0 <= k < |s| && s[k] == '@' :: k == IndexOf(s, '@')
  {
    var i := IndexOf(s, '@');
    forall k | i < k < |s| ensures s[k] == s[i + 1..][k - i - 1] {
    }
  }

  /** The check accepts exactly the strings the pattern matches. */
  lemma ValidateEmailIffPattern(s: string)
    ensures ValidateEmail(s) <==> MatchesEmailPattern(s)
  {
    if ValidateEmail(s) {
      PatternOfValid(s);
    }
    if MatchesEmailPattern(s) {
      var i, j :| 0 < i && i + 1 < j < |s| - 1
               && s[i] == '@' && s[j] == '.'
               && AllEmailChars(s[..i]) && AllEmailChars(s[i + 1..j]) && AllEmailChars(s[j + 1..]);
      ValidOfPattern(s, i, j);
    }
  }

  lemma PatternOfValid(s: string)
    requires ValidateEmail(s)
    ensures MatchesEmailPattern(s)
  {
    var i := IndexOf(s, '@');
    var d := s[i + 1..];
    var j' :| 0 < j' < |d| - 1 && d[j'] == '.';
    var j := i + 1 + j';
    assert s[j] == '.';
    forall k | 0 <= k < |s| && k != i ensures IsEmailChar(s[k]) {
      if k > i {
        assert s[k] == d[k - i - 1];
      }
    }
    assert AllEmailChars(s[..i]);
    assert AllEmailChars(s[i + 1..j]);
    assert AllEmailChars(s[j + 1..]);
  }

  lemma ValidOfPattern(s: string, i: int, j: int)
    requires 0 < i && i + 1 < j < |s| - 1
    requires s[i] == '@' && s[j] == '.'
    requires AllEmailChars(s[..i]) && AllEmailChars(s[i + 1..j]) && AllEmailChars(s[j + 1..])
    ensures ValidateEmail(s)
  {
    forall k | 0 <= k < |s| && k != i ensures IsEmailChar(s[k]) {
      if k < i {
        assert s[..i][k] == s[k];
      } else if i < k < j {
        assert s[i + 1..j][k - i - 1] == s[k];
      } else if j < k {
        assert s[j + 1..][k - j - 1] == s[k];
      }
    }
    assert IndexOf(s, '@') == i;
    var d := s[i + 1..];
    assert d[j - i - 1] == '.';
    forall k | 0 <= k < |d| ensures d[k] != '@' {
      assert d[k] == s[i + 1 + k];
    }
  }

  // ---------------------------------------------------------------------------
  // Credential validation

  datatype CredentialError = InvalidEmail | PasswordTooShort

  const MinPasswordLength: nat := 8

  /** The first failing check, if any: the email is checked before the password. */
  function Validate(email: string, password: string): (r: Option<CredentialError>)
    ensures r.None? <==> ValidateEmail(email) && |password| >= MinPasswordLength
    ensures !ValidateEmail(email) ==> r == Some(InvalidEmail)
    ensures r == Some(PasswordTooShort) <==> ValidateEmail(email) && |password| < MinPasswordLength
  {
    if !ValidateEmail(email) then Some(InvalidEmail)
    else if |password| < MinPasswordLength then Some(PasswordTooShort)
    else None
  }

  /** A toast: its title and whether it is shown as destructive. */
  datatype Notice = Notice(title: string, destructive: bool)

  function ErrorNotice(e: CredentialError): (n: Notice)
    ensures n.destructive
  {
    match e
    case InvalidEmail => Notice("Invalid email address", true)
    case PasswordTooShort => Notice("Password must be at least 8 characters", true)
  }

  /** The two validation failures are told apart by their toasts. */
  lemma ErrorNoticesDiffer()
    ensures ErrorNotice(InvalidEmail) != ErrorNotice(PasswordTooShort)
  {
    assert ErrorNotice(InvalidEmail).title[0] != ErrorNotice(PasswordTooShort).title[0];
  }

  // ---------------------------------------------------------------------------
  // Handler effects

  /** How the authentication service answered: no error, an error object, or a thrown exception. */
  datatype AuthReply = Accepted | Rejected(message: string) | Threw(message: string)

  /** What a submit handler does, in order. */
  datatype Effect =
    | Toast(notice: Notice)
    | SetLoading(on: bool)
    | SignInRequest(email: string, password: string)
    | SignUpRequest(email: string, password: string)
    | CallOnSuccess

  /** The `loading` flag after running `trace` from `loading`. */
  function LoadingAfter(loading: bool, trace: seq<Effect>): bool {
    if trace == [] then loading
    else match trace[|trace| - 1]
      case SetLoading(on) => on
      case _ => LoadingAfter(loading, trace[..|trace| - 1])
  }

  /** Effects that do not touch the flag leave it alone, wherever they sit. */
  lemma {:induction false} LoadingAfterConcat(loading: bool, a: seq<Effect>, b: seq<Effect>)
    requires forall k | 0 <= k < |b| :: !b[k].SetLoading?
    ensures LoadingAfter(loading, a + b) == LoadingAfter(loading, a)
  {
    if b != [] {
      assert (a + b)[..|a + b| - 1] == a + b[..|b| - 1];
      assert (a + b)[|a + b| - 1] == b[|b| - 1];
      assert !b[|b| - 1].SetLoading?;
      LoadingAfterConcat(loading, a, b[..|b| - 1]);
      assert LoadingAfter(loading, a + b) == LoadingAfter(loading, a + b[..|b| - 1]);
    } else {
      assert a + b == a;
    }
  }

  /** The flag after a trace is set by its last `SetLoading`, if there is one. */
  lemma {:induction false} LoadingAfterLastSet(loading: bool, a: seq<Effect>, on: bool, b: seq<Effect>)
    requires forall k | 0 <= k < |b| :: !b[k].SetLoading?
    ensures LoadingAfter(loading, a + [SetLoading(on)] + b) == on
  {
    LoadingAfterConcat(loading, a + [SetLoading(on)], b);
  }
}
