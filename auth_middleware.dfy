/** The session gate of backend/src/middleware/auth.js. JWT verification and the user
    lookup are library and store calls; their outcomes are inputs here. */
module AuthMiddleware {
  import opened Wrappers
  import opened UserModel

  /** What `jwt.verify` does with the cookie: a user id, or the error it throws. */
  datatype VerifyOutcome = Verified(userId: nat) | JsonWebTokenError | TokenExpiredError | OtherVerifyError

  /** What `User.findById(...).select('-hashedToken')` yields. */
  datatype LookupOutcome = Found(user: UserRecord) | NotFound | LookupFailed

  /** The error messages `auth` sends. */
  datatype AuthError = AuthenticationRequired | UserNotFound | InvalidToken | TokenExpired | AuthenticationFailed

  /** The effect of a middleware on one request: the response status and error it
      sends (none when it passes the request on), whether it clears the cookie, the
      user it attaches, and how often it calls `next`. */
  datatype Decision = Decision(
    status: Option<int>,
    error: Option<AuthError>,
    clearCookie: bool,
    attached: Option<UserRecord>,
    nextCalls: nat)

  /** A cookie counts only when it is present and non-empty (`!token`). */
  predicate HasCookie(cookie: Option<string>)
  {
    cookie.Some? && cookie.value != ""
  }

  /** `auth`. Without a cookie: 401, and the cookie is left alone. With a cookie whose
      signature verifies but whose user is gone: the cookie is cleared and 401 sent.
      A bad signature, an expired token or any other failure clears the cookie and
      sends 401, 401 and 500. Only a verified cookie of an existing user passes: the
      user is attached and `next` is called once. */
  function AuthDecision(cookie: Option<string>, verify: VerifyOutcome, lookup: LookupOutcome): (d: Decision)
    ensures d.nextCalls <= 1
    ensures d.nextCalls == 1 <==> d.status.None?
    ensures d.nextCalls == 1 <==> HasCookie(cookie) && verify.Verified? && lookup.Found?
    ensures d.nextCalls == 1 ==> d.attached == Some(lookup.user) && !d.clearCookie && d.error.None?
    ensures d.nextCalls == 0 ==> d.attached.None? && d.error.Some?
    ensures d.clearCookie <==> HasCookie(cookie) && d.nextCalls == 0
    ensures !HasCookie(cookie) ==> d.status == Some(401) && d.error == Some(AuthenticationRequired)
    ensures HasCookie(cookie) && verify.Verified? && lookup.NotFound? ==>
              d.status == Some(401) && d.error == Some(UserNotFound)
    ensures HasCookie(cookie) && verify.JsonWebTokenError? ==> d.status == Some(401) && d.error == Some(InvalidToken)
    ensures HasCookie(cookie) && verify.TokenExpiredError? ==> d.status == Some(401) && d.error == Some(TokenExpired)
    ensures HasCookie(cookie) && (verify.OtherVerifyError? || (verify.Verified? && lookup.LookupFailed?)) ==>
              d.status == Some(500) && d.error == Some(AuthenticationFailed)
  {
    if !HasCookie(cookie) then
      Decision(Some(401), Some(AuthenticationRequired), false, None, 0)
    else
      match verify
      case JsonWebTokenError => Decision(Some(401), Some(InvalidToken), true, None, 0)
      case TokenExpiredError => Decision(Some(401), Some(TokenExpired), true, None, 0)
      case OtherVerifyError => Decision(Some(500), Some(AuthenticationFailed), true, None, 0)
      case Verified(_) =>
        match lookup
        case NotFound => Decision(Some(401), Some(UserNotFound), true, None, 0)
        case LookupFailed => Decision(Some(500), Some(AuthenticationFailed), true, None, 0)
        case Found(u) => Decision(None, None, false, Some(u), 1)
  }

  /** `optionalAuth`: never answers and never clears the cookie, always calls `next`
      once, and attaches a user exactly when the cookie verifies and the user exists. */
  function OptionalAuthDecision(cookie: Option<string>, verify: VerifyOutcome, lookup: LookupOutcome): (d: Decision)
    ensures d.nextCalls == 1 && d.status.None? && d.error.None? && !d.clearCookie
    ensures d.attached.Some? <==> HasCookie(cookie) && verify.Verified? && lookup.Found?
    ensures d.attached.Some? ==> d.attached.value == lookup.user
  {
    var attached :=
      if HasCookie(cookie) && verify.Verified? && lookup.Found? then Some(lookup.user) else None;
    Decision(None, None, false, attached, 1)
  }

  /** On a request the two middlewares agree on who is attached: `optionalAuth`
      attaches a user exactly when `auth` would let the request through. */
  lemma OptionalAgreesWithAuth(cookie: Option<string>, verify: VerifyOutcome, lookup: LookupOutcome)
    ensures OptionalAuthDecision(cookie, verify, lookup).attached == AuthDecision(cookie, verify, lookup).attached
  {
  }

  /** One request passing through a middleware: the cookie it carries, what the
      middleware sets on `req` (`user`, `userId`) and on `res` (status, error body,
      cleared cookie), and how many times `next` was called. */
  class Exchange {
    const cookie: Option<string>
    var user: Option<UserRecord>
    var userId: Option<nat>
    var status: Option<int>
    var error: Option<AuthError>
    var cookieCleared: bool
    var nextCalls: nat

    constructor (cookie: Option<string>)
      ensures this.cookie == cookie && user.None? && userId.None?
      ensures status.None? && error.None? && !cookieCleared && nextCalls == 0
    {
      this.cookie := cookie;
      user, userId := None, None;
      status, error := None, None;
      cookieCleared, nextCalls := false, 0;
    }

    /** Applies a decision's effect: this is how every field relates to the state before. */
    ghost predicate Applied(d: Decision, oldUser: Option<UserRecord>, oldUserId: Option<nat>,
                            oldStatus: Option<int>, oldError: Option<AuthError>, oldCleared: bool, oldNext: nat)
      reads this
    {
      && user == (if d.attached.Some? then d.attached else oldUser)
      && userId == (if d.attached.Some? then Some(d.attached.value.id) else oldUserId)
      && status == (if d.status.Some? then d.status else oldStatus)
      && error == (if d.error.Some? then d.error else oldError)
      && cookieCleared == (oldCleared || d.clearCookie)
      && nextCalls == oldNext + d.nextCalls
    }

    method Auth(verify: VerifyOutcome, lookup: LookupOutcome)
      modifies this
      ensures Applied(AuthDecision(cookie, verify, lookup), old(user), old(userId), old(status),
                      old(error), old(cookieCleared), old(nextCalls))
    {
      if cookie.None? || cookie.value == "" {
        status, error := Some(401), Some(AuthenticationRequired);
        return;
      }
      match verify {
        case Verified(_) =>
          match lookup {
            case NotFound =>
              cookieCleared := true;
              status, error := Some(401), Some(UserNotFound);
            case Found(u) =>
              user := Some(u);
              userId := Some(u.id);
              nextCalls := nextCalls + 1;
            case LookupFailed =>
              cookieCleared := true;
              status, error := Some(500), Some(AuthenticationFailed);
          }
        case JsonWebTokenError =>
          cookieCleared := true;
          status, error := Some(401), Some(InvalidToken);
        case TokenExpiredError =>
          cookieCleared := true;
          status, error := Some(401), Some(TokenExpired);
        case OtherVerifyError =>
          cookieCleared := true;
          status, error := Some(500), Some(AuthenticationFailed);
      }
    }

    method OptionalAuth(verify: VerifyOutcome, lookup: LookupOutcome)
      modifies this
      ensures Applied(OptionalAuthDecision(cookie, verify, lookup), old(user), old(userId), old(status),
                      old(error), old(cookieCleared), old(nextCalls))
    {
      if cookie.Some? && cookie.value != "" && verify.Verified? && lookup.Found? {
        user := Some(lookup.user);
        userId := Some(lookup.user.id);
      }
      nextCalls := nextCalls + 1;
    }
  }
}
