/** Registration, login, logout and the session check of
    backend/src/controllers/auth.controller.js. bcrypt's `compare` and `hash` are
    function-valued parameters; the random token generator's output is a parameter. */
module AuthController {
  import opened Wrappers
  import opened Text
  import opened UserModel
  import opened AuthMiddleware

  /** A token is 64 random bytes written as 128 hexadecimal characters. */
  const TokenLength: int := 128
  /** The stored prefix is the first 16 characters of the raw token. */
  const PrefixLength: int := 16
  /** `expiresIn: '7d'` for the JWT, in seconds, and the cookie's `maxAge`, in ms. */
  const JwtLifetimeSeconds: int := 7 * 24 * 60 * 60
  const CookieMaxAgeMs: int := 7 * 24 * 60 * 60 * 1000

  datatype SameSite = SameSiteNone | SameSiteLax

  datatype CookieOptions = CookieOptions(httpOnly: bool, secure: bool, sameSite: SameSite, maxAgeMs: int)

  /** `setAuthCookie`: always HTTP-only with a seven-day lifetime that matches the JWT's;
      `secure` and `sameSite=none` only in production, `lax` otherwise. */
  function AuthCookieOptions(production: bool): (o: CookieOptions)
    ensures o.httpOnly && o.maxAgeMs == JwtLifetimeSeconds * 1000 == 604800000
    ensures o.secure <==> production
    ensures o.sameSite == SameSiteNone <==> production
  {
    CookieOptions(true, production, if production then SameSiteNone else SameSiteLax, CookieMaxAgeMs)
  }

  predicate IsLowerHexDigit(c: char)
  {
    '0' <= c <= '9' || 'a' <= c <= 'f'
  }

  /** What `crypto.randomBytes(64).toString('hex')` produces. */
  predicate IsGeneratedToken(raw: string)
  {
    |raw| == TokenLength && forall i :: 0 <= i < |raw| ==> IsLowerHexDigit(raw[i])
  }

  datatype RegisterResponse = Created(token: string, userId: nat) | Conflict | RegistrationFailed
  {
    function Status(): int
    {
      match this
      case Created(_, _) => 201
      case Conflict => 409
      case RegistrationFailed => 500
    }
  }

  /** The error mapping of `register`: a stored user yields 201 with the raw token, the
      store's duplicate-key error (code 11000) 409, and any other failure 500. */
  function RegisterResponseFor(outcome: SaveOutcome, raw: string, id: nat): (r: RegisterResponse)
    ensures r.Created? <==> outcome == Saved
    ensures r.Created? ==> r.token == raw && r.userId == id && r.Status() == 201
    ensures r.Status() == 409 <==> outcome == DuplicateKey
    ensures r.Status() == 500 <==> outcome == ValidationFailed
  {
    match outcome
    case Saved => Created(raw, id)
    case DuplicateKey => Conflict
    case ValidationFailed => RegistrationFailed
  }

  /** `register` as written: the new user is given only its token, so the required
      `tokenPrefix` is missing and the save is refused by schema validation before the
      hashing hook runs. Every registration therefore ends with 500. */
  method Register(id: nat, raw: string, hash: string -> string, keyClash: bool)
    returns (response: RegisterResponse, user: User)
    requires IsGeneratedToken(raw)
    ensures fresh(user) && user.tokenPrefix.None? && user.isNew
    ensures response == RegistrationFailed && response.Status() == 500
  {
    user := new User(id, raw);
    var outcome := user.Save(hash, keyClash);
    response := RegisterResponseFor(outcome, raw, id);
  }

  /** `register` with the prefix set as the schema intends (the first 16 characters of
      the raw token): the user is stored with the hash of the token and the raw token
      is returned once, unless the prefix collides with a stored one. */
  method RegisterWithPrefix(id: nat, raw: string, hash: string -> string, keyClash: bool)
    returns (response: RegisterResponse, user: User)
    requires IsGeneratedToken(raw) && hash(raw) != ""
    ensures fresh(user) && user.tokenPrefix == Some(raw[..PrefixLength])
    ensures user.hashedToken == hash(raw)
    ensures keyClash ==> response == Conflict
    ensures !keyClash ==> response == Created(raw, id) && !user.isNew
    ensures user.StreakOf() == Streak(0, 0, None) && user.StatsOf() == Stats(0, 0, 0)
    ensures user.avatar == "avatar1" && user.username.None? && user.shortcuts == []
  {
    user := new User(id, raw);
    user.tokenPrefix := Some(raw[..PrefixLength]);
    var outcome := user.Save(hash, keyClash);
    response := RegisterResponseFor(outcome, raw, id);
  }

  /** `!token || token.length !== 128`: only the length is checked, not the alphabet. */
  predicate TokenFormatOk(token: Option<string>)
  {
    token.Some? && |token.value| == TokenLength
  }

  /** The user at `k` is the first in store order whose hash the token matches. */
  ghost predicate IsFirstMatch(users: seq<User>, token: string, compare: (string, string) -> bool, k: nat)
    reads users
  {
    && k < |users|
    && compare(token, users[k].hashedToken)
    && forall j :: 0 <= j < k ==> !compare(token, users[j].hashedToken)
  }

  /** The scan of `login`: compare the token with every stored hash in store order and
      stop at the first match. */
  method FindFirstMatch(users: seq<User>, token: string, compare: (string, string) -> bool)
    returns (found: Option<nat>)
    ensures found.Some? ==> found.value < |users| && compare(token, users[found.value].hashedToken)
    ensures found.Some? ==> forall j :: 0 <= j < found.value ==> !compare(token, users[j].hashedToken)
    ensures found.None? <==> forall j :: 0 <= j < |users| ==> !compare(token, users[j].hashedToken)
  {
    var i := 0;
    while i < |users|
      invariant 0 <= i <= |users|
      invariant forall j :: 0 <= j < i ==> !compare(token, users[j].hashedToken)
    {
      if compare(token, users[i].hashedToken) {
        return Some(i);
      }
      i := i + 1;
    }
    return None;
  }

  /** The `user` object of a successful login's response. */
  datatype LoginView = LoginView(id: nat, username: Option<string>, avatar: string, streak: int, hasProfile: bool)

  datatype LoginResponse = InvalidFormat | InvalidCredentials | LoginFailed | LoggedIn(view: LoginView)
  {
    function Status(): int
    {
      match this
      case InvalidFormat => 400
      case InvalidCredentials => 401
      case LoginFailed => 500
      case LoggedIn(_) => 200
    }
  }

  /** The response projection: the current streak only, and `hasProfile` exactly when
      a non-empty username is set. */
  function LoginViewOf(r: UserRecord): (v: LoginView)
    ensures v.id == r.id && v.username == r.username && v.avatar == r.avatar
    ensures v.streak == r.streak.current
    ensures v.hasProfile <==> r.username.Some? && r.username.value != ""
  {
    LoginView(r.id, r.username, r.avatar, r.streak.current,
              r.username.Some? && r.username.value != "")
  }

  /** `login`. A token that is absent or not 128 characters long is refused with 400
      before the store is read. Otherwise the first stored user whose hash matches is
      taken; none gives 401 and changes nothing. On a match that user's streak is
      updated and the user saved (the save does not rehash: the document is not new and
      its token unchanged), then the cookie is issued with the projection above; a
      refused save gives 500. No other user is touched. */
  method Login(token: Option<string>, users: seq<User>, compare: (string, string) -> bool,
               hash: string -> string, now: Timestamp)
    returns (response: LoginResponse, ghost matched: Option<nat>)
    requires forall u :: u in users ==> !u.isNew && !u.tokenModified
    modifies set u | u in users
    ensures !TokenFormatOk(token) ==> response == InvalidFormat && matched.None? && unchanged(users)
    ensures TokenFormatOk(token) && matched.None? ==>
              response == InvalidCredentials && unchanged(users)
              && forall j :: 0 <= j < |users| ==> !compare(token.value, users[j].hashedToken)
    ensures matched.Some? ==>
              var k := matched.value;
              && TokenFormatOk(token) && IsFirstMatch(users, token.value, compare, k)
              && users[k].StreakOf() == NextStreak(old(users[k].StreakOf()), now)
              && users[k].hashedToken == old(users[k].hashedToken)
              && (forall j :: 0 <= j < |users| && users[j] != users[k] ==> unchanged(users[j]))
              && response == (if users[k].SchemaValid() then LoggedIn(LoginViewOf(users[k].Record()))
                              else LoginFailed)
  {
    matched := None;
    if token.None? || |token.value| != TokenLength {
      return InvalidFormat, matched;
    }
    var found := FindFirstMatch(users, token.value, compare);
    if found.None? {
      return InvalidCredentials, matched;
    }
    var k := found.value;
    matched := found;
    var user := users[k];
    user.UpdateStreak(now);
    var outcome := user.Save(hash, false);
    if outcome != Saved {
      return LoginFailed, matched;
    }
    response := LoggedIn(LoginViewOf(user.Record()));
  }

  /** `logout`: the cookie is cleared and 200 sent; nothing is kept on the server. */
  datatype LogoutResponse = LoggedOut(clearCookie: bool, status: int)

  function Logout(): (r: LogoutResponse)
    ensures r.clearCookie && r.status == 200
  {
    LoggedOut(true, 200)
  }

  /** The `user` object of `checkAuth`: never the hash or the prefix. */
  datatype SessionView = SessionView(id: nat, username: Option<string>, avatar: string, streak: int, stats: Stats)

  datatype CheckAuthResponse = NotAuthenticated | Authenticated(view: SessionView)
  {
    function Status(): int
    {
      if NotAuthenticated? then 401 else 200
    }
  }

  /** `checkAuth`: 401 with `authenticated: false` when no user is attached, otherwise
      the attached user's id, name, avatar, current streak and stats. */
  function CheckAuth(reqUser: Option<UserRecord>): (r: CheckAuthResponse)
    ensures r.NotAuthenticated? <==> reqUser.None?
    ensures r.Status() == 401 <==> reqUser.None?
    ensures r.Authenticated? ==>
              r.view == SessionView(reqUser.value.id, reqUser.value.username, reqUser.value.avatar,
                                    reqUser.value.streak.current, reqUser.value.stats)
  {
    match reqUser
    case None => NotAuthenticated
    case Some(u) => Authenticated(SessionView(u.id, u.username, u.avatar, u.streak.current, u.stats))
  }

  /** Behind `optionalAuth` (its route), the session check reports authenticated exactly
      when the cookie verifies and its user exists. */
  lemma CheckAuthBehindOptionalAuth(cookie: Option<string>, verify: VerifyOutcome, lookup: LookupOutcome)
    ensures CheckAuth(OptionalAuthDecision(cookie, verify, lookup).attached).Authenticated?
            <==> HasCookie(cookie) && verify.Verified? && lookup.Found?
  {
  }
}
