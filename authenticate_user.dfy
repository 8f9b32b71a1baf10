/**
 * middlewares/authenticate_user.go: the gate every user route passes. A
 * request enters either with a login-token id (the hand-off from an approved
 * sign-in, which creates a session) or with a Bearer session token; both
 * paths then load the session row, renew it when it expired less than three
 * days ago, check it, and touch its activity time.
 *
 * `Authenticate` states the whole decision as a function of the two tables;
 * the method `AuthenticateUser` performs it on the two stores in place.
 */
module UserGate {
  import opened Wrappers
  import opened Dates
  import opened Strings
  import Jwt
  import DeviceInfo
  import Bearer
  import Users
  import Sessions
  import LoginTokens
  import UserTokenPayloads

  /** The lifetime of a session: 30 days. */
  const SessionTtl: int := 30 * Day
  /** How long after expiry a recently used session is still renewed: 3 days. */
  const GracePeriod: int := 3 * Day

  const LoginTokenExpired := AppError(400, "Login token has expired.")
  const InvalidLoginTokenDate := AppError(400, "Invalid login token date.")
  const LoginTokenDenied := AppError(400, "Login token denied.")
  const LoginTokenNotAuthorized := AppError(400, "Login token not authorized.")
  const SessionExpired := AppError(400, "User token has expired.")
  const InvalidSessionDate := AppError(400, "Invalid user token date.")
  const SessionDisconnected := AppError(400, "Session disconnected.")
  const UserBanned := AppError(403, "User banned.")

  /** What the gate reads from a request: the remote address and three headers. */
  datatype Request = Request(remoteAddr: string, userAgent: string, loginTokenId: string, authorization: string)

  /** The client address: the remote address up to its first ':'. */
  function IpAddress(remoteAddr: string): (ip: string)
    ensures ':' !in ip
  {
    SplitPieces(remoteAddr, ':');
    Split(remoteAddr, ':')[0]
  }

  /** The device label: "platform:browser" when both are known, else empty. */
  function DeviceLabel(userAgent: string): (device: string)
    ensures var d := DeviceInfo.GetDeviceInfo(userAgent);
      && (device != "" <==> d.platform != "" && d.browser != "")
      && (device != "" ==> device == d.platform + ":" + d.browser)
  {
    var d := DeviceInfo.GetDeviceInfo(userAgent);
    if d.platform != "" && d.browser != "" then d.platform + ":" + d.browser else ""
  }

  /** Both tables and the number of the next identifier draw. */
  datatype Store = Store(users: Users.Table, sessions: Sessions.Table, next: nat)

  /** The outcome of a stage and the store after it. */
  datatype Step<T> = Step(result: Result<T>, store: Store)

  ghost predicate Consistent(s: Store)
  {
    Users.Consistent(s.users) && Sessions.Consistent(s.sessions)
  }

  /** The claims of a session token minted at `now`. */
  function SessionClaims(sessionId: string, now: int): Jwt.Claims
  {
    Jwt.Claims(Jwt.UserTokenId(sessionId), now + SessionTtl, now)
  }

  /** The first of the hand-off checks on the login token that fails, if any. */
  function LoginTokenError(loginToken: LoginTokens.LoginToken, now: int): Option<AppError>
  {
    match loginToken.expiresAt
    case Unparseable => Some(ParseError)
    case At(expiresAt) =>
      if expiresAt < now then Some(LoginTokenExpired)
      else match loginToken.createdAt
        case Unparseable => Some(ParseError)
        case At(createdAt) =>
          if createdAt > now then Some(InvalidLoginTokenDate)
          else if loginToken.denied then Some(LoginTokenDenied)
          else if !loginToken.authorized then Some(LoginTokenNotAuthorized)
          else None
  }

  /** The user of a login token's email: created and reloaded when the email is new, else found by email. */
  function UserForEmail(s: Store, email: string, now: int, draw: nat -> Result<string>): Step<Users.User>
    requires Users.EmailsUnique(s.users)
  {
    if Users.EmailAvailable(s.users, email) then
      var c := Users.CreateOutcome(s.users, email, now, draw, s.next);
      var after := s.(users := c.rows, next := s.next + c.used);
      match c.id
      case Err(e) => Step(Err(e), after)
      case Ok(id) => Step(Users.FindById(c.rows, id), after)
    else Step(Users.FindByEmail(s.users, email), s)
  }

  /** A new session of 30 days and its token: the session id and the token. */
  function Mint(s: Store, userId: string, fromLoginToken: Option<string>, fromUserToken: Option<string>,
                ipAddress: string, device: string, now: int, lib: Jwt.Lib, draw: nat -> Result<string>): Step<(string, string)>
  {
    var c := Sessions.CreateOutcome(s.sessions, userId, fromLoginToken, fromUserToken, ipAddress, device, SessionTtl, now, draw, s.next);
    var after := s.(sessions := c.rows, next := s.next + c.used);
    match c.id
    case Err(e) => Step(Err(e), after)
    case Ok(id) => Step(Ok((id, Jwt.Create(lib, SessionClaims(id, now)))), after)
  }

  /** `Mint` in terms of the session insert it makes. */
  lemma MintOutcome(s: Store, userId: string, fromLoginToken: Option<string>, fromUserToken: Option<string>,
                    ipAddress: string, device: string, now: int, lib: Jwt.Lib, draw: nat -> Result<string>,
                    id: Result<string>, used: nat, rows: Sessions.Table)
    requires var out := Sessions.CreateOutcome(s.sessions, userId, fromLoginToken, fromUserToken, ipAddress, device, SessionTtl, now, draw, s.next);
      id == out.id && used == out.used && rows == out.rows
    ensures var m := Mint(s, userId, fromLoginToken, fromUserToken, ipAddress, device, now, lib, draw);
      m.store.users == s.users && m.store.sessions == rows && m.store.next == s.next + used
    ensures Mint(s, userId, fromLoginToken, fromUserToken, ipAddress, device, now, lib, draw).result
      == if id.Ok? then Ok((id.value, Jwt.Create(lib, SessionClaims(id.value, now)))) else Err(id.error)
  {
  }

  /** The hand-off path once the login token is found: its user, the new session id and its token. */
  function Handoff(s: Store, loginToken: LoginTokens.LoginToken, ipAddress: string, device: string, now: int,
                   lib: Jwt.Lib, draw: nat -> Result<string>): Step<(Users.User, string, string)>
    requires Users.EmailsUnique(s.users)
  {
    match LoginTokenError(loginToken, now)
    case Some(e) => Step(Err(e), s)
    case None =>
      var u := UserForEmail(s, loginToken.email, now, draw);
      match u.result
      case Err(e) => Step(Err(e), u.store)
      case Ok(user) => Admit(u.store, user, loginToken, ipAddress, device, now, lib, draw)
  }

  /** The session the hand-off mints for `user` from the login token. */
  function Admit(s: Store, user: Users.User, loginToken: LoginTokens.LoginToken, ipAddress: string, device: string,
                 now: int, lib: Jwt.Lib, draw: nat -> Result<string>): Step<(Users.User, string, string)>
  {
    var m := Mint(s, user.id, Some(loginToken.id), None, ipAddress, device, now, lib, draw);
    match m.result
    case Err(e) => Step(Err(e), m.store)
    case Ok(minted) => Step(Ok((user, minted.0, minted.1)), m.store)
  }

  /** Where the two paths meet: the user (known on the hand-off path only), the session id and the token so far. */
  datatype Entry = Entry(user: Option<Users.User>, sessionId: string, token: string)

  /** The session id a decoded session payload names. */
  function SessionIdOf(claims: Jwt.Claims): string
  {
    if claims.subject.UserTokenId? then claims.subject.userTokenId else ""
  }

  /** The claims of a freshly allocated, zero-valued session payload. */
  const ZeroPayload := Jwt.Claims(Jwt.UserTokenId(""), 0, 0)

  /** Both entry paths. */
  function Enter(s: Store, request: Request, findLoginToken: string -> Result<LoginTokens.LoginToken>,
                 now: int, lib: Jwt.Lib, draw: nat -> Result<string>): Step<Entry>
    requires Users.EmailsUnique(s.users)
  {
    if request.loginTokenId != "" then
      match findLoginToken(request.loginTokenId)
      case Err(e) => Step(Err(e), s)
      case Ok(loginToken) =>
        var h := Handoff(s, loginToken, IpAddress(request.remoteAddr), DeviceLabel(request.userAgent), now, lib, draw);
        match h.result
        case Err(e) => Step(Err(e), h.store)
        case Ok(t) => Step(Ok(Entry(Some(t.0), t.1, t.2)), h.store)
    else
      match Bearer.ParseBearer(request.authorization)
      case Err(e) => Step(Err(e), s)
      case Ok(jwt) =>
        var decoded := Jwt.CheckInto(lib, jwt, now, ZeroPayload);
        if decoded.1.Some? then Step(Err(decoded.1.value), s)
        else Step(Ok(Entry(None, SessionIdOf(decoded.0), "")), s)
  }

  /** Renewal: the last activity and the expiry both fall less than three days before `now`. */
  predicate Renewable(lastActivity: int, expiresAt: int, now: int)
  {
    lastActivity > now - GracePeriod && expiresAt > now - GracePeriod
  }

  /**
   * Renewal of an expired session: a new session whose user id is the old
   * session's id, derived from the old session, reloaded with its token.
   */
  function Renew(s: Store, row: Sessions.UserToken, ipAddress: string, device: string, now: int,
                 lib: Jwt.Lib, draw: nat -> Result<string>): Step<(Sessions.UserToken, string)>
  {
    var m := Mint(s, row.id, None, Some(row.id), ipAddress, device, now, lib, draw);
    match m.result
    case Err(e) => Step(Err(e), m.store)
    case Ok(minted) =>
      match Sessions.FindById(m.store.sessions, minted.0)
      case Err(e) => Step(Err(e), m.store)
      case Ok(renewed) => Step(Ok((renewed, minted.1)), m.store)
  }

  /** The session the post-checks see, and the token: the row itself while unexpired, else its renewal. */
  function Current(s: Store, row: Sessions.UserToken, token: string, ipAddress: string, device: string, now: int,
                   lib: Jwt.Lib, draw: nat -> Result<string>): Step<(Sessions.UserToken, string)>
  {
    match row.expiresAt
    case Unparseable => Step(Err(ParseError), s)
    case At(expiresAt) =>
      if expiresAt >= now then Step(Ok((row, token)), s)
      else match row.lastActivity
        case Unparseable => Step(Err(ParseError), s)
        case At(lastActivity) =>
          if Renewable(lastActivity, expiresAt, now) then Renew(s, row, ipAddress, device, now, lib, draw)
          else Step(Err(SessionExpired), s)
  }

  /** The checks on the current session, the user lookup, the ban check and the activity touch. */
  function PostChecks(s: Store, row: Sessions.UserToken, user: Option<Users.User>, token: string, now: int)
    : Step<(Users.User, string)>
  {
    match row.createdAt
    case Unparseable => Step(Err(ParseError), s)
    case At(createdAt) =>
      if createdAt > now then Step(Err(InvalidSessionDate), s)
      else if row.disconnected then Step(Err(SessionDisconnected), s)
      else
        var found := if user.Some? then Ok(user.value) else Users.FindById(s.users, row.userId);
        match found
        case Err(e) => Step(Err(e), s)
        case Ok(u) =>
          if u.banned then Step(Err(UserBanned), s)
          else Step(Ok((u, token)), s.(sessions := Sessions.Touched(s.sessions, row.id, now)))
  }

  /** `AuthenticateUser`: the user and the token to hand back (empty unless one was minted). */
  function Authenticate(s: Store, request: Request, findLoginToken: string -> Result<LoginTokens.LoginToken>,
                        now: int, lib: Jwt.Lib, draw: nat -> Result<string>): Step<(Users.User, string)>
    requires Users.EmailsUnique(s.users)
  {
    var e := Enter(s, request, findLoginToken, now, lib, draw);
    match e.result
    case Err(err) => Step(Err(err), e.store)
    case Ok(entry) => Proceed(e.store, entry, request, now, lib, draw)
  }

  /** Everything after a successful entry: the session lookup, its renewal if due, and the post-checks. */
  function Proceed(s: Store, entry: Entry, request: Request, now: int, lib: Jwt.Lib, draw: nat -> Result<string>)
    : Step<(Users.User, string)>
  {
    match Sessions.FindById(s.sessions, entry.sessionId)
    case Err(err) => Step(Err(err), s)
    case Ok(row) =>
      var c := Current(s, row, entry.token, IpAddress(request.remoteAddr), DeviceLabel(request.userAgent), now, lib, draw);
      match c.result
      case Err(err) => Step(Err(err), c.store)
      case Ok(current) => PostChecks(c.store, current.0, entry.user, current.1, now)
  }

  /** The outcome `step` leaves result `r` and the tables and draw count given. */
  ghost predicate Leaves<T>(step: Step<T>, r: Result<T>, users: Users.Table, sessions: Sessions.Table, next: nat)
  {
    step.result == r && step.store.users == users && step.store.sessions == sessions && step.store.next == next
  }

  /** A session insert and its token on the session store: `Mint`. */
  method MintIn(sessions: Sessions.UserTokens, ghost users: Users.Table, userId: string,
                fromLoginToken: Option<string>, fromUserToken: Option<string>, ipAddress: string, device: string,
                now: int, lib: Jwt.Lib, draw: nat -> Result<string>, from: nat)
    returns (r: Result<(string, string)>, used: nat)
    requires sessions.Valid()
    modifies sessions
    ensures sessions.Valid()
    ensures Leaves(Mint(Store(users, old(sessions.rows), from), userId, fromLoginToken, fromUserToken, ipAddress, device, now, lib, draw),
                   r, users, sessions.rows, from + used)
    ensures r.Ok? ==> r.value.0 in sessions.rows
  {
    ghost var before := Store(users, sessions.rows, from);
    var sessionId;
    sessionId, used := sessions.Create(userId, fromLoginToken, fromUserToken, ipAddress, device, SessionTtl, now, draw, from);
    MintOutcome(before, userId, fromLoginToken, fromUserToken, ipAddress, device, now, lib, draw, sessionId, used, sessions.rows);
    if sessionId.Err? {
      return Err(sessionId.error), used;
    }
    var payload := new UserTokenPayloads.UserTokenPayload(sessionId.value, now + SessionTtl, now);
    var token := payload.ToJWT(lib);
    r := Ok((sessionId.value, token));
  }

  /** The user of a login token's email on the user store: `UserForEmail`. */
  method UserForEmailIn(users: Users.Users, ghost sessions: Sessions.Table, email: string, now: int,
                        draw: nat -> Result<string>, from: nat)
    returns (r: Result<Users.User>, used: nat)
    requires users.Valid()
    modifies users
    ensures users.Valid()
    ensures Leaves(UserForEmail(Store(old(users.rows), sessions, from), email, now, draw), r, users.rows, sessions, from + used)
  {
    if Users.EmailAvailable(users.rows, email) {
      var userId;
      userId, used := users.Create(email, now, draw, from);
      if userId.Err? {
        return Err(userId.error), used;
      }
      // The row was just inserted, so the lookup that follows finds it.
      r := Ok(Users.FindById(users.rows, userId.value).value);
    } else {
      // The email is registered, so the lookup finds its user.
      r, used := Ok(Users.FindByEmail(users.rows, email).value), 0;
    }
  }

  /** The hand-off path on the two stores: `Handoff`. */
  method HandoffIn(users: Users.Users, sessions: Sessions.UserTokens, loginToken: LoginTokens.LoginToken,
                   ipAddress: string, device: string, now: int, lib: Jwt.Lib, draw: nat -> Result<string>, from: nat)
    returns (r: Result<(Users.User, string, string)>, used: nat)
    requires users.Valid() && sessions.Valid()
    modifies users, sessions
    ensures users.Valid() && sessions.Valid()
    ensures Leaves(Handoff(Store(old(users.rows), old(sessions.rows), from), loginToken, ipAddress, device, now, lib, draw),
                   r, users.rows, sessions.rows, from + used)
  {
    var rejected := LoginTokenError(loginToken, now);
    if rejected.Some? {
      return Err(rejected.value), 0;
    }
    ghost var before := Store(users.rows, sessions.rows, from);
    var user;
    user, used := UserForEmailIn(users, sessions.rows, loginToken.email, now, draw, from);
    ghost var found := UserForEmail(before, loginToken.email, now, draw);
    assert found.store == Store(users.rows, sessions.rows, from + used);
    if user.Err? {
      return Err(user.error), used;
    }
    var minted, n := MintIn(sessions, users.rows, user.value.id, Some(loginToken.id), None, ipAddress, device, now, lib, draw, from + used);
    used := used + n;
    if minted.Err? {
      return Err(minted.error), used;
    }
    r := Ok((user.value, minted.value.0, minted.value.1));
  }

  /** Both entry paths on the two stores: `Enter`. */
  method EnterIn(users: Users.Users, sessions: Sessions.UserTokens, request: Request,
                 findLoginToken: string -> Result<LoginTokens.LoginToken>, now: int, lib: Jwt.Lib,
                 draw: nat -> Result<string>, from: nat)
    returns (r: Result<Entry>, used: nat)
    requires users.Valid() && sessions.Valid() && Jwt.Lawful(lib)
    modifies users, sessions
    ensures users.Valid() && sessions.Valid()
    ensures Leaves(Enter(Store(old(users.rows), old(sessions.rows), from), request, findLoginToken, now, lib, draw),
                   r, users.rows, sessions.rows, from + used)
  {
    if request.loginTokenId != "" {
      var found := findLoginToken(request.loginTokenId);
      if found.Err? {
        return Err(found.error), 0;
      }
      var handedOff;
      handedOff, used := HandoffIn(users, sessions, found.value, IpAddress(request.remoteAddr), DeviceLabel(request.userAgent),
                                   now, lib, draw, from);
      if handedOff.Err? {
        return Err(handedOff.error), used;
      }
      r := Ok(Entry(Some(handedOff.value.0), handedOff.value.1, handedOff.value.2));
    } else {
      var jwt := Bearer.ParseBearer(request.authorization);
      if jwt.Err? {
        return Err(jwt.error), 0;
      }
      var payload := new UserTokenPayloads.UserTokenPayload("", 0, 0);
      var failed := payload.FromJWT(lib, jwt.value, now);
      if failed.Some? {
        return Err(failed.value), 0;
      }
      r, used := Ok(Entry(None, payload.userTokenId, "")), 0;
    }
  }

  /** Renewal on the session store: `Renew`. */
  method RenewIn(sessions: Sessions.UserTokens, ghost users: Users.Table, row: Sessions.UserToken,
                 ipAddress: string, device: string, now: int, lib: Jwt.Lib, draw: nat -> Result<string>, from: nat)
    returns (r: Result<(Sessions.UserToken, string)>, used: nat)
    requires sessions.Valid()
    modifies sessions
    ensures sessions.Valid()
    ensures Leaves(Renew(Store(users, old(sessions.rows), from), row, ipAddress, device, now, lib, draw),
                   r, users, sessions.rows, from + used)
  {
    var minted;
    minted, used := MintIn(sessions, users, row.id, None, Some(row.id), ipAddress, device, now, lib, draw, from);
    if minted.Err? {
      return Err(minted.error), used;
    }
    // The row was just inserted, so reloading it succeeds.
    var renewed := Sessions.FindById(sessions.rows, minted.value.0).value;
    r := Ok((renewed, minted.value.1));
  }

  /** The expiry test and the renewal on the session store: `Current`. */
  method CurrentIn(sessions: Sessions.UserTokens, ghost users: Users.Table, row: Sessions.UserToken, token: string,
                   ipAddress: string, device: string, now: int, lib: Jwt.Lib, draw: nat -> Result<string>, from: nat)
    returns (r: Result<(Sessions.UserToken, string)>, used: nat)
    requires sessions.Valid()
    modifies sessions
    ensures sessions.Valid()
    ensures Leaves(Current(Store(users, old(sessions.rows), from), row, token, ipAddress, device, now, lib, draw),
                   r, users, sessions.rows, from + used)
  {
    if row.expiresAt.Unparseable? {
      return Err(ParseError), 0;
    }
    if row.expiresAt.seconds >= now {
      return Ok((row, token)), 0;
    }
    if row.lastActivity.Unparseable? {
      return Err(ParseError), 0;
    }
    if !Renewable(row.lastActivity.seconds, row.expiresAt.seconds, now) {
      return Err(SessionExpired), 0;
    }
    r, used := RenewIn(sessions, users, row, ipAddress, device, now, lib, draw, from);
  }

  /** The post-checks and the activity touch on the stores: `PostChecks`. */
  method PostChecksIn(users: Users.Users, sessions: Sessions.UserTokens, ghost next: nat, row: Sessions.UserToken,
                      user: Option<Users.User>, token: string, now: int)
    returns (r: Result<(Users.User, string)>)
    requires sessions.Valid()
    modifies sessions
    ensures sessions.Valid()
    ensures Leaves(PostChecks(Store(users.rows, old(sessions.rows), next), row, user, token, now), r, users.rows, sessions.rows, next)
  {
    if row.createdAt.Unparseable? {
      return Err(ParseError);
    }
    if row.createdAt.seconds > now {
      return Err(InvalidSessionDate);
    }
    if row.disconnected {
      return Err(SessionDisconnected);
    }
    var found := if user.Some? then Ok(user.value) else Users.FindById(users.rows, row.userId);
    if found.Err? {
      return Err(found.error);
    }
    if found.value.banned {
      return Err(UserBanned);
    }
    // A failure to record the activity is ignored.
    sessions.UpdateActivity(row.id, now);
    r := Ok((found.value, token));
  }

  /** The session lookup, the renewal and the post-checks on the stores: `Proceed`. */
  method ProceedIn(users: Users.Users, sessions: Sessions.UserTokens, entry: Entry, request: Request, now: int,
                   lib: Jwt.Lib, draw: nat -> Result<string>, from: nat)
    returns (r: Result<(Users.User, string)>, used: nat)
    requires sessions.Valid()
    modifies sessions
    ensures sessions.Valid()
    ensures Leaves(Proceed(Store(users.rows, old(sessions.rows), from), entry, request, now, lib, draw),
                   r, users.rows, sessions.rows, from + used)
  {
    var userToken := Sessions.FindById(sessions.rows, entry.sessionId);
    if userToken.Err? {
      return Err(userToken.error), 0;
    }
    var current;
    current, used := CurrentIn(sessions, users.rows, userToken.value, entry.token,
                               IpAddress(request.remoteAddr), DeviceLabel(request.userAgent), now, lib, draw, from);
    if current.Err? {
      return Err(current.error), used;
    }
    r := PostChecksIn(users, sessions, from + used, current.value.0, entry.user, current.value.1, now);
  }

  /**
   * `AuthenticateUser` on the two stores, drawing identifiers from draw
   * number `from` on; `used` is how many draws it made.
   */
  method AuthenticateUser(users: Users.Users, sessions: Sessions.UserTokens, request: Request,
                          findLoginToken: string -> Result<LoginTokens.LoginToken>, now: int, lib: Jwt.Lib,
                          draw: nat -> Result<string>, from: nat)
    returns (r: Result<(Users.User, string)>, used: nat)
    requires users.Valid() && sessions.Valid() && Jwt.Lawful(lib)
    modifies users, sessions
    ensures users.Valid() && sessions.Valid()
    ensures Leaves(Authenticate(Store(old(users.rows), old(sessions.rows), from), request, findLoginToken, now, lib, draw),
                   r, users.rows, sessions.rows, from + used)
  {
    ghost var before := Store(users.rows, sessions.rows, from);
    var entry;
    entry, used := EnterIn(users, sessions, request, findLoginToken, now, lib, draw, from);
    ghost var entered := Enter(before, request, findLoginToken, now, lib, draw);
    assert entered.store == Store(users.rows, sessions.rows, from + used);
    if entry.Err? {
      return Err(entry.error), used;
    }
    var n;
    r, n := ProceedIn(users, sessions, entry.value, request, now, lib, draw, from + used);
    used := used + n;
  }
}
