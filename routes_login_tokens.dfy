/**
 * routes/login_tokens.go: `LoginTokenCreate`, the start of a sign-in. The
 * email is checked, a banned user is turned away, and a login-token row is
 * inserted; the insert is not part of this model and is a parameter. The
 * signed login token is only printed to standard output.
 */
module LoginTokenRoutes {
  import opened Wrappers
  import opened Strings
  import opened Http
  import Jwt
  import Users
  import DeviceInfo
  import EmailCheck
  import UserGate

  const NoData := AppError(400, "No data provided.")
  const InvalidData := AppError(400, "Invalid data.")
  const NoEmail := AppError(400, "Insert your email address.")
  const InvalidEmail := AppError(400, "Invalid email address.")
  const Banned := AppError(400, "User banned.")

  /** The lifetime of a login token: 10 minutes, in seconds. */
  const LoginTokenTtl: int := 10 * 60

  /** `LoginToken.Create(email, ipAddress, device, expiresIn)`: the new row's id or an error. */
  type Insert = (string, string, string, int) -> Result<string>

  /** What the handler sends, and the token it prints, if any. */
  datatype Created = Created(reply: Reply<string>, printed: Option<string>)

  /** The device label of a login token: platform, ':' and browser, even when either is unknown. */
  function DeviceLabel(userAgent: string): (device: string)
    ensures ':' in device
    ensures var d := DeviceInfo.GetDeviceInfo(userAgent); |device| == |d.platform| + 1 + |d.browser|
  {
    var d := DeviceInfo.GetDeviceInfo(userAgent);
    assert (d.platform + ":" + d.browser)[|d.platform|] == ':';
    d.platform + ":" + d.browser
  }

  /** The claims of the printed token for login token `id` issued at `now`. */
  function LoginTokenClaims(id: string, now: int): Jwt.Claims
  {
    Jwt.Claims(Jwt.LoginTokenId(id), now + 10 * 60, now)
  }

  /** The ban test: the user found by the email as sent, untrimmed, is banned; a failed lookup counts as not banned. */
  predicate BannedEmail(users: Users.Table, email: string)
    requires Users.EmailsUnique(users)
  {
    var found := Users.FindByEmail(users, email);
    found.Ok? && found.value.banned
  }

  /** The first check the email fails: blank, not an address, or a banned user's. */
  function EmailError(users: Users.Table, email: string): Option<AppError>
    requires Users.EmailsUnique(users)
  {
    if TrimSpace(email) == "" then Some(NoEmail)
    else if !EmailCheck.CheckEmail(email) then Some(InvalidEmail)
    else if BannedEmail(users, email) then Some(Banned)
    else None
  }

  /** The insert of the login-token row and, when it succeeds, the reply with its id and the printed token. */
  function Issue(email: string, remoteAddr: string, userAgent: string, insert: Insert, now: int, lib: Jwt.Lib): (out: Created)
    ensures out.printed.Some? <==> out.reply.Reply? && out.reply.body.Data?
  {
    match insert(TrimSpace(email), UserGate.IpAddress(remoteAddr), DeviceLabel(userAgent), LoginTokenTtl)
    case Err(e) => Created(Failure(e), None)
    case Ok(id) => Created(Reply(200, Data(id)), Some(Jwt.Create(lib, LoginTokenClaims(id, now))))
  }

  /** `LoginTokenCreate` for a request whose body decodes to an email. */
  function LoginTokenCreate(httpMethod: string, body: Decoded<string>, remoteAddr: string, userAgent: string,
                            users: Users.Table, insert: Insert, now: int, lib: Jwt.Lib): (out: Created)
    requires Users.EmailsUnique(users)
  {
    if httpMethod != "POST" then Created(MethodNotAllowed(), None)
    else
      match body
      case Eof => Created(Failure(NoData), None)
      case Invalid => Created(Failure(InvalidData), None)
      case Null => Created(Dropped, None)
      case Object(email) =>
        match EmailError(users, email)
        case Some(e) => Created(Failure(e), None)
        case None => Issue(email, remoteAddr, userAgent, insert, now, lib)
  }

  /** A blank email is refused first, and one that fails `CheckEmail` next, before the ban test. */
  lemma EmailErrorOrder(users: Users.Table, email: string)
    requires Users.EmailsUnique(users)
    ensures AllSpace(email) ==> EmailError(users, email) == Some(NoEmail)
    ensures !AllSpace(email) && !EmailCheck.CheckEmail(email) ==> EmailError(users, email) == Some(InvalidEmail)
    ensures EmailError(users, email) == None <==> EmailCheck.CheckEmail(email) && !BannedEmail(users, email)
  {
    TrimSpaceEmpty(email);
    if EmailCheck.CheckEmail(email) {
      assert TrimSpace(email) != "" by {
        if TrimSpace(email) == "" {
          EmailCheck.PatternIffShape(TrimSpace(email));
        }
      }
    }
  }

  /** A POST whose body decodes to an email is decided by the email checks and then by the insert. */
  lemma PostedEmail(remoteAddr: string, userAgent: string, users: Users.Table, insert: Insert, now: int, lib: Jwt.Lib,
                    email: string)
    requires Users.EmailsUnique(users)
    ensures var out := LoginTokenCreate("POST", Object(email), remoteAddr, userAgent, users, insert, now, lib);
      var error := EmailError(users, email);
      out == if error.Some? then Created(Failure(error.value), None) else Issue(email, remoteAddr, userAgent, insert, now, lib)
  {
    var out := LoginTokenCreate("POST", Object(email), remoteAddr, userAgent, users, insert, now, lib);
    match EmailError(users, email)
    case Some(e) =>
      assert out == Created(Failure(e), None);
    case None =>
      assert out == Issue(email, remoteAddr, userAgent, insert, now, lib);
  }

  /** A blank email is refused with 400 first, and an email that does not pass `CheckEmail` next. */
  lemma EmailChecks(remoteAddr: string, userAgent: string, users: Users.Table, insert: Insert, now: int, lib: Jwt.Lib,
                    email: string)
    requires Users.EmailsUnique(users)
    ensures AllSpace(email) ==>
      LoginTokenCreate("POST", Object(email), remoteAddr, userAgent, users, insert, now, lib) == Created(Reply(400, Message("Insert your email address.")), None)
    ensures !AllSpace(email) && !EmailCheck.CheckEmail(email) ==>
      LoginTokenCreate("POST", Object(email), remoteAddr, userAgent, users, insert, now, lib) == Created(Reply(400, Message("Invalid email address.")), None)
  {
    EmailErrorOrder(users, email);
    PostedEmail(remoteAddr, userAgent, users, insert, now, lib, email);
  }

  /**
   * An email that passes the checks and is not a banned user's gets a
   * login token: the row is inserted with the trimmed email, the client
   * address, the device label and a 600-second lifetime, and its id is the
   * reply; an insert error is the reply otherwise.
   */
  lemma Accepted(remoteAddr: string, userAgent: string, users: Users.Table, insert: Insert, now: int, lib: Jwt.Lib,
                 email: string)
    requires Users.EmailsUnique(users)
    requires EmailCheck.CheckEmail(email) && !BannedEmail(users, email)
    ensures var inserted := insert(TrimSpace(email), UserGate.IpAddress(remoteAddr), DeviceLabel(userAgent), 600);
      LoginTokenCreate("POST", Object(email), remoteAddr, userAgent, users, insert, now, lib).reply
        == if inserted.Ok? then Reply(200, Data(inserted.value)) else Failure(inserted.error)
  {
    EmailErrorOrder(users, email);
    PostedEmail(remoteAddr, userAgent, users, insert, now, lib, email);
  }

  /** Only a request that inserted a row gets a token printed, and the reply is then that row's id. */
  lemma PrintedOnlyForInsert(httpMethod: string, body: Decoded<string>, remoteAddr: string, userAgent: string,
                             users: Users.Table, insert: Insert, now: int, lib: Jwt.Lib)
    requires Users.EmailsUnique(users)
    ensures var out := LoginTokenCreate(httpMethod, body, remoteAddr, userAgent, users, insert, now, lib);
      out.printed.Some? ==>
        && httpMethod == "POST" && body.Object? && EmailError(users, body.value) == None
        && insert(TrimSpace(body.value), UserGate.IpAddress(remoteAddr), DeviceLabel(userAgent), 600) == Ok(out.reply.body.value)
  {
  }

  /**
   * The ban test looks the email up as sent. A banned user's address with
   * surrounding spaces is found by nobody, so the request passes the ban
   * test, and the row is inserted with the trimmed, banned address.
   */
  lemma PaddedEmailPassesBanTest(users: Users.Table, email: string)
    requires Users.EmailsUnique(users)
    requires Users.EmailAvailable(users, " " + email)
    ensures !BannedEmail(users, " " + email)
  {
  }

  /** The printed token is valid for exactly the login token's 600-second lifetime and reads back to its claims. */
  lemma PrintedToken(email: string, remoteAddr: string, userAgent: string, insert: Insert, now: int, lib: Jwt.Lib, t: int)
    requires Jwt.Lawful(lib)
    requires Issue(email, remoteAddr, userAgent, insert, now, lib).printed.Some?
    ensures var out := Issue(email, remoteAddr, userAgent, insert, now, lib);
      var claims := LoginTokenClaims(out.reply.body.value, now);
      && out.printed.value == Jwt.Create(lib, claims)
      && claims.expiresAt - claims.createdAt == LoginTokenTtl
      && (now <= t < now + LoginTokenTtl ==> Jwt.Check(lib, out.printed.value, t) == Ok(claims))
  {
    var out := Issue(email, remoteAddr, userAgent, insert, now, lib);
    if now <= t < now + LoginTokenTtl {
      Jwt.RoundTrip(lib, LoginTokenClaims(out.reply.body.value, now), t);
    }
  }

  /**
   * The label differs from the one the session gate stores: with an
   * unknown platform or browser it is still ":"-joined, where the gate's is
   * empty.
   */
  lemma LabelsDiffer(userAgent: string)
    ensures var d := DeviceInfo.GetDeviceInfo(userAgent);
      d.platform == "" || d.browser == "" ==> UserGate.DeviceLabel(userAgent) == "" && DeviceLabel(userAgent) != ""
    ensures UserGate.DeviceLabel(userAgent) != "" ==> UserGate.DeviceLabel(userAgent) == DeviceLabel(userAgent)
  {
  }
}
