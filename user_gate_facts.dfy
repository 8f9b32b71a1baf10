/**
 * What the user gate of middlewares/authenticate_user.go promises, stated on
 * the functions of `UserGate`: the order of its checks, what the hand-off
 * writes, when a session is renewed and what the renewal writes, and what a
 * failed request leaves behind.
 */
module UserGateFacts {
  import opened Wrappers
  import opened Dates
  import Jwt
  import Bearer
  import Users
  import Sessions
  import LoginTokens
  import opened UserGate
  import Strings

  /** A login token passes the hand-off checks exactly when both dates parse, it is current, and it was approved and not denied. */
  lemma LoginTokenAccepted(loginToken: LoginTokens.LoginToken, now: int)
    ensures LoginTokenError(loginToken, now).None? <==>
      && loginToken.expiresAt.At? && loginToken.expiresAt.seconds >= now
      && loginToken.createdAt.At? && loginToken.createdAt.seconds <= now
      && !loginToken.denied && loginToken.authorized
  {
  }

  /**
   * The expiry date is parsed and tested first, then the creation date is
   * parsed and tested, then denial, then approval.
   */
  lemma LoginTokenCheckOrder(loginToken: LoginTokens.LoginToken, now: int)
    ensures loginToken.expiresAt.Unparseable? ==> LoginTokenError(loginToken, now) == Some(ParseError)
    ensures loginToken.expiresAt.At? && loginToken.expiresAt.seconds < now ==>
      LoginTokenError(loginToken, now) == Some(LoginTokenExpired)
    ensures (loginToken.expiresAt.At? && loginToken.expiresAt.seconds >= now
             && loginToken.createdAt.Unparseable?) ==>
      LoginTokenError(loginToken, now) == Some(ParseError)
    ensures (loginToken.expiresAt.At? && loginToken.expiresAt.seconds >= now
             && loginToken.createdAt.At? && loginToken.createdAt.seconds > now) ==>
      LoginTokenError(loginToken, now) == Some(InvalidLoginTokenDate)
    ensures (loginToken.expiresAt.At? && loginToken.expiresAt.seconds >= now
             && loginToken.createdAt.At? && loginToken.createdAt.seconds <= now && loginToken.denied) ==>
      LoginTokenError(loginToken, now) == Some(LoginTokenDenied)
    ensures (loginToken.expiresAt.At? && loginToken.expiresAt.seconds >= now
             && loginToken.createdAt.At? && loginToken.createdAt.seconds <= now
             && !loginToken.denied && !loginToken.authorized) ==>
      LoginTokenError(loginToken, now) == Some(LoginTokenNotAuthorized)
  {
  }

  /** A login token that fails a check writes nothing and draws nothing. */
  lemma RejectedHandoffWritesNothing(s: Store, loginToken: LoginTokens.LoginToken, ipAddress: string, device: string,
                                     now: int, lib: Jwt.Lib, draw: nat -> Result<string>)
    requires Users.EmailsUnique(s.users)
    requires LoginTokenError(loginToken, now).Some?
    ensures Handoff(s, loginToken, ipAddress, device, now, lib, draw) == Step(Err(LoginTokenError(loginToken, now).value), s)
  {
  }

  /**
   * The user of a login token's email: a registered email finds its user and
   * writes nothing; a new email creates a user that is not banned, under an
   * unused id, or fails and leaves the users unchanged.
   */
  lemma UserForEmailOutcome(s: Store, email: string, now: int, draw: nat -> Result<string>)
    requires Users.Consistent(s.users)
    ensures var u := UserForEmail(s, email, now, draw);
      && u.store.sessions == s.sessions
      && Users.Consistent(u.store.users)
      && (!Users.EmailAvailable(s.users, email) ==>
            u.store == s && u.result.Ok? && u.result.value.email == email && u.result.value in s.users.Values)
      && (Users.EmailAvailable(s.users, email) && u.result.Ok? ==>
            var user := u.result.value;
            user == Users.User(user.id, email, false, At(now)) && user.id !in s.users && u.store.users == s.users[user.id := user])
      && (u.result.Err? ==> u.store.users == s.users)
  {
    Users.CreateKeepsConsistent(s.users, email, now, draw, s.next);
  }

  /**
   * A successful hand-off returns the user of the login token's email, a
   * session inserted under a new id that comes from the login token, and a
   * token naming that session for 30 days; the tables stay consistent.
   */
  lemma HandoffSession(s: Store, loginToken: LoginTokens.LoginToken, ipAddress: string, device: string,
                       now: int, lib: Jwt.Lib, draw: nat -> Result<string>)
    requires Consistent(s)
    requires Handoff(s, loginToken, ipAddress, device, now, lib, draw).result.Ok?
    ensures var h := Handoff(s, loginToken, ipAddress, device, now, lib, draw);
      var (user, sessionId, token) := h.result.value;
      && LoginTokenError(loginToken, now).None?
      && user.email == loginToken.email
      && user.id in h.store.users && h.store.users[user.id] == user
      && sessionId !in s.sessions
      && h.store.sessions == s.sessions[sessionId := Sessions.NewRow(sessionId, user.id, Some(loginToken.id), None, ipAddress, device, SessionTtl, now)]
      && token == Jwt.Create(lib, SessionClaims(sessionId, now))
      && Consistent(h.store)
  {
    UserForEmailOutcome(s, loginToken.email, now, draw);
    var u := UserForEmail(s, loginToken.email, now, draw);
    var user := u.result.value;
    if !Users.EmailAvailable(s.users, loginToken.email) {
      var id :| id in s.users && s.users[id] == user;
      assert user.id == id;
    }
    Sessions.CreateKeepsConsistent(u.store.sessions, user.id, Some(loginToken.id), None, ipAddress, device, SessionTtl, now, draw, u.store.next);
  }

  /**
   * The hand-off never reads the Authorization header: with a login-token
   * id present, the request decides the same whatever that header holds.
   */
  lemma HandoffIgnoresAuthorization(s: Store, request: Request, authorization: string,
                                    findLoginToken: string -> Result<LoginTokens.LoginToken>, now: int, lib: Jwt.Lib,
                                    draw: nat -> Result<string>)
    requires Users.EmailsUnique(s.users)
    requires request.loginTokenId != ""
    ensures Authenticate(s, request, findLoginToken, now, lib, draw)
         == Authenticate(s, request.(authorization := authorization), findLoginToken, now, lib, draw)
  {
  }

  /**
   * A token minted at `minted`, presented as "Bearer <token>" while it is
   * current, names its session on the Bearer path, which writes nothing.
   */
  lemma MintedTokenEnters(s: Store, request: Request, findLoginToken: string -> Result<LoginTokens.LoginToken>,
                          sessionId: string, minted: int, now: int, lib: Jwt.Lib, draw: nat -> Result<string>)
    requires Users.EmailsUnique(s.users) && Jwt.Lawful(lib)
    requires ' ' !in Jwt.Create(lib, SessionClaims(sessionId, minted))
    requires request.loginTokenId == "" && request.authorization == "Bearer " + Jwt.Create(lib, SessionClaims(sessionId, minted))
    requires minted <= now < minted + SessionTtl
    ensures Enter(s, request, findLoginToken, now, lib, draw) == Step(Ok(Entry(None, sessionId, "")), s)
  {
    var token := Jwt.Create(lib, SessionClaims(sessionId, minted));
    Bearer.TokenAfterBearer(token, None);
    assert "Bearer " + token + "" == request.authorization;
    Jwt.RoundTripInto(lib, SessionClaims(sessionId, minted), now, ZeroPayload);
  }

  /**
   * A session row and the token minted for it share one expiry, and the
   * token's is tested first: a minted token presented once its session has
   * expired is refused with 401 "Expired token." before the row is looked
   * up. With one clock for the server and the database, the Bearer path
   * never reaches a renewal.
   */
  lemma BearerRenewalUnreachable(s: Store, request: Request, findLoginToken: string -> Result<LoginTokens.LoginToken>,
                                 sessionId: string, minted: int, now: int, lib: Jwt.Lib, draw: nat -> Result<string>)
    requires Users.EmailsUnique(s.users) && Jwt.Lawful(lib)
    requires request.loginTokenId == ""
    requires Bearer.ParseBearer(request.authorization) == Ok(Jwt.Create(lib, SessionClaims(sessionId, minted)))
    requires minted <= now && minted + SessionTtl <= now
    ensures Authenticate(s, request, findLoginToken, now, lib, draw) == Step(Err(Jwt.Expired), s)
  {
    var claims := SessionClaims(sessionId, minted);
    Jwt.CreateSegments(lib, claims);
    var parts := Strings.Split(Jwt.Create(lib, claims), '.');
    assert lib.decode64(parts[1]) == Some(lib.marshal(claims));
    assert lib.unmarshalInto(lib.marshal(claims), ZeroPayload) == Jwt.Decoded(claims, true);
    assert Jwt.CheckInto(lib, Jwt.Create(lib, claims), now, ZeroPayload) == (claims, Some(Jwt.Expired));
  }

  /**
   * The session a hand-off just inserted passes every check at once: a
   * banned user is refused with 403 although the session stays inserted,
   * any other user is admitted with the new token. The activity touch
   * changes nothing, as the new row's activity time is already `now`.
   */
  lemma FreshSessionDecides(s: Store, request: Request, findLoginToken: string -> Result<LoginTokens.LoginToken>,
                            now: int, lib: Jwt.Lib, draw: nat -> Result<string>)
    requires Consistent(s)
    requires request.loginTokenId != "" && findLoginToken(request.loginTokenId).Ok?
    requires Handoff(s, findLoginToken(request.loginTokenId).value, IpAddress(request.remoteAddr),
                     DeviceLabel(request.userAgent), now, lib, draw).result.Ok?
    ensures var h := Handoff(s, findLoginToken(request.loginTokenId).value, IpAddress(request.remoteAddr),
                             DeviceLabel(request.userAgent), now, lib, draw);
      var (user, sessionId, token) := h.result.value;
      var a := Authenticate(s, request, findLoginToken, now, lib, draw);
      && a.result == (if user.banned then Err(UserBanned) else Ok((user, token)))
      && a.store == h.store
      && sessionId in a.store.sessions
  {
    var loginToken := findLoginToken(request.loginTokenId).value;
    var ip, device := IpAddress(request.remoteAddr), DeviceLabel(request.userAgent);
    HandoffSession(s, loginToken, ip, device, now, lib, draw);
    var h := Handoff(s, loginToken, ip, device, now, lib, draw);
    var (user, sessionId, token) := h.result.value;
    var entry := Entry(Some(user), sessionId, token);
    assert Enter(s, request, findLoginToken, now, lib, draw) == Step(Ok(entry), h.store);
    FreshSessionProceeds(h.store, entry, request, now, lib, draw);
  }

  /** `Proceed` on a session row inserted at `now` for a known user. */
  lemma FreshSessionProceeds(s: Store, entry: Entry, request: Request, now: int, lib: Jwt.Lib, draw: nat -> Result<string>)
    requires entry.user.Some? && entry.sessionId in s.sessions
    requires var row := s.sessions[entry.sessionId];
      row == Sessions.NewRow(entry.sessionId, row.userId, row.fromLoginToken, row.fromUserToken, row.ipAddress, row.device, SessionTtl, now)
    ensures var p := Proceed(s, entry, request, now, lib, draw);
      && p.result == (if entry.user.value.banned then Err(UserBanned) else Ok((entry.user.value, entry.token)))
      && p.store == s
  {
    var row := s.sessions[entry.sessionId];
    var ip, device := IpAddress(request.remoteAddr), DeviceLabel(request.userAgent);
    assert Current(s, row, entry.token, ip, device, now, lib, draw) == Step(Ok((row, entry.token)), s);
    assert Sessions.Touched(s.sessions, entry.sessionId, now) == s.sessions;
  }

  /**
   * The session the post-checks see: an unexpired row as it is; an expired
   * row whose last activity and expiry both fall within the three-day grace
   * period is renewed; any other expired row is refused, writing nothing.
   */
  lemma CurrentCases(s: Store, row: Sessions.UserToken, token: string, ipAddress: string, device: string, now: int,
                     lib: Jwt.Lib, draw: nat -> Result<string>)
    requires row.expiresAt.At? && row.lastActivity.At?
    ensures var c := Current(s, row, token, ipAddress, device, now, lib, draw);
      && (row.expiresAt.seconds >= now ==> c == Step(Ok((row, token)), s))
      && (row.expiresAt.seconds < now && Renewable(row.lastActivity.seconds, row.expiresAt.seconds, now) ==>
            c == Renew(s, row, ipAddress, device, now, lib, draw))
      && (row.expiresAt.seconds < now && !Renewable(row.lastActivity.seconds, row.expiresAt.seconds, now) ==>
            c == Step(Err(SessionExpired), s))
  {
  }

  /**
   * A renewal inserts, under a new id, a fresh 30-day session derived from
   * the old one, and returns it with a token naming it; the old row stays
   * as it was. The new row's user id is the old SESSION's id, not the old
   * session's user id.
   */
  lemma RenewedRow(s: Store, row: Sessions.UserToken, ipAddress: string, device: string, now: int,
                   lib: Jwt.Lib, draw: nat -> Result<string>)
    requires Renew(s, row, ipAddress, device, now, lib, draw).result.Ok?
    ensures var rn := Renew(s, row, ipAddress, device, now, lib, draw);
      var (renewed, token) := rn.result.value;
      && renewed.id !in s.sessions
      && renewed == Sessions.NewRow(renewed.id, row.id, None, Some(row.id), ipAddress, device, SessionTtl, now)
      && rn.store.sessions == s.sessions[renewed.id := renewed]
      && token == Jwt.Create(lib, SessionClaims(renewed.id, now))
  {
    var c := Sessions.CreateOutcome(s.sessions, row.id, None, Some(row.id), ipAddress, device, SessionTtl, now, draw, s.next);
    MintOutcome(s, row.id, None, Some(row.id), ipAddress, device, now, lib, draw, c.id, c.used, c.rows);
    var m := Mint(s, row.id, None, Some(row.id), ipAddress, device, now, lib, draw);
    var id := c.id.value;
    assert Renew(s, row, ipAddress, device, now, lib, draw)
        == Step(Ok((c.rows[id], Jwt.Create(lib, SessionClaims(id, now)))), m.store);
  }

  /** A renewal changes no user and no existing session; a failed one writes nothing. */
  lemma RenewKeepsRows(s: Store, row: Sessions.UserToken, ipAddress: string, device: string, now: int,
                       lib: Jwt.Lib, draw: nat -> Result<string>)
    ensures var rn := Renew(s, row, ipAddress, device, now, lib, draw);
      && rn.store.users == s.users
      && Kept(s.sessions, rn.store.sessions)
      && (rn.result.Err? ==> rn.store.sessions == s.sessions)
  {
    MintKeepsRows(s, row.id, None, Some(row.id), ipAddress, device, now, lib, draw);
    var c := Sessions.CreateOutcome(s.sessions, row.id, None, Some(row.id), ipAddress, device, SessionTtl, now, draw, s.next);
    MintOutcome(s, row.id, None, Some(row.id), ipAddress, device, now, lib, draw, c.id, c.used, c.rows);
    var m := Mint(s, row.id, None, Some(row.id), ipAddress, device, now, lib, draw);
    if c.id.Ok? {
      assert m.result.Ok? && m.result.value.0 in m.store.sessions;
      assert Renew(s, row, ipAddress, device, now, lib, draw).result.Ok?;
    }
    assert Renew(s, row, ipAddress, device, now, lib, draw).store == m.store;
  }

  /**
   * On the Bearer path a renewed session is looked up by its user id, which
   * is the old session's id: unless some user has that id, the request that
   * renewed the session is refused with 404 "User not found.", although the
   * new session stays inserted. The row must have expired before the token
   * naming it, which takes a skew between the database's clock and the
   * server's (see `BearerRenewalUnreachable`).
   */
  lemma BearerRenewalLosesUser(s: Store, sessionId: string, request: Request, now: int, lib: Jwt.Lib,
                               draw: nat -> Result<string>)
    requires Sessions.Keyed(s.sessions) && sessionId in s.sessions && sessionId !in s.users
    requires var row := s.sessions[sessionId];
      && row.expiresAt.At? && row.lastActivity.At? && row.expiresAt.seconds < now
      && Renewable(row.lastActivity.seconds, row.expiresAt.seconds, now)
    requires Renew(s, s.sessions[sessionId], IpAddress(request.remoteAddr), DeviceLabel(request.userAgent), now, lib, draw).result.Ok?
    ensures var p := Proceed(s, Entry(None, sessionId, ""), request, now, lib, draw);
      p.result == Err(Users.NotFound) && |p.store.sessions| == |s.sessions| + 1
  {
    var row := s.sessions[sessionId];
    var ip, device := IpAddress(request.remoteAddr), DeviceLabel(request.userAgent);
    RenewedRow(s, row, ip, device, now, lib, draw);
    CurrentCases(s, row, "", ip, device, now, lib, draw);
    var rn := Renew(s, row, ip, device, now, lib, draw);
    var (renewed, token) := rn.result.value;
    assert renewed.userId == sessionId;
    PostChecksCases(rn.store, renewed, None, token, now);
    assert PostChecks(rn.store, renewed, None, token, now) == Step(Err(Users.NotFound), rn.store);
    assert Proceed(s, Entry(None, sessionId, ""), request, now, lib, draw) == Step(Err(Users.NotFound), rn.store);
  }

  /**
   * The disconnected flag is read only on the session the post-checks see:
   * a disconnected session that expired within the grace period is renewed
   * into a connected one, so the request is never refused as disconnected.
   * Like any renewal, this takes a row that expired before its token.
   */
  lemma DisconnectedSessionRenewed(s: Store, entry: Entry, request: Request, now: int, lib: Jwt.Lib,
                                   draw: nat -> Result<string>)
    requires entry.sessionId in s.sessions
    requires var row := s.sessions[entry.sessionId];
      && row.disconnected
      && row.expiresAt.At? && row.lastActivity.At? && row.expiresAt.seconds < now
      && Renewable(row.lastActivity.seconds, row.expiresAt.seconds, now)
    requires Renew(s, s.sessions[entry.sessionId], IpAddress(request.remoteAddr), DeviceLabel(request.userAgent), now, lib, draw).result.Ok?
    ensures Proceed(s, entry, request, now, lib, draw).result != Err(SessionDisconnected)
  {
    var row := s.sessions[entry.sessionId];
    var ip, device := IpAddress(request.remoteAddr), DeviceLabel(request.userAgent);
    RenewedRow(s, row, ip, device, now, lib, draw);
    CurrentCases(s, row, entry.token, ip, device, now, lib, draw);
    var rn := Renew(s, row, ip, device, now, lib, draw);
    var (renewed, token) := rn.result.value;
    PostChecksCases(rn.store, renewed, entry.user, token, now);
    assert Proceed(s, entry, request, now, lib, draw) == PostChecks(rn.store, renewed, entry.user, token, now);
  }

  /**
   * The token handed back is empty unless this request minted a session:
   * a non-empty token comes with exactly one new session row.
   */
  lemma TokenOnlyWhenMinted(s: Store, request: Request, findLoginToken: string -> Result<LoginTokens.LoginToken>,
                            now: int, lib: Jwt.Lib, draw: nat -> Result<string>)
    requires Consistent(s)
    ensures var a := Authenticate(s, request, findLoginToken, now, lib, draw);
      a.result.Ok? && a.result.value.1 != "" ==> |a.store.sessions| == |s.sessions| + 1
  {
    var a := Authenticate(s, request, findLoginToken, now, lib, draw);
    if request.loginTokenId != "" {
      if findLoginToken(request.loginTokenId).Ok? {
        var h := Handoff(s, findLoginToken(request.loginTokenId).value, IpAddress(request.remoteAddr),
                         DeviceLabel(request.userAgent), now, lib, draw);
        if h.result.Ok? {
          FreshSessionDecides(s, request, findLoginToken, now, lib, draw);
          HandoffSession(s, findLoginToken(request.loginTokenId).value, IpAddress(request.remoteAddr),
                         DeviceLabel(request.userAgent), now, lib, draw);
        }
      }
    } else {
      var e := Enter(s, request, findLoginToken, now, lib, draw);
      if e.result.Ok? {
        var entry := e.result.value;
        assert e.store == s && entry.token == "";
        assert a == Proceed(s, entry, request, now, lib, draw);
        if entry.sessionId in s.sessions {
          BearerProceeds(s, entry, request, now, lib, draw);
        }
      }
    }
  }

  /** After the Bearer path, a non-empty token comes from a renewal, which inserted one row. */
  lemma BearerProceeds(s: Store, entry: Entry, request: Request, now: int, lib: Jwt.Lib, draw: nat -> Result<string>)
    requires entry.token == "" && entry.sessionId in s.sessions
    ensures var p := Proceed(s, entry, request, now, lib, draw);
      p.result.Ok? && p.result.value.1 != "" ==> |p.store.sessions| == |s.sessions| + 1
  {
    var row := s.sessions[entry.sessionId];
    var ip, device := IpAddress(request.remoteAddr), DeviceLabel(request.userAgent);
    var c := Current(s, row, "", ip, device, now, lib, draw);
    var p := Proceed(s, entry, request, now, lib, draw);
    if c.result.Ok? {
      assert p == PostChecks(c.store, c.result.value.0, entry.user, c.result.value.1, now);
      PostChecksCases(c.store, c.result.value.0, entry.user, c.result.value.1, now);
      if c.result.value.1 != "" {
        assert c == Renew(s, row, ip, device, now, lib, draw);
        RenewedRow(s, row, ip, device, now, lib, draw);
        if p.result.Ok? {
          assert p.store.sessions.Keys == c.store.sessions.Keys;
        }
      }
    }
  }

  /**
   * The post-checks, in order: the creation date must parse and not lie in
   * the future, the session must be connected, the user must exist and not
   * be banned. Only a request that passes them all touches the session.
   */
  lemma PostChecksCases(s: Store, row: Sessions.UserToken, user: Option<Users.User>, token: string, now: int)
    ensures var p := PostChecks(s, row, user, token, now);
      var found := if user.Some? then Ok(user.value) else Users.FindById(s.users, row.userId);
      && (row.createdAt.Unparseable? ==> p.result == Err(ParseError))
      && (row.createdAt.At? && row.createdAt.seconds > now ==> p.result == Err(InvalidSessionDate))
      && (row.createdAt.At? && row.createdAt.seconds <= now && row.disconnected ==> p.result == Err(SessionDisconnected))
      && (row.createdAt.At? && row.createdAt.seconds <= now && !row.disconnected ==>
            p.result == (if found.Err? then Err(found.error) else if found.value.banned then Err(UserBanned) else Ok((found.value, token))))
      && (p.result.Err? ==> p.store == s)
      && (p.result.Ok? ==> p.store == s.(sessions := Sessions.Touched(s.sessions, row.id, now)))
  {
  }

  /** Every row of `before` is in `after`, unchanged. */
  ghost predicate Kept<K, V>(before: map<K, V>, after: map<K, V>)
  {
    forall k :: k in before ==> k in after && after[k] == before[k]
  }

  /** Minting a session only adds a row. */
  lemma MintKeepsRows(s: Store, userId: string, fromLoginToken: Option<string>, fromUserToken: Option<string>,
                      ipAddress: string, device: string, now: int, lib: Jwt.Lib, draw: nat -> Result<string>)
    ensures var m := Mint(s, userId, fromLoginToken, fromUserToken, ipAddress, device, now, lib, draw);
      m.store.users == s.users && Kept(s.sessions, m.store.sessions)
  {
    var c := Sessions.CreateOutcome(s.sessions, userId, fromLoginToken, fromUserToken, ipAddress, device, SessionTtl, now, draw, s.next);
    MintOutcome(s, userId, fromLoginToken, fromUserToken, ipAddress, device, now, lib, draw, c.id, c.used, c.rows);
  }

  /** Finding or creating the user of an email only adds a user. */
  lemma UserForEmailKeepsRows(s: Store, email: string, now: int, draw: nat -> Result<string>)
    requires Users.EmailsUnique(s.users)
    ensures var u := UserForEmail(s, email, now, draw);
      u.store.sessions == s.sessions && Kept(s.users, u.store.users)
  {
    if Users.EmailAvailable(s.users, email) {
      var c := Users.CreateOutcome(s.users, email, now, draw, s.next);
      assert UserForEmail(s, email, now, draw).store.users == c.rows;
    }
  }

  /** The hand-off only adds rows. */
  lemma HandoffKeepsRows(s: Store, loginToken: LoginTokens.LoginToken, ipAddress: string, device: string,
                         now: int, lib: Jwt.Lib, draw: nat -> Result<string>)
    requires Users.EmailsUnique(s.users)
    ensures var h := Handoff(s, loginToken, ipAddress, device, now, lib, draw);
      Kept(s.users, h.store.users) && Kept(s.sessions, h.store.sessions)
  {
    var h := Handoff(s, loginToken, ipAddress, device, now, lib, draw);
    if LoginTokenError(loginToken, now).None? {
      UserForEmailKeepsRows(s, loginToken.email, now, draw);
      var u := UserForEmail(s, loginToken.email, now, draw);
      if u.result.Ok? {
        var user := u.result.value;
        MintKeepsRows(u.store, user.id, Some(loginToken.id), None, ipAddress, device, now, lib, draw);
        assert h.store == Mint(u.store, user.id, Some(loginToken.id), None, ipAddress, device, now, lib, draw).store;
      } else {
        assert h.store == u.store;
      }
    } else {
      assert h.store == s;
    }
  }

  /** Entering only adds rows. */
  lemma EnterKeepsRows(s: Store, request: Request, findLoginToken: string -> Result<LoginTokens.LoginToken>,
                       now: int, lib: Jwt.Lib, draw: nat -> Result<string>)
    requires Users.EmailsUnique(s.users)
    ensures var e := Enter(s, request, findLoginToken, now, lib, draw);
      Kept(s.users, e.store.users) && Kept(s.sessions, e.store.sessions)
  {
    if request.loginTokenId != "" && findLoginToken(request.loginTokenId).Ok? {
      HandoffKeepsRows(s, findLoginToken(request.loginTokenId).value, IpAddress(request.remoteAddr),
                       DeviceLabel(request.userAgent), now, lib, draw);
    }
  }

  /** Finding the current session only adds rows (a renewal). */
  lemma CurrentKeepsRows(s: Store, row: Sessions.UserToken, token: string, ipAddress: string, device: string, now: int,
                         lib: Jwt.Lib, draw: nat -> Result<string>)
    ensures var c := Current(s, row, token, ipAddress, device, now, lib, draw);
      c.store.users == s.users && Kept(s.sessions, c.store.sessions)
  {
    var c := Current(s, row, token, ipAddress, device, now, lib, draw);
    if row.expiresAt.At? && row.expiresAt.seconds < now && row.lastActivity.At?
       && Renewable(row.lastActivity.seconds, row.expiresAt.seconds, now) {
      RenewKeepsRows(s, row, ipAddress, device, now, lib, draw);
      assert c == Renew(s, row, ipAddress, device, now, lib, draw);
    } else {
      assert c.store == s;
    }
  }

  /**
   * A refused request changes no row that existed before it: the rows it
   * may leave behind are new users and new sessions, never a touched or
   * altered one.
   */
  lemma RefusalKeepsRows(s: Store, request: Request, findLoginToken: string -> Result<LoginTokens.LoginToken>,
                         now: int, lib: Jwt.Lib, draw: nat -> Result<string>)
    requires Users.EmailsUnique(s.users)
    ensures var a := Authenticate(s, request, findLoginToken, now, lib, draw);
      a.result.Err? ==> Kept(s.users, a.store.users) && Kept(s.sessions, a.store.sessions)
  {
    EnterKeepsRows(s, request, findLoginToken, now, lib, draw);
    var e := Enter(s, request, findLoginToken, now, lib, draw);
    if e.result.Ok? {
      var entry := e.result.value;
      assert Authenticate(s, request, findLoginToken, now, lib, draw) == Proceed(e.store, entry, request, now, lib, draw);
      if entry.sessionId in e.store.sessions {
        var row := e.store.sessions[entry.sessionId];
        var ip, device := IpAddress(request.remoteAddr), DeviceLabel(request.userAgent);
        CurrentKeepsRows(e.store, row, entry.token, ip, device, now, lib, draw);
        var c := Current(e.store, row, entry.token, ip, device, now, lib, draw);
        if c.result.Ok? {
          PostChecksCases(c.store, c.result.value.0, entry.user, c.result.value.1, now);
        }
      }
    }
  }

  /** A hand-off keeps both tables consistent, whatever its outcome. */
  lemma HandoffKeepsConsistent(s: Store, loginToken: LoginTokens.LoginToken, ipAddress: string, device: string,
                               now: int, lib: Jwt.Lib, draw: nat -> Result<string>)
    requires Consistent(s)
    ensures Consistent(Handoff(s, loginToken, ipAddress, device, now, lib, draw).store)
  {
    var h := Handoff(s, loginToken, ipAddress, device, now, lib, draw);
    if LoginTokenError(loginToken, now).None? {
      UserForEmailOutcome(s, loginToken.email, now, draw);
      var u := UserForEmail(s, loginToken.email, now, draw);
      if u.result.Ok? {
        var user := u.result.value;
        var c := Sessions.CreateOutcome(u.store.sessions, user.id, Some(loginToken.id), None, ipAddress, device, SessionTtl, now, draw, u.store.next);
        MintOutcome(u.store, user.id, Some(loginToken.id), None, ipAddress, device, now, lib, draw, c.id, c.used, c.rows);
        Sessions.CreateKeepsConsistent(u.store.sessions, user.id, Some(loginToken.id), None, ipAddress, device, SessionTtl, now, draw, u.store.next);
        assert h.store == Mint(u.store, user.id, Some(loginToken.id), None, ipAddress, device, now, lib, draw).store;
      } else {
        assert h.store == u.store;
      }
    } else {
      assert h.store == s;
    }
  }

  /** Finding the current session keeps both tables consistent. */
  lemma CurrentKeepsConsistent(s: Store, row: Sessions.UserToken, token: string, ipAddress: string, device: string, now: int,
                               lib: Jwt.Lib, draw: nat -> Result<string>)
    requires Consistent(s)
    ensures Consistent(Current(s, row, token, ipAddress, device, now, lib, draw).store)
  {
    var c := Current(s, row, token, ipAddress, device, now, lib, draw);
    if row.expiresAt.At? && row.expiresAt.seconds < now && row.lastActivity.At?
       && Renewable(row.lastActivity.seconds, row.expiresAt.seconds, now) {
      var m := Sessions.CreateOutcome(s.sessions, row.id, None, Some(row.id), ipAddress, device, SessionTtl, now, draw, s.next);
      MintOutcome(s, row.id, None, Some(row.id), ipAddress, device, now, lib, draw, m.id, m.used, m.rows);
      Sessions.CreateKeepsConsistent(s.sessions, row.id, None, Some(row.id), ipAddress, device, SessionTtl, now, draw, s.next);
      assert c.store == Mint(s, row.id, None, Some(row.id), ipAddress, device, now, lib, draw).store;
    } else {
      assert c.store == s;
    }
  }

  /** The whole gate keeps both tables consistent: rows under their ids, emails unique, login tokens used once. */
  lemma AuthenticateKeepsConsistent(s: Store, request: Request, findLoginToken: string -> Result<LoginTokens.LoginToken>,
                                    now: int, lib: Jwt.Lib, draw: nat -> Result<string>)
    requires Consistent(s)
    ensures Consistent(Authenticate(s, request, findLoginToken, now, lib, draw).store)
  {
    var e := Enter(s, request, findLoginToken, now, lib, draw);
    if request.loginTokenId != "" && findLoginToken(request.loginTokenId).Ok? {
      HandoffKeepsConsistent(s, findLoginToken(request.loginTokenId).value, IpAddress(request.remoteAddr),
                             DeviceLabel(request.userAgent), now, lib, draw);
    } else {
      assert e.store == s;
    }
    if e.result.Ok? {
      var entry := e.result.value;
      assert Authenticate(s, request, findLoginToken, now, lib, draw) == Proceed(e.store, entry, request, now, lib, draw);
      if entry.sessionId in e.store.sessions {
        var row := e.store.sessions[entry.sessionId];
        var ip, device := IpAddress(request.remoteAddr), DeviceLabel(request.userAgent);
        CurrentKeepsConsistent(e.store, row, entry.token, ip, device, now, lib, draw);
        var c := Current(e.store, row, entry.token, ip, device, now, lib, draw);
        if c.result.Ok? {
          PostChecksCases(c.store, c.result.value.0, entry.user, c.result.value.1, now);
          Sessions.TouchChangesOnlyActivity(c.store.sessions, c.result.value.0.id, now);
        }
      }
    }
  }
}
