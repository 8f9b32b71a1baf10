/**
 * routes/users.go: `Authenticate` hands the session gate's outcome to the
 * client; `Ban` and `Unban`, for admins, flip a user's `banned` flag.
 */
module UserRoutes {
  import opened Wrappers
  import opened Http
  import Jwt
  import Users
  import Sessions
  import LoginTokens
  import Admins
  import AdminGate
  import UserGate
  import UserGateFacts

  /** The body of a successful `Authenticate`: the user, and the token only when it is not empty (`omitempty`). */
  datatype Signed = Signed(user: Users.User, token: Option<string>)

  /** The reply to the gate's outcome. */
  function AuthenticateReply(outcome: Result<(Users.User, string)>): (reply: Reply<Signed>)
    ensures outcome.Err? ==> reply == Failure(outcome.error)
    ensures outcome.Ok? ==> reply.Reply? && reply.status == 200 && reply.body.Data? && reply.body.value.user == outcome.value.0
    ensures outcome.Ok? ==> (reply.body.value.token.Some? <==> outcome.value.1 != "")
    ensures outcome.Ok? && outcome.value.1 != "" ==> reply.body.value.token == Some(outcome.value.1)
  {
    match outcome
    case Err(e) => Failure(e)
    case Ok(signed) => Reply(200, Data(Signed(signed.0, if signed.1 == "" then None else Some(signed.1))))
  }

  /**
   * `Authenticate`: GET only; then the gate runs on the two stores, drawing
   * identifiers from draw number `from` on.
   */
  method Authenticate(users: Users.Users, sessions: Sessions.UserTokens, httpMethod: string, request: UserGate.Request,
                      findLoginToken: string -> Result<LoginTokens.LoginToken>, now: int, lib: Jwt.Lib,
                      draw: nat -> Result<string>, from: nat)
    returns (reply: Reply<Signed>, used: nat)
    requires users.Valid() && sessions.Valid() && Jwt.Lawful(lib)
    modifies users, sessions
    ensures users.Valid() && sessions.Valid()
    ensures httpMethod != "GET" ==> reply == MethodNotAllowed() && used == 0
    ensures httpMethod != "GET" ==> users.rows == old(users.rows) && sessions.rows == old(sessions.rows)
    ensures httpMethod == "GET" ==>
      var a := UserGate.Authenticate(UserGate.Store(old(users.rows), old(sessions.rows), from), request, findLoginToken, now, lib, draw);
      reply == AuthenticateReply(a.result) && UserGate.Leaves(a, a.result, users.rows, sessions.rows, from + used)
  {
    if httpMethod != "GET" {
      return MethodNotAllowed(), 0;
    }
    var r;
    r, used := UserGate.AuthenticateUser(users, sessions, request, findLoginToken, now, lib, draw, from);
    reply := AuthenticateReply(r);
  }

  /** A token reaches the client only from a request that inserted a session. */
  lemma TokenShownOnlyWhenMinted(s: UserGate.Store, request: UserGate.Request,
                                 findLoginToken: string -> Result<LoginTokens.LoginToken>, now: int, lib: Jwt.Lib,
                                 draw: nat -> Result<string>)
    requires UserGate.Consistent(s)
    ensures var a := UserGate.Authenticate(s, request, findLoginToken, now, lib, draw);
      var reply := AuthenticateReply(a.result);
      reply.Reply? && reply.body.Data? && reply.body.value.token.Some? ==> |a.store.sessions| == |s.sessions| + 1
  {
    UserGateFacts.TokenOnlyWhenMinted(s, request, findLoginToken, now, lib, draw);
  }

  const AlreadyBanned := AppError(400, "User is already banned.")
  const NotBanned := AppError(400, "User is not banned.")

  /**
   * `Ban` (`banned` true) and `Unban` (`banned` false), which differ only in
   * the flag and the message: PATCH only, admins only, the id from the
   * path, the user looked up, refused when already in that state, and
   * written otherwise. The reply and the users table after it.
   */
  function BanOutcome(httpMethod: string, authorization: string, readAdminId: string -> Result<int>, admins: Admins.Table,
                      path: string, users: Users.Table, banned: bool): (out: (Reply<()>, Users.Table))
    ensures out.1 == users || out.0 == Reply(200, Empty)
  {
    if httpMethod != "PATCH" then (MethodNotAllowed(), users)
    else match AdminGate.AuthenticateAdmin(authorization, readAdminId, admins)
      case Err(e) => (Failure(e), users)
      case Ok(_) =>
        match PathId(path)
        case Err(e) => (Failure(e), users)
        case Ok(id) =>
          match Users.FindById(users, id)
          case Err(e) => (Failure(e), users)
          case Ok(user) =>
            if user.banned == banned then (Failure(if banned then AlreadyBanned else NotBanned), users)
            else (Reply(200, Empty), Users.WithBanned(users, user.id, banned))
  }

  /** Who is not an authenticated admin is refused before the users table is read: the table does not matter. */
  lemma AdminBeforeLookup(authorization: string, readAdminId: string -> Result<int>, admins: Admins.Table,
                          path: string, users: Users.Table, others: Users.Table, banned: bool)
    requires AdminGate.AuthenticateAdmin(authorization, readAdminId, admins).Err?
    ensures BanOutcome("PATCH", authorization, readAdminId, admins, path, users, banned).1 == users
    ensures BanOutcome("PATCH", authorization, readAdminId, admins, path, users, banned).0
      == BanOutcome("PATCH", authorization, readAdminId, admins, path, others, banned).0
      == Failure(AdminGate.AuthenticateAdmin(authorization, readAdminId, admins).error)
  {
  }

  /** A user already in the requested state is refused with 400 and nothing is written. */
  lemma AlreadyInState(authorization: string, readAdminId: string -> Result<int>, admins: Admins.Table,
                       path: string, users: Users.Table, banned: bool)
    requires AdminGate.AuthenticateAdmin(authorization, readAdminId, admins).Ok?
    requires PathId(path).Ok? && PathId(path).value in users && users[PathId(path).value].banned == banned
    ensures BanOutcome("PATCH", authorization, readAdminId, admins, path, users, banned)
      == (Reply(400, Message(if banned then "User is already banned." else "User is not banned.")), users)
  {
  }

  /**
   * The request succeeds exactly when every guard passes, and then the
   * user is in the requested state and no other row changed.
   */
  lemma BanSucceeds(httpMethod: string, authorization: string, readAdminId: string -> Result<int>, admins: Admins.Table,
                    path: string, users: Users.Table, banned: bool)
    requires Users.Keyed(users)
    ensures var out := BanOutcome(httpMethod, authorization, readAdminId, admins, path, users, banned);
      out.0 == Reply(200, Empty) <==>
        && httpMethod == "PATCH" && AdminGate.AuthenticateAdmin(authorization, readAdminId, admins).Ok?
        && PathId(path).Ok? && PathId(path).value in users && users[PathId(path).value].banned != banned
    ensures var out := BanOutcome(httpMethod, authorization, readAdminId, admins, path, users, banned);
      out.0 == Reply(200, Empty) ==>
        && out.1.Keys == users.Keys
        && out.1[PathId(path).value] == users[PathId(path).value].(banned := banned)
        && (forall other :: other in users && other != PathId(path).value ==> out.1[other] == users[other])
  {
    var out := BanOutcome(httpMethod, authorization, readAdminId, admins, path, users, banned);
    if out.0 == Reply(200, Empty) {
      Users.SetBannedChangesOnlyFlag(users, PathId(path).value, banned);
    }
  }

  /** `Ban` and `Unban` on the users store. */
  method ChangeBan(users: Users.Users, httpMethod: string, authorization: string, readAdminId: string -> Result<int>,
                   admins: Admins.Table, path: string, banned: bool)
    returns (reply: Reply<()>)
    requires users.Valid()
    modifies users
    ensures users.Valid()
    ensures (reply, users.rows) == BanOutcome(httpMethod, authorization, readAdminId, admins, path, old(users.rows), banned)
  {
    if httpMethod != "PATCH" {
      return MethodNotAllowed();
    }
    var admin := AdminGate.AuthenticateAdmin(authorization, readAdminId, admins);
    if admin.Err? {
      return Failure(admin.error);
    }
    var id := PathId(path);
    if id.Err? {
      return Failure(id.error);
    }
    var user := Users.FindById(users.rows, id.value);
    if user.Err? {
      return Failure(user.error);
    }
    if user.value.banned == banned {
      return Failure(if banned then AlreadyBanned else NotBanned);
    }
    if banned {
      users.Ban(user.value.id);
    } else {
      users.Unban(user.value.id);
    }
    reply := Reply(200, Empty);
  }
}
