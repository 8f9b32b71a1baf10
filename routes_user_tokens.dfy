/**
 * routes/user_tokens.go: `Disconnect`, by which a signed-in user ends one of
 * their own sessions, named by the last segment of the path.
 */
module SessionRoutes {
  import opened Wrappers
  import opened Http
  import Jwt
  import Users
  import Sessions
  import LoginTokens
  import UserGate

  const NotOwner := AppError(403, "Unauthorized action.")
  const AlreadyDisconnected := AppError(400, "This token was already disconnected.")

  /** The reply and the store after a request. */
  datatype Outcome = Outcome(reply: Reply<()>, store: UserGate.Store)

  /**
   * What follows the gate, for the signed-in `user`: the session named by
   * the path is looked up, must belong to the user and be still connected,
   * and is then disconnected.
   */
  function Guarded(s: UserGate.Store, user: Users.User, path: string): (out: Outcome)
    ensures out.store.users == s.users && out.store.next == s.next
    ensures out.store.sessions == s.sessions || out.reply == Reply(200, Empty)
  {
    match PathId(path)
    case Err(e) => Outcome(Failure(e), s)
    case Ok(id) =>
      match Sessions.FindById(s.sessions, id)
      case Err(e) => Outcome(Failure(e), s)
      case Ok(row) =>
        if user.id != row.userId then Outcome(Failure(NotOwner), s)
        else if row.disconnected then Outcome(Failure(AlreadyDisconnected), s)
        else Outcome(Reply(200, Empty), s.(sessions := Sessions.Disconnected(s.sessions, row.id)))
  }

  /** `Disconnect`: PATCH only, then the user gate, which may itself write, then the guards. */
  function DisconnectOutcome(s: UserGate.Store, httpMethod: string, path: string, request: UserGate.Request,
                             findLoginToken: string -> Result<LoginTokens.LoginToken>, now: int, lib: Jwt.Lib,
                             draw: nat -> Result<string>): Outcome
    requires Users.EmailsUnique(s.users)
  {
    if httpMethod != "PATCH" then Outcome(MethodNotAllowed(), s)
    else
      var a := UserGate.Authenticate(s, request, findLoginToken, now, lib, draw);
      match a.result
      case Err(e) => Outcome(Failure(e), a.store)
      case Ok(signed) => Guarded(a.store, signed.0, path)
  }

  /** A session of another user is refused with 403, whether or not it is still connected, and nothing is written. */
  lemma OwnershipFirst(s: UserGate.Store, user: Users.User, path: string)
    requires PathId(path).Ok? && PathId(path).value in s.sessions
    requires s.sessions[PathId(path).value].userId != user.id
    ensures Guarded(s, user, path) == Outcome(Reply(403, Message("Unauthorized action.")), s)
  {
  }

  /** The owner's already disconnected session is refused with 400 and nothing is written. */
  lemma AlreadyDisconnectedRefused(s: UserGate.Store, user: Users.User, path: string)
    requires PathId(path).Ok? && PathId(path).value in s.sessions
    requires s.sessions[PathId(path).value].userId == user.id && s.sessions[PathId(path).value].disconnected
    ensures Guarded(s, user, path) == Outcome(Reply(400, Message("This token was already disconnected.")), s)
  {
  }

  /**
   * The guards pass exactly for a connected session of the user, which is
   * then disconnected with nothing else changed.
   */
  lemma DisconnectSucceeds(s: UserGate.Store, user: Users.User, path: string)
    requires Sessions.Keyed(s.sessions)
    ensures Guarded(s, user, path).reply == Reply(200, Empty) <==>
      && PathId(path).Ok? && PathId(path).value in s.sessions
      && s.sessions[PathId(path).value].userId == user.id && !s.sessions[PathId(path).value].disconnected
    ensures Guarded(s, user, path).reply == Reply(200, Empty) ==>
      var id := PathId(path).value;
      var after := Guarded(s, user, path).store.sessions;
      && after.Keys == s.sessions.Keys && after[id] == s.sessions[id].(disconnected := true)
      && (forall other :: other in s.sessions && other != id ==> after[other] == s.sessions[other])
  {
    var out := Guarded(s, user, path);
    if out.reply == Reply(200, Empty) {
      Sessions.DisconnectChangesOnlyFlag(s.sessions, PathId(path).value);
    }
  }

  /** Another method is refused with 405 before the gate runs: nothing is written and no identifier is drawn. */
  lemma OnlyPatch(s: UserGate.Store, httpMethod: string, path: string, request: UserGate.Request,
                  findLoginToken: string -> Result<LoginTokens.LoginToken>, now: int, lib: Jwt.Lib,
                  draw: nat -> Result<string>)
    requires Users.EmailsUnique(s.users) && httpMethod != "PATCH"
    ensures DisconnectOutcome(s, httpMethod, path, request, findLoginToken, now, lib, draw) == Outcome(Reply(405, Empty), s)
  {
  }

  /** The guards on the session store. */
  method GuardedIn(sessions: Sessions.UserTokens, ghost s: UserGate.Store, user: Users.User, path: string)
    returns (reply: Reply<()>)
    requires sessions.Valid() && s.sessions == sessions.rows
    modifies sessions
    ensures sessions.Valid()
    ensures Guarded(s, user, path) == Outcome(reply, s.(sessions := sessions.rows))
  {
    var id := PathId(path);
    if id.Err? {
      return Failure(id.error);
    }
    var row := Sessions.FindById(sessions.rows, id.value);
    if row.Err? {
      return Failure(row.error);
    }
    if user.id != row.value.userId {
      return Failure(NotOwner);
    }
    if row.value.disconnected {
      return Failure(AlreadyDisconnected);
    }
    sessions.Disconnect(row.value.id);
    reply := Reply(200, Empty);
  }

  /** `Disconnect` on the two stores, drawing identifiers from draw number `from` on. */
  method Disconnect(users: Users.Users, sessions: Sessions.UserTokens, httpMethod: string, path: string,
                    request: UserGate.Request, findLoginToken: string -> Result<LoginTokens.LoginToken>, now: int,
                    lib: Jwt.Lib, draw: nat -> Result<string>, from: nat)
    returns (reply: Reply<()>, used: nat)
    requires users.Valid() && sessions.Valid() && Jwt.Lawful(lib)
    modifies users, sessions
    ensures users.Valid() && sessions.Valid()
    ensures DisconnectOutcome(UserGate.Store(old(users.rows), old(sessions.rows), from), httpMethod, path, request,
                              findLoginToken, now, lib, draw)
      == Outcome(reply, UserGate.Store(users.rows, sessions.rows, from + used))
  {
    if httpMethod != "PATCH" {
      return MethodNotAllowed(), 0;
    }
    ghost var a := UserGate.Authenticate(UserGate.Store(users.rows, sessions.rows, from), request, findLoginToken,
                                         now, lib, draw);
    var signed;
    signed, used := UserGate.AuthenticateUser(users, sessions, request, findLoginToken, now, lib, draw, from);
    assert a.result == signed && a.store == UserGate.Store(users.rows, sessions.rows, from + used);
    if signed.Err? {
      return Failure(signed.error), used;
    }
    ghost var s := UserGate.Store(users.rows, sessions.rows, from + used);
    reply := GuardedIn(sessions, s, signed.value.0, path);
  }
}
