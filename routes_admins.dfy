/**
 * routes/admins.go: `AdminLogin`, which hands a signed admin token to a
 * matching username and password, and `AdminRegister` and `AdminUpdate`,
 * by which a signed-in admin adds an admin or rewrites their own record.
 */
module AdminRoutes {
  import opened Wrappers
  import opened Http
  import Dates
  import Jwt
  import Admins
  import AdminGate

  const NoData := AppError(400, "No data provided.")
  const NoUsername := AppError(400, "Insert your username.")
  const NoPassword := AppError(400, "Insert your password.")
  const NoName := AppError(400, "Insert the name.")
  const NoNewUsername := AppError(400, "Insert the username.")
  const NoNewPassword := AppError(400, "Insert the password.")
  const NoRepeat := AppError(400, "Repeat the password.")
  const Mismatch := AppError(400, "The passwords don't match.")

  /** The lifetime of an admin token: 7 days, in seconds. */
  const AdminTokenTtl: int := 7 * Dates.Day

  /** The body of `AdminLogin`. */
  datatype Credentials = Credentials(username: string, password: string)

  /** The body of `AdminRegister` and `AdminUpdate`. */
  datatype AdminForm = AdminForm(name: string, username: string, password: string, confirmPassword: string)

  /** The reply to a login: the admin's public record and the token. */
  datatype LoggedIn = LoggedIn(admin: Admins.Admin, token: string)

  /** A JSON body that is not empty but does not decode is answered with 500 and no body. */
  function Undecodable<T>(): Reply<T>
  {
    Reply(500, Empty)
  }

  /** The claims of the token handed to admin `id` at `now`. */
  function AdminClaims(id: int, now: int): Jwt.Claims
  {
    Jwt.Claims(Jwt.AdminId(id), now + AdminTokenTtl, now)
  }

  /** The reply to a login as `admin` at `now`: the record and a token with its claims. */
  function LoginSuccess(admin: Admins.Admin, now: int, lib: Jwt.Lib): Reply<LoggedIn>
  {
    Reply(200, Data(LoggedIn(admin, Jwt.Create(lib, AdminClaims(admin.id, now)))))
  }

  /**
   * `AdminLogin`: POST only, a decoded body, both fields given, the
   * credentials checked, a token signed. The record replied is the
   * authenticated admin's as `FindById` reads it.
   */
  function AdminLogin(httpMethod: string, body: Decoded<Credentials>, rows: Admins.Table, bcrypt: Admins.Bcrypt,
                      now: int, lib: Jwt.Lib): Reply<LoggedIn>
    requires Admins.Consistent(rows)
  {
    if httpMethod != "POST" then MethodNotAllowed()
    else
      match body
      case Eof => Failure(NoData)
      case Invalid => Undecodable()
      case Null => Dropped
      case Object(form) =>
        if form.username == "" then Failure(NoUsername)
        else if form.password == "" then Failure(NoPassword)
        else
          match Admins.Authenticate(rows, form.username, form.password, bcrypt)
          case Err(e) => Failure(e)
          case Ok(id) => LoginSuccess(Admins.FindById(rows, id).value, now, lib)
  }

  /** A missing username is reported before a missing password, and neither reaches the table. */
  lemma LoginFieldsFirst(rows: Admins.Table, bcrypt: Admins.Bcrypt, now: int, lib: Jwt.Lib, form: Credentials)
    requires Admins.Consistent(rows)
    ensures form.username == "" ==>
      AdminLogin("POST", Object(form), rows, bcrypt, now, lib) == Reply(400, Message("Insert your username."))
    ensures form.username != "" && form.password == "" ==>
      AdminLogin("POST", Object(form), rows, bcrypt, now, lib) == Reply(400, Message("Insert your password."))
  {
  }

  /**
   * A login succeeds exactly for a POST of a username held by an admin
   * whose stored hash matches the password; any other credentials get the
   * same "incorrect username or password" error, whether the username or
   * the password was wrong.
   */
  lemma LoginSucceedsIff(httpMethod: string, body: Decoded<Credentials>, rows: Admins.Table, bcrypt: Admins.Bcrypt,
                         now: int, lib: Jwt.Lib)
    requires Admins.Consistent(rows)
    ensures var reply := AdminLogin(httpMethod, body, rows, bcrypt, now, lib);
      reply.Reply? && reply.status == 200 <==>
        && httpMethod == "POST" && body.Object? && body.value.username != "" && body.value.password != ""
        && exists id :: id in rows && rows[id].username == body.value.username && bcrypt.compare(rows[id].password, body.value.password)
    ensures var reply := AdminLogin(httpMethod, body, rows, bcrypt, now, lib);
      (httpMethod == "POST" && body.Object? && body.value.username != "" && body.value.password != ""
       && !(reply.Reply? && reply.status == 200)) ==> reply == Unmapped("incorrect username or password")
  {
    if httpMethod == "POST" && body.Object? && body.value.username != "" && body.value.password != "" {
      Admins.AuthenticateIff(rows, body.value.username, body.value.password, bcrypt);
    }
  }

  /**
   * The token handed out names the admin whose username was sent, and it
   * is accepted, with those claims, for exactly seven days from `now`.
   */
  lemma LoginToken(form: Credentials, rows: Admins.Table, bcrypt: Admins.Bcrypt, now: int, lib: Jwt.Lib, t: int)
    requires Admins.Consistent(rows) && Jwt.Lawful(lib)
    requires AdminLogin("POST", Object(form), rows, bcrypt, now, lib).Reply?
    requires AdminLogin("POST", Object(form), rows, bcrypt, now, lib).body.Data?
    ensures var signed := AdminLogin("POST", Object(form), rows, bcrypt, now, lib).body.value;
      && signed.admin.id in rows && rows[signed.admin.id].username == form.username
      && AdminClaims(signed.admin.id, now).expiresAt - now == 7 * 24 * 60 * 60
      && (now <= t < now + AdminTokenTtl ==> Jwt.Check(lib, signed.token, t) == Ok(AdminClaims(signed.admin.id, now)))
  {
    var id := LoginReply(form, rows, bcrypt, now, lib);
    if now <= t < now + AdminTokenTtl {
      Jwt.RoundTrip(lib, AdminClaims(id, now), t);
    }
  }

  /**
   * A login that got a token got it, and the record replied beside it,
   * for the admin the credentials authenticate: its id, name, username
   * and creation date, with neither password nor creator.
   */
  lemma LoginReply(form: Credentials, rows: Admins.Table, bcrypt: Admins.Bcrypt, now: int, lib: Jwt.Lib) returns (id: int)
    requires Admins.Consistent(rows)
    requires AdminLogin("POST", Object(form), rows, bcrypt, now, lib).Reply?
    requires AdminLogin("POST", Object(form), rows, bcrypt, now, lib).body.Data?
    ensures Admins.Authenticate(rows, form.username, form.password, bcrypt) == Ok(id)
    ensures id in rows && AdminLogin("POST", Object(form), rows, bcrypt, now, lib) ==
      LoginSuccess(Admins.Admin(id, rows[id].name, rows[id].username, None, rows[id].createdAt), now, lib)
  {
    var r := Admins.Authenticate(rows, form.username, form.password, bcrypt);
    assert form.username != "" && form.password != "";
    assert r.Ok?;
    id := r.value;
  }

  /** The checks of the form in `AdminRegister`, in order: every field is required and the two passwords must agree. */
  function RegisterFormError(form: AdminForm): (e: Option<AppError>)
    ensures e.None? <==> form.name != "" && form.username != "" && form.password != "" && form.password == form.confirmPassword
  {
    if form.name == "" then Some(NoName)
    else if form.username == "" then Some(NoNewUsername)
    else if form.password == "" then Some(NoNewPassword)
    else if form.confirmPassword == "" then Some(NoRepeat)
    else if form.password != form.confirmPassword then Some(Mismatch)
    else None
  }

  /**
   * The checks of the form in `AdminUpdate`: name and username are required;
   * the confirmation is asked for only when a new password is given.
   */
  function UpdateFormError(form: AdminForm): (e: Option<AppError>)
    ensures e.None? <==> form.name != "" && form.username != "" && (form.password != "" ==> form.password == form.confirmPassword)
    ensures form.name != "" && form.username != "" && form.password == "" ==> e.None?
  {
    if form.name == "" then Some(NoName)
    else if form.username == "" then Some(NoNewUsername)
    else if form.password != "" && form.confirmPassword == "" then Some(NoRepeat)
    else if form.password != "" && form.password != form.confirmPassword then Some(Mismatch)
    else None
  }

  /** The reply to a request that may write, and the table after it with its auto-increment counter. */
  datatype Outcome = Outcome(reply: Reply<Admins.Admin>, rows: Admins.Table, nextId: int)

  /**
   * `AdminRegister` at time `now`: POST only, the admin gate, the body and
   * its checks, then `Create` with the caller as creator, then the new
   * admin read back and sent with 201.
   */
  function Register(httpMethod: string, authorization: string, readAdminId: string -> Result<int>, body: Decoded<AdminForm>,
                    rows: Admins.Table, nextId: int, now: int, bcrypt: Admins.Bcrypt): (out: Outcome)
    ensures (out.reply.Reply? && out.reply.body.Data?) || (out.rows == rows && out.nextId == nextId)
  {
    if httpMethod != "POST" then Outcome(MethodNotAllowed(), rows, nextId)
    else
      match AdminGate.AuthenticateAdmin(authorization, readAdminId, rows)
      case Err(e) => Outcome(Failure(e), rows, nextId)
      case Ok(caller) =>
        match body
        case Eof => Outcome(Failure(NoData), rows, nextId)
        case Invalid => Outcome(Undecodable(), rows, nextId)
        case Null => Outcome(Dropped, rows, nextId)
        case Object(form) =>
          match RegisterFormError(form)
          case Some(e) => Outcome(Failure(e), rows, nextId)
          case None =>
            var created := Admins.CreateOutcome(rows, nextId, form.name, form.username, form.password, Some(caller.id), now, bcrypt);
            match created.id
            case Err(e) => Outcome(Failure(e), created.rows, created.nextId)
            case Ok(id) =>
              match Admins.FindById(created.rows, id)
              case Err(e) => Outcome(Failure(e), created.rows, created.nextId)
              case Ok(admin) => Outcome(Reply(201, Data(admin)), created.rows, created.nextId)
  }

  /**
   * A registration succeeds exactly when an authenticated admin sends a
   * complete form with an unused username that bcrypt can hash. The new
   * row is filed under the next id, records the caller as its creator,
   * and the reply shows it without the creator, which `FindById` does not
   * read.
   */
  lemma RegisterSucceeds(httpMethod: string, authorization: string, readAdminId: string -> Result<int>,
                         body: Decoded<AdminForm>, rows: Admins.Table, nextId: int, now: int, bcrypt: Admins.Bcrypt)
    requires Admins.Fresh(rows, nextId)
    ensures var out := Register(httpMethod, authorization, readAdminId, body, rows, nextId, now, bcrypt);
      out.reply.Reply? && out.reply.body.Data? <==>
        && httpMethod == "POST" && AdminGate.AuthenticateAdmin(authorization, readAdminId, rows).Ok?
        && body.Object? && RegisterFormError(body.value).None?
        && Admins.UsernameAvailable(rows, body.value.username, 0) && bcrypt.generate(body.value.password).Ok?
    ensures var out := Register(httpMethod, authorization, readAdminId, body, rows, nextId, now, bcrypt);
      out.reply.Reply? && out.reply.body.Data? ==>
        var caller := AdminGate.AuthenticateAdmin(authorization, readAdminId, rows).value;
        && out.nextId == nextId + 1 && out.rows.Keys == rows.Keys + {nextId}
        && out.rows[nextId].createdBy == Some(caller.id)
        && out.rows[nextId].name == body.value.name && out.rows[nextId].username == body.value.username
        && out.rows[nextId].createdAt == Dates.At(now)
        && out.reply == Reply(201, Data(Admins.Admin(nextId, body.value.name, body.value.username, None, Dates.At(now))))
  {
    if httpMethod == "POST" && AdminGate.AuthenticateAdmin(authorization, readAdminId, rows).Ok? && body.Object?
       && RegisterFormError(body.value).None? {
      var caller := AdminGate.AuthenticateAdmin(authorization, readAdminId, rows).value;
      var form := body.value;
      var created := Admins.CreateOutcome(rows, nextId, form.name, form.username, form.password, Some(caller.id), now, bcrypt);
      if Admins.UsernameAvailable(rows, form.username, 0) && bcrypt.generate(form.password).Ok? {
        assert created.id == Ok(nextId);
        assert nextId in created.rows;
      } else {
        assert created.id.Err?;
      }
    }
  }

  /** The new admin can log in with the password of the form. */
  lemma RegisteredCanLogIn(authorization: string, readAdminId: string -> Result<int>, form: AdminForm,
                           rows: Admins.Table, nextId: int, now: int, bcrypt: Admins.Bcrypt, lib: Jwt.Lib)
    requires Admins.Consistent(rows) && Admins.Fresh(rows, nextId) && Admins.Lawful(bcrypt)
    requires Register("POST", authorization, readAdminId, Object(form), rows, nextId, now, bcrypt).reply.Reply?
    requires Register("POST", authorization, readAdminId, Object(form), rows, nextId, now, bcrypt).reply.body.Data?
    ensures var out := Register("POST", authorization, readAdminId, Object(form), rows, nextId, now, bcrypt);
      Admins.Consistent(out.rows) && Admins.Fresh(out.rows, out.nextId)
      && AdminLogin("POST", Object(Credentials(form.username, form.password)), out.rows, bcrypt, now, lib).Reply?
      && AdminLogin("POST", Object(Credentials(form.username, form.password)), out.rows, bcrypt, now, lib).status == 200
  {
    RegisterSucceeds("POST", authorization, readAdminId, Object(form), rows, nextId, now, bcrypt);
    var caller := AdminGate.AuthenticateAdmin(authorization, readAdminId, rows).value;
    Admins.CreateKeepsConsistent(rows, nextId, form.name, form.username, form.password, Some(caller.id), now, bcrypt);
    Admins.CreatedAuthenticates(rows, nextId, form.name, form.username, form.password, Some(caller.id), now, bcrypt);
    var out := Register("POST", authorization, readAdminId, Object(form), rows, nextId, now, bcrypt);
    LoginSucceedsIff("POST", Object(Credentials(form.username, form.password)), out.rows, bcrypt, now, lib);
  }

  /** `AdminRegister` on the admins store. */
  method AdminRegister(admins: Admins.Admins, httpMethod: string, authorization: string, readAdminId: string -> Result<int>,
                       body: Decoded<AdminForm>, now: int, bcrypt: Admins.Bcrypt)
    returns (reply: Reply<Admins.Admin>)
    requires admins.Valid()
    modifies admins
    ensures admins.Valid()
    ensures Register(httpMethod, authorization, readAdminId, body, old(admins.rows), old(admins.nextId), now, bcrypt)
      == Outcome(reply, admins.rows, admins.nextId)
  {
    if httpMethod != "POST" {
      return MethodNotAllowed();
    }
    var caller := AdminGate.AuthenticateAdmin(authorization, readAdminId, admins.rows);
    if caller.Err? {
      return Failure(caller.error);
    }
    if body.Eof? {
      return Failure(NoData);
    } else if body.Invalid? {
      return Undecodable();
    } else if body.Null? {
      return Dropped;
    }
    var formError := RegisterFormError(body.value);
    if formError.Some? {
      return Failure(formError.value);
    }
    var id := admins.Create(body.value.name, body.value.username, body.value.password, Some(caller.value.id), now, bcrypt);
    if id.Err? {
      return Failure(id.error);
    }
    var admin := Admins.FindById(admins.rows, id.value);
    reply := match admin
      case Err(e) => Failure(e)
      case Ok(a) => Reply(201, Data(a));
  }

  /**
   * `AdminUpdate`: PUT only, the admin gate, the body and its checks, then
   * `Update` of the caller's own row, then that row read back and sent with
   * 200. Only the caller can be updated: no id is taken from the request.
   */
  function Update(httpMethod: string, authorization: string, readAdminId: string -> Result<int>, body: Decoded<AdminForm>,
                  rows: Admins.Table, bcrypt: Admins.Bcrypt): (out: (Reply<Admins.Admin>, Admins.Table))
    ensures out.1 == rows || (out.0.Reply? && out.0.body.Data?)
  {
    if httpMethod != "PUT" then (MethodNotAllowed(), rows)
    else
      match AdminGate.AuthenticateAdmin(authorization, readAdminId, rows)
      case Err(e) => (Failure(e), rows)
      case Ok(caller) =>
        match body
        case Eof => (Failure(NoData), rows)
        case Invalid => (Undecodable(), rows)
        case Null => (Dropped, rows)
        case Object(form) =>
          match UpdateFormError(form)
          case Some(e) => (Failure(e), rows)
          case None =>
            var updated := Admins.UpdateOutcome(rows, form.name, form.username, form.password, caller.id, bcrypt);
            match updated.err
            case Some(e) => (Failure(e), updated.rows)
            case None =>
              match Admins.FindById(updated.rows, caller.id)
              case Err(e) => (Failure(e), updated.rows)
              case Ok(admin) => (Reply(200, Data(admin)), updated.rows)
  }

  /**
   * A successful update rewrites the caller's row and no other: name and
   * username as sent, the password only when a new one was given, and the
   * reply is the rewritten row.
   */
  lemma UpdateTouchesOnlyCaller(httpMethod: string, authorization: string, readAdminId: string -> Result<int>,
                                body: Decoded<AdminForm>, rows: Admins.Table, bcrypt: Admins.Bcrypt)
    requires Admins.Keyed(rows)
    requires var out := Update(httpMethod, authorization, readAdminId, body, rows, bcrypt);
      out.0.Reply? && out.0.body.Data?
    ensures httpMethod == "PUT" && body.Object? && AdminGate.AuthenticateAdmin(authorization, readAdminId, rows).Ok?
    ensures var out := Update(httpMethod, authorization, readAdminId, body, rows, bcrypt);
      var caller := AdminGate.AuthenticateAdmin(authorization, readAdminId, rows).value;
      && out.0.Reply? && out.0.status == 200 && caller.id in rows
      && out.1.Keys == rows.Keys
      && (forall other :: other in rows && other != caller.id ==> out.1[other] == rows[other])
      && out.1[caller.id].name == body.value.name && out.1[caller.id].username == body.value.username
      && (body.value.password == "" ==> out.1[caller.id].password == rows[caller.id].password)
      && out.0.body == Data(Admins.Admin(caller.id, body.value.name, body.value.username, None, rows[caller.id].createdAt))
  {
    var gate := AdminGate.AuthenticateAdmin(authorization, readAdminId, rows);
    assert httpMethod == "PUT" && gate.Ok? && body.Object? && UpdateFormError(body.value).None?;
    var form := body.value;
    assert Admins.UpdateOutcome(rows, form.name, form.username, form.password, gate.value.id, bcrypt).err.None?;
    Admins.UpdateWrites(rows, form.name, form.username, form.password, gate.value.id, bcrypt);
  }

  /**
   * Sending back one's own name and username without a new password
   * changes no column, so the driver reports no affected row and the
   * request fails with "admin not found" although the caller exists.
   */
  lemma ResubmittingFails(authorization: string, readAdminId: string -> Result<int>, rows: Admins.Table, bcrypt: Admins.Bcrypt,
                          confirmPassword: string)
    requires Admins.Consistent(rows)
    requires AdminGate.AuthenticateAdmin(authorization, readAdminId, rows).Ok?
    ensures var caller := AdminGate.AuthenticateAdmin(authorization, readAdminId, rows).value;
      var form := AdminForm(caller.name, caller.username, "", confirmPassword);
      caller.id in rows && (caller.name != "" && caller.username != "" ==>
        Update("PUT", authorization, readAdminId, Object(form), rows, bcrypt) == (Unmapped("admin not found"), rows))
  {
    var caller := AdminGate.AuthenticateAdmin(authorization, readAdminId, rows).value;
    AdminGate.AdmittedIsNamed(authorization, readAdminId, rows);
    Admins.UnchangedUpdateReportsNotFound(rows, caller.id, bcrypt);
  }

  /**
   * Sending back one's own name and username with a password, even the
   * current one, succeeds: the freshly salted hash changes the row, which
   * is replied with 200, and only the password column is rewritten.
   */
  lemma ResubmittingWithPasswordSucceeds(authorization: string, readAdminId: string -> Result<int>, rows: Admins.Table,
                                         bcrypt: Admins.Bcrypt, password: string)
    requires Admins.Consistent(rows)
    requires AdminGate.AuthenticateAdmin(authorization, readAdminId, rows).Ok?
    requires password != "" && bcrypt.generate(password).Ok?
    ensures var caller := AdminGate.AuthenticateAdmin(authorization, readAdminId, rows).value;
      var form := AdminForm(caller.name, caller.username, password, password);
      caller.id in rows && (caller.name != "" && caller.username != "" ==>
        Update("PUT", authorization, readAdminId, Object(form), rows, bcrypt) ==
          (Reply(200, Data(caller)), rows[caller.id := rows[caller.id].(password := bcrypt.generate(password).value)]))
  {
    var caller := AdminGate.AuthenticateAdmin(authorization, readAdminId, rows).value;
    AdminGate.AdmittedIsNamed(authorization, readAdminId, rows);
    Admins.SamePasswordResubmissionSucceeds(rows, caller.id, password, bcrypt);
  }

  /** `AdminUpdate` on the admins store. */
  method AdminUpdate(admins: Admins.Admins, httpMethod: string, authorization: string, readAdminId: string -> Result<int>,
                     body: Decoded<AdminForm>, bcrypt: Admins.Bcrypt)
    returns (reply: Reply<Admins.Admin>)
    requires admins.Valid()
    modifies admins
    ensures admins.Valid() && admins.nextId == old(admins.nextId)
    ensures Update(httpMethod, authorization, readAdminId, body, old(admins.rows), bcrypt) == (reply, admins.rows)
  {
    if httpMethod != "PUT" {
      return MethodNotAllowed();
    }
    var caller := AdminGate.AuthenticateAdmin(authorization, readAdminId, admins.rows);
    if caller.Err? {
      return Failure(caller.error);
    }
    if body.Eof? {
      return Failure(NoData);
    } else if body.Invalid? {
      return Undecodable();
    } else if body.Null? {
      return Dropped;
    }
    var formError := UpdateFormError(body.value);
    if formError.Some? {
      return Failure(formError.value);
    }
    var err, _ := admins.Update(body.value.name, body.value.username, body.value.password, caller.value.id, bcrypt);
    if err.Some? {
      return Failure(err.value);
    }
    var admin := Admins.FindById(admins.rows, caller.value.id);
    reply := match admin
      case Err(e) => Failure(e)
      case Ok(a) => Reply(200, Data(a));
  }
}
