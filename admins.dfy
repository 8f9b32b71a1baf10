/**
 * models/admin.go: the `admins` table. Passwords are stored as bcrypt
 * hashes; bcrypt itself is a parameter of the model. The errors are bare Go
 * `error` values.
 */
module Admins {
  import opened Wrappers
  import opened Dates
  import opened Strings
  import Sql

  /** A row of `admins`, with `created_by` left NULL unless a creator is given. */
  datatype AdminRow = AdminRow(id: int, name: string, username: string, password: string, createdBy: Option<int>, createdAt: Stamp)

  /** What `FindById` hands back (types/admin.go): the password is not read, nor is `created_by`. */
  datatype Admin = Admin(id: int, name: string, username: string, createdBy: Option<int>, createdAt: Stamp)

  type Table = map<int, AdminRow>

  /** Every row is filed under its own id. */
  ghost predicate Keyed(rows: Table)
  {
    forall id {:trigger rows[id].id} :: id in rows ==> rows[id].id == id
  }

  /** No two admins share a username. */
  ghost predicate UsernamesUnique(rows: Table)
  {
    forall a, b {:trigger rows[a].username, rows[b].username} :: a in rows && b in rows && rows[a].username == rows[b].username ==> a == b
  }

  ghost predicate Consistent(rows: Table)
  {
    Keyed(rows) && UsernamesUnique(rows)
  }

  /** The auto-increment counter: every id in use is positive and below the next one. */
  ghost predicate Fresh(rows: Table, nextId: int)
  {
    0 < nextId && forall id :: id in rows ==> 0 < id < nextId
  }

  /**
   * `bcrypt.GenerateFromPassword(password, 12)`, which may fail (a password
   * longer than 72 bytes, a random-source error), and
   * `bcrypt.CompareHashAndPassword(hash, password) == nil`.
   */
  datatype Bcrypt = Bcrypt(generate: string -> Result<string>, compare: (string, string) -> bool)

  /** A hash that bcrypt generated for a password matches that password. */
  ghost predicate Lawful(bcrypt: Bcrypt)
  {
    forall password :: bcrypt.generate(password).Ok? ==> bcrypt.compare(bcrypt.generate(password).value, password)
  }

  const NoRows := Plain("sql: no rows in result set")
  const UsernameTaken := Plain("username already registered")
  const AdminNotFound := Plain("admin not found")
  const WrongCredentials := Plain("incorrect username or password")

  /** `checkUsernameAvailability(username, excludeId)`: no admin but `excludeId` has that username. */
  predicate UsernameAvailable(rows: Table, username: string, excludeId: int)
  {
    forall id :: id in rows && id != excludeId ==> rows[id].username != username
  }

  /** `FindById`: the row's public columns, or the driver's no-rows error unchanged. */
  function FindById(rows: Table, id: int): (r: Result<Admin>)
    ensures r.Ok? <==> id in rows
    ensures r.Ok? ==> r.value.id == rows[id].id && r.value.name == rows[id].name && r.value.username == rows[id].username
    ensures r.Ok? ==> r.value.createdAt == rows[id].createdAt && r.value.createdBy == None
    ensures r.Err? ==> r.error == NoRows
  {
    if id in rows then
      var row := rows[id];
      Ok(Admin(row.id, row.name, row.username, None, row.createdAt))
    else Err(NoRows)
  }

  /** What `Create` returns, the table after it and the next auto-increment value. */
  datatype Created = Created(id: Result<int>, rows: Table, nextId: int)

  /**
   * `Create(name, username, password, createdBy)` at time `now`: the
   * username must be unused by every admin (`excludeId` 0), then the
   * password is hashed, then the row is inserted under the next
   * auto-increment id, which `LastInsertId` returns.
   */
  function CreateOutcome(rows: Table, nextId: int, name: string, username: string, password: string, createdBy: Option<int>,
                         now: int, bcrypt: Bcrypt): (out: Created)
    ensures out.id.Ok? ==> out.id.value == nextId && out.nextId == nextId + 1 && out.rows.Keys == rows.Keys + {nextId}
    ensures out.id.Err? ==> out.rows == rows && out.nextId == nextId
  {
    if !UsernameAvailable(rows, username, 0) then Created(Err(UsernameTaken), rows, nextId)
    else
      var hash := bcrypt.generate(password);
      if hash.Err? then Created(Err(hash.error), rows, nextId)
      else Created(Ok(nextId), rows[nextId := AdminRow(nextId, name, username, hash.value, createdBy, At(now))], nextId + 1)
  }

  const UpdateHead := "UPDATE `admins` SET "
  const UpdateWhere := " WHERE "

  /** The query `Update` prepares: the password clause is present iff a new password is given. */
  function UpdateQuery(withPassword: bool): string
  {
    UpdateHead + Sql.Assignment("name") + Sql.Comma + Sql.Assignment("username")
      + (if withPassword then Sql.Comma + Sql.Assignment("password") else "")
      + UpdateWhere + Sql.Assignment("id")
  }

  /** The arguments `Update` executes the query with. */
  function UpdateArgs(name: string, username: string, hash: Option<string>, id: int): seq<Sql.Arg>
  {
    [Sql.Text(name), Sql.Text(username)] + (if hash.Some? then [Sql.Text(hash.value)] else []) + [Sql.Int(id)]
  }

  /** The row after `UPDATE`: name and username always, the password only with a new hash. */
  function Rewritten(row: AdminRow, name: string, username: string, hash: Option<string>): (after: AdminRow)
    ensures after.id == row.id && after.createdBy == row.createdBy && after.createdAt == row.createdAt
    ensures after.name == name && after.username == username
    ensures after.password == (if hash.Some? then hash.value else row.password)
  {
    row.(name := name, username := username, password := if hash.Some? then hash.value else row.password)
  }

  /** What `Update` returns, the table after it, and the statement it executed, if it got that far. */
  datatype Updated = Updated(err: Option<AppError>, rows: Table, sent: Option<Sql.Statement>)

  /**
   * `Update(name, username, password, id)`. The username may be the
   * admin's own but no other admin's; a non-empty password is hashed; the
   * statement is executed; and when it affected no row the result is
   * "admin not found". The MySQL driver, opened without `clientFoundRows`,
   * counts only rows whose values changed, so an update that rewrites a
   * row with its own values also reports "admin not found". A new
   * password always changes the row: bcrypt salts every hash afresh, so
   * the stored hash is never rewritten with itself.
   */
  function UpdateOutcome(rows: Table, name: string, username: string, password: string, id: int, bcrypt: Bcrypt): (out: Updated)
    ensures out.err.None? ==> id in rows && id in out.rows && out.rows == rows[id := out.rows[id]]
    ensures out.err.Some? ==> out.rows == rows
  {
    if !UsernameAvailable(rows, username, id) then Updated(Some(UsernameTaken), rows, None)
    else if password != "" && bcrypt.generate(password).Err? then Updated(Some(bcrypt.generate(password).error), rows, None)
    else
      var hash := if password != "" then Some(bcrypt.generate(password).value) else None;
      var sent := Some(Sql.Statement(UpdateQuery(hash.Some?), UpdateArgs(name, username, hash, id)));
      if id !in rows || (hash.None? && Rewritten(rows[id], name, username, hash) == rows[id]) then Updated(Some(AdminNotFound), rows, sent)
      else Updated(None, rows[id := Rewritten(rows[id], name, username, hash)], sent)
  }

  /**
   * `Authenticate(username, password)`: the id of the admin with that
   * username when the password matches its hash.
   */
  function Authenticate(rows: Table, username: string, password: string, bcrypt: Bcrypt): (r: Result<int>)
    requires Consistent(rows)
    ensures r.Ok? ==> r.value in rows && rows[r.value].username == username && bcrypt.compare(rows[r.value].password, password)
    ensures r.Err? ==> r.error == WrongCredentials
  {
    if exists id :: id in rows && rows[id].username == username then
      var id :| id in rows && rows[id].username == username;
      if bcrypt.compare(rows[id].password, password) then Ok(rows[id].id) else Err(WrongCredentials)
    else Err(WrongCredentials)
  }

  /** Both failures look the same: an unknown username and a wrong password give one error. */
  lemma AuthenticateIff(rows: Table, username: string, password: string, bcrypt: Bcrypt)
    requires Consistent(rows)
    ensures Authenticate(rows, username, password, bcrypt).Ok? <==>
      exists id :: id in rows && rows[id].username == username && bcrypt.compare(rows[id].password, password)
    ensures Authenticate(rows, username, password, bcrypt).Err? ==> Authenticate(rows, username, password, bcrypt) == Err(WrongCredentials)
  {
  }

  /** With positive ids, the `excludeId` 0 of `Create` excludes nobody. */
  lemma CreateTestsEveryAdmin(rows: Table, nextId: int, username: string)
    requires Fresh(rows, nextId)
    ensures UsernameAvailable(rows, username, 0) <==> forall id :: id in rows ==> rows[id].username != username
  {
  }

  /** `Create` refuses a username any admin has, and writes nothing. */
  lemma CreateRefusesTaken(rows: Table, nextId: int, name: string, username: string, password: string, createdBy: Option<int>,
                           now: int, bcrypt: Bcrypt, other: int)
    requires Fresh(rows, nextId) && other in rows && rows[other].username == username
    ensures CreateOutcome(rows, nextId, name, username, password, createdBy, now, bcrypt) == Created(Err(UsernameTaken), rows, nextId)
  {
  }

  /** `Create` keeps every row under its id, usernames unique and ids below the counter. */
  lemma CreateKeepsConsistent(rows: Table, nextId: int, name: string, username: string, password: string, createdBy: Option<int>,
                              now: int, bcrypt: Bcrypt)
    requires Consistent(rows) && Fresh(rows, nextId)
    ensures var out := CreateOutcome(rows, nextId, name, username, password, createdBy, now, bcrypt);
      Consistent(out.rows) && Fresh(out.rows, out.nextId)
  {
  }

  /** The created admin is what `FindById` finds, with the creator `FindById` does not read dropped. */
  lemma CreatedFound(rows: Table, nextId: int, name: string, username: string, password: string, createdBy: Option<int>,
                     now: int, bcrypt: Bcrypt)
    requires CreateOutcome(rows, nextId, name, username, password, createdBy, now, bcrypt).id.Ok?
    ensures var out := CreateOutcome(rows, nextId, name, username, password, createdBy, now, bcrypt);
      FindById(out.rows, nextId) == Ok(Admin(nextId, name, username, None, At(now)))
  {
  }

  /** With a lawful bcrypt, a created admin can sign in with the password it was created with. */
  lemma CreatedAuthenticates(rows: Table, nextId: int, name: string, username: string, password: string, createdBy: Option<int>,
                             now: int, bcrypt: Bcrypt)
    requires Consistent(rows) && Fresh(rows, nextId) && Lawful(bcrypt)
    requires CreateOutcome(rows, nextId, name, username, password, createdBy, now, bcrypt).id.Ok?
    ensures var out := CreateOutcome(rows, nextId, name, username, password, createdBy, now, bcrypt);
      Consistent(out.rows) && Authenticate(out.rows, username, password, bcrypt) == Ok(nextId)
  {
    CreateKeepsConsistent(rows, nextId, name, username, password, createdBy, now, bcrypt);
    var out := CreateOutcome(rows, nextId, name, username, password, createdBy, now, bcrypt);
    assert out.rows[nextId].username == username;
    assert bcrypt.compare(out.rows[nextId].password, password);
  }

  /** An admin may keep its own username. */
  lemma OwnUsernameAvailable(rows: Table, id: int)
    requires UsernamesUnique(rows) && id in rows
    ensures UsernameAvailable(rows, rows[id].username, id)
  {
  }

  /** An admin may not take another admin's username: the update is refused and writes nothing. */
  lemma OthersUsernameRefused(rows: Table, name: string, password: string, id: int, other: int, bcrypt: Bcrypt)
    requires other in rows && other != id
    ensures UpdateOutcome(rows, name, rows[other].username, password, id, bcrypt) == Updated(Some(UsernameTaken), rows, None)
  {
  }

  /**
   * A successful update writes name and username, and the password column
   * iff the given password is non-empty; no other row changes.
   */
  lemma UpdateWrites(rows: Table, name: string, username: string, password: string, id: int, bcrypt: Bcrypt)
    requires UpdateOutcome(rows, name, username, password, id, bcrypt).err.None?
    ensures var after := UpdateOutcome(rows, name, username, password, id, bcrypt).rows;
      && id in rows && after.Keys == rows.Keys
      && after[id].name == name && after[id].username == username
      && after[id].id == rows[id].id && after[id].createdBy == rows[id].createdBy && after[id].createdAt == rows[id].createdAt
      && (password == "" ==> after[id].password == rows[id].password)
      && (password != "" ==> after[id].password == bcrypt.generate(password).value)
      && (forall other :: other in rows && other != id ==> after[other] == rows[other])
  {
  }

  /** An update of an id without a row reports "admin not found" and writes nothing. */
  lemma UnknownIdNotFound(rows: Table, name: string, username: string, password: string, id: int, bcrypt: Bcrypt)
    requires id !in rows && UsernameAvailable(rows, username, id)
    requires password != "" ==> bcrypt.generate(password).Ok?
    ensures UpdateOutcome(rows, name, username, password, id, bcrypt).err == Some(AdminNotFound)
    ensures UpdateOutcome(rows, name, username, password, id, bcrypt).rows == rows
  {
  }

  /**
   * An existing admin that resubmits its own name and username without a
   * new password is told "admin not found": no row changed, so none was
   * counted as affected.
   */
  lemma UnchangedUpdateReportsNotFound(rows: Table, id: int, bcrypt: Bcrypt)
    requires UsernamesUnique(rows) && id in rows
    ensures UpdateOutcome(rows, rows[id].name, rows[id].username, "", id, bcrypt).err == Some(AdminNotFound)
  {
    OwnUsernameAvailable(rows, id);
    assert Rewritten(rows[id], rows[id].name, rows[id].username, None) == rows[id];
  }

  /**
   * An existing admin that resubmits its own name and username with a
   * password bcrypt can hash succeeds, the freshly salted hash replacing
   * the stored one, even when the password is the one it already had.
   */
  lemma SamePasswordResubmissionSucceeds(rows: Table, id: int, password: string, bcrypt: Bcrypt)
    requires UsernamesUnique(rows) && id in rows
    requires password != "" && bcrypt.generate(password).Ok?
    ensures var out := UpdateOutcome(rows, rows[id].name, rows[id].username, password, id, bcrypt);
      out.err.None? && out.rows == rows[id := rows[id].(password := bcrypt.generate(password).value)]
  {
  }

  /** `Update` keeps every row under its id and usernames unique. */
  lemma UpdateKeepsConsistent(rows: Table, nextId: int, name: string, username: string, password: string, id: int, bcrypt: Bcrypt)
    requires Consistent(rows) && Fresh(rows, nextId)
    ensures var out := UpdateOutcome(rows, name, username, password, id, bcrypt);
      Consistent(out.rows) && Fresh(out.rows, nextId)
  {
    var out := UpdateOutcome(rows, name, username, password, id, bcrypt);
    if out.err.None? {
      UpdateWrites(rows, name, username, password, id, bcrypt);
      assert UsernameAvailable(rows, username, id);
    }
  }

  /** After a successful update with a new password and a lawful bcrypt, the admin signs in with it. */
  lemma UpdatedAuthenticates(rows: Table, name: string, username: string, password: string, id: int, bcrypt: Bcrypt)
    requires Consistent(rows) && Lawful(bcrypt) && password != ""
    requires UpdateOutcome(rows, name, username, password, id, bcrypt).err.None?
    ensures var after := UpdateOutcome(rows, name, username, password, id, bcrypt).rows;
      Consistent(after) && Authenticate(after, username, password, bcrypt) == Ok(id)
  {
    var after := UpdateOutcome(rows, name, username, password, id, bcrypt).rows;
    UpdateWrites(rows, name, username, password, id, bcrypt);
    assert UsernameAvailable(rows, username, id);
    assert Consistent(after);
    assert after[id].username == username && bcrypt.compare(after[id].password, password);
  }

  lemma UpdateHeadPlain()
    ensures Sql.Placeholders(UpdateHead) == 0
  {
    CountAbsent(UpdateHead, '?');
  }

  lemma UpdateWherePlain()
    ensures Sql.Placeholders(UpdateWhere) == 0
  {
    CountAbsent(UpdateWhere, '?');
  }

  lemma UpdateAssignmentsCounted()
    ensures Sql.Placeholders(Sql.Assignment("name")) == 1 && Sql.Placeholders(Sql.Assignment("username")) == 1
    ensures Sql.Placeholders(Sql.Assignment("id")) == 1
  {
    Sql.AssignmentPlaceholder("name");
    Sql.AssignmentPlaceholder("username");
    Sql.AssignmentPlaceholder("id");
  }

  lemma PasswordClausePlaceholders(withPassword: bool)
    ensures Sql.Placeholders(if withPassword then Sql.Comma + Sql.Assignment("password") else "") == if withPassword then 1 else 0
  {
    if withPassword {
      Sql.AssignmentPlaceholder("password");
      Sql.CommaPlain();
      CountAppend(Sql.Comma, Sql.Assignment("password"), '?');
    }
  }

  lemma {:induction false} SevenPieces(a: string, b: string, c: string, d: string, e: string, f: string, g: string)
    ensures Count(a + b + c + d + e + f + g, '?')
      == Count(a, '?') + Count(b, '?') + Count(c, '?') + Count(d, '?') + Count(e, '?') + Count(f, '?') + Count(g, '?')
  {
    CountAppend(a, b, '?');
    CountAppend(a + b, c, '?');
    CountAppend(a + b + c, d, '?');
    CountAppend(a + b + c + d, e, '?');
    CountAppend(a + b + c + d + e, f, '?');
    CountAppend(a + b + c + d + e + f, g, '?');
  }

  /** The update query has one placeholder per argument, with or without the password. */
  lemma UpdateStatementMatched(name: string, username: string, hash: Option<string>, id: int)
    ensures Sql.Matched(Sql.Statement(UpdateQuery(hash.Some?), UpdateArgs(name, username, hash, id)))
  {
    UpdateHeadPlain();
    UpdateWherePlain();
    UpdateAssignmentsCounted();
    Sql.CommaPlain();
    PasswordClausePlaceholders(hash.Some?);
    SevenPieces(UpdateHead, Sql.Assignment("name"), Sql.Comma, Sql.Assignment("username"),
      if hash.Some? then Sql.Comma + Sql.Assignment("password") else "", UpdateWhere, Sql.Assignment("id"));
  }

  /** Every statement `Update` executes binds one argument to each placeholder, the hash only when a password was given. */
  lemma UpdateSendsMatched(rows: Table, name: string, username: string, password: string, id: int, bcrypt: Bcrypt)
    ensures var out := UpdateOutcome(rows, name, username, password, id, bcrypt);
      out.sent.Some? ==> Sql.Matched(out.sent.value) && |out.sent.value.args| == (if password == "" then 3 else 4)
  {
    var hash := if password != "" && bcrypt.generate(password).Ok? then Some(bcrypt.generate(password).value) else None;
    UpdateStatementMatched(name, username, hash, id);
  }

  /** The table, updated in place, with its auto-increment counter. */
  class Admins {
    var rows: Table
    var nextId: int

    ghost predicate Valid()
      reads this
    {
      Consistent(rows) && Fresh(rows, nextId)
    }

    constructor ()
      ensures rows == map[] && nextId == 1 && Valid()
    {
      rows := map[];
      nextId := 1;
    }

    method Create(name: string, username: string, password: string, createdBy: Option<int>, now: int, bcrypt: Bcrypt)
      returns (r: Result<int>)
      requires Valid()
      modifies this
      ensures Valid()
      ensures var out := CreateOutcome(old(rows), old(nextId), name, username, password, createdBy, now, bcrypt);
        r == out.id && rows == out.rows && nextId == out.nextId
    {
      CreateKeepsConsistent(rows, nextId, name, username, password, createdBy, now, bcrypt);
      if !UsernameAvailable(rows, username, 0) {
        return Err(UsernameTaken);
      }
      var hash := bcrypt.generate(password);
      if hash.Err? {
        return Err(hash.error);
      }
      rows := rows[nextId := AdminRow(nextId, name, username, hash.value, createdBy, At(now))];
      r := Ok(nextId);
      nextId := nextId + 1;
    }

    /** `Update`, building its query clause by clause; `sent` is the statement executed, if any. */
    method Update(name: string, username: string, password: string, id: int, bcrypt: Bcrypt)
      returns (err: Option<AppError>, sent: Option<Sql.Statement>)
      requires Valid()
      modifies this
      ensures Valid()
      ensures var out := UpdateOutcome(old(rows), name, username, password, id, bcrypt);
        err == out.err && rows == out.rows && sent == out.sent
      ensures sent.Some? ==> Sql.Matched(sent.value)
      ensures nextId == old(nextId)
    {
      UpdateKeepsConsistent(rows, nextId, name, username, password, id, bcrypt);
      UpdateSendsMatched(rows, name, username, password, id, bcrypt);
      if !UsernameAvailable(rows, username, id) {
        return Some(UsernameTaken), None;
      }
      var query := UpdateHead + Sql.Assignment("name") + Sql.Comma + Sql.Assignment("username");
      if password != "" {
        query := query + (Sql.Comma + Sql.Assignment("password"));
      }
      query := query + UpdateWhere + Sql.Assignment("id");
      var hash: Option<string> := None;
      if password != "" {
        var generated := bcrypt.generate(password);
        if generated.Err? {
          return Some(generated.error), None;
        }
        hash := Some(generated.value);
      }
      assert query == UpdateQuery(hash.Some?);
      sent := Some(Sql.Statement(query, UpdateArgs(name, username, hash, id)));
      if id !in rows || (hash.None? && Rewritten(rows[id], name, username, hash) == rows[id]) {
        return Some(AdminNotFound), sent;
      }
      rows := rows[id := Rewritten(rows[id], name, username, hash)];
      err := None;
    }
  }
}
