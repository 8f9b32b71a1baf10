/**
 * models/user.go: the `users` table. Each operation is a function on the
 * table, and the class `Users` holds the table and performs them in place.
 */
module Users {
  import opened Wrappers
  import opened Dates
  import IdGeneration

  /** A row of `users` (types/user.go). */
  datatype User = User(id: string, email: string, banned: bool, createdAt: Stamp)

  type Table = map<string, User>

  /** Every row is filed under its own id. */
  ghost predicate Keyed(rows: Table)
  {
    forall id {:trigger rows[id].id} :: id in rows ==> rows[id].id == id
  }

  /** No two users share an email address. */
  ghost predicate EmailsUnique(rows: Table)
  {
    forall a, b {:trigger rows[a].email, rows[b].email} :: a in rows && b in rows && rows[a].email == rows[b].email ==> a == b
  }

  ghost predicate Consistent(rows: Table)
  {
    Keyed(rows) && EmailsUnique(rows)
  }

  const NotFound := AppError(404, "User not found.")
  const EmailTaken := AppError(409, "Email already registered.")
  const IdExhausted := AppError(500, "Failed to generate ID.")

  /** `checkEmailAvailability`: no user has that email. */
  predicate EmailAvailable(rows: Table, email: string)
  {
    forall id :: id in rows ==> rows[id].email != email
  }

  /** `FindById`. */
  function FindById(rows: Table, id: string): (r: Result<User>)
    ensures r.Ok? <==> id in rows
    ensures r.Ok? ==> r.value == rows[id]
    ensures r.Err? ==> r.error == NotFound
  {
    if id in rows then Ok(rows[id]) else Err(NotFound)
  }

  /**
   * `FindByEmail`: the user with exactly that email. With emails unique,
   * the `LIMIT 1` row is the only one.
   */
  function FindByEmail(rows: Table, email: string): (r: Result<User>)
    requires EmailsUnique(rows)
    ensures r.Ok? <==> !EmailAvailable(rows, email)
    ensures r.Ok? ==> r.value.email == email && r.value in rows.Values
    ensures r.Err? ==> r.error == NotFound
  {
    if exists id :: id in rows && rows[id].email == email then
      var id :| id in rows && rows[id].email == email;
      Ok(rows[id])
    else Err(NotFound)
  }

  /** What `Create` returns, how many identifiers it drew, and the table after it. */
  datatype Created = Created(id: Result<string>, used: nat, rows: Table)

  /**
   * `Create(email)` at time `now`: the identifier is drawn first, then the
   * email is checked; the row takes the table's defaults for `banned` (false)
   * and `created_at` (the insert time).
   */
  function CreateOutcome(rows: Table, email: string, now: int, draw: nat -> Result<string>, from: nat): (out: Created)
    ensures out.id.Ok? ==> (out.id.value !in rows && out.rows == rows[out.id.value := User(out.id.value, email, false, At(now))])
    ensures out.id.Err? ==> out.rows == rows
    ensures out.used <= IdGeneration.MaxDraws
  {
    var search := IdGeneration.Attempt(draw, from, rows.Keys, IdGeneration.MaxDraws, IdExhausted);
    match search.0
    case Err(e) => Created(Err(e), search.1, rows)
    case Ok(id) =>
      if !EmailAvailable(rows, email) then Created(Err(EmailTaken), search.1, rows)
      else Created(Ok(id), search.1, rows[id := User(id, email, false, At(now))])
  }

  /** `Ban` and `Unban`: `banned` of the row with that id is set; no row, no change and no error. */
  function WithBanned(rows: Table, id: string, banned: bool): (after: Table)
    ensures after.Keys == rows.Keys
  {
    if id in rows then rows[id := rows[id].(banned := banned)] else rows
  }

  /** A registered email is refused with 409, but only after a successful draw, which is spent. */
  lemma RegisteredEmailRefused(rows: Table, email: string, now: int, draw: nat -> Result<string>, from: nat)
    requires !EmailAvailable(rows, email)
    requires draw(from).Ok? && draw(from).value !in rows
    ensures CreateOutcome(rows, email, now, draw, from) == Created(Err(EmailTaken), 1, rows)
  {
    IdGeneration.FirstFreeDrawWins(draw, from, rows.Keys, IdGeneration.MaxDraws, IdExhausted);
  }

  /** A failing identifier search wins over a registered email: the email is not even looked at. */
  lemma IdBeforeEmail(rows: Table, email: string, now: int, draw: nat -> Result<string>, from: nat)
    requires IdGeneration.AllTaken(draw, from, IdGeneration.MaxDraws, rows.Keys)
    ensures CreateOutcome(rows, email, now, draw, from) == Created(Err(IdExhausted), IdGeneration.MaxDraws, rows)
  {
    IdGeneration.TakenPrefix(draw, from, rows.Keys, IdGeneration.MaxDraws, IdGeneration.MaxDraws, IdExhausted);
  }

  /** `Create` keeps every row under its id and every email unique. */
  lemma CreateKeepsConsistent(rows: Table, email: string, now: int, draw: nat -> Result<string>, from: nat)
    requires Consistent(rows)
    ensures Consistent(CreateOutcome(rows, email, now, draw, from).rows)
  {
  }

  /** After a successful `Create` the new user is what `FindByEmail` finds. */
  lemma CreatedIsFound(rows: Table, email: string, now: int, draw: nat -> Result<string>, from: nat)
    requires Consistent(rows)
    requires CreateOutcome(rows, email, now, draw, from).id.Ok?
    ensures var out := CreateOutcome(rows, email, now, draw, from);
      Consistent(out.rows) && FindByEmail(out.rows, email) == Ok(User(out.id.value, email, false, At(now)))
  {
    CreateKeepsConsistent(rows, email, now, draw, from);
    var out := CreateOutcome(rows, email, now, draw, from);
    FoundByEmail(out.rows, out.id.value);
  }

  /** With emails unique, a user is what `FindByEmail` of its email finds. */
  lemma FoundByEmail(rows: Table, id: string)
    requires EmailsUnique(rows) && id in rows
    ensures FindByEmail(rows, rows[id].email) == Ok(rows[id])
  {
  }

  /** `Ban`/`Unban` set the flag of that one row and change nothing else; an unknown id is silently ignored. */
  lemma SetBannedChangesOnlyFlag(rows: Table, id: string, banned: bool)
    ensures forall other :: other in rows && other != id ==> WithBanned(rows, id, banned)[other] == rows[other]
    ensures id in rows ==> WithBanned(rows, id, banned)[id] == rows[id].(banned := banned)
    ensures id !in rows ==> WithBanned(rows, id, banned) == rows
    ensures Consistent(rows) ==> Consistent(WithBanned(rows, id, banned))
  {
  }

  /** The table, updated in place. */
  class Users {
    var rows: Table

    ghost predicate Valid()
      reads this
    {
      Consistent(rows)
    }

    constructor ()
      ensures rows == map[] && Valid()
    {
      rows := map[];
    }

    /** `generateId`: the bounded search against the identifiers in use. */
    method GenerateId(draw: nat -> Result<string>, from: nat) returns (r: Result<string>, used: nat)
      ensures (r, used) == IdGeneration.Attempt(draw, from, rows.Keys, IdGeneration.MaxDraws, IdExhausted)
      ensures r.Ok? ==> r.value !in rows
    {
      r, used := IdGeneration.Generate(draw, from, rows.Keys, IdExhausted);
    }

    method Create(email: string, now: int, draw: nat -> Result<string>, from: nat) returns (r: Result<string>, used: nat)
      requires Valid()
      modifies this
      ensures Valid()
      ensures var out := CreateOutcome(old(rows), email, now, draw, from);
        r == out.id && used == out.used && rows == out.rows
    {
      CreateKeepsConsistent(rows, email, now, draw, from);
      r, used := GenerateId(draw, from);
      if r.Err? {
        return;
      }
      if !EmailAvailable(rows, email) {
        return Err(EmailTaken), used;
      }
      rows := rows[r.value := User(r.value, email, false, At(now))];
    }

    method Ban(id: string)
      requires Valid()
      modifies this
      ensures Valid()
      ensures rows == WithBanned(old(rows), id, true)
    {
      SetBannedChangesOnlyFlag(rows, id, true);
      if id in rows {
        rows := rows[id := rows[id].(banned := true)];
      }
    }

    method Unban(id: string)
      requires Valid()
      modifies this
      ensures Valid()
      ensures rows == WithBanned(old(rows), id, false)
    {
      SetBannedChangesOnlyFlag(rows, id, false);
      if id in rows {
        rows := rows[id := rows[id].(banned := false)];
      }
    }
  }
}
