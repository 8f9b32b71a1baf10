/**
 * models/user_token.go: the `user_tokens` table of sessions. Each operation
 * is a function on the table (its outcome and the table after it), and the
 * class `UserTokens` holds the table and performs them in place.
 */
module Sessions {
  import opened Wrappers
  import opened Dates
  import IdGeneration

  /** A row of `user_tokens` (types/user_token.go). */
  datatype UserToken = UserToken(
    id: string,
    userId: string,
    fromLoginToken: Option<string>,
    fromUserToken: Option<string>,
    ipAddress: string,
    device: string,
    disconnected: bool,
    lastActivity: Stamp,
    expiresAt: Stamp,
    createdAt: Stamp)

  /** The table, by primary key. */
  type Table = map<string, UserToken>

  /** Every row is filed under its own id. */
  ghost predicate Keyed(rows: Table)
  {
    forall id {:trigger rows[id].id} :: id in rows ==> rows[id].id == id
  }

  /** No two rows come from the same login token. */
  ghost predicate LoginTokensUsedOnce(rows: Table)
  {
    forall a, b {:trigger rows[a].fromLoginToken, rows[b].fromLoginToken} :: a in rows && b in rows && rows[a].fromLoginToken.Some? && rows[a].fromLoginToken == rows[b].fromLoginToken ==> a == b
  }

  ghost predicate Consistent(rows: Table)
  {
    Keyed(rows) && LoginTokensUsedOnce(rows)
  }

  const NoSource := AppError(400, "No login or user token provided.")
  const LoginTokenUsed := AppError(400, "Login token already used.")
  const IdExhausted := AppError(500, "Failed to generate ID.")
  const NotFound := AppError(404, "User token not found.")

  /** `checkLoginTokenAvailability`: no row comes from that login token. */
  predicate LoginTokenAvailable(rows: Table, loginTokenId: string)
  {
    forall id :: id in rows ==> rows[id].fromLoginToken != Some(loginTokenId)
  }

  /** `FindById`. */
  function FindById(rows: Table, id: string): (r: Result<UserToken>)
    ensures r.Ok? <==> id in rows
    ensures r.Ok? ==> r.value == rows[id]
    ensures r.Err? ==> r.error == NotFound
  {
    if id in rows then Ok(rows[id]) else Err(NotFound)
  }

  /**
   * The row `Create` inserts at time `now`. The insert names every column
   * but `disconnected`, `last_activity` and `created_at`, which take the
   * table's defaults: not disconnected, and the insert time.
   */
  function NewRow(id: string, userId: string, fromLoginToken: Option<string>, fromUserToken: Option<string>,
                  ipAddress: string, device: string, expiresIn: int, now: int): UserToken
  {
    UserToken(id, userId, fromLoginToken, fromUserToken, ipAddress, device, false, At(now), At(now + expiresIn), At(now))
  }

  /** What `Create` returns, how many identifiers it drew, and the table after it. */
  datatype Created = Created(id: Result<string>, used: nat, rows: Table)

  /**
   * `Create`: a session needs a source (a login token, a previous session,
   * or both); a login token gives at most one session; the identifier comes
   * from `generateId`, drawing from draw number `from` on.
   */
  function CreateOutcome(rows: Table, userId: string, fromLoginToken: Option<string>, fromUserToken: Option<string>,
                         ipAddress: string, device: string, expiresIn: int, now: int,
                         draw: nat -> Result<string>, from: nat): (out: Created)
    ensures out.id.Ok? ==> (out.id.value !in rows
      && out.rows == rows[out.id.value := NewRow(out.id.value, userId, fromLoginToken, fromUserToken, ipAddress, device, expiresIn, now)])
    ensures out.id.Err? ==> out.rows == rows
    ensures out.used <= IdGeneration.MaxDraws
  {
    if fromLoginToken.None? && fromUserToken.None? then Created(Err(NoSource), 0, rows)
    else if fromLoginToken.Some? && !LoginTokenAvailable(rows, fromLoginToken.value) then Created(Err(LoginTokenUsed), 0, rows)
    else
      var search := IdGeneration.Attempt(draw, from, rows.Keys, IdGeneration.MaxDraws, IdExhausted);
      match search.0
      case Err(e) => Created(Err(e), search.1, rows)
      case Ok(id) => Created(Ok(id), search.1, rows[id := NewRow(id, userId, fromLoginToken, fromUserToken, ipAddress, device, expiresIn, now)])
  }

  /** `UpdateActivity`: `last_activity` of the row with that id becomes `now`; no row, no change. */
  function Touched(rows: Table, id: string, now: int): (after: Table)
    ensures after.Keys == rows.Keys
  {
    if id in rows then rows[id := rows[id].(lastActivity := At(now))] else rows
  }

  /** `Disconnect`: `disconnected` of the row with that id becomes true; no row, no change. */
  function Disconnected(rows: Table, id: string): (after: Table)
    ensures after.Keys == rows.Keys
  {
    if id in rows then rows[id := rows[id].(disconnected := true)] else rows
  }

  /** Without a source, nothing is drawn and nothing is written. */
  lemma NeitherSourceRejected(rows: Table, userId: string, ipAddress: string, device: string, expiresIn: int, now: int,
                              draw: nat -> Result<string>, from: nat)
    ensures CreateOutcome(rows, userId, None, None, ipAddress, device, expiresIn, now, draw, from) == Created(Err(NoSource), 0, rows)
  {
  }

  /**
   * Both sources at once are accepted: with an unused login token and a
   * free first draw the row is inserted holding both references.
   */
  lemma BothSourcesAccepted(rows: Table, userId: string, loginTokenId: string, userTokenId: string,
                            ipAddress: string, device: string, expiresIn: int, now: int,
                            draw: nat -> Result<string>, from: nat)
    requires LoginTokenAvailable(rows, loginTokenId)
    requires draw(from).Ok? && draw(from).value !in rows
    ensures var out := CreateOutcome(rows, userId, Some(loginTokenId), Some(userTokenId), ipAddress, device, expiresIn, now, draw, from);
      && out.id == draw(from)
      && out.rows[draw(from).value].fromLoginToken == Some(loginTokenId)
      && out.rows[draw(from).value].fromUserToken == Some(userTokenId)
  {
    IdGeneration.FirstFreeDrawWins(draw, from, rows.Keys, IdGeneration.MaxDraws, IdExhausted);
  }

  /** A login token that a row already references is refused before any draw. */
  lemma UsedLoginTokenRejected(rows: Table, userId: string, loginTokenId: string, fromUserToken: Option<string>,
                               ipAddress: string, device: string, expiresIn: int, now: int,
                               draw: nat -> Result<string>, from: nat, holder: string)
    requires holder in rows && rows[holder].fromLoginToken == Some(loginTokenId)
    ensures CreateOutcome(rows, userId, Some(loginTokenId), fromUserToken, ipAddress, device, expiresIn, now, draw, from)
      == Created(Err(LoginTokenUsed), 0, rows)
  {
  }

  /** When all 21 draws succeed and are taken, `Create` fails with "Failed to generate ID." after 21 draws. */
  lemma AllTakenExhausts(rows: Table, userId: string, fromLoginToken: Option<string>, fromUserToken: Option<string>,
                         ipAddress: string, device: string, expiresIn: int, now: int,
                         draw: nat -> Result<string>, from: nat)
    requires fromLoginToken.Some? || fromUserToken.Some?
    requires fromLoginToken.Some? ==> LoginTokenAvailable(rows, fromLoginToken.value)
    requires IdGeneration.AllTaken(draw, from, IdGeneration.MaxDraws, rows.Keys)
    ensures CreateOutcome(rows, userId, fromLoginToken, fromUserToken, ipAddress, device, expiresIn, now, draw, from)
      == Created(Err(IdExhausted), IdGeneration.MaxDraws, rows)
  {
    IdGeneration.TakenPrefix(draw, from, rows.Keys, IdGeneration.MaxDraws, IdGeneration.MaxDraws, IdExhausted);
  }

  /**
   * Conversely, when no draw itself fails with that error, "Failed to
   * generate ID." means all 21 draws were made and taken.
   */
  lemma ExhaustedMeansAllTaken(rows: Table, userId: string, fromLoginToken: Option<string>, fromUserToken: Option<string>,
                               ipAddress: string, device: string, expiresIn: int, now: int,
                               draw: nat -> Result<string>, from: nat)
    requires forall k :: draw(k) != Err(IdExhausted)
    requires CreateOutcome(rows, userId, fromLoginToken, fromUserToken, ipAddress, device, expiresIn, now, draw, from).id == Err(IdExhausted)
    ensures IdGeneration.AllTaken(draw, from, IdGeneration.MaxDraws, rows.Keys)
    ensures CreateOutcome(rows, userId, fromLoginToken, fromUserToken, ipAddress, device, expiresIn, now, draw, from).used == IdGeneration.MaxDraws
  {
    IdGeneration.ExhaustedMeansAllTaken(draw, from, rows.Keys, IdGeneration.MaxDraws, IdExhausted);
  }

  /** `Create` keeps rows keyed by id and login tokens used at most once. */
  lemma CreateKeepsConsistent(rows: Table, userId: string, fromLoginToken: Option<string>, fromUserToken: Option<string>,
                              ipAddress: string, device: string, expiresIn: int, now: int,
                              draw: nat -> Result<string>, from: nat)
    requires Consistent(rows)
    ensures Consistent(CreateOutcome(rows, userId, fromLoginToken, fromUserToken, ipAddress, device, expiresIn, now, draw, from).rows)
  {
  }

  /** `UpdateActivity` changes the `last_activity` of that one row and nothing else. */
  lemma TouchChangesOnlyActivity(rows: Table, id: string, now: int)
    ensures forall other :: other in rows && other != id ==> Touched(rows, id, now)[other] == rows[other]
    ensures id in rows ==> Touched(rows, id, now)[id] == rows[id].(lastActivity := At(now))
    ensures id !in rows ==> Touched(rows, id, now) == rows
    ensures Consistent(rows) ==> Consistent(Touched(rows, id, now))
  {
  }

  /** `Disconnect` changes the `disconnected` flag of that one row and nothing else, whatever its prior state. */
  lemma DisconnectChangesOnlyFlag(rows: Table, id: string)
    ensures forall other :: other in rows && other != id ==> Disconnected(rows, id)[other] == rows[other]
    ensures id in rows ==> Disconnected(rows, id)[id] == rows[id].(disconnected := true)
    ensures id !in rows ==> Disconnected(rows, id) == rows
    ensures Consistent(rows) ==> Consistent(Disconnected(rows, id))
  {
  }

  /** The table, updated in place. */
  class UserTokens {
    var rows: Table

    /** Rows are filed under their own ids; that login tokens are used once is `CreateKeepsConsistent`. */
    ghost predicate Valid()
      reads this
    {
      Keyed(rows)
    }

    constructor ()
      ensures rows == map[] && Valid()
    {
      rows := map[];
    }

    /** `generateId`: the bounded search against the identifiers in use. */
    method GenerateId(draw: nat -> Result<string>, from: nat) returns (r: Result<string>, used: nat)
      ensures (r, used) == IdGeneration.Attempt(draw, from, rows.Keys, IdGeneration.MaxDraws, IdExhausted)
      ensures r.Ok? ==> r.value !in rows
    {
      r, used := IdGeneration.Generate(draw, from, rows.Keys, IdExhausted);
    }

    method Create(userId: string, fromLoginToken: Option<string>, fromUserToken: Option<string>,
                  ipAddress: string, device: string, expiresIn: int, now: int,
                  draw: nat -> Result<string>, from: nat) returns (r: Result<string>, used: nat)
      requires Valid()
      modifies this
      ensures Valid()
      ensures var out := CreateOutcome(old(rows), userId, fromLoginToken, fromUserToken, ipAddress, device, expiresIn, now, draw, from);
        r == out.id && used == out.used && rows == out.rows
    {
      if fromLoginToken.None? && fromUserToken.None? {
        return Err(NoSource), 0;
      }
      if fromLoginToken.Some? && !LoginTokenAvailable(rows, fromLoginToken.value) {
        return Err(LoginTokenUsed), 0;
      }
      r, used := GenerateId(draw, from);
      if r.Err? {
        return;
      }
      rows := rows[r.value := NewRow(r.value, userId, fromLoginToken, fromUserToken, ipAddress, device, expiresIn, now)];
    }

    method UpdateActivity(id: string, now: int)
      requires Valid()
      modifies this
      ensures Valid()
      ensures rows == Touched(old(rows), id, now)
    {
      TouchChangesOnlyActivity(rows, id, now);
      if id in rows {
        rows := rows[id := rows[id].(lastActivity := At(now))];
      }
    }

    method Disconnect(id: string)
      requires Valid()
      modifies this
      ensures Valid()
      ensures rows == Disconnected(old(rows), id)
    {
      DisconnectChangesOnlyFlag(rows, id);
      if id in rows {
        rows := rows[id := rows[id].(disconnected := true)];
      }
    }
  }
}
