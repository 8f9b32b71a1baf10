/**
 * middlewares/authenticate_admin.go: the gate of the admin routes. The
 * Authorization header must carry a Bearer token; the token's admin id is
 * read by `AdminTokenPayload.FromJWT`, whose code is not part of this model
 * and is a parameter here, and the admin is then loaded by id.
 */
module AdminGate {
  import opened Wrappers
  import Bearer
  import Admins

  /**
   * `AuthenticateAdmin`: the header test, then the token, then the lookup;
   * the errors of the last two are passed on unchanged.
   */
  function AuthenticateAdmin(authorization: string, readAdminId: string -> Result<int>, rows: Admins.Table): (r: Result<Admins.Admin>)
    ensures Bearer.ParseBearer(authorization).Err? ==> r == Err(Bearer.ParseBearer(authorization).error)
    ensures r.Ok? ==> Bearer.ParseBearer(authorization).Ok? && readAdminId(Bearer.ParseBearer(authorization).value).Ok?
  {
    match Bearer.ParseBearer(authorization)
    case Err(e) => Err(e)
    case Ok(token) =>
      match readAdminId(token)
      case Err(e) => Err(e)
      case Ok(adminId) => Admins.FindById(rows, adminId)
  }

  /** An empty header is refused with 401 "No authorization provided.", and a header without the Bearer scheme with 401 "Invalid token.". */
  lemma HeaderRefusals(readAdminId: string -> Result<int>, rows: Admins.Table, scheme: string, token: string)
    requires ' ' !in scheme && scheme != "Bearer"
    ensures AuthenticateAdmin("", readAdminId, rows) == Err(Bearer.NoAuthorization)
    ensures AuthenticateAdmin(scheme + " " + token, readAdminId, rows) == Err(Bearer.InvalidToken)
  {
    Bearer.SchemeIsExact(scheme, token);
  }

  /**
   * A Bearer token whose admin id reads back is decided by the lookup alone:
   * the admin with that id, or the driver's no-rows error, which is not
   * turned into a 401 or a 404.
   */
  lemma DecidedByLookup(readAdminId: string -> Result<int>, rows: Admins.Table, token: string, rest: Option<string>)
    requires ' ' !in token && readAdminId(token).Ok?
    ensures var header := "Bearer " + token + (if rest.Some? then " " + rest.value else "");
      AuthenticateAdmin(header, readAdminId, rows) == Admins.FindById(rows, readAdminId(token).value)
    ensures var header := "Bearer " + token + (if rest.Some? then " " + rest.value else "");
      readAdminId(token).value !in rows ==> AuthenticateAdmin(header, readAdminId, rows) == Err(Admins.NoRows)
  {
    Bearer.TokenAfterBearer(token, rest);
  }

  /** A token that does not read is refused with the reader's own error, before any lookup. */
  lemma TokenErrorPassedOn(readAdminId: string -> Result<int>, rows: Admins.Table, token: string)
    requires ' ' !in token && readAdminId(token).Err?
    ensures AuthenticateAdmin("Bearer " + token, readAdminId, rows) == Err(readAdminId(token).error)
  {
    Bearer.TokenAfterBearer(token, None);
    assert "Bearer " + token + "" == "Bearer " + token;
  }

  /** The admin let in is the one the token names. */
  lemma AdmittedIsNamed(authorization: string, readAdminId: string -> Result<int>, rows: Admins.Table)
    requires AuthenticateAdmin(authorization, readAdminId, rows).Ok?
    ensures var adminId := readAdminId(Bearer.ParseBearer(authorization).value).value;
      adminId in rows && AuthenticateAdmin(authorization, readAdminId, rows).value.id == rows[adminId].id
  {
  }
}
