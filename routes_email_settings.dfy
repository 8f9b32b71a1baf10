/**
 * routes/email_settings.go: admins read and replace the SMTP account the
 * mailer uses. `List` sends the newest settings; `Update` checks the form
 * and passes its four fields to the model as a column-to-value map.
 */
module EmailSettingRoutes {
  import opened Wrappers
  import opened Http
  import Admins
  import AdminGate
  import EmailSettings

  const NoHost := AppError(400, "Insert the host.")
  const InvalidData := AppError(400, "Invalid data.")
  const NoPort := AppError(400, "Insert the port.")
  const NoUsername := AppError(400, "Insert the username.")

  /** The body of `Update`. */
  datatype SettingsForm = SettingsForm(host: string, port: string, username: string, password: string)

  type Cipher = string -> Result<string>

  /** `List`: GET only, admins only, then the newest settings with the password in clear. */
  function ListReply(httpMethod: string, authorization: string, readAdminId: string -> Result<int>, admins: Admins.Table,
                     rows: seq<EmailSettings.EmailSetting>, decrypt: Cipher): Reply<EmailSettings.EmailSetting>
  {
    if httpMethod != "GET" then MethodNotAllowed()
    else
      match AdminGate.AuthenticateAdmin(authorization, readAdminId, admins)
      case Err(e) => Failure(e)
      case Ok(_) =>
        match EmailSettings.List(rows, decrypt)
        case Err(e) => Failure(e)
        case Ok(settings) => Reply(200, Data(settings))
  }

  /**
   * Only an admin's GET reads the table: any other method is 405, and a
   * caller the admin gate refuses gets the gate's error, whatever the table
   * holds.
   */
  lemma ListGuards(httpMethod: string, authorization: string, readAdminId: string -> Result<int>, admins: Admins.Table,
                   rows: seq<EmailSettings.EmailSetting>, others: seq<EmailSettings.EmailSetting>, decrypt: Cipher)
    ensures httpMethod != "GET" ==> ListReply(httpMethod, authorization, readAdminId, admins, rows, decrypt) == Reply(405, Empty)
    ensures AdminGate.AuthenticateAdmin(authorization, readAdminId, admins).Err? ==>
      ListReply(httpMethod, authorization, readAdminId, admins, rows, decrypt)
        == ListReply(httpMethod, authorization, readAdminId, admins, others, decrypt)
    ensures httpMethod == "GET" && AdminGate.AuthenticateAdmin(authorization, readAdminId, admins).Ok? && rows == [] ==>
      ListReply(httpMethod, authorization, readAdminId, admins, rows, decrypt) == Reply(404, Message("Email settings not found."))
  {
  }

  /** The map the route hands to the model: exactly the four columns, the password possibly empty. */
  function FormData(form: SettingsForm): (data: map<string, string>)
    ensures forall c :: c in data <==> EmailSettings.Known(c)
  {
    map["host" := form.host, "port" := form.port, "username" := form.username, "password" := form.password]
  }

  /** An order in which Go may visit the map: each column of the table, once or more. */
  predicate MapOrder(keys: seq<string>)
  {
    && (forall k :: 0 <= k < |keys| ==> EmailSettings.Known(keys[k]))
    && "host" in keys && "port" in keys && "username" in keys && "password" in keys
  }

  /** The first field the form lacks: host, then port, then username; the password may be empty. */
  function FormError(form: SettingsForm): (e: Option<AppError>)
    ensures e.None? <==> form.host != "" && form.port != "" && form.username != ""
  {
    if form.host == "" then Some(NoHost)
    else if form.port == "" then Some(NoPort)
    else if form.username == "" then Some(NoUsername)
    else None
  }

  /**
   * `Update`, with the map visited in the order `keys`: PUT only, admins
   * only, the body and its checks, then the model's update; an empty reply
   * with 200 on success. The reply and the table after it.
   */
  function UpdateReply(httpMethod: string, authorization: string, readAdminId: string -> Result<int>, admins: Admins.Table,
                       body: Decoded<SettingsForm>, rows: seq<EmailSettings.EmailSetting>, keys: seq<string>,
                       encrypt: Cipher): (out: (Reply<()>, seq<EmailSettings.EmailSetting>))
    requires MapOrder(keys)
    ensures out.1 == rows || out.0 == Reply(200, Empty)
  {
    if httpMethod != "PUT" then (MethodNotAllowed(), rows)
    else
      match AdminGate.AuthenticateAdmin(authorization, readAdminId, admins)
      case Err(e) => (Failure(e), rows)
      case Ok(_) =>
        match body
        case Eof => (Failure(NoHost), rows)
        case Invalid => (Failure(InvalidData), rows)
        case Null => (Dropped, rows)
        case Object(form) =>
          match FormError(form)
          case Some(e) => (Failure(e), rows)
          case None =>
            var updated := EmailSettings.UpdateOutcome(rows, FormData(form), keys, encrypt);
            match updated.err
            case Some(e) => (Failure(e), rows)
            case None => (Reply(200, Empty), updated.rows)
  }

  /** An empty body is answered like a form without a host, and an undecodable one with 400 "Invalid data.". */
  lemma BodyRefusals(authorization: string, readAdminId: string -> Result<int>, admins: Admins.Table,
                     rows: seq<EmailSettings.EmailSetting>, keys: seq<string>, encrypt: Cipher, form: SettingsForm)
    requires MapOrder(keys) && AdminGate.AuthenticateAdmin(authorization, readAdminId, admins).Ok?
    requires form.host == ""
    ensures UpdateReply("PUT", authorization, readAdminId, admins, Eof, rows, keys, encrypt)
      == UpdateReply("PUT", authorization, readAdminId, admins, Object(form), rows, keys, encrypt)
      == (Reply(400, Message("Insert the host.")), rows)
    ensures UpdateReply("PUT", authorization, readAdminId, admins, Invalid, rows, keys, encrypt)
      == (Reply(400, Message("Invalid data.")), rows)
  {
  }

  /**
   * An update succeeds exactly for an admin's PUT of a form with host,
   * port and username whose password, if any, encrypts; a failed
   * encryption is 500 "Failed to encrypt password." with nothing written.
   */
  lemma UpdateSucceedsIff(httpMethod: string, authorization: string, readAdminId: string -> Result<int>, admins: Admins.Table,
                          body: Decoded<SettingsForm>, rows: seq<EmailSettings.EmailSetting>, keys: seq<string>,
                          encrypt: Cipher)
    requires MapOrder(keys)
    ensures var out := UpdateReply(httpMethod, authorization, readAdminId, admins, body, rows, keys, encrypt);
      out.0 == Reply(200, Empty) <==>
        && httpMethod == "PUT" && AdminGate.AuthenticateAdmin(authorization, readAdminId, admins).Ok?
        && body.Object? && FormError(body.value).None?
        && (body.value.password != "" ==> encrypt(body.value.password).Ok?)
    ensures var out := UpdateReply(httpMethod, authorization, readAdminId, admins, body, rows, keys, encrypt);
      (&& httpMethod == "PUT" && AdminGate.AuthenticateAdmin(authorization, readAdminId, admins).Ok?
       && body.Object? && FormError(body.value).None?
       && body.value.password != "" && encrypt(body.value.password).Err?)
      ==> out == (Reply(500, Message("Failed to encrypt password.")), rows)
  {
    if httpMethod == "PUT" && AdminGate.AuthenticateAdmin(authorization, readAdminId, admins).Ok?
       && body.Object? && FormError(body.value).None? {
      var data := FormData(body.value);
      assert forall k :: 0 <= k < |keys| ==> keys[k] in data;
      assert "host" in keys && "host" in data;
      if !EmailSettings.PasswordFails(data, keys, encrypt) {
        EmailSettings.AcceptedIff(data, keys, encrypt);
      }
    }
  }

  /**
   * After a successful update every row holds the host, port and username
   * sent and, when a password was sent, its encryption; an empty password
   * leaves each row's password as it was.
   */
  lemma UpdateRewritesRows(authorization: string, readAdminId: string -> Result<int>, admins: Admins.Table,
                           form: SettingsForm, rows: seq<EmailSettings.EmailSetting>, keys: seq<string>, encrypt: Cipher,
                           j: int)
    requires MapOrder(keys)
    requires UpdateReply("PUT", authorization, readAdminId, admins, Object(form), rows, keys, encrypt).0 == Reply(200, Empty)
    requires 0 <= j < |rows|
    ensures form.password != "" ==> encrypt(form.password).Ok?
    ensures var after := UpdateReply("PUT", authorization, readAdminId, admins, Object(form), rows, keys, encrypt).1;
      && |after| == |rows|
      && after[j].host == form.host && after[j].port == form.port && after[j].username == form.username
      && after[j].password == if form.password == "" then rows[j].password else encrypt(form.password).value
  {
    UpdateSucceedsIff("PUT", authorization, readAdminId, admins, Object(form), rows, keys, encrypt);
    var data := FormData(form);
    assert forall k :: 0 <= k < |keys| ==> keys[k] in data;
    var updated := EmailSettings.UpdateOutcome(rows, data, keys, encrypt);
    assert UpdateReply("PUT", authorization, readAdminId, admins, Object(form), rows, keys, encrypt).1 == updated.rows;
    EmailSettings.FieldsByName(updated.rows[j]);
    EmailSettings.FieldsByName(rows[j]);
    EmailSettings.UpdateWritesEveryRow(rows, data, keys, encrypt, j, "host");
    EmailSettings.UpdateWritesEveryRow(rows, data, keys, encrypt, j, "port");
    EmailSettings.UpdateWritesEveryRow(rows, data, keys, encrypt, j, "username");
    EmailSettings.UpdateWritesEveryRow(rows, data, keys, encrypt, j, "password");
  }

  /**
   * What an admin sets is what an admin then lists: with a cipher whose
   * decryption undoes its encryption, the settings listed after a
   * successful update of a non-empty table are the form, with the
   * previous password when none was sent.
   */
  lemma UpdateThenList(authorization: string, readAdminId: string -> Result<int>, admins: Admins.Table,
                       form: SettingsForm, rows: seq<EmailSettings.EmailSetting>, keys: seq<string>,
                       encrypt: Cipher, decrypt: Cipher)
    requires MapOrder(keys) && rows != []
    requires forall p :: encrypt(p).Ok? ==> decrypt(encrypt(p).value) == Ok(p)
    requires UpdateReply("PUT", authorization, readAdminId, admins, Object(form), rows, keys, encrypt).0 == Reply(200, Empty)
    ensures var after := UpdateReply("PUT", authorization, readAdminId, admins, Object(form), rows, keys, encrypt).1;
      var password := if form.password == "" then decrypt(rows[|rows| - 1].password) else Ok(form.password);
      ListReply("GET", authorization, readAdminId, admins, after, decrypt) ==
        if password.Ok? then Reply(200, Data(EmailSettings.EmailSetting(form.host, form.port, form.username, password.value)))
        else Failure(password.error)
  {
    UpdateSucceedsIff("PUT", authorization, readAdminId, admins, Object(form), rows, keys, encrypt);
    UpdateRewritesRows(authorization, readAdminId, admins, form, rows, keys, encrypt, |rows| - 1);
    var after := UpdateReply("PUT", authorization, readAdminId, admins, Object(form), rows, keys, encrypt).1;
    var password := if form.password == "" then decrypt(rows[|rows| - 1].password) else Ok(form.password);
    ListNewest(after, decrypt, form.host, form.port, form.username, password);
  }

  /** `List` after the update: the fields of the newest row, and its password decrypted or the decryption error. */
  lemma ListNewest(rows: seq<EmailSettings.EmailSetting>, decrypt: Cipher, host: string, port: string, username: string,
                   password: Result<string>)
    requires rows != [] && decrypt(rows[|rows| - 1].password) == password
    requires var newest := rows[|rows| - 1]; newest.host == host && newest.port == port && newest.username == username
    ensures EmailSettings.List(rows, decrypt)
      == if password.Ok? then Ok(EmailSettings.EmailSetting(host, port, username, password.value)) else Err(password.error)
  {
  }

  /**
   * On an empty table the statement matches no row: the update reports
   * success, and the settings are still not found.
   */
  lemma EmptyTableStaysEmpty(authorization: string, readAdminId: string -> Result<int>, admins: Admins.Table,
                             form: SettingsForm, keys: seq<string>, encrypt: Cipher, decrypt: Cipher)
    requires MapOrder(keys) && AdminGate.AuthenticateAdmin(authorization, readAdminId, admins).Ok?
    requires FormError(form).None? && form.password == ""
    ensures UpdateReply("PUT", authorization, readAdminId, admins, Object(form), [], keys, encrypt) == (Reply(200, Empty), [])
    ensures ListReply("GET", authorization, readAdminId, admins, [], decrypt) == Reply(404, Message("Email settings not found."))
  {
    UpdateSucceedsIff("PUT", authorization, readAdminId, admins, Object(form), [], keys, encrypt);
  }

  /** `Update` on the settings table. */
  method Update(table: EmailSettings.EmailSettingsTable, httpMethod: string, authorization: string,
                readAdminId: string -> Result<int>, admins: Admins.Table, body: Decoded<SettingsForm>, keys: seq<string>,
                encrypt: Cipher)
    returns (reply: Reply<()>)
    requires MapOrder(keys)
    modifies table
    ensures (reply, table.rows) == UpdateReply(httpMethod, authorization, readAdminId, admins, body, old(table.rows), keys, encrypt)
  {
    if httpMethod != "PUT" {
      return MethodNotAllowed();
    }
    var admin := AdminGate.AuthenticateAdmin(authorization, readAdminId, admins);
    if admin.Err? {
      return Failure(admin.error);
    }
    if body.Eof? {
      return Failure(NoHost);
    } else if body.Invalid? {
      return Failure(InvalidData);
    } else if body.Null? {
      return Dropped;
    }
    var formError := FormError(body.value);
    if formError.Some? {
      return Failure(formError.value);
    }
    var data := FormData(body.value);
    assert forall k :: 0 <= k < |keys| ==> keys[k] in data;
    var err, _ := table.Update(data, keys, encrypt);
    if err.Some? {
      return Failure(err.value);
    }
    reply := Reply(200, Empty);
  }
}
