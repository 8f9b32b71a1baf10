/**
 * models/email_setting.go: the `email_settings` table, which holds the SMTP
 * account the mailer uses. `List` reads the newest row and decrypts its
 * password; `Update` builds one "`column` = ?" clause and one value per
 * entry of a column-to-value map and rewrites every row. Encryption and
 * decryption are AES code that is not part of this model; they are
 * parameters.
 */
module EmailSettings {
  import opened Wrappers
  import opened Strings
  import Sql

  /** A row of `email_settings` (its `id` is its position in the table). */
  datatype EmailSetting = EmailSetting(host: string, port: string, username: string, password: string)

  const NotFound := AppError(404, "Email settings not found.")
  const EncryptFailed := AppError(500, "Failed to encrypt password.")
  const PrepareFailed := AppError(500, "Failed to update email settings.")

  /**
   * `List`: the row with the greatest id, the last one, with its password
   * decrypted; an empty table is 404, and a decryption error is passed on.
   */
  function List(rows: seq<EmailSetting>, decrypt: string -> Result<string>): (r: Result<EmailSetting>)
    ensures rows == [] ==> r == Err(NotFound)
    ensures rows != [] ==> (r.Ok? <==> decrypt(rows[|rows| - 1].password).Ok?)
    ensures r.Ok? ==> r.value.password == decrypt(rows[|rows| - 1].password).value
    ensures r.Ok? ==> var newest := rows[|rows| - 1];
      r.value.host == newest.host && r.value.port == newest.port && r.value.username == newest.username
  {
    if rows == [] then Err(NotFound)
    else
      var newest := rows[|rows| - 1];
      match decrypt(newest.password)
      case Err(e) => Err(e)
      case Ok(password) => Ok(newest.(password := password))
  }

  /** The columns of the table. */
  predicate Known(column: string)
  {
    column == "host" || column == "port" || column == "username" || column == "password"
  }

  /** A map entry that contributes a clause: every entry but an empty password. */
  predicate Kept(data: map<string, string>, column: string)
    requires column in data
  {
    column != "password" || data[column] != ""
  }

  /** The encryption of a non-empty password among `keys` fails. */
  predicate PasswordFails(data: map<string, string>, keys: seq<string>, encrypt: string -> Result<string>)
  {
    "password" in keys && "password" in data && data["password"] != "" && encrypt(data["password"]).Err?
  }

  /** The value written for a kept column: the password encrypted, anything else verbatim. */
  function Stored(data: map<string, string>, column: string, encrypt: string -> Result<string>): string
    requires column in data
    requires column == "password" ==> encrypt(data[column]).Ok?
  {
    if column == "password" then encrypt(data[column]).value else data[column]
  }

  /** The value last paired with `column`, if any. */
  function Lookup(pairs: seq<(string, string)>, column: string): Option<string>
  {
    if pairs == [] then None
    else if pairs[|pairs| - 1].0 == column then Some(pairs[|pairs| - 1].1)
    else Lookup(pairs[..|pairs| - 1], column)
  }

  /**
   * The (column, value) pairs the loop of `Update` appends, visiting the map
   * in the order `keys`; Go's map order is unspecified, so it is a
   * parameter. An empty password is skipped, and a failed encryption ends
   * the loop with an error.
   */
  function Pairs(data: map<string, string>, keys: seq<string>, encrypt: string -> Result<string>): (r: Result<seq<(string, string)>>)
    requires forall k :: 0 <= k < |keys| ==> keys[k] in data
    ensures r.Err? <==> PasswordFails(data, keys, encrypt)
    ensures r.Err? ==> r.error == EncryptFailed
    ensures r.Ok? ==> |r.value| <= |keys|
    ensures r.Ok? ==> forall column :: Lookup(r.value, column) ==
                                         (if column in keys && Kept(data, column) then Some(Stored(data, column, encrypt)) else None)
    decreases |keys|
  {
    if keys == [] then Ok([])
    else
      var column := keys[|keys| - 1];
      var before := Pairs(data, keys[..|keys| - 1], encrypt);
      assert keys == keys[..|keys| - 1] + [column];
      match before
      case Err(e) => Err(e)
      case Ok(pairs) =>
        if column == "password" && data[column] == "" then Ok(pairs)
        else if column == "password" then
          match encrypt(data[column])
          case Err(_) => Err(EncryptFailed)
          case Ok(encrypted) => Ok(pairs + [(column, encrypted)])
        else Ok(pairs + [(column, data[column])])
  }

  /** One more key visited by the loop. */
  lemma PairsStep(data: map<string, string>, keys: seq<string>, i: int, encrypt: string -> Result<string>)
    requires forall k :: 0 <= k < |keys| ==> keys[k] in data
    requires 0 <= i < |keys| && Pairs(data, keys[..i], encrypt).Ok?
    ensures var pairs := Pairs(data, keys[..i], encrypt).value;
      var column := keys[i];
      Pairs(data, keys[..i + 1], encrypt) ==
        if column == "password" && data[column] == "" then Ok(pairs)
        else if column != "password" then Ok(pairs + [(column, data[column])])
        else if encrypt(data[column]).Ok? then Ok(pairs + [(column, encrypt(data[column]).value)])
        else Err(EncryptFailed)
  {
    assert keys[..i + 1][..i] == keys[..i];
  }

  /** The clauses of `pairs`, in order. */
  function Clauses(pairs: seq<(string, string)>): (clauses: seq<string>)
    ensures |clauses| == |pairs|
    ensures forall k :: 0 <= k < |pairs| ==> clauses[k] == Sql.Assignment(pairs[k].0)
  {
    if pairs == [] then [] else Clauses(pairs[..|pairs| - 1]) + [Sql.Assignment(pairs[|pairs| - 1].0)]
  }

  /** The values of `pairs`, in order, bound as text. */
  function Args(pairs: seq<(string, string)>): (args: seq<Sql.Arg>)
    ensures |args| == |pairs|
    ensures forall k :: 0 <= k < |pairs| ==> args[k] == Sql.Text(pairs[k].1)
  {
    if pairs == [] then [] else Args(pairs[..|pairs| - 1]) + [Sql.Text(pairs[|pairs| - 1].1)]
  }

  const UpdateHead := "UPDATE `email_settings` SET "

  /**
   * Whether the server prepares "UPDATE `email_settings` SET " followed by
   * these clauses: there must be at least one, and each must set a column
   * of the table.
   */
  predicate Accepts(clauses: seq<string>)
  {
    clauses != [] && forall k :: 0 <= k < |clauses| ==> Known(Sql.AssignedColumn(clauses[k]))
  }

  /** A field of a row by column name. */
  function Field(row: EmailSetting, column: string): string
  {
    match column
    case "host" => row.host
    case "port" => row.port
    case "username" => row.username
    case "password" => row.password
    case _ => ""
  }

  /** Each column name reads its own field. */
  lemma FieldsByName(row: EmailSetting)
    ensures Field(row, "host") == row.host && Field(row, "port") == row.port
    ensures Field(row, "username") == row.username && Field(row, "password") == row.password
    ensures Known("host") && Known("port") && Known("username") && Known("password")
  {
  }

  /** One assignment applied to a row. */
  function Assign(row: EmailSetting, column: string, value: string): (after: EmailSetting)
    ensures forall c :: Known(c) ==> Field(after, c) == if c == column then value else Field(row, c)
  {
    match column
    case "host" => row.(host := value)
    case "port" => row.(port := value)
    case "username" => row.(username := value)
    case "password" => row.(password := value)
    case _ => row
  }

  /** The text of a bound argument. */
  function ArgText(arg: Sql.Arg): string
  {
    if arg.Text? then arg.text else ""
  }

  /** A row after the assignments of an executed statement, applied left to right. */
  function Executed(row: EmailSetting, clauses: seq<string>, args: seq<Sql.Arg>): EmailSetting
    requires |clauses| == |args|
  {
    if clauses == [] then row
    else Assign(Executed(row, clauses[..|clauses| - 1], args[..|args| - 1]),
                Sql.AssignedColumn(clauses[|clauses| - 1]), ArgText(args[|args| - 1]))
  }

  /** What `Update` returns, the table after it, and the statement it executed, if any. */
  datatype Updated = Updated(err: Option<AppError>, rows: seq<EmailSetting>, sent: Option<Sql.Statement>)

  /**
   * `Update(data)` with the map visited in the order `keys`. The statement
   * has no WHERE clause, so it rewrites every row.
   */
  function UpdateOutcome(rows: seq<EmailSetting>, data: map<string, string>, keys: seq<string>,
                         encrypt: string -> Result<string>): (out: Updated)
    requires forall k :: 0 <= k < |keys| ==> keys[k] in data
    ensures out.err.Some? ==> out.rows == rows && out.sent.None?
    ensures out.err.None? <==> !PasswordFails(data, keys, encrypt) && Accepts(Clauses(Pairs(data, keys, encrypt).value))
    ensures PasswordFails(data, keys, encrypt) ==> out.err == Some(EncryptFailed)
    ensures |out.rows| == |rows|
  {
    match Pairs(data, keys, encrypt)
    case Err(e) => Updated(Some(e), rows, None)
    case Ok(pairs) =>
      var clauses := Clauses(pairs);
      var args := Args(pairs);
      if !Accepts(clauses) then Updated(Some(PrepareFailed), rows, None)
      else
        Updated(None, seq(|rows|, j requires 0 <= j < |rows| => Executed(rows[j], clauses, args)),
                Some(Sql.Statement(UpdateHead + Join(clauses, Sql.Comma), args)))
  }

  /** The outcome once the loop has built its pairs. */
  lemma OutcomeOfPairs(rows: seq<EmailSetting>, data: map<string, string>, keys: seq<string>,
                       encrypt: string -> Result<string>, pairs: seq<(string, string)>)
    requires forall k :: 0 <= k < |keys| ==> keys[k] in data
    requires Pairs(data, keys, encrypt) == Ok(pairs)
    ensures !Accepts(Clauses(pairs)) ==> UpdateOutcome(rows, data, keys, encrypt) == Updated(Some(PrepareFailed), rows, None)
    ensures Accepts(Clauses(pairs)) ==>
      (UpdateOutcome(rows, data, keys, encrypt) ==
       Updated(None, seq(|rows|, j requires 0 <= j < |rows| => Executed(rows[j], Clauses(pairs), Args(pairs))),
               Some(Sql.Statement(UpdateHead + Join(Clauses(pairs), Sql.Comma), Args(pairs)))))
  {
  }

  /** Executing the clauses and values of `pairs` leaves each column with its last paired value, or untouched. */
  lemma {:induction false} ExecutedFields(row: EmailSetting, pairs: seq<(string, string)>, column: string)
    requires Known(column)
    ensures Field(Executed(row, Clauses(pairs), Args(pairs)), column)
      == if Lookup(pairs, column).Some? then Lookup(pairs, column).value else Field(row, column)
    decreases |pairs|
  {
    if pairs != [] {
      var before := pairs[..|pairs| - 1];
      assert Clauses(pairs)[..|pairs| - 1] == Clauses(before);
      assert Args(pairs)[..|pairs| - 1] == Args(before);
      ExecutedFields(row, before, column);
      Sql.AssignedColumnOf(pairs[|pairs| - 1].0);
    }
  }

  /**
   * After a successful update every row holds, in each column the map
   * names, the map's value (the password encrypted), except that an empty
   * password leaves the stored one; columns the map does not name keep
   * their values. Whatever order the map is visited in, the table is the
   * same.
   */
  lemma UpdateWritesEveryRow(rows: seq<EmailSetting>, data: map<string, string>, keys: seq<string>,
                             encrypt: string -> Result<string>, j: int, column: string)
    requires forall k :: 0 <= k < |keys| ==> keys[k] in data
    requires UpdateOutcome(rows, data, keys, encrypt).err.None?
    requires 0 <= j < |rows| && Known(column)
    ensures !PasswordFails(data, keys, encrypt)
    ensures Field(UpdateOutcome(rows, data, keys, encrypt).rows[j], column) ==
      if column in keys && Kept(data, column) then Stored(data, column, encrypt) else Field(rows[j], column)
  {
    var pairs := Pairs(data, keys, encrypt).value;
    ExecutedFields(rows[j], pairs, column);
  }

  /** Two rows that agree on every column are the same row. */
  lemma SameFields(a: EmailSetting, b: EmailSetting)
    requires Field(a, "host") == Field(b, "host") && Field(a, "port") == Field(b, "port")
    requires Field(a, "username") == Field(b, "username") && Field(a, "password") == Field(b, "password")
    ensures a == b
  {
  }

  /** Row `j` after two successful updates visiting the same keys in two orders. */
  lemma RowOrderIrrelevant(rows: seq<EmailSetting>, data: map<string, string>, keys: seq<string>, others: seq<string>,
                           encrypt: string -> Result<string>, j: int)
    requires forall k :: 0 <= k < |keys| ==> keys[k] in data
    requires forall k :: 0 <= k < |others| ==> others[k] in data
    requires forall c :: c in keys <==> c in others
    requires UpdateOutcome(rows, data, keys, encrypt).err.None? && UpdateOutcome(rows, data, others, encrypt).err.None?
    requires 0 <= j < |rows|
    ensures UpdateOutcome(rows, data, keys, encrypt).rows[j] == UpdateOutcome(rows, data, others, encrypt).rows[j]
  {
    var a := UpdateOutcome(rows, data, keys, encrypt).rows[j];
    var b := UpdateOutcome(rows, data, others, encrypt).rows[j];
    UpdateWritesEveryRow(rows, data, keys, encrypt, j, "host");
    UpdateWritesEveryRow(rows, data, keys, encrypt, j, "port");
    UpdateWritesEveryRow(rows, data, keys, encrypt, j, "username");
    UpdateWritesEveryRow(rows, data, keys, encrypt, j, "password");
    UpdateWritesEveryRow(rows, data, others, encrypt, j, "host");
    UpdateWritesEveryRow(rows, data, others, encrypt, j, "port");
    UpdateWritesEveryRow(rows, data, others, encrypt, j, "username");
    UpdateWritesEveryRow(rows, data, others, encrypt, j, "password");
    SameFields(a, b);
  }

  /**
   * Go visits a map in an unspecified order; the order does not matter:
   * the error and the table after the update are the same for any two
   * orders of the same keys.
   */
  lemma OrderIrrelevant(rows: seq<EmailSetting>, data: map<string, string>, keys: seq<string>, others: seq<string>,
                        encrypt: string -> Result<string>)
    requires forall k :: 0 <= k < |keys| ==> keys[k] in data
    requires forall k :: 0 <= k < |others| ==> others[k] in data
    requires forall c :: c in keys <==> c in others
    requires forall c :: c in data && Kept(data, c) ==> Known(c)
    ensures UpdateOutcome(rows, data, keys, encrypt).err == UpdateOutcome(rows, data, others, encrypt).err
    ensures UpdateOutcome(rows, data, keys, encrypt).rows == UpdateOutcome(rows, data, others, encrypt).rows
  {
    assert PasswordFails(data, keys, encrypt) == PasswordFails(data, others, encrypt);
    if !PasswordFails(data, keys, encrypt) {
      AcceptedIff(data, keys, encrypt);
      AcceptedIff(data, others, encrypt);
      var a := UpdateOutcome(rows, data, keys, encrypt);
      var b := UpdateOutcome(rows, data, others, encrypt);
      if a.err.None? {
        forall j | 0 <= j < |rows|
          ensures a.rows[j] == b.rows[j]
        {
          RowOrderIrrelevant(rows, data, keys, others, encrypt, j);
        }
      }
    }
  }

  /**
   * When every kept entry names a column of the table, the server accepts
   * the statement exactly when some entry is kept.
   */
  lemma AcceptedIff(data: map<string, string>, keys: seq<string>, encrypt: string -> Result<string>)
    requires forall k :: 0 <= k < |keys| ==> keys[k] in data
    requires forall c :: c in data && Kept(data, c) ==> Known(c)
    requires !PasswordFails(data, keys, encrypt)
    ensures Accepts(Clauses(Pairs(data, keys, encrypt).value)) <==> exists c :: c in keys && Kept(data, c)
  {
    var pairs := Pairs(data, keys, encrypt).value;
    var clauses := Clauses(pairs);
    forall k | 0 <= k < |pairs|
      ensures pairs[k].0 in keys && Kept(data, pairs[k].0)
    {
      PairedIsLooked(pairs, k);
      assert Lookup(pairs, pairs[k].0).Some?;
    }
    forall k | 0 <= k < |clauses|
      ensures Known(Sql.AssignedColumn(clauses[k]))
    {
      Sql.AssignedColumnOf(pairs[k].0);
    }
    if exists c :: c in keys && Kept(data, c) {
      var c :| c in keys && Kept(data, c);
      assert Lookup(pairs, c).Some?;
    }
  }

  /** A column that occurs among the pairs has a value to look up. */
  lemma {:induction false} PairedIsLooked(pairs: seq<(string, string)>, k: int)
    requires 0 <= k < |pairs|
    ensures Lookup(pairs, pairs[k].0).Some?
    decreases |pairs|
  {
    if k < |pairs| - 1 && pairs[|pairs| - 1].0 != pairs[k].0 {
      PairedIsLooked(pairs[..|pairs| - 1], k);
    }
  }

  /** A failed encryption aborts before the statement is built: nothing is written or sent. */
  lemma EncryptionFailureAborts(rows: seq<EmailSetting>, data: map<string, string>, keys: seq<string>,
                                encrypt: string -> Result<string>)
    requires forall k :: 0 <= k < |keys| ==> keys[k] in data
    requires "password" in keys && data["password"] != "" && encrypt(data["password"]).Err?
    ensures UpdateOutcome(rows, data, keys, encrypt) == Updated(Some(EncryptFailed), rows, None)
  {
  }

  /** A column of the table has no '?' in its name. */
  lemma KnownPlain(column: string)
    requires Known(column)
    ensures Sql.Placeholders(Sql.Assignment(column)) == 1
  {
    Sql.AssignmentPlaceholder(column);
  }

  lemma UpdateHeadPlain()
    ensures Sql.Placeholders(UpdateHead) == 0
  {
    CountAbsent(UpdateHead, '?');
  }

  /** The statement sent binds one value to each placeholder: `updates` and `values` grow in step. */
  lemma UpdateSendsMatched(rows: seq<EmailSetting>, data: map<string, string>, keys: seq<string>,
                           encrypt: string -> Result<string>)
    requires forall k :: 0 <= k < |keys| ==> keys[k] in data
    ensures var out := UpdateOutcome(rows, data, keys, encrypt);
      out.sent.Some? ==> Sql.Matched(out.sent.value)
  {
    var out := UpdateOutcome(rows, data, keys, encrypt);
    if out.sent.Some? {
      var pairs := Pairs(data, keys, encrypt).value;
      var clauses := Clauses(pairs);
      forall k | 0 <= k < |clauses|
        ensures Sql.Placeholders(clauses[k]) == 1
      {
        Sql.AssignedColumnOf(pairs[k].0);
        KnownPlain(pairs[k].0);
      }
      Sql.JoinedClauses(clauses);
      UpdateHeadPlain();
      CountAppend(UpdateHead, Join(clauses, Sql.Comma), '?');
    }
  }

  /**
   * One key visited by the loop of `Update`: the clause and the value it
   * adds, nothing for an empty password, or the failure to encrypt a
   * password.
   */
  method VisitKey(data: map<string, string>, keys: seq<string>, i: nat, encrypt: string -> Result<string>,
                  ghost pairs: seq<(string, string)>, updates: seq<string>, values: seq<Sql.Arg>)
    returns (failed: bool, ghost grown: seq<(string, string)>, clauses: seq<string>, args: seq<Sql.Arg>)
    requires forall k :: 0 <= k < |keys| ==> keys[k] in data
    requires i < |keys| && Pairs(data, keys[..i], encrypt) == Ok(pairs)
    requires updates == Clauses(pairs) && values == Args(pairs)
    ensures failed <==> Pairs(data, keys[..i + 1], encrypt).Err?
    ensures failed ==> PasswordFails(data, keys, encrypt)
    ensures !failed ==> Pairs(data, keys[..i + 1], encrypt) == Ok(grown) && clauses == Clauses(grown) && args == Args(grown)
  {
    var column := keys[i];
    var value := data[column];
    PairsStep(data, keys, i, encrypt);
    failed, grown, clauses, args := false, pairs, updates, values;
    if column == "password" {
      if value == "" {
        return;
      }
      var encrypted := encrypt(value);
      if encrypted.Err? {
        assert PasswordFails(data, keys[..i + 1], encrypt);
        assert keys[i] in keys;
        failed := true;
        return;
      }
      args := values + [Sql.Text(encrypted.value)];
      grown := pairs + [(column, encrypted.value)];
    } else {
      args := values + [Sql.Text(value)];
      grown := pairs + [(column, value)];
    }
    clauses := updates + [Sql.Assignment(column)];
    Appended(pairs, grown[|grown| - 1]);
  }

  /** The clauses and the values of one more pair: one more of each, at the end. */
  lemma Appended(pairs: seq<(string, string)>, pair: (string, string))
    ensures Clauses(pairs + [pair]) == Clauses(pairs) + [Sql.Assignment(pair.0)]
    ensures Args(pairs + [pair]) == Args(pairs) + [Sql.Text(pair.1)]
  {
    assert (pairs + [pair])[..|pairs|] == pairs;
  }

  /** The table, rewritten in place by `Update`. */
  class EmailSettingsTable {
    var rows: seq<EmailSetting>

    constructor (rows: seq<EmailSetting>)
      ensures this.rows == rows
    {
      this.rows := rows;
    }

    /**
     * `Update`, visiting the map in the order `keys`, which lists each key
     * of `data` once; `sent` is the statement executed, if any.
     */
    method Update(data: map<string, string>, keys: seq<string>, encrypt: string -> Result<string>)
      returns (err: Option<AppError>, sent: Option<Sql.Statement>)
      requires forall k :: 0 <= k < |keys| ==> keys[k] in data
      modifies this
      ensures UpdateOutcome(old(rows), data, keys, encrypt) == Updated(err, rows, sent)
      ensures sent.Some? ==> Sql.Matched(sent.value)
    {
      UpdateSendsMatched(rows, data, keys, encrypt);
      var updates: seq<string> := [];
      var values: seq<Sql.Arg> := [];
      ghost var pairs: seq<(string, string)> := [];
      var i := 0;
      while i < |keys|
        invariant 0 <= i <= |keys| && rows == old(rows)
        invariant Pairs(data, keys[..i], encrypt) == Ok(pairs)
        invariant updates == Clauses(pairs) && values == Args(pairs)
      {
        var failed;
        failed, pairs, updates, values := VisitKey(data, keys, i, encrypt, pairs, updates, values);
        if failed {
          return Some(EncryptFailed), None;
        }
        i := i + 1;
      }
      assert keys[..i] == keys;
      OutcomeOfPairs(rows, data, keys, encrypt, pairs);
      if !Accepts(updates) {
        return Some(PrepareFailed), None;
      }
      sent := Some(Sql.Statement(UpdateHead + Join(updates, Sql.Comma), values));
      var current := rows;
      rows := seq(|current|, j requires 0 <= j < |current| => Executed(current[j], updates, values));
      err := None;
    }
  }
}
