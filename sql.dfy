/**
 * The parameterised statements that models/admin.go and
 * models/email_setting.go prepare: a query text whose '?' marks are bound,
 * in order, to the arguments passed to `Exec`.
 */
module Sql {
  import opened Strings

  /** A value bound to a placeholder. */
  datatype Arg = Text(text: string) | Int(number: int)

  /** A prepared query and the arguments it is executed with. */
  datatype Statement = Statement(query: string, args: seq<Arg>)

  /** The clause "`column` = ?" that sets one column from one argument. */
  function Assignment(column: string): string
  {
    "`" + column + "` = ?"
  }

  function Placeholders(query: string): nat
  {
    Count(query, '?')
  }

  /** The driver binds exactly one argument to each placeholder. */
  predicate Matched(st: Statement)
  {
    Placeholders(st.query) == |st.args|
  }

  /** A column name without '?' gives a clause with exactly one placeholder. */
  lemma AssignmentPlaceholder(column: string)
    requires '?' !in column
    ensures Placeholders(Assignment(column)) == 1
  {
    CountAbsent("`", '?');
    CountAbsent(column, '?');
    CountAbsent("` = ", '?');
    CountAppend("`", column, '?');
    CountAppend("`" + column, "` = ", '?');
    CountAppend("`" + column + "` = ", "?", '?');
    assert "`" + column + "` = ?" == "`" + column + "` = " + "?";
  }

  /** The column a clause "`column` = ?" sets, as the server reads it. */
  function AssignedColumn(clause: string): string
  {
    if |clause| >= 6 then clause[1..|clause| - 5] else ""
  }

  /** The server reads back the column each clause was built from. */
  lemma AssignedColumnOf(column: string)
    ensures AssignedColumn(Assignment(column)) == column
  {
    assert Assignment(column)[1..|Assignment(column)| - 5] == column;
  }

  const Comma := ", "

  lemma CommaPlain()
    ensures Placeholders(Comma) == 0
  {
    CountAbsent(Comma, '?');
  }

  /** Clauses of one placeholder each, joined by ", ", hold one placeholder per clause. */
  lemma {:induction false} JoinedClauses(clauses: seq<string>)
    requires forall k :: 0 <= k < |clauses| ==> Placeholders(clauses[k]) == 1
    ensures Placeholders(Join(clauses, Comma)) == |clauses|
    decreases |clauses|
  {
    if |clauses| > 1 {
      JoinedClauses(clauses[1..]);
      CommaPlain();
      CountAppend(clauses[0], Comma, '?');
      CountAppend(clauses[0] + Comma, Join(clauses[1..], Comma), '?');
    }
  }
}
