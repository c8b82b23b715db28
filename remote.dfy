/**
 * The remote warehouse as the pipeline sees it: its tables, the answers it
 * gives to other SQL text, its SHOW TABLES listing, and a script saying
 * whether each successive connection attempt succeeds. The warehouse also
 * keeps a log of the attempts made and of the statements sent to it, so that
 * what the pipeline did (and did not do) can be stated.
 */
module Remote {
  import opened Wrappers
  import opened Text
  import opened Records
  import opened Queries

  /** The configured database and schema (the defaults of config.py). */
  const Database := "DEMO_DB"
  const Schema := "PUBLIC"

  /** The discovery statement of get_snowflake_tables. */
  const ShowTablesStatement := "SHOW TABLES IN SCHEMA " + Database + "." + Schema

  /** Whether attempt number `k` (from 0) of a connection script succeeds; attempts past its end fail. */
  predicate Succeeds(script: seq<bool>, k: nat) {
    k < |script| && script[k]
  }

  // ---------------------------------------------------------------------------
  // How the warehouse answers the statements the pipeline generates
  // ---------------------------------------------------------------------------

  /** A `SELECT * FROM <table>` statement, with its LIMIT when it has one. */
  datatype Select = Select(table: string, limit: Option<nat>)

  /** The number of decimal digits at the end of `s`. */
  function TrailingDigits(s: string): (k: nat)
    ensures k <= |s|
    ensures forall j :: |s| - k <= j < |s| ==> IsDigit(s[j])
    ensures k < |s| ==> !IsDigit(s[|s| - k - 1])
    decreases |s|
  {
    if s != [] && IsDigit(s[|s| - 1]) then TrailingDigits(s[..|s| - 1]) + 1 else 0
  }

  /** Reads a statement back as a whole-table SELECT, when it is one. */
  function ParseSelect(statement: string): Option<Select> {
    if |statement| < |SelectPrefix| || statement[..|SelectPrefix|] != SelectPrefix then None
    else
      var rest := statement[|SelectPrefix|..];
      var k := TrailingDigits(rest);
      var head := rest[..|rest| - k];
      if k > 0 && |head| >= |LimitClause| && head[|head| - |LimitClause|..] == LimitClause then
        Some(Select(head[..|head| - |LimitClause|], Some(DecimalValue(rest[|rest| - k..]))))
      else Some(Select(rest, None))
  }

  /** A run of digits preceded by a non-digit is exactly the trailing digits. */
  lemma {:induction false} TrailingDigitsOf(a: string, d: string)
    requires forall j :: 0 <= j < |d| ==> IsDigit(d[j])
    requires a == [] || !IsDigit(a[|a| - 1])
    ensures TrailingDigits(a + d) == |d|
    decreases |d|
  {
    if d != [] {
      assert (a + d)[..|a + d| - 1] == a + d[..|d| - 1];
      TrailingDigitsOf(a, d[..|d| - 1]);
    } else {
      assert a + d == a;
    }
  }

  /** The statement built for a table and a natural limit reads back as that table and that limit. */
  lemma ParseSelectRoundTrip(table: string, limit: nat)
    ensures ParseSelect(SelectAll(table) + LimitClause + NatDecimal(limit)) == Some(Select(table, Some(limit)))
  {
    var d := NatDecimal(limit);
    var statement := SelectAll(table) + LimitClause + d;
    var rest := table + LimitClause + d;
    assert statement[..|SelectPrefix|] == SelectPrefix;
    assert statement[|SelectPrefix|..] == rest;
    TrailingDigitsOf(table + LimitClause, d);
    assert rest[..|rest| - |d|] == table + LimitClause;
    assert rest[|rest| - |d|..] == d;
    DecimalRoundTrip(limit);
  }

  /** The first `limit` rows (all of them without a limit). */
  function Take(rs: ResultSet, limit: Option<nat>): (r: ResultSet)
    ensures r.columns == rs.columns
    ensures |r.rows| == (if limit.Some? && limit.value < |rs.rows| then limit.value else |rs.rows|)
    ensures r.rows == rs.rows[..|r.rows|]
  {
    match limit
    case None => rs
    case Some(n) => if n < |rs.rows| then ResultSet(rs.columns, rs.rows[..n]) else rs
  }

  /**
   * The rows the warehouse returns for a statement: a whole-table SELECT of a
   * table it has reads that table (up to the limit); any other text is
   * looked up among the scripted answers; None means executing it raises.
   */
  function Answer(tables: map<string, ResultSet>, answers: map<string, ResultSet>, statement: string): Option<ResultSet> {
    var sel := ParseSelect(statement);
    if sel.Some? && sel.value.table in tables then Some(Take(tables[sel.value.table], sel.value.limit))
    else if statement in answers then Some(answers[statement])
    else None
  }

  /** Reading a table that exists with the generated LIMIT clause yields its first `limit` rows. */
  lemma AnswerToLimitedSelect(tables: map<string, ResultSet>, answers: map<string, ResultSet>, table: string, limit: nat)
    requires table in tables
    ensures Answer(tables, answers, SelectAll(table) + LimitClause + IntDecimal(limit)) == Some(Take(tables[table], Some(limit)))
  {
    ParseSelectRoundTrip(table, limit);
  }

  // ---------------------------------------------------------------------------
  // The warehouse object
  // ---------------------------------------------------------------------------

  class Warehouse {
    var tables: map<string, ResultSet>
    var answers: map<string, ResultSet>
    /** The rows SHOW TABLES returns; None when that statement raises. */
    var listing: Option<seq<seq<string>>>
    /** The outcome of each connection attempt still to come. */
    var connectScript: seq<bool>
    /** The insecure_mode flag of every connection attempt made so far. */
    var attempts: seq<bool>
    /** Every statement sent so far, in order. */
    var statements: seq<string>
    var closeSucceeds: bool
    var closeCalls: nat

    constructor (tables: map<string, ResultSet>, answers: map<string, ResultSet>,
                 listing: Option<seq<seq<string>>>, connectScript: seq<bool>, closeSucceeds: bool)
      ensures this.tables == tables && this.answers == answers && this.listing == listing
      ensures this.connectScript == connectScript && this.closeSucceeds == closeSucceeds
      ensures attempts == [] && statements == [] && closeCalls == 0
    {
      this.tables := tables;
      this.answers := answers;
      this.listing := listing;
      this.connectScript := connectScript;
      this.closeSucceeds := closeSucceeds;
      attempts := [];
      statements := [];
      closeCalls := 0;
    }

    /** `snowflake.connector.connect(...)`, with or without insecure_mode: consumes one scripted outcome. */
    method Connect(insecure: bool) returns (ok: bool)
      modifies this`connectScript, this`attempts
      ensures ok == Succeeds(old(connectScript), 0)
      ensures connectScript == if old(connectScript) == [] then [] else old(connectScript)[1..]
      ensures attempts == old(attempts) + [insecure]
    {
      ok := connectScript != [] && connectScript[0];
      if connectScript != [] {
        connectScript := connectScript[1..];
      }
      attempts := attempts + [insecure];
    }

    /** `cursor.execute(statement); cursor.fetchall()`: None when the statement raises. */
    method Execute(statement: string) returns (r: Option<ResultSet>)
      modifies this`statements
      ensures statements == old(statements) + [statement]
      ensures r == Answer(tables, answers, statement)
    {
      statements := statements + [statement];
      r := Answer(tables, answers, statement);
    }

    /** The SHOW TABLES statement of table discovery. */
    method ShowTables() returns (rows: Option<seq<seq<string>>>)
      modifies this`statements
      ensures statements == old(statements) + [ShowTablesStatement]
      ensures rows == listing
    {
      statements := statements + [ShowTablesStatement];
      rows := listing;
    }

    /** `conn.close()`: false when it raises. */
    method Close() returns (ok: bool)
      modifies this`closeCalls
      ensures ok == closeSucceeds
      ensures closeCalls == old(closeCalls) + 1
    {
      closeCalls := closeCalls + 1;
      ok := closeSucceeds;
    }
  }
}
