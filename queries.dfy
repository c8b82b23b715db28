/**
 * The decision logic of data_pipeline.py that computes values without touching
 * either database: the LIMIT rewrite of read_snowflake_data, the table-name
 * clean-up of write_to_duckdb, the choice of query and local target in
 * run_pipeline, and the projection of the SHOW TABLES listing in
 * get_snowflake_tables.
 */
module Queries {
  import opened Wrappers
  import opened Text
  import opened Records

  // ---------------------------------------------------------------------------
  // LIMIT rewrite (read_snowflake_data)
  // ---------------------------------------------------------------------------

  const LimitKeyword := "LIMIT"

  /** The default `limit` of read_snowflake_data and run_pipeline. */
  const DefaultLimit := 1000

  /** The clause separator written before the limit. */
  const LimitClause := " LIMIT "

  /**
   * The statement actually sent for `query`: unchanged when its upper-cased
   * text contains LIMIT anywhere, otherwise the query without its trailing
   * semicolons followed by " LIMIT " and the decimal `limit`.
   */
  function WithLimit(query: string, limit: int): (sent: string)
    // the query up to its trailing semicolons always leads the statement
    ensures RStrip(query, ';') <= sent
    // what follows is either the query's own trailing semicolons or the clause
    ensures var kept := |RStrip(query, ';')|;
      sent[kept..] == query[kept..] || sent[kept..] == LimitClause + IntDecimal(limit)
  {
    var kept, clause := RStrip(query, ';'), LimitClause + IntDecimal(limit);
    if Contains(Upper(query), LimitKeyword) then query else kept + clause
  }

  /**
   * What is sent: the query itself when it mentions LIMIT (in any case);
   * otherwise its longest prefix not ending in ';' (all that was cut off being
   * semicolons), then the clause.
   */
  lemma WithLimitSends(query: string, limit: int)
    ensures Contains(Upper(query), LimitKeyword) ==> WithLimit(query, limit) == query
    ensures !Contains(Upper(query), LimitKeyword) ==>
      var kept := |RStrip(query, ';')|;
      && WithLimit(query, limit) == query[..kept] + LimitClause + IntDecimal(limit)
      && (kept == 0 || query[kept - 1] != ';')
      && forall j :: kept <= j < |query| ==> query[j] == ';'
  {
  }

  /** Whatever the query, the statement sent mentions LIMIT: no unbounded fetch is ever added. */
  lemma {:induction false} SentHasLimit(query: string, limit: int)
    ensures Contains(Upper(WithLimit(query, limit)), LimitKeyword)
  {
    if !Contains(Upper(query), LimitKeyword) {
      var s, d := RStrip(query, ';'), IntDecimal(limit);
      assert WithLimit(query, limit) == s + LimitClause + d;
      UpperConcat(s + LimitClause, d);
      UpperConcat(s, LimitClause);
      assert Upper(LimitClause) == LimitClause;
      assert OccursAt(LimitClause, LimitKeyword, 1);
      ContainsIffOccurs(LimitClause, LimitKeyword);
      ContainsInSuffix(Upper(s), LimitClause, LimitKeyword);
      ContainsInPrefix(Upper(s) + LimitClause, Upper(d), LimitKeyword);
    }
  }

  /** Rewriting an already rewritten statement changes nothing, whatever the second limit. */
  lemma {:induction false} WithLimitIdempotent(query: string, limit: int, again: int)
    ensures WithLimit(WithLimit(query, limit), again) == WithLimit(query, limit)
  {
    SentHasLimit(query, limit);
  }

  const SelectPrefix := "SELECT * FROM "

  /** The query run_pipeline builds for a table name. */
  function SelectAll(table: string): string {
    SelectPrefix + table
  }

  /** Within the fixed prefix no 'L' is followed by an 'I', whatever comes after it. */
  lemma PrefixHasNoLI(w: string, i: int)
    requires 0 <= i && i + 1 < |SelectPrefix + w|
    ensures (SelectPrefix + w)[i] == 'L' && (SelectPrefix + w)[i + 1] == 'I' ==> i >= |SelectPrefix|
  {
    var p := SelectPrefix;
    if i + 1 < |p| {
      assert (p + w)[i] == p[i] && (p + w)[i + 1] == p[i + 1];
    } else if i + 1 == |p| {
      assert (p + w)[i] == p[i] == ' ';
    }
  }

  /** The fixed prefix holds no occurrence of LIMIT, not even one that straddles its end. */
  lemma {:induction false} PrefixAddsNoLimit(w: string)
    ensures Contains(SelectPrefix + w, LimitKeyword) <==> Contains(w, LimitKeyword)
  {
    var p, u := SelectPrefix, SelectPrefix + w;
    if Contains(w, LimitKeyword) {
      ContainsInSuffix(p, w, LimitKeyword);
    }
    if Contains(u, LimitKeyword) {
      ContainsIffOccurs(u, LimitKeyword);
      var i :| OccursAt(u, LimitKeyword, i);
      var seg := u[i..i + 5];
      assert seg == LimitKeyword && seg[0] == 'L' && seg[1] == 'I';
      assert u[i] == seg[0] && u[i + 1] == seg[1];
      // Inside the prefix the only 'L' is the one of "SELECT", followed by 'E'.
      PrefixHasNoLI(w, i);
      var j := i - |p|;
      assert u[|p|..] == w;
      assert u[i..i + 5] == u[|p|..][j..j + 5];
      assert OccursAt(w, LimitKeyword, j);
      ContainsIffOccurs(w, LimitKeyword);
    }
  }

  /** For a generated SELECT the LIMIT test looks only at the table name. */
  lemma SelectLimitDependsOnTable(table: string)
    ensures Contains(Upper(SelectAll(table)), LimitKeyword) <==> Contains(Upper(table), LimitKeyword)
  {
    UpperConcat(SelectPrefix, table);
    assert Upper(SelectPrefix) == SelectPrefix;
    PrefixAddsNoLimit(Upper(table));
  }

  /**
   * Reading a whole table whose name neither mentions LIMIT nor ends in ';':
   * the statement sent is the SELECT followed by the clause.
   */
  lemma WithLimitSelect(table: string, limit: int)
    requires !Contains(Upper(table), LimitKeyword)
    requires table == [] || table[|table| - 1] != ';'
    ensures WithLimit(SelectAll(table), limit) == SelectAll(table) + LimitClause + IntDecimal(limit)
  {
    SelectLimitDependsOnTable(table);
    var q := SelectAll(table);
    // the SELECT ends in the table's last character, or in the prefix's blank
    assert q[|q| - 1] != ';';
    assert RStrip(q, ';') == q;
  }

  /** A bare SELECT gains the clause; one that already has it keeps it. */
  lemma LimitAppendedExample()
    ensures WithLimit(SelectAll("T"), 50) == SelectAll("T") + " LIMIT 50"
  {
    AbsentHead(Upper("T"), LimitKeyword);
    WithLimitSelect("T", 50);
    assert IntDecimal(50) == "50";
  }

  lemma LimitKeptExample()
    ensures WithLimit("SELECT * FROM T LIMIT 10", 50) == "SELECT * FROM T LIMIT 10"
  {
    var u := Upper("SELECT * FROM T LIMIT 10");
    assert u[16..21] == LimitKeyword;
    assert OccursAt(u, LimitKeyword, 16);
    ContainsIffOccurs(u, LimitKeyword);
  }

  /** The test is a substring test: a column whose name merely contains LIMIT suppresses the clause. */
  lemma LimitSuppressedByColumnName()
    ensures WithLimit("select limit_x from t", 50) == "select limit_x from t"
  {
    var u := Upper("select limit_x from t");
    assert u[7..12] == LimitKeyword;
    assert OccursAt(u, LimitKeyword, 7);
    ContainsIffOccurs(u, LimitKeyword);
  }

  // ---------------------------------------------------------------------------
  // Table-name clean-up (write_to_duckdb)
  // ---------------------------------------------------------------------------

  /** `name.replace('-', '_').replace(' ', '_').replace('.', '_')`. */
  function Sanitize(name: string): (clean: string)
    ensures |clean| == |name|
    ensures forall i :: 0 <= i < |name| ==> clean[i] == (if name[i] in "- ." then '_' else name[i])
    ensures forall i :: 0 <= i < |clean| ==> clean[i] !in "- ."
  {
    ReplaceChar(ReplaceChar(ReplaceChar(name, '-', '_'), ' ', '_'), '.', '_')
  }

  /** Cleaning a clean name changes nothing. */
  lemma SanitizeIdempotent(name: string)
    ensures Sanitize(Sanitize(name)) == Sanitize(name)
  {
  }

  lemma SanitizeExample()
    ensures Sanitize("My-Table.v2") == "My_Table_v2"
  {
  }

  /** Names that differ only in which of '-', ' ', '.' they use land in the same local table. */
  lemma SanitizeCollides(a: string, b: string)
    requires |a| == |b|
    requires forall i :: 0 <= i < |a| ==> a[i] == b[i] || (a[i] in "- ." && b[i] in "- .")
    ensures Sanitize(a) == Sanitize(b)
  {
  }

  // ---------------------------------------------------------------------------
  // Query and target resolution (run_pipeline)
  // ---------------------------------------------------------------------------

  /** What to read and where to put it. */
  datatype TableSpec = TableSpec(query: string, target: string)

  /** The local table a custom query is written to. */
  const CustomTarget := "custom_query_result"

  /** Python truthiness of an optional string: None and "" both count as absent. */
  predicate Given(s: Option<string>) {
    s.Some? && s.value != ""
  }

  /** Reading a whole table: its SELECT and its lower-cased name as the local target. */
  function ForTable(table: string): TableSpec {
    TableSpec(SelectAll(table), Lower(table))
  }

  /** Discovery happens only when neither a custom query nor a table name is given. */
  predicate NeedsDiscovery(tableName: Option<string>, customQuery: Option<string>) {
    !Given(customQuery) && !Given(tableName)
  }

  /**
   * The choice run_pipeline makes: a custom query first, then an explicit
   * table, then the first table the warehouse listed.
   */
  function Resolve(tableName: Option<string>, customQuery: Option<string>, listed: seq<string>): (r: Result<TableSpec, Failure>)
    ensures r.Failure? <==> NeedsDiscovery(tableName, customQuery) && listed == []
    ensures r.Failure? ==> r.error == NoTablesFound
    ensures r.Success? && Given(customQuery) ==> r.value == TableSpec(customQuery.value, CustomTarget)
    ensures r.Success? && !Given(customQuery) ==>
      && |r.value.query| >= |SelectPrefix|
      && r.value.query[..|SelectPrefix|] == SelectPrefix
      && r.value.target == Lower(r.value.query[|SelectPrefix|..])
  {
    if Given(customQuery) then Success(TableSpec(customQuery.value, CustomTarget))
    else if Given(tableName) then Success(ForTable(tableName.value))
    else if listed == [] then Failure(NoTablesFound)
    else Success(ForTable(listed[0]))
  }

  /** A custom query wins: it is used verbatim, into custom_query_result, whatever else is given. */
  lemma CustomQueryWins(tableName: Option<string>, other: Option<string>, customQuery: Option<string>, listed: seq<string>, otherListed: seq<string>)
    requires Given(customQuery)
    ensures Resolve(tableName, customQuery, listed) == Success(TableSpec(customQuery.value, CustomTarget))
    ensures Resolve(tableName, customQuery, listed) == Resolve(other, customQuery, otherListed)
  {
  }

  /** Without a custom query an explicit table is read whole, into its lower-cased name, and the listing is ignored. */
  lemma ExplicitTableNext(tableName: Option<string>, customQuery: Option<string>, listed: seq<string>, otherListed: seq<string>)
    requires !Given(customQuery) && Given(tableName)
    ensures Resolve(tableName, customQuery, listed) == Success(TableSpec(SelectAll(tableName.value), Lower(tableName.value)))
    ensures Resolve(tableName, customQuery, listed) == Resolve(tableName, customQuery, otherListed)
  {
  }

  /** With neither, the first listed table is taken, in the order listed. */
  lemma FirstListedLast(tableName: Option<string>, customQuery: Option<string>, listed: seq<string>)
    requires NeedsDiscovery(tableName, customQuery) && listed != []
    ensures Resolve(tableName, customQuery, listed) == Success(TableSpec(SelectAll(listed[0]), Lower(listed[0])))
  {
  }

  /** An empty string behaves exactly like None. */
  lemma EmptyIsAbsent(tableName: Option<string>, customQuery: Option<string>, listed: seq<string>)
    ensures Resolve(Some(""), customQuery, listed) == Resolve(None, customQuery, listed)
    ensures Resolve(tableName, Some(""), listed) == Resolve(tableName, None, listed)
  {
  }

  /** A local target taken from a table name holds no ASCII capital letter. */
  lemma TargetIsLowerCase(tableName: Option<string>, customQuery: Option<string>, listed: seq<string>)
    requires Resolve(tableName, customQuery, listed).Success?
    ensures forall i :: 0 <= i < |Resolve(tableName, customQuery, listed).value.target| ==>
      !('A' <= Resolve(tableName, customQuery, listed).value.target[i] <= 'Z')
  {
  }

  // ---------------------------------------------------------------------------
  // Table discovery (get_snowflake_tables)
  // ---------------------------------------------------------------------------

  /**
   * `[row[1] for row in rows]`: the second column of every row, in order, or
   * None when some row is too short (the IndexError the comprehension raises).
   */
  function SecondColumn(rows: seq<seq<string>>): (names: Option<seq<string>>)
    ensures names.Some? <==> forall i :: 0 <= i < |rows| ==> |rows[i]| >= 2
    ensures names.Some? ==> |names.value| == |rows| && forall i :: 0 <= i < |rows| ==> names.value[i] == rows[i][1]
    decreases |rows|
  {
    if rows == [] then Some([])
    else if |rows[0]| < 2 then None
    else match SecondColumn(rows[1..])
      case None => None
      case Some(rest) => Some([rows[0][1]] + rest)
  }

  /**
   * What get_snowflake_tables returns for a SHOW TABLES answer: the names, or
   * [] when the statement raised (None) or the projection failed.
   */
  function ListedTables(listing: Option<seq<seq<string>>>): (tables: seq<string>)
    ensures listing.None? ==> tables == []
    // a readable listing whose rows all have a second column yields exactly those names, in order
    ensures listing.Some? && (forall i :: 0 <= i < |listing.value| ==> |listing.value[i]| >= 2) ==>
      |tables| == |listing.value| && forall i :: 0 <= i < |tables| ==> tables[i] == listing.value[i][1]
    // a row without a second column makes the projection raise, which is reported as no tables
    ensures listing.Some? && !(forall i :: 0 <= i < |listing.value| ==> |listing.value[i]| >= 2) ==> tables == []
    ensures tables != [] ==> listing.Some? && |tables| == |listing.value|
    ensures tables != [] ==> forall i :: 0 <= i < |tables| ==> |listing.value[i]| >= 2 && tables[i] == listing.value[i][1]
  {
    match listing
    case None => []
    case Some(rows) =>
      match SecondColumn(rows)
      case None => []
      case Some(names) => names
  }

  /**
   * With neither a custom query nor a table name, a run reads the second
   * column of the listing's first row: discovery and resolution together.
   */
  lemma DiscoveryReadsFirstListed(tableName: Option<string>, customQuery: Option<string>, listing: Option<seq<seq<string>>>)
    requires NeedsDiscovery(tableName, customQuery)
    requires listing.Some? && listing.value != []
    requires forall i :: 0 <= i < |listing.value| ==> |listing.value[i]| >= 2
    ensures var name := listing.value[0][1];
      Resolve(tableName, customQuery, ListedTables(listing)) == Success(TableSpec(SelectAll(name), Lower(name)))
  {
    FirstListedLast(tableName, customQuery, ListedTables(listing));
  }
}
