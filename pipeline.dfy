/**
 * DataPipeline: the extract-load run of data_pipeline.py. It holds the two
 * sessions it opens, connects to the warehouse (falling back to insecure
 * mode once), opens the local store, resolves what to read, reads it with a
 * LIMIT, loads it by replacing the target table, and closes both sessions on
 * every exit path.
 */
module Pipeline {
  import opened Wrappers
  import opened Text
  import opened Records
  import opened Queries
  import opened Remote
  import opened Local

  /** An open or closed warehouse session, and whether it was opened in insecure mode. */
  datatype RemoteSession = RemoteSession(insecure: bool, open: bool)

  /** An open or closed session on the local store. */
  datatype LocalSession = LocalSession(open: bool)

  /** The connection attempts made for a script: the secure one, then the insecure one only if it failed. */
  function Tried(script: seq<bool>): (flags: seq<bool>)
    ensures 1 <= |flags| <= 2 && flags[0] == false
    ensures |flags| == 2 <==> !Succeeds(script, 0)
    ensures |flags| == 2 ==> flags[1] == true
  {
    if Succeeds(script, 0) then [false] else [false, true]
  }

  /** What remains of a script after `k` attempts. */
  function Skip(script: seq<bool>, k: nat): seq<bool> {
    if k <= |script| then script[k..] else []
  }

  /** The frame pandas builds from the fetched rows: no rows gives `pd.DataFrame()`, which has no columns either. */
  function Materialize(rs: ResultSet): (df: ResultSet)
    ensures df.Empty() <==> rs.Empty()
    ensures !df.Empty() ==> df == rs
    ensures rs.rows == [] ==> df == NoRows
  {
    if rs.rows == [] then NoRows else rs
  }

  /** What write_to_duckdb reports for a load that stops at `fault`. */
  function LoadReport(fault: Option<LoadStep>): (r: Result<bool, Failure>)
    // True exactly when every statement ran; otherwise the statement that raised is re-raised
    ensures r == Success(true) <==> fault.None?
    ensures r.Failure? <==> fault.Some?
    ensures r.Failure? ==> r.error.StatementFailed? && r.error.step == fault.value
  {
    if fault.None? then Success(true) else Failure(StatementFailed(fault.value))
  }

  /**
   * What a run's stages are measured against: the connection script and
   * attempt log of the warehouse, the store's open count, the statements sent
   * so far and the store's catalog.
   */
  datatype Observation = Observation(script: seq<bool>, attempts: seq<bool>, openCalls: nat, sent: seq<string>, catalog: Catalog)

  /** A warehouse session is held and still open. */
  predicate RemoteLive(s: Option<RemoteSession>) {
    s.Some? && s.value.open
  }

  /** A store session is held and still open. */
  predicate LocalLive(s: Option<LocalSession>) {
    s.Some? && s.value.open
  }

  /** A warehouse session after `close()`: unchanged when there is none or when close raises. */
  function ClosedRemote(s: Option<RemoteSession>, closes: bool): (r: Option<RemoteSession>)
    ensures r.Some? <==> s.Some?
    ensures r.Some? ==> r.value.insecure == s.value.insecure && (r.value.open <==> s.value.open && !closes)
  {
    match s
    case None => None
    case Some(x) => Some(x.(open := x.open && !closes))
  }

  /** A local session after `close()`. */
  function ClosedLocal(s: Option<LocalSession>, closes: bool): (r: Option<LocalSession>)
    ensures r.Some? <==> s.Some?
    ensures r.Some? ==> (r.value.open <==> s.value.open && !closes)
  {
    match s
    case None => None
    case Some(x) => Some(x.(open := x.open && !closes))
  }

  class DataPipeline {
    var snowflakeConn: Option<RemoteSession>
    var duckdbConn: Option<LocalSession>
    /** The warehouse and the store the connectors reach. */
    const remote: Warehouse
    const local: LocalStore

    constructor (remote: Warehouse, local: LocalStore)
      ensures snowflakeConn == None && duckdbConn == None
      ensures this.remote == remote && this.local == local
    {
      snowflakeConn := None;
      duckdbConn := None;
      this.remote := remote;
      this.local := local;
    }

    /** connect_snowflake: a secure attempt, and one insecure attempt only if the secure one failed. */
    method ConnectSnowflake() returns (ok: bool)
      modifies this`snowflakeConn, remote`connectScript, remote`attempts
      ensures ok == (Succeeds(old(remote.connectScript), 0) || Succeeds(old(remote.connectScript), 1))
      ensures remote.attempts == old(remote.attempts) + Tried(old(remote.connectScript))
      ensures remote.connectScript == Skip(old(remote.connectScript), |Tried(old(remote.connectScript))|)
      ensures ok ==> snowflakeConn == Some(RemoteSession(!Succeeds(old(remote.connectScript), 0), true))
      ensures !ok ==> snowflakeConn == old(snowflakeConn)
    {
      var secure := remote.Connect(false);
      if secure {
        snowflakeConn := Some(RemoteSession(false, true));
        return true;
      }
      var relaxed := remote.Connect(true);
      if relaxed {
        snowflakeConn := Some(RemoteSession(true, true));
        return true;
      }
      return false;
    }

    /** connect_duckdb: open the store file read-write. */
    method ConnectDuckdb() returns (ok: bool)
      modifies this`duckdbConn, local`openCalls
      ensures ok == local.opens
      ensures local.openCalls == old(local.openCalls) + 1
      ensures ok ==> duckdbConn == Some(LocalSession(true))
      ensures !ok ==> duckdbConn == old(duckdbConn)
    {
      ok := local.Open();
      if ok {
        duckdbConn := Some(LocalSession(true));
      }
    }

    /**
     * get_snowflake_tables: the listed names in the order the warehouse lists
     * them; [] without a live session or when the listing cannot be read.
     */
    method GetSnowflakeTables() returns (tables: seq<string>)
      modifies remote`statements
      ensures RemoteLive(snowflakeConn) ==>
        tables == ListedTables(remote.listing) && remote.statements == old(remote.statements) + [ShowTablesStatement]
      ensures !RemoteLive(snowflakeConn) ==>
        tables == [] && remote.statements == old(remote.statements)
    {
      if snowflakeConn.None? || !snowflakeConn.value.open {
        return [];
      }
      var rows := remote.ShowTables();
      tables := ListedTables(rows);
    }

    /**
     * read_snowflake_data: send the query with the LIMIT rewrite applied and
     * materialise the answer; no rows is an empty frame, not an error.
     */
    method ReadSnowflakeData(query: string, limit: int) returns (r: Result<ResultSet, Failure>)
      modifies remote`statements
      ensures snowflakeConn.None? ==> r == Failure(SnowflakeNotConnected) && remote.statements == old(remote.statements)
      ensures snowflakeConn.Some? && !snowflakeConn.value.open ==>
        r == Failure(SessionClosed) && remote.statements == old(remote.statements)
      ensures RemoteLive(snowflakeConn) ==>
        var sent := WithLimit(query, limit);
        var answer := Answer(remote.tables, remote.answers, sent);
        && remote.statements == old(remote.statements) + [sent]
        && (answer.None? ==> r == Failure(QueryFailed(sent)))
        && (answer.Some? ==> r == Success(Materialize(answer.value)))
    {
      if snowflakeConn.None? {
        return Failure(SnowflakeNotConnected);
      }
      if !snowflakeConn.value.open {
        return Failure(SessionClosed);
      }
      var sent := WithLimit(query, limit);
      var answer := remote.Execute(sent);
      if answer.None? {
        return Failure(QueryFailed(sent));
      }
      r := Success(Materialize(answer.value));
    }

    /**
     * write_to_duckdb: refuse an empty frame; otherwise drop the cleaned
     * target, stage the frame, create the table from it, release the staging
     * binding and count the rows back. `count` is the verified count the
     * source logs.
     */
    method WriteToDuckdb(df: ResultSet, tableName: string) returns (r: Result<bool, Failure>, count: nat)
      modifies local`tables, local`bindings
      ensures duckdbConn.None? ==> r == Failure(DuckdbNotConnected) && local.Snapshot() == old(local.Snapshot())
      ensures duckdbConn.Some? && df.Empty() ==> r == Success(false) && local.Snapshot() == old(local.Snapshot())
      ensures duckdbConn.Some? && !df.Empty() && !duckdbConn.value.open ==>
        r == Failure(SessionClosed) && local.Snapshot() == old(local.Snapshot())
      ensures LocalLive(duckdbConn) && !df.Empty() ==>
        && local.Snapshot() == AfterLoad(old(local.Snapshot()), df, Sanitize(tableName), FirstFault(local.faults))
        && r == LoadReport(FirstFault(local.faults))
      ensures r == Success(true) ==> count == |df.rows|
    {
      count := 0;
      if duckdbConn.None? {
        return Failure(DuckdbNotConnected), 0;
      }
      if df.Empty() {
        return Success(false), 0;
      }
      if !duckdbConn.value.open {
        return Failure(SessionClosed), 0;
      }
      var clean := Sanitize(tableName);
      var temp := StagingName(clean);
      ghost var c := local.Snapshot();
      LoadSteps(c, df, clean);
      var ok := local.DropIfExists(clean);
      if !ok {
        return Failure(StatementFailed(Drop)), 0;
      }
      ok := local.Register(temp, df);
      if !ok {
        return Failure(StatementFailed(LoadStep.Register)), 0;
      }
      assert clean != temp;
      ok := local.CreateFrom(clean, temp);
      if !ok {
        return Failure(StatementFailed(Create)), 0;
      }
      ok := local.Unregister(temp);
      if !ok {
        return Failure(StatementFailed(LoadStep.Unregister)), 0;
      }
      var n := local.CountRows(clean);
      if n.None? {
        return Failure(StatementFailed(Count)), 0;
      }
      LoadReplaces(c, df, clean);
      return Success(true), n.value;
    }

    /** cleanup: close every session the pipeline holds; a close that raises is swallowed. */
    method Cleanup()
      modifies this`snowflakeConn, this`duckdbConn, remote`closeCalls, local`closeCalls
      ensures snowflakeConn == ClosedRemote(old(snowflakeConn), remote.closeSucceeds)
      ensures duckdbConn == ClosedLocal(old(duckdbConn), local.closeSucceeds)
      ensures remote.closeCalls == old(remote.closeCalls) + (if old(snowflakeConn).Some? then 1 else 0)
      ensures local.closeCalls == old(local.closeCalls) + (if old(duckdbConn).Some? then 1 else 0)
    {
      if snowflakeConn.Some? {
        var closed := remote.Close();
        if closed {
          snowflakeConn := Some(snowflakeConn.value.(open := false));
        }
      }
      if duckdbConn.Some? {
        var closed := local.Close();
        if closed {
          duckdbConn := Some(duckdbConn.value.(open := false));
        }
      }
    }

    /**
     * What the extract and load stages do once both sessions are open: the
     * statements sent to the warehouse, the change to the local catalog and
     * the outcome.
     */
    ghost predicate ExtractLoadEffect(tableName: Option<string>, customQuery: Option<string>, limit: int,
                                      sentBefore: seq<string>, before: Catalog, r: Result<Option<ResultSet>, Failure>)
      reads remote`listing, remote`tables, remote`answers, remote`statements
      reads local`tables, local`bindings, local`faults
    {
      var discovering := NeedsDiscovery(tableName, customQuery);
      var discovery := if discovering then [ShowTablesStatement] else [];
      var resolved := Resolve(tableName, customQuery, if discovering then ListedTables(remote.listing) else []);
      // no tables to discover: no extraction, no load
      && (resolved.Failure? ==>
            && r == Failure(NoTablesFound)
            && remote.statements == sentBefore + discovery
            && local.Snapshot() == before)
      && (resolved.Success? ==> ReadLoadOutcome(resolved.value, limit, sentBefore + discovery, before, r))
    }

    /**
     * What reading `spec` and loading the answer leave behind, given the
     * statements sent before the read and the catalog before the load.
     */
    ghost predicate ReadLoadOutcome(spec: TableSpec, limit: int, sentBefore: seq<string>, before: Catalog,
                                    r: Result<Option<ResultSet>, Failure>)
      reads remote`tables, remote`answers, remote`statements
      reads local`tables, local`bindings, local`faults
    {
      var sent := WithLimit(spec.query, limit);
      var answer := Answer(remote.tables, remote.answers, sent);
      && remote.statements == sentBefore + [sent]
      // a failed read raises and loads nothing
      && (answer.None? ==> r == Failure(QueryFailed(sent)) && local.Snapshot() == before)
      // an empty result returns None and never touches the store
      && (answer.Some? && answer.value.Empty() ==> r == Success(None) && local.Snapshot() == before)
      // otherwise the target is replaced (or the load stops at its first failing statement)
      && (answer.Some? && !answer.value.Empty() ==>
            var fault := FirstFault(local.faults);
            && local.Snapshot() == AfterLoad(before, answer.value, Sanitize(spec.target), fault)
            && r == (if fault.None? then Success(Some(answer.value)) else Failure(StatementFailed(fault.value))))
    }

    /** Whether both connections of a run come up, for the script the warehouse had before it. */
    ghost predicate Connects(script: seq<bool>)
      reads local`opens
    {
      (Succeeds(script, 0) || Succeeds(script, 1)) && local.opens
    }

    /**
     * What the stages of a run do, from the state before it to the state
     * after it: the connection attempts, then (with both sessions open) the
     * extract and load.
     */
    ghost predicate StagesEffect(tableName: Option<string>, customQuery: Option<string>, limit: int,
                                 before: Observation, r: Result<Option<ResultSet>, Failure>)
      reads remote`attempts, remote`connectScript, remote`listing, remote`tables, remote`answers, remote`statements
      reads local`opens, local`openCalls, local`tables, local`bindings, local`faults
    {
      var script := before.script;
      var connected := Succeeds(script, 0) || Succeeds(script, 1);
      // the secure attempt always, the insecure one only after it failed
      && remote.attempts == before.attempts + Tried(script)
      && remote.connectScript == Skip(script, |Tried(script)|)
      // the store is opened only once the warehouse is connected
      && local.openCalls == before.openCalls + (if connected then 1 else 0)
      && (!connected ==> r == Failure(CouldNotConnectSnowflake))
      && (connected && !local.opens ==> r == Failure(CouldNotConnectDuckdb))
      // nothing is read or written before both are open
      && (!Connects(script) ==> remote.statements == before.sent && local.Snapshot() == before.catalog)
      && (Connects(script) ==> ExtractLoadEffect(tableName, customQuery, limit, before.sent, before.catalog, r))
    }

    /** The parts of both environments a run's stages change, as they stand now. */
    ghost function Observe(): Observation
      reads remote`connectScript, remote`attempts, remote`statements, local`openCalls, local`tables, local`bindings
    {
      Observation(remote.connectScript, remote.attempts, local.openCalls, remote.statements, local.Snapshot())
    }

    /** The connection stages of run_pipeline: the warehouse first, the store only after it. */
    method OpenSessions() returns (e: Option<Failure>)
      modifies this`snowflakeConn, this`duckdbConn, remote`connectScript, remote`attempts, local`openCalls
      ensures var script := old(remote.connectScript);
        && remote.attempts == old(remote.attempts) + Tried(script)
        && remote.connectScript == Skip(script, |Tried(script)|)
        && local.openCalls == old(local.openCalls) + (if Succeeds(script, 0) || Succeeds(script, 1) then 1 else 0)
        && (e.None? <==> Connects(script))
        && (!(Succeeds(script, 0) || Succeeds(script, 1)) ==> e == Some(CouldNotConnectSnowflake))
        && ((Succeeds(script, 0) || Succeeds(script, 1)) && !local.opens ==> e == Some(CouldNotConnectDuckdb))
        && snowflakeConn == (if Succeeds(script, 0) || Succeeds(script, 1)
             then Some(RemoteSession(!Succeeds(script, 0), true)) else old(snowflakeConn))
        && duckdbConn == (if Connects(script) then Some(LocalSession(true)) else old(duckdbConn))
    {
      var ok := ConnectSnowflake();
      if !ok {
        return Some(CouldNotConnectSnowflake);
      }
      ok := ConnectDuckdb();
      if !ok {
        return Some(CouldNotConnectDuckdb);
      }
      return None;
    }

    /** The resolve, extract and load stages of run_pipeline, with both sessions open. */
    method ExtractAndLoad(tableName: Option<string>, customQuery: Option<string>, limit: int)
      returns (r: Result<Option<ResultSet>, Failure>)
      requires RemoteLive(snowflakeConn) && LocalLive(duckdbConn)
      modifies remote`statements, local`tables, local`bindings
      ensures ExtractLoadEffect(tableName, customQuery, limit, old(remote.statements), old(local.Snapshot()), r)
    {
      var listed: seq<string> := [];
      if NeedsDiscovery(tableName, customQuery) {
        listed := GetSnowflakeTables();
      }
      var resolved := Resolve(tableName, customQuery, listed);
      if resolved.Failure? {
        return Failure(resolved.error);
      }
      r := ReadAndLoad(resolved.value, limit);
    }

    /** The extract and load stages of run_pipeline for a resolved query and target. */
    method ReadAndLoad(spec: TableSpec, limit: int) returns (r: Result<Option<ResultSet>, Failure>)
      requires RemoteLive(snowflakeConn) && LocalLive(duckdbConn)
      modifies remote`statements, local`tables, local`bindings
      ensures ReadLoadOutcome(spec, limit, old(remote.statements), old(local.Snapshot()), r)
    {
      var df := ReadSnowflakeData(spec.query, limit);
      if df.Failure? {
        return Failure(df.error);
      }
      if df.value.Empty() {
        return Success(None);
      }
      var written, count := WriteToDuckdb(df.value, spec.target);
      if written.Failure? {
        return Failure(written.error);
      }
      if !written.value {
        // unreachable: the frame is not empty and the store session is open
        assert false;
      }
      return Success(Some(df.value));
    }

    /** The body of run_pipeline's try block: each stage runs only if the one before succeeded. */
    method RunStages(tableName: Option<string>, customQuery: Option<string>, limit: int)
      returns (r: Result<Option<ResultSet>, Failure>)
      modifies this`snowflakeConn, this`duckdbConn, remote`connectScript, remote`attempts, remote`statements
      modifies local`tables, local`bindings, local`openCalls
      ensures StagesEffect(tableName, customQuery, limit, old(Observe()), r)
      ensures var script := old(remote.connectScript);
        snowflakeConn == if Succeeds(script, 0) || Succeeds(script, 1)
          then Some(RemoteSession(!Succeeds(script, 0), true)) else old(snowflakeConn)
      ensures duckdbConn == if Connects(old(remote.connectScript)) then Some(LocalSession(true)) else old(duckdbConn)
    {
      ghost var sentBefore, before := remote.statements, local.Snapshot();
      var e := OpenSessions();
      if e.Some? {
        return Failure(e.value);
      }
      assert remote.statements == sentBefore && local.Snapshot() == before;
      r := ExtractAndLoad(tableName, customQuery, limit);
    }

    /**
     * run_pipeline: the stages, then cleanup whatever happened; the stages'
     * outcome (a value or the error they raised) is passed on unchanged.
     */
    method RunPipeline(tableName: Option<string>, customQuery: Option<string>, limit: int)
      returns (r: Result<Option<ResultSet>, Failure>)
      modifies this`snowflakeConn, this`duckdbConn, remote`connectScript, remote`attempts, remote`statements, remote`closeCalls
      modifies local`tables, local`bindings, local`openCalls, local`closeCalls
      ensures StagesEffect(tableName, customQuery, limit, old(Observe()), r)
      // every session held at the end has been closed (unless its close raised), exactly once
      ensures var script := old(remote.connectScript);
        snowflakeConn == ClosedRemote(if Succeeds(script, 0) || Succeeds(script, 1)
          then Some(RemoteSession(!Succeeds(script, 0), true)) else old(snowflakeConn), remote.closeSucceeds)
      ensures duckdbConn == ClosedLocal(if Connects(old(remote.connectScript))
        then Some(LocalSession(true)) else old(duckdbConn), local.closeSucceeds)
      ensures remote.closeCalls == old(remote.closeCalls) + (if snowflakeConn.Some? then 1 else 0)
      ensures local.closeCalls == old(local.closeCalls) + (if duckdbConn.Some? then 1 else 0)
    {
      r := RunStages(tableName, customQuery, limit);
      Cleanup();
    }
  }
}
