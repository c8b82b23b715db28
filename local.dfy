/**
 * The local embedded store as write_to_duckdb uses it: a catalog of tables,
 * the staging bindings registered from in-memory frames, and a script of
 * which statements raise. The store is a file that outlives every pipeline
 * run; it also counts how often it was opened and closed.
 */
module Local {
  import opened Wrappers
  import opened Records

  /** The part of the store a load changes: its tables and its staging bindings. */
  datatype Catalog = Catalog(tables: map<string, ResultSet>, bindings: map<string, ResultSet>)

  /** The first statement of a load, in execution order, that raises. */
  function FirstFault(faults: set<LoadStep>): (first: Option<LoadStep>)
    ensures first.None? <==> faults == {}
    ensures first.Some? ==> first.value in faults
  {
    if Drop in faults then Some(Drop)
    else if Register in faults then Some(Register)
    else if Create in faults then Some(Create)
    else if Unregister in faults then Some(Unregister)
    else if Count in faults then Some(Count)
    else
      assert forall s: LoadStep :: s !in faults by {
        forall s: LoadStep ensures s !in faults {
          assert s.Drop? || s.Register? || s.Create? || s.Unregister? || s.Count?;
        }
      }
      None
  }

  /** The name under which a frame is staged before the table is created from it. */
  function StagingName(clean: string): string {
    clean + "_temp"
  }

  /**
   * The catalog after loading `df` into table `clean` when the load stops at
   * statement `fault` (None: it runs to the end). The statements are: drop
   * the table, register the staging binding, create the table from it,
   * unregister the binding, count the rows (which changes nothing).
   */
  function AfterLoad(c: Catalog, df: ResultSet, clean: string, fault: Option<LoadStep>): (r: Catalog)
    // nothing but the target table and its staging binding is ever touched
    ensures forall t :: t != clean ==> (t in r.tables <==> t in c.tables)
    ensures forall t :: t != clean && t in c.tables ==> r.tables[t] == c.tables[t]
    ensures forall b :: b != StagingName(clean) ==> (b in r.bindings <==> b in c.bindings)
    ensures forall b :: b != StagingName(clean) && b in c.bindings ==> r.bindings[b] == c.bindings[b]
    // a failing DROP leaves everything as it was
    ensures fault == Some(Drop) ==> r == c
    // a failure after the DROP and before the CREATE leaves the target absent
    ensures fault == Some(Register) || fault == Some(Create) ==> clean !in r.tables
    // once the CREATE has run the target holds exactly the frame
    ensures fault.None? || fault == Some(Unregister) || fault == Some(Count) ==> clean in r.tables && r.tables[clean] == df
    // a completed load leaves no staging binding behind; a failed CREATE or UNREGISTER does
    ensures fault.None? || fault == Some(Count) ==> StagingName(clean) !in r.bindings
    ensures fault == Some(Create) || fault == Some(Unregister) ==>
      StagingName(clean) in r.bindings && r.bindings[StagingName(clean)] == df
  {
    var temp := StagingName(clean);
    var dropped := c.(tables := c.tables - {clean});
    var registered := dropped.(bindings := dropped.bindings[temp := df]);
    var created := registered.(tables := registered.tables[clean := df]);
    var unregistered := created.(bindings := created.bindings - {temp});
    match fault
    case Some(Drop) => c
    case Some(Register) => dropped
    case Some(Create) => registered
    case Some(Unregister) => created
    case _ => unregistered
  }

  /** The catalog after each prefix of the load's statements, written out. */
  lemma LoadSteps(c: Catalog, df: ResultSet, clean: string)
    ensures AfterLoad(c, df, clean, Some(Drop)) == c
    ensures AfterLoad(c, df, clean, Some(Register)) == c.(tables := c.tables - {clean})
    ensures AfterLoad(c, df, clean, Some(Create)) ==
      Catalog(c.tables - {clean}, c.bindings[StagingName(clean) := df])
    ensures AfterLoad(c, df, clean, Some(Unregister)) ==
      Catalog((c.tables - {clean})[clean := df], c.bindings[StagingName(clean) := df])
    ensures AfterLoad(c, df, clean, Some(Count)) == AfterLoad(c, df, clean, None)
    ensures AfterLoad(c, df, clean, None) ==
      Catalog((c.tables - {clean})[clean := df], c.bindings[StagingName(clean) := df] - {StagingName(clean)})
  {
  }

  /** Loading the same frame again gives the same catalog: the table is replaced, never appended to. */
  lemma LoadIdempotent(c: Catalog, df: ResultSet, clean: string)
    ensures AfterLoad(AfterLoad(c, df, clean, None), df, clean, None) == AfterLoad(c, df, clean, None)
  {
    var once := AfterLoad(c, df, clean, None);
    assert AfterLoad(once, df, clean, None).tables == once.tables;
    assert AfterLoad(once, df, clean, None).bindings == once.bindings;
  }

  /** A completed load is a replace: the catalog's tables are the old ones with the target set to the frame. */
  lemma LoadReplaces(c: Catalog, df: ResultSet, clean: string)
    ensures AfterLoad(c, df, clean, None).tables == c.tables[clean := df]
    ensures AfterLoad(c, df, clean, None).bindings == c.bindings - {StagingName(clean)}
  {
    var r := AfterLoad(c, df, clean, None);
    assert r.tables.Keys == c.tables[clean := df].Keys;
    assert r.bindings.Keys == (c.bindings - {StagingName(clean)}).Keys;
  }

  class LocalStore {
    var tables: map<string, ResultSet>
    /** The frames registered under a name, visible to SQL until unregistered. */
    var bindings: map<string, ResultSet>
    /** The statements of a load that raise. */
    var faults: set<LoadStep>
    /** Whether opening the store file succeeds. */
    var opens: bool
    var openCalls: nat
    var closeSucceeds: bool
    var closeCalls: nat

    function Snapshot(): Catalog
      reads this`tables, this`bindings
    {
      Catalog(tables, bindings)
    }

    constructor (tables: map<string, ResultSet>, faults: set<LoadStep>, opens: bool, closeSucceeds: bool)
      ensures this.tables == tables && bindings == map[]
      ensures this.faults == faults && this.opens == opens && this.closeSucceeds == closeSucceeds
      ensures openCalls == 0 && closeCalls == 0
    {
      this.tables := tables;
      bindings := map[];
      this.faults := faults;
      this.opens := opens;
      this.closeSucceeds := closeSucceeds;
      openCalls := 0;
      closeCalls := 0;
    }

    /** `duckdb.connect(path, read_only=False)`: false when it raises. */
    method Open() returns (ok: bool)
      modifies this`openCalls
      ensures ok == opens
      ensures openCalls == old(openCalls) + 1
    {
      openCalls := openCalls + 1;
      ok := opens;
    }

    /** `DROP TABLE IF EXISTS name`. */
    method DropIfExists(name: string) returns (ok: bool)
      modifies this`tables
      ensures ok == (Drop !in faults)
      ensures tables == if ok then old(tables) - {name} else old(tables)
    {
      ok := Drop !in faults;
      if ok {
        tables := tables - {name};
      }
    }

    /** `register(name, df)`: the frame becomes queryable under `name`. */
    method Register(name: string, df: ResultSet) returns (ok: bool)
      modifies this`bindings
      ensures ok == (LoadStep.Register !in faults)
      ensures bindings == if ok then old(bindings)[name := df] else old(bindings)
    {
      ok := LoadStep.Register !in faults;
      if ok {
        bindings := bindings[name := df];
      }
    }

    /** `CREATE TABLE name AS SELECT * FROM binding`: raises when the table exists or the binding does not. */
    method CreateFrom(name: string, binding: string) returns (ok: bool)
      modifies this`tables
      ensures ok == (Create !in faults && binding in bindings && name !in old(tables))
      ensures tables == if ok then old(tables)[name := bindings[binding]] else old(tables)
    {
      ok := Create !in faults && binding in bindings && name !in tables;
      if ok {
        tables := tables[name := bindings[binding]];
      }
    }

    /** `unregister(name)`. */
    method Unregister(name: string) returns (ok: bool)
      modifies this`bindings
      ensures ok == (LoadStep.Unregister !in faults)
      ensures bindings == if ok then old(bindings) - {name} else old(bindings)
    {
      ok := LoadStep.Unregister !in faults;
      if ok {
        bindings := bindings - {name};
      }
    }

    /** `SELECT COUNT(*) FROM name`: None when it raises (a missing table among the causes). */
    method CountRows(name: string) returns (n: Option<nat>)
      ensures n.Some? <==> Count !in faults && name in tables
      ensures n.Some? ==> n.value == |tables[name].rows|
    {
      n := if Count !in faults && name in tables then Some(|tables[name].rows|) else None;
    }

    /** `close()`: false when it raises. */
    method Close() returns (ok: bool)
      modifies this`closeCalls
      ensures ok == closeSucceeds
      ensures closeCalls == old(closeCalls) + 1
    {
      closeCalls := closeCalls + 1;
      ok := closeSucceeds;
    }
  }
}
