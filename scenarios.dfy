/**
 * An end-to-end run of the model: a warehouse holding ORDERS (three rows,
 * an integer ID and an opaque floating AMT), whose first connection attempt
 * fails and whose later ones succeed, and an empty local store. The
 * pipeline is run twice for table "ORDERS", each time by a fresh
 * DataPipeline, as the dashboard does.
 */
module Scenarios {
  import opened Wrappers
  import opened Text
  import opened Records
  import opened Queries
  import opened Remote
  import opened Local
  import opened Pipeline

  const Orders := ResultSet(["ID", "AMT"], [[IntCell(1), FloatCell(10)], [IntCell(2), FloatCell(20)], [IntCell(3), FloatCell(30)]])

  /** The table the dashboard asks for. */
  const OrdersName := "ORDERS"

  /** ORDERS is read whole into the local table `orders`. */
  lemma OrdersResolved()
    ensures Resolve(Some(OrdersName), None, []) == Success(TableSpec(SelectAll(OrdersName), "orders"))
    ensures Sanitize("orders") == "orders"
  {
    assert Lower(OrdersName) == "orders";
  }

  /** The statement sent for ORDERS carries the default limit, and the warehouse answers with the whole table. */
  lemma OrdersAnswered(tables: map<string, ResultSet>, answers: map<string, ResultSet>)
    requires tables == map[OrdersName := Orders]
    ensures Answer(tables, answers, WithLimit(SelectAll(OrdersName), DefaultLimit)) == Some(Orders)
  {
    AbsentHead(Upper(OrdersName), LimitKeyword);
    WithLimitSelect(OrdersName, DefaultLimit);
    AnswerToLimitedSelect(tables, answers, OrdersName, DefaultLimit);
  }

  /**
   * One run for table ORDERS by a fresh DataPipeline: it returns the three
   * rows, and afterwards the local table `orders` holds exactly them, however
   * many other tables the store has and whatever `orders` held before.
   */
  method RunOrders(remote: Warehouse, local: LocalStore)
    returns (r: Result<Option<ResultSet>, Failure>)
    requires remote.tables == map[OrdersName := Orders]
    requires Succeeds(remote.connectScript, 0) || Succeeds(remote.connectScript, 1)
    requires local.faults == {} && local.opens
    modifies remote, local
    ensures r == Success(Some(Orders))
    ensures local.tables == old(local.tables)["orders" := Orders]
    ensures remote.attempts == old(remote.attempts) + Tried(old(remote.connectScript))
    ensures remote.connectScript == Skip(old(remote.connectScript), |Tried(old(remote.connectScript))|)
    ensures remote.tables == old(remote.tables) && local.faults == old(local.faults) && local.opens == old(local.opens)
  {
    ghost var sent, before := remote.statements, local.Snapshot();
    var pipeline := new DataPipeline(remote, local);
    r := pipeline.RunPipeline(Some(OrdersName), None, DefaultLimit);
    // both sessions came up, so the extract and load stages ran
    assert pipeline.Connects(old(remote.connectScript));
    OrdersLoaded(pipeline, sent, before, r);
  }

  /**
   * Once both sessions are open, the extract and load stages for ORDERS
   * return its rows and leave `orders` holding exactly them.
   */
  lemma OrdersLoaded(pipeline: DataPipeline, sent: seq<string>, before: Catalog, r: Result<Option<ResultSet>, Failure>)
    requires pipeline.remote.tables == map[OrdersName := Orders] && pipeline.local.faults == {}
    requires pipeline.ExtractLoadEffect(Some(OrdersName), None, DefaultLimit, sent, before, r)
    ensures r == Success(Some(Orders))
    ensures pipeline.local.tables == before.tables["orders" := Orders]
  {
    OrdersResolved();
    OrdersAnswered(pipeline.remote.tables, pipeline.remote.answers);
    LoadReplaces(before, Orders, "orders");
    assert pipeline.ReadLoadOutcome(TableSpec(SelectAll(OrdersName), "orders"), DefaultLimit, sent, before, r);
  }

  /**
   * Both runs succeed with the three rows and two columns of ORDERS; after
   * each the local table `orders` holds exactly those rows (3, not 6 after
   * the second).
   */
  method OrdersTwice() returns (first: Result<Option<ResultSet>, Failure>, second: Result<Option<ResultSet>, Failure>,
                                countAfterFirst: nat, countAfterSecond: nat)
    ensures first == second == Success(Some(Orders))
    ensures |Orders.rows| == 3 && |Orders.columns| == 2
    ensures countAfterFirst == countAfterSecond == 3
  {
    var remote := new Warehouse(map[OrdersName := Orders], map[], Some([]), [true, true], true);
    var local := new LocalStore(map[], {}, true, true);
    first := RunOrders(remote, local);
    countAfterFirst := |local.tables["orders"].rows|;
    second := RunOrders(remote, local);
    countAfterSecond := |local.tables["orders"].rows|;
  }

  /** The secure attempt fails and the insecure one succeeds: the run still completes. */
  method OrdersAfterFallback() returns (r: Result<Option<ResultSet>, Failure>, attempts: seq<bool>)
    ensures r == Success(Some(Orders))
    ensures attempts == [false, true]
  {
    var remote := new Warehouse(map[OrdersName := Orders], map[], Some([]), [false, true], true);
    var local := new LocalStore(map[], {}, true, true);
    r := RunOrders(remote, local);
    attempts := remote.attempts;
  }
}
