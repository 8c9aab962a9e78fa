/**
 * `warehouse_pipeline` (src/warehouse_pipeline.py): extract the seven staging
 * tables, run the six transforms, then load the six warehouse tables, all
 * against the same stores. As written the fifth transform is called with
 * four arguments for three parameters, so the run ends with a TypeError
 * there and no load ever runs; `WarehousePipelineThreeArgs` is the run with
 * that call corrected.
 *
 * Each stage call leaves an `Effect` behind: its log event and, when it
 * fails, the handle_error call it makes. A run is described by the effects
 * of the calls it makes, in order, and by the warehouse the loads produce.
 */
module WarehousePipeline {
  import opened Wrappers
  import opened Timestamps
  import opened Frames
  import opened Helper
  import opened TransformStage
  import Extract
  import DimCustomers
  import DimEmployees
  import DimStoreBranch
  import DimProducts
  import FctOrder
  import FctInventory
  import Load

  /** How a pipeline run ends: it finishes, or an exception escapes it. */
  datatype RunEnd = Finished | Crashed(error: Error)

  const Schema := "public"

  /** The staging tables, in the order they are extracted. */
  const StagingTables: seq<string> :=
    ["customers", "employees", "store_branch", "products", "orders", "order_details", "inventory_tracking"]

  /** The warehouse tables and their keys, in the order they are loaded. */
  const WarehouseTables: seq<string> :=
    ["dim_customers", "dim_employees", "dim_store_branch", "dim_products", "fct_order", "fct_inventory"]
  const WarehouseKeys: seq<string> :=
    ["nk_customer_id", "nk_employee_id", "nk_store_id", "nk_product_id", "nk_order_id", "nk_tracking_id"]

  /** What the interpreter raises for the call at the fct_order step: four arguments, three parameters. */
  const ArityMismatch := TypeError("transform_fct_order() takes 3 positional arguments but 4 were given")

  // ---------------------------------------------------------------------------
  // What the calls leave in the stores
  // ---------------------------------------------------------------------------

  /** A handle_error call: the bucket, the object name and the frame handed over (None fails to serialise). */
  datatype Sink = Sink(bucket: string, name: string, payload: Option<Frame>)

  /** What one stage call leaves behind: its log event and, on failure, its handle_error call. */
  datatype Effect = Effect(event: LogEvent, sink: Option<Sink>)

  /** The part of the stores the stage calls write, apart from the warehouse tables. */
  datatype Trail = Trail(log: seq<LogEvent>, buckets: set<string>, deadLetters: seq<DeadLetter>)

  function TrailOf(s: Stores): Trail
    reads s
  {
    Trail(s.log, s.buckets, s.deadLetters)
  }

  function Events(es: seq<Effect>): (r: seq<LogEvent>)
    ensures |r| == |es| && forall i | 0 <= i < |es| :: r[i] == es[i].event
  {
    seq(|es|, i requires 0 <= i < |es| => es[i].event)
  }

  /** The events of a non-empty run: its first event, then the rest. */
  lemma {:induction false} EventsCons(es: seq<Effect>)
    requires es != []
    ensures Events(es) == [es[0].event] + Events(es[1..])
  {
  }

  /** The bucket a handle_error call ensures; none while the object store is down. */
  function Bin(sinkUp: bool, e: Effect): set<string> {
    if sinkUp && e.sink.Some? then {e.sink.value.bucket} else {}
  }

  /** The object a handle_error call puts: only with the store up and a frame to serialise. */
  function Park(sinkUp: bool, e: Effect): seq<DeadLetter> {
    match e.sink
    case None => []
    case Some(k) => if sinkUp && k.payload.Some? then [DeadLetter(k.bucket, k.name, k.payload.value)] else []
  }

  function Bins(sinkUp: bool, es: seq<Effect>): set<string> {
    if es == [] then {} else Bin(sinkUp, es[0]) + Bins(sinkUp, es[1..])
  }

  function Parks(sinkUp: bool, es: seq<Effect>): seq<DeadLetter> {
    if es == [] then [] else Park(sinkUp, es[0]) + Parks(sinkUp, es[1..])
  }

  /** The trail after one more effect: its event logged (log database up), its bucket and object added. */
  function Step(logUp: bool, sinkUp: bool, t: Trail, e: Effect): Trail {
    Trail(t.log + (if logUp then [e.event] else []), t.buckets + Bin(sinkUp, e), t.deadLetters + Park(sinkUp, e))
  }

  /** An effect without a handle_error call only logs its event. */
  lemma {:induction false} QuietStep(logUp: bool, sinkUp: bool, t: Trail, e: Effect)
    requires e.sink.None?
    ensures Step(logUp, sinkUp, t, e) == Trail(t.log + (if logUp then [e.event] else []), t.buckets, t.deadLetters)
  {
    assert t.buckets + {} == t.buckets;
    assert t.deadLetters + [] == t.deadLetters;
  }

  /** The trail after the effects `es`, one after another. */
  function After(logUp: bool, sinkUp: bool, t: Trail, es: seq<Effect>): Trail
    decreases |es|
  {
    if es == [] then t else After(logUp, sinkUp, Step(logUp, sinkUp, t, es[0]), es[1..])
  }

  /** The trail after the first k+1 effects is one step on from the trail after the first k. */
  lemma {:induction false} SnocAt(logUp: bool, sinkUp: bool, t0: Trail, es: seq<Effect>, k: nat, t1: Trail, t2: Trail)
    requires k < |es|
    requires t1 == After(logUp, sinkUp, t0, es[..k])
    requires t2 == Step(logUp, sinkUp, t1, es[k])
    ensures t2 == After(logUp, sinkUp, t0, es[..k + 1])
  {
    assert es[..k + 1] == es[..k] + [es[k]];
    AfterSnoc(logUp, sinkUp, t0, es[..k], es[k]);
  }

  /** Running effects one after another is running them together. */
  lemma {:induction false} AfterAppend(logUp: bool, sinkUp: bool, t: Trail, es: seq<Effect>, fs: seq<Effect>)
    ensures After(logUp, sinkUp, After(logUp, sinkUp, t, es), fs) == After(logUp, sinkUp, t, es + fs)
    decreases |es|
  {
    if es == [] {
      assert es + fs == fs;
    } else {
      assert (es + fs)[1..] == es[1..] + fs;
      AfterAppend(logUp, sinkUp, Step(logUp, sinkUp, t, es[0]), es[1..], fs);
    }
  }

  /** One more effect at the end is one more step. */
  lemma {:induction false} AfterSnoc(logUp: bool, sinkUp: bool, t: Trail, es: seq<Effect>, e: Effect)
    ensures After(logUp, sinkUp, t, es + [e]) == Step(logUp, sinkUp, After(logUp, sinkUp, t, es), e)
  {
    AfterAppend(logUp, sinkUp, t, es, [e]);
    assert [e][1..] == [];
  }

  /** Appending is associative. */
  lemma {:induction false} AppendAssoc<T>(a: seq<T>, b: seq<T>, c: seq<T>)
    ensures (a + b) + c == a + (b + c)
  {
  }

  /** The log after `es`: their events appended, while the log database answers. */
  lemma {:induction false} AfterLog(logUp: bool, sinkUp: bool, t: Trail, es: seq<Effect>)
    ensures After(logUp, sinkUp, t, es).log == t.log + (if logUp then Events(es) else [])
    decreases |es|
  {
    if es != [] {
      var t1 := Step(logUp, sinkUp, t, es[0]);
      AfterLog(logUp, sinkUp, t1, es[1..]);
      var first: seq<LogEvent> := if logUp then [es[0].event] else [];
      var rest: seq<LogEvent> := if logUp then Events(es[1..]) else [];
      EventsCons(es);
      assert (if logUp then Events(es) else []) == first + rest;
      AppendAssoc(t.log, first, rest);
    } else {
      assert t.log + [] == t.log;
    }
  }

  /** The buckets after `es`: their handle_error buckets added. */
  lemma {:induction false} AfterBuckets(logUp: bool, sinkUp: bool, t: Trail, es: seq<Effect>)
    ensures After(logUp, sinkUp, t, es).buckets == t.buckets + Bins(sinkUp, es)
    decreases |es|
  {
    if es != [] {
      var t1 := Step(logUp, sinkUp, t, es[0]);
      AfterBuckets(logUp, sinkUp, t1, es[1..]);
      assert t1.buckets + Bins(sinkUp, es[1..]) == t.buckets + (Bin(sinkUp, es[0]) + Bins(sinkUp, es[1..]));
    } else {
      assert t.buckets + {} == t.buckets;
    }
  }

  /** The dead letters after `es`: their parked objects appended. */
  lemma {:induction false} AfterParks(logUp: bool, sinkUp: bool, t: Trail, es: seq<Effect>)
    ensures After(logUp, sinkUp, t, es).deadLetters == t.deadLetters + Parks(sinkUp, es)
    decreases |es|
  {
    if es != [] {
      var t1 := Step(logUp, sinkUp, t, es[0]);
      AfterParks(logUp, sinkUp, t1, es[1..]);
      assert t1.deadLetters + Parks(sinkUp, es[1..]) == t.deadLetters + (Park(sinkUp, es[0]) + Parks(sinkUp, es[1..]));
    } else {
      assert t.deadLetters + [] == t.deadLetters;
    }
  }

  /** The trail after `es`: their events appended to the log, their buckets added, their objects appended. */
  lemma {:induction false} AfterParts(logUp: bool, sinkUp: bool, t: Trail, es: seq<Effect>)
    ensures After(logUp, sinkUp, t, es) ==
      Trail(t.log + (if logUp then Events(es) else []), t.buckets + Bins(sinkUp, es), t.deadLetters + Parks(sinkUp, es))
  {
    AfterLog(logUp, sinkUp, t, es);
    AfterBuckets(logUp, sinkUp, t, es);
    AfterParks(logUp, sinkUp, t, es);
  }

  // ---------------------------------------------------------------------------
  // Extraction
  // ---------------------------------------------------------------------------

  /** The seven staging queries, every watermark read from `log`. */
  function Queries(s: Stores, log: seq<LogEvent>): (qs: seq<Result<Frame, Error>>)
    ensures |qs| == |StagingTables|
  {
    seq(|StagingTables|, i requires 0 <= i < |StagingTables| =>
      Extract.StagingQuery(s.stagingUp, s.staging, Schema, StagingTables[i],
                           Extract.TableWatermark(log, StagingTables[i], s.logUp)))
  }

  /** What extract_staging hands back for a query: the frame, or None on an error. */
  function Answer(q: Result<Frame, Error>): Option<Frame> {
    if q.Success? then Some(q.value) else None
  }

  /** The seven frames the pipeline holds after extraction. */
  datatype Extracts = Extracts(customers: Option<Frame>, employees: Option<Frame>, storeBranch: Option<Frame>,
                               products: Option<Frame>, orders: Option<Frame>, orderDetails: Option<Frame>,
                               inventory: Option<Frame>)

  function ExtractsOf(qs: seq<Result<Frame, Error>>): Extracts
    requires |qs| == |StagingTables|
  {
    Extracts(Answer(qs[0]), Answer(qs[1]), Answer(qs[2]), Answer(qs[3]), Answer(qs[4]), Answer(qs[5]), Answer(qs[6]))
  }

  /** The extractions log one event each and never park anything. */
  function ExtractEffects(qs: seq<Result<Frame, Error>>, now: DateTime): (es: seq<Effect>)
    requires |qs| == |StagingTables|
    ensures |es| == |qs|
    ensures forall i | 0 <= i < |es| :: es[i].sink.None? && es[i].event.component == "extraction"
    ensures forall i | 0 <= i < |es| :: es[i].event == Extract.ExtractEvent(StagingTables[i], qs[i], now)
  {
    seq(|qs|, i requires 0 <= i < |qs| => Effect(Extract.ExtractEvent(StagingTables[i], qs[i], now), None))
  }

  /** Events of other components never move a watermark: extraction sees the same watermarks throughout. */
  lemma {:induction false} NoLoadKeepsWatermark(log: seq<LogEvent>, evs: seq<LogEvent>, table: string, logUp: bool)
    requires forall e | e in evs :: e.component != "load"
    ensures Extract.TableWatermark(log + evs, table, logUp) == Extract.TableWatermark(log, table, logUp)
    decreases |evs|
  {
    if evs != [] {
      assert log + evs == (log + Init(evs)) + [Last(evs)];
      NoLoadKeepsWatermark(log, Init(evs), table, logUp);
      Extract.OnlySuccessfulLoadsAdvance(log + Init(evs), Last(evs), table, logUp);
    }
  }

  /** extract_staging(StagingTables[k], 'public') as the k-th extraction of a run that started at `t0`. */
  method ExtractStep(s: Stores, k: nat, ghost t0: Trail, ghost qs: seq<Result<Frame, Error>>, now: DateTime)
    returns (r: Option<Frame>)
    requires s.Valid() && k < |StagingTables|
    requires qs == Queries(s, t0.log)
    requires TrailOf(s) == After(s.logUp, s.sinkUp, t0, ExtractEffects(qs, now)[..k])
    modifies s`log
    ensures s.Valid()
    ensures r == Answer(qs[k])
    ensures TrailOf(s) == After(s.logUp, s.sinkUp, t0, ExtractEffects(qs, now)[..k + 1])
  {
    var es := ExtractEffects(qs, now);
    ghost var t1 := TrailOf(s);
    ghost var evs := if s.logUp then Events(es[..k]) else [];
    AfterParts(s.logUp, s.sinkUp, t0, es[..k]);
    assert s.log == t0.log + evs;
    assert forall e | e in evs :: e.component != "load" by {
      forall e | e in evs ensures e.component != "load" {
        var i :| 0 <= i < |evs| && evs[i] == e;
        assert e == es[i].event;
      }
    }
    NoLoadKeepsWatermark(t0.log, evs, StagingTables[k], s.logUp);
    assert Extract.Extraction(s, StagingTables[k], Schema) == qs[k];
    r := Extract.ExtractStaging(s, StagingTables[k], Schema, now);
    QuietStep(s.logUp, s.sinkUp, t1, es[k]);
    SnocAt(s.logUp, s.sinkUp, t0, es, k, t1, TrailOf(s));
  }

  /**
   * The seven extract_staging calls, in order. Every call reads the watermark
   * the run started with (extraction events are not loads), so the frames
   * are the answers to the queries on the log as it was, and the log gains
   * one extraction event per table.
   */
  method ExtractAll(s: Stores, now: DateTime) returns (x: Extracts)
    requires s.Valid()
    modifies s`log
    ensures s.Valid()
    ensures x == ExtractsOf(Queries(s, old(s.log)))
    ensures TrailOf(s) == After(s.logUp, s.sinkUp, old(TrailOf(s)), ExtractEffects(Queries(s, old(s.log)), now))
  {
    ghost var t0 := TrailOf(s);
    ghost var qs := Queries(s, s.log);
    ghost var es := ExtractEffects(qs, now);
    assert es[..0] == [];
    var customers := ExtractStep(s, 0, t0, qs, now);
    var employees := ExtractStep(s, 1, t0, qs, now);
    var storeBranch := ExtractStep(s, 2, t0, qs, now);
    var products := ExtractStep(s, 3, t0, qs, now);
    var orders := ExtractStep(s, 4, t0, qs, now);
    var orderDetails := ExtractStep(s, 5, t0, qs, now);
    var inventory := ExtractStep(s, 6, t0, qs, now);
    assert es[..7] == es;
    x := Extracts(customers, employees, storeBranch, products, orders, orderDetails, inventory);
  }

  // ---------------------------------------------------------------------------
  // Transformation
  // ---------------------------------------------------------------------------

  /** One transform call: its table, its dead-letter bucket and how its try block ends. */
  datatype Stage = Stage(table: string, bucket: string, attempt: Attempt)

  function StageEffect(st: Stage, now: DateTime): Effect {
    Effect(TransformEvent(st.table, st.attempt, now),
           if st.attempt.Broke?
           then Some(Sink(st.bucket, ObjectName("warehouse", "transformation", st.table, now), st.attempt.partial))
           else None)
  }

  function StageEffects(st: seq<Stage>, now: DateTime): (es: seq<Effect>)
    ensures |es| == |st|
    ensures forall i | 0 <= i < |st| :: es[i] == StageEffect(st[i], now)
  {
    seq(|st|, i requires 0 <= i < |st| => StageEffect(st[i], now))
  }

  function CustomersStage(data: Option<Frame>): Stage {
    Stage(DimCustomers.Table, DimCustomers.Bucket, DimCustomers.Transform(data))
  }

  function EmployeesStage(data: Option<Frame>): Stage {
    Stage(DimEmployees.Table, DimEmployees.Bucket, DimEmployees.Transform(data))
  }

  function StoreBranchStage(data: Option<Frame>): Stage {
    Stage(DimStoreBranch.Table, DimStoreBranch.Bucket, DimStoreBranch.Transform(data))
  }

  function ProductsStage(data: Option<Frame>, stores: Option<Frame>): Stage {
    Stage(DimProducts.Table, DimProducts.Bucket, DimProducts.Transform(data, stores))
  }

  function OrdersStage(data: Option<Frame>, customers: Option<Frame>, employees: Option<Frame>): Stage {
    Stage(FctOrder.Table, FctOrder.Bucket, FctOrder.Transform(data, customers, employees))
  }

  function InventoryStage(data: Option<Frame>, products: Option<Frame>): Stage {
    Stage(FctInventory.Table, FctInventory.Bucket, FctInventory.Transform(data, products))
  }

  /** Every frame the dimension transforms read was extracted. */
  predicate DimInputs(x: Extracts) {
    x.customers.Some? && x.employees.Some? && x.storeBranch.Some? && x.products.Some?
  }

  /**
   * The dimension transforms in call order, each fed the extracted frame;
   * products is given the untransformed store_branch frame.
   */
  function DimStages(x: Extracts): seq<Stage> {
    [CustomersStage(x.customers), EmployeesStage(x.employees), StoreBranchStage(x.storeBranch),
     ProductsStage(x.products, x.storeBranch)]
  }

  /**
   * The fact transforms with fct_order given three arguments: orders with the
   * untransformed customers and employees frames, inventory with the
   * untransformed products frame. The order_details frame reaches neither.
   */
  function FactStages(x: Extracts): seq<Stage> {
    [OrdersStage(x.orders, x.customers, x.employees), InventoryStage(x.inventory, x.products)]
  }

  /** The six stages of the corrected run: the dimension stages first, then the two fact stages. */
  lemma {:induction false} AllStages(x: Extracts)
    ensures var st := DimStages(x) + FactStages(x);
      && |st| == |WarehouseTables| && st[..4] == DimStages(x)
      && st[4] == OrdersStage(x.orders, x.customers, x.employees) && st[5] == InventoryStage(x.inventory, x.products)
  {
  }

  /** The call of stage `st` raises out of the transform. */
  predicate Throws(s: Stores, st: Stage) {
    Outcome(s, st.attempt).Threw?
  }

  /** The first stage whose call raises, if any: every earlier call returned. */
  function FirstThrow(s: Stores, st: seq<Stage>): (r: Option<nat>)
    ensures r.Some? ==> r.value < |st| && Throws(s, st[r.value])
    ensures forall j | 0 <= j < |st| && (r.None? || j < r.value) :: !Throws(s, st[j])
  {
    if st == [] then None
    else if Throws(s, st[0]) then Some(0)
    else match FirstThrow(s, st[1..])
      case None => None
      case Some(i) => Some(i + 1)
  }

  /** How many of the stages run: up to and including the first that raises. */
  function Ran(s: Stores, st: seq<Stage>): (n: nat)
    ensures n <= |st|
  {
    match FirstThrow(s, st)
    case Some(i) => i + 1
    case None => |st|
  }

  /** What the calls return when none raises. */
  function Outputs(s: Stores, st: seq<Stage>): (outs: seq<Option<Frame>>)
    requires FirstThrow(s, st).None?
    ensures |outs| == |st|
    ensures forall i | 0 <= i < |st| :: Outcome(s, st[i].attempt) == Returned(outs[i])
  {
    seq(|st|, i requires 0 <= i < |st| => Outcome(s, st[i].attempt).value)
  }

  /** The first raise is the one index at which a stage raises after stages that all return. */
  lemma {:induction false} FirstThrowIs(s: Stores, st: seq<Stage>, i: Option<nat>)
    requires i.Some? ==> i.value < |st| && Throws(s, st[i.value])
    requires forall j | 0 <= j < |st| && (i.None? || j < i.value) :: !Throws(s, st[j])
    ensures FirstThrow(s, st) == i
  {
    var r := FirstThrow(s, st);
    if i.Some? {
      assert Throws(s, st[i.value]);
    }
    if r.Some? {
      assert Throws(s, st[r.value]);
    }
  }

  /** The stages that come first decide the first raise, unless none of them raises. */
  lemma {:induction false} FirstThrowAppend(s: Stores, st: seq<Stage>, more: seq<Stage>)
    ensures FirstThrow(s, st).Some? ==> FirstThrow(s, st + more) == FirstThrow(s, st)
    ensures FirstThrow(s, st).None? ==> (FirstThrow(s, st + more) ==
      match FirstThrow(s, more) case None => None case Some(i) => Some(|st| + i))
  {
    var all := st + more;
    var a := FirstThrow(s, st);
    var b := FirstThrow(s, more);
    var i := if a.Some? then a else if b.Some? then Some(|st| + b.value) else None;
    forall j | 0 <= j < |all| && (i.None? || j < i.value)
      ensures !Throws(s, all[j])
    {
      if j < |st| {
        assert all[j] == st[j];
      } else {
        assert all[j] == more[j - |st|];
      }
    }
    if a.Some? {
      assert all[a.value] == st[a.value];
    } else if b.Some? {
      assert all[|st| + b.value] == more[b.value];
    }
    FirstThrowIs(s, all, i);
  }

  /**
   * The first `k` stages of `st` have run from the trail `t0` to the trail
   * `t`, every one of them returned, and `outs` holds what they returned.
   */
  ghost predicate Progress(s: Stores, st: seq<Stage>, k: nat, t0: Trail, t: Trail, outs: seq<Option<Frame>>,
                           now: DateTime) {
    && k <= |st| && |outs| == k
    && (forall j | 0 <= j < k :: Outcome(s, st[j].attempt) == Returned(outs[j]))
    && t == After(s.logUp, s.sinkUp, t0, StageEffects(st[..k], now))
  }

  /**
   * A stage of `st` raised `e` and it was the first to: the run stopped
   * there, with the trail ending on that stage's effect.
   */
  ghost predicate Halted(s: Stores, st: seq<Stage>, t0: Trail, t: Trail, e: Error, now: DateTime) {
    match FirstThrow(s, st)
    case None => false
    case Some(i) => Outcome(s, st[i].attempt) == Threw(e) && t == After(s.logUp, s.sinkUp, t0, StageEffects(st[..i + 1], now))
  }

  /** Stage `k` has been called after stages that all returned: the run has stopped or moved on. */
  ghost predicate Advanced(s: Stores, st: seq<Stage>, k: nat, t0: Trail, t: Trail, outs: seq<Option<Frame>>,
                           o: Call<Option<Frame>>, now: DateTime) {
    && (o.Threw? ==> Halted(s, st, t0, t, o.error, now))
    && (o.Returned? ==> Progress(s, st, k + 1, t0, t, outs + [o.value], now))
  }

  /** Before the first stage nothing has run. */
  lemma {:induction false} Started(s: Stores, st: seq<Stage>, t0: Trail, now: DateTime)
    ensures Progress(s, st, 0, t0, t0, [], now)
  {
    assert StageEffects(st[..0], now) == [];
  }

  /**
   * One more stage after stages that all returned: the trail takes its
   * effect, and if it raises it is the first to.
   */
  lemma {:induction false} Advance(s: Stores, st: seq<Stage>, k: nat, t0: Trail, t1: Trail, t2: Trail, outs: seq<Option<Frame>>,
                o: Call<Option<Frame>>, now: DateTime)
    requires k < |st| && Progress(s, st, k, t0, t1, outs, now)
    requires o == Outcome(s, st[k].attempt)
    requires t2 == Step(s.logUp, s.sinkUp, t1, StageEffect(st[k], now))
    ensures Advanced(s, st, k, t0, t2, outs, o, now)
  {
    assert StageEffects(st[..k + 1], now) == StageEffects(st[..k], now) + [StageEffect(st[k], now)];
    AfterSnoc(s.logUp, s.sinkUp, t0, StageEffects(st[..k], now), StageEffect(st[k], now));
    if o.Threw? {
      FirstThrowIs(s, st, Some(k));
    }
  }

  /**
   * What running the stages `st` in order hands back: the error of the
   * first call that raises, or else every call's value.
   */
  ghost predicate Settled(s: Stores, st: seq<Stage>, crash: Option<Error>, outs: seq<Option<Frame>>) {
    match FirstThrow(s, st)
    case Some(i) => crash == Some(Outcome(s, st[i].attempt).error)
    case None => crash.None? && outs == Outputs(s, st)
  }

  /**
   * A run of the stages that halted or got through all of them is settled,
   * and its trail holds the effects of the stages that ran.
   */
  lemma {:induction false} Concluded(s: Stores, st: seq<Stage>, t0: Trail, t: Trail, crash: Option<Error>, outs: seq<Option<Frame>>,
                  now: DateTime)
    requires crash.None? ==> Progress(s, st, |st|, t0, t, outs, now)
    requires crash.Some? ==> Halted(s, st, t0, t, crash.value, now)
    ensures Settled(s, st, crash, outs)
    ensures t == After(s.logUp, s.sinkUp, t0, StageEffects(st[..Ran(s, st)], now))
  {
    if crash.None? {
      FirstThrowIs(s, st, None);
    }
  }

  /** The trail one transform call leaves: as its stage's effect says. */
  lemma {:induction false} StageTrail(s: Stores, st: Stage, now: DateTime, before: Trail, after: Trail)
    requires after.log == before.log + s.Logged(TransformEvent(st.table, st.attempt, now))
    requires st.attempt.Built? ==> after.buckets == before.buckets && after.deadLetters == before.deadLetters
    requires st.attempt.Broke? ==> after.buckets == before.buckets + (if s.sinkUp then {st.bucket} else {})
    requires st.attempt.Broke? ==> (after.deadLetters == before.deadLetters +
      s.Parked(st.attempt.partial, st.bucket, ObjectName("warehouse", "transformation", st.table, now)))
    ensures after == Step(s.logUp, s.sinkUp, before, StageEffect(st, now))
  {
  }

  /** transform_dim_customers, as stage `k` of `st`. */
  method CustomersAt(s: Stores, data: Option<Frame>, ghost st: seq<Stage>, ghost k: nat, ghost t0: Trail,
                     ghost outs: seq<Option<Frame>>, now: DateTime) returns (o: Call<Option<Frame>>)
    requires s.Valid() && k < |st| && st[k] == CustomersStage(data)
    requires Progress(s, st, k, t0, TrailOf(s), outs, now)
    modifies s`log, s`buckets, s`deadLetters
    ensures s.Valid()
    ensures o == Outcome(s, CustomersStage(data).attempt)
    ensures s.sinkUp && data.Some? ==> o.Returned?
    ensures Advanced(s, st, k, t0, TrailOf(s), outs, o, now)
  {
    ghost var t1 := TrailOf(s);
    o := DimCustomers.TransformDimCustomers(s, data, now);
    StageTrail(s, CustomersStage(data), now, t1, TrailOf(s));
    Advance(s, st, k, t0, t1, TrailOf(s), outs, o, now);
  }

  /** transform_dim_employees, as stage `k` of `st`. */
  method EmployeesAt(s: Stores, data: Option<Frame>, ghost st: seq<Stage>, ghost k: nat, ghost t0: Trail,
                     ghost outs: seq<Option<Frame>>, now: DateTime) returns (o: Call<Option<Frame>>)
    requires s.Valid() && k < |st| && st[k] == EmployeesStage(data)
    requires Progress(s, st, k, t0, TrailOf(s), outs, now)
    modifies s`log, s`buckets, s`deadLetters
    ensures s.Valid()
    ensures o == Outcome(s, EmployeesStage(data).attempt)
    ensures s.sinkUp && data.Some? ==> o.Returned?
    ensures Advanced(s, st, k, t0, TrailOf(s), outs, o, now)
  {
    ghost var t1 := TrailOf(s);
    if data.Some? {
      DimEmployees.FrameNeverLost(data.value);
    }
    o := DimEmployees.TransformDimEmployees(s, data, now);
    StageTrail(s, EmployeesStage(data), now, t1, TrailOf(s));
    Advance(s, st, k, t0, t1, TrailOf(s), outs, o, now);
  }

  /** transform_dim_store_branch, as stage `k` of `st`. */
  method StoreBranchAt(s: Stores, data: Option<Frame>, ghost st: seq<Stage>, ghost k: nat, ghost t0: Trail,
                       ghost outs: seq<Option<Frame>>, now: DateTime) returns (o: Call<Option<Frame>>)
    requires s.Valid() && k < |st| && st[k] == StoreBranchStage(data)
    requires Progress(s, st, k, t0, TrailOf(s), outs, now)
    modifies s`log, s`buckets, s`deadLetters
    ensures s.Valid()
    ensures o == Outcome(s, StoreBranchStage(data).attempt)
    ensures s.sinkUp && data.Some? ==> o.Returned?
    ensures Advanced(s, st, k, t0, TrailOf(s), outs, o, now)
  {
    ghost var t1 := TrailOf(s);
    o := DimStoreBranch.TransformDimStoreBranch(s, data, now);
    StageTrail(s, StoreBranchStage(data), now, t1, TrailOf(s));
    Advance(s, st, k, t0, t1, TrailOf(s), outs, o, now);
  }

  /** transform_dim_products, as stage `k` of `st`. */
  method ProductsAt(s: Stores, data: Option<Frame>, stores: Option<Frame>, ghost st: seq<Stage>, ghost k: nat,
                    ghost t0: Trail, ghost outs: seq<Option<Frame>>, now: DateTime) returns (o: Call<Option<Frame>>)
    requires s.Valid() && k < |st| && st[k] == ProductsStage(data, stores)
    requires Progress(s, st, k, t0, TrailOf(s), outs, now)
    modifies s`log, s`buckets, s`deadLetters
    ensures s.Valid()
    ensures o == Outcome(s, ProductsStage(data, stores).attempt)
    ensures s.sinkUp && data.Some? ==> o.Returned?
    ensures Advanced(s, st, k, t0, TrailOf(s), outs, o, now)
  {
    ghost var t1 := TrailOf(s);
    o := DimProducts.TransformDimProducts(s, data, stores, now);
    StageTrail(s, ProductsStage(data, stores), now, t1, TrailOf(s));
    Advance(s, st, k, t0, t1, TrailOf(s), outs, o, now);
  }

  /** transform_fct_order with its three arguments, as stage `k` of `st`. */
  method OrdersAt(s: Stores, data: Option<Frame>, customers: Option<Frame>, employees: Option<Frame>,
                  ghost st: seq<Stage>, ghost k: nat, ghost t0: Trail, ghost outs: seq<Option<Frame>>, now: DateTime)
    returns (o: Call<Option<Frame>>)
    requires s.Valid() && k < |st| && st[k] == OrdersStage(data, customers, employees)
    requires Progress(s, st, k, t0, TrailOf(s), outs, now)
    modifies s`log, s`buckets, s`deadLetters
    ensures s.Valid()
    ensures o == Outcome(s, OrdersStage(data, customers, employees).attempt)
    ensures s.sinkUp && data.Some? ==> o == Returned(None)
    ensures Advanced(s, st, k, t0, TrailOf(s), outs, o, now)
  {
    ghost var t1 := TrailOf(s);
    FctOrder.AlwaysFails(data, customers, employees);
    o := FctOrder.TransformFctOrder(s, data, customers, employees, now);
    StageTrail(s, OrdersStage(data, customers, employees), now, t1, TrailOf(s));
    Advance(s, st, k, t0, t1, TrailOf(s), outs, o, now);
  }

  /** transform_fct_inventory, as stage `k` of `st`. */
  method InventoryAt(s: Stores, data: Option<Frame>, products: Option<Frame>, ghost st: seq<Stage>, ghost k: nat,
                     ghost t0: Trail, ghost outs: seq<Option<Frame>>, now: DateTime) returns (o: Call<Option<Frame>>)
    requires s.Valid() && k < |st| && st[k] == InventoryStage(data, products)
    requires Progress(s, st, k, t0, TrailOf(s), outs, now)
    modifies s`log, s`buckets, s`deadLetters
    ensures s.Valid()
    ensures o == Outcome(s, InventoryStage(data, products).attempt)
    ensures s.sinkUp && data.Some? ==> o == Returned(None)
    ensures Advanced(s, st, k, t0, TrailOf(s), outs, o, now)
  {
    ghost var t1 := TrailOf(s);
    FctInventory.AlwaysFails(data, products);
    o := FctInventory.TransformFctInventory(s, data, products, now);
    StageTrail(s, InventoryStage(data, products), now, t1, TrailOf(s));
    Advance(s, st, k, t0, t1, TrailOf(s), outs, o, now);
  }

  /**
   * The four dimension calls as the first four stages of `st`, each fed its
   * extracted frame (products the untransformed store_branch frame): the
   * first exception stops them; otherwise all four results come back.
   */
  method RunDims(s: Stores, x: Extracts, ghost st: seq<Stage>, ghost t0: Trail, now: DateTime)
    returns (crash: Option<Error>, outs: seq<Option<Frame>>)
    requires s.Valid() && |st| >= 4 && st[..4] == DimStages(x)
    requires Progress(s, st, 0, t0, TrailOf(s), [], now)
    modifies s`log, s`buckets, s`deadLetters
    ensures s.Valid()
    ensures crash.Some? ==> Halted(s, st, t0, TrailOf(s), crash.value, now)
    ensures crash.None? ==> Progress(s, st, 4, t0, TrailOf(s), outs, now)
    ensures s.sinkUp && DimInputs(x) ==> crash.None?
  {
    assert st[0] == DimStages(x)[0] && st[1] == DimStages(x)[1] && st[2] == DimStages(x)[2] && st[3] == DimStages(x)[3];
    outs := [];
    crash := None;
    var o := CustomersAt(s, x.customers, st, 0, t0, outs, now);
    if o.Threw? {
      crash := Some(o.error);
      return;
    }
    outs := outs + [o.value];
    o := EmployeesAt(s, x.employees, st, 1, t0, outs, now);
    if o.Threw? {
      crash := Some(o.error);
      return;
    }
    outs := outs + [o.value];
    o := StoreBranchAt(s, x.storeBranch, st, 2, t0, outs, now);
    if o.Threw? {
      crash := Some(o.error);
      return;
    }
    outs := outs + [o.value];
    o := ProductsAt(s, x.products, x.storeBranch, st, 3, t0, outs, now);
    if o.Threw? {
      crash := Some(o.error);
      return;
    }
    outs := outs + [o.value];
  }

  /**
   * The four dimension transforms, in order. The first exception escapes
   * after its stage; otherwise the four results come back.
   */
  method TransformDims(s: Stores, x: Extracts, now: DateTime) returns (crash: Option<Error>, outs: seq<Option<Frame>>)
    requires s.Valid()
    modifies s`log, s`buckets, s`deadLetters
    ensures s.Valid()
    ensures Settled(s, DimStages(x), crash, outs)
    ensures TrailOf(s) == After(s.logUp, s.sinkUp, old(TrailOf(s)), StageEffects(DimStages(x)[..Ran(s, DimStages(x))], now))
    ensures s.sinkUp && DimInputs(x) ==> crash.None?
  {
    ghost var st := DimStages(x);
    ghost var t0 := TrailOf(s);
    Started(s, st, t0, now);
    crash, outs := RunDims(s, x, st, t0, now);
    Concluded(s, st, t0, TrailOf(s), crash, outs, now);
  }

  /**
   * The six transforms, fct_order with three arguments. The first exception
   * escapes after its stage; otherwise the six results come back.
   */
  method TransformAllThreeArgs(s: Stores, x: Extracts, now: DateTime) returns (crash: Option<Error>, outs: seq<Option<Frame>>)
    requires s.Valid()
    modifies s`log, s`buckets, s`deadLetters
    ensures s.Valid()
    ensures Settled(s, DimStages(x) + FactStages(x), crash, outs)
    ensures var st := DimStages(x) + FactStages(x);
      TrailOf(s) == After(s.logUp, s.sinkUp, old(TrailOf(s)), StageEffects(st[..Ran(s, st)], now))
    ensures crash.None? ==> |outs| == |WarehouseTables|
    ensures s.sinkUp && DimInputs(x) && x.orders.Some? && x.inventory.Some? ==>
      crash.None? && |outs| == 6 && outs[4] == None && outs[5] == None
  {
    ghost var st := DimStages(x) + FactStages(x);
    ghost var t0 := TrailOf(s);
    AllStages(x);
    Started(s, st, t0, now);
    crash, outs := RunDims(s, x, st, t0, now);
    if crash.None? {
      var o := OrdersAt(s, x.orders, x.customers, x.employees, st, 4, t0, outs, now);
      if o.Threw? {
        crash := Some(o.error);
      } else {
        outs := outs + [o.value];
        o := InventoryAt(s, x.inventory, x.products, st, 5, t0, outs, now);
        if o.Threw? {
          crash := Some(o.error);
        } else {
          outs := outs + [o.value];
        }
      }
    }
    Concluded(s, st, t0, TrailOf(s), crash, outs, now);
  }

  /**
   * The products transform receives the staging store_branch frame, which
   * has to carry `sk_store_branch` itself: without it the stage fails with a
   * KeyError and parks the renamed products frame.
   */
  lemma {:induction false} ProductsNeedStoreKey(x: Extracts)
    requires x.products.Some? && x.storeBranch.Some?
    requires "store_name" in x.storeBranch.value.columns && "sk_store_branch" !in x.storeBranch.value.columns
    ensures DimStages(x)[3].attempt.Broke?
    ensures DimStages(x)[3].attempt.partial == Some(Rename(x.products.value, DimProducts.Renames))
    ensures DimStages(x)[3].attempt.error == KeyError("sk_store_branch")
  {
    DimProducts.StoreKeysRequired(x.products.value, x.storeBranch.value);
  }

  // ---------------------------------------------------------------------------
  // Loading
  // ---------------------------------------------------------------------------

  /** One load_warehouse call: the frame, the target table and its key. */
  datatype LoadJob = LoadJob(data: Option<Frame>, table: string, key: string)

  /** The six loads, each result to its table under its key. */
  function Jobs(outs: seq<Option<Frame>>): (jobs: seq<LoadJob>)
    requires |outs| == |WarehouseTables|
    ensures |jobs| == |outs|
    ensures forall i | 0 <= i < |jobs| :: jobs[i] == LoadJob(outs[i], WarehouseTables[i], WarehouseKeys[i])
  {
    seq(|outs|, i requires 0 <= i < |outs| => LoadJob(outs[i], WarehouseTables[i], WarehouseKeys[i]))
  }

  function LoadEffect(job: LoadJob, up: bool, now: DateTime): Effect {
    var p := Load.Prepare(job.data, job.key, up);
    Effect(Load.LoadEvent(job.table, p, now),
           if p.Refused? then Some(Sink(Load.Bucket, ObjectName("warehouse", "load", job.table, now), p.partial)) else None)
  }

  function LoadEffects(jobs: seq<LoadJob>, up: bool, now: DateTime): (es: seq<Effect>)
    ensures |es| == |jobs|
    ensures forall i | 0 <= i < |jobs| :: es[i] == LoadEffect(jobs[i], up, now)
  {
    seq(|jobs|, i requires 0 <= i < |jobs| => LoadEffect(jobs[i], up, now))
  }

  /** The warehouse after one load: the upsert when the frame passes its checks, unchanged otherwise. */
  function Apply(w: map<(string, string), Table>, job: LoadJob, up: bool): map<(string, string), Table> {
    var p := Load.Prepare(job.data, job.key, up);
    if p.Loaded? then w[(Schema, job.table) := Load.Upsert(Load.Existing(w, Schema, job.table), p.batch)] else w
  }

  /** The warehouse after the loads, in order. */
  function AfterLoads(w: map<(string, string), Table>, jobs: seq<LoadJob>, up: bool): map<(string, string), Table> {
    if jobs == [] then w else Apply(AfterLoads(w, Init(jobs), up), Last(jobs), up)
  }

  /** Two warehouses agree on the table `k`: both lack it, or both hold the same rows. */
  ghost predicate SameAt(a: map<(string, string), Table>, b: map<(string, string), Table>, k: (string, string)) {
    (k in a <==> k in b) && (k in a ==> a[k] == b[k])
  }

  /** A load only ever touches its own table. */
  lemma {:induction false} ApplyElsewhere(w: map<(string, string), Table>, v: map<(string, string), Table>, job: LoadJob, up: bool,
                       k: (string, string))
    requires SameAt(w, v, k)
    ensures SameAt(Apply(w, job, up), Apply(v, job, up), k)
  {
    var p := Load.Prepare(job.data, job.key, up);
    if p.Loaded? && k == (Schema, job.table) {
      assert Load.Existing(w, Schema, job.table) == Load.Existing(v, Schema, job.table);
    }
  }

  /** Tables no load names keep what they held. */
  lemma {:induction false} Untouched(w: map<(string, string), Table>, jobs: seq<LoadJob>, up: bool, k: (string, string))
    requires forall i | 0 <= i < |jobs| :: k != (Schema, jobs[i].table)
    ensures SameAt(AfterLoads(w, jobs, up), w, k)
    decreases |jobs|
  {
    if jobs != [] {
      Untouched(w, Init(jobs), up, k);
      assert Last(jobs) == jobs[|jobs| - 1];
    }
  }

  /** With distinct targets, each table ends as its own load alone leaves it. */
  lemma {:induction false} LoadedOnce(w: map<(string, string), Table>, jobs: seq<LoadJob>, up: bool, i: nat)
    requires i < |jobs|
    requires forall a, b | 0 <= a < b < |jobs| :: jobs[a].table != jobs[b].table
    ensures SameAt(AfterLoads(w, jobs, up), Apply(w, jobs[i], up), (Schema, jobs[i].table))
    decreases |jobs|
  {
    var k := (Schema, jobs[i].table);
    var before := AfterLoads(w, Init(jobs), up);
    assert Last(jobs) == jobs[|jobs| - 1];
    if i == |jobs| - 1 {
      Untouched(w, Init(jobs), up, k);
      ApplyElsewhere(before, w, Last(jobs), up, k);
    } else {
      LoadedOnce(w, Init(jobs), up, i);
      assert Init(jobs)[i] == jobs[i];
    }
  }

  /** The six warehouse tables are distinct, so each is written by its own load alone. */
  lemma {:induction false} TableLoaded(w: map<(string, string), Table>, outs: seq<Option<Frame>>, up: bool, i: nat)
    requires |outs| == |WarehouseTables| && i < |outs|
    ensures SameAt(AfterLoads(w, Jobs(outs), up), Apply(w, LoadJob(outs[i], WarehouseTables[i], WarehouseKeys[i]), up),
                   (Schema, WarehouseTables[i]))
  {
    LoadedOnce(w, Jobs(outs), up, i);
  }

  /**
   * A result that passes its checks lands in its own table: every row under
   * its key cell, with every other column as transformed.
   */
  lemma {:induction false} RowsLand(w: map<(string, string), Table>, outs: seq<Option<Frame>>, i: nat, f: Frame)
    requires |outs| == |WarehouseTables| && i < |outs| && outs[i] == Some(f)
    requires Load.Prepare(Some(f), WarehouseKeys[i], true).Loaded?
    ensures var t := AfterLoads(w, Jobs(outs), true);
      var key := WarehouseKeys[i];
      && (Schema, WarehouseTables[i]) in t
      && forall x, d | x in f.rows && d in f.columns && d != key ::
           Lookup(f.columns, x, key) in t[(Schema, WarehouseTables[i])]
           && d in t[(Schema, WarehouseTables[i])][Lookup(f.columns, x, key)]
           && t[(Schema, WarehouseTables[i])][Lookup(f.columns, x, key)][d] == Lookup(f.columns, x, d)
  {
    TableLoaded(w, outs, true, i);
    Load.LoadLands(Load.Existing(w, Schema, WarehouseTables[i]), f, WarehouseKeys[i]);
  }

  /** The two fact tables hold what they held before. */
  ghost predicate FactTablesKept(before: map<(string, string), Table>, after: map<(string, string), Table>) {
    SameAt(after, before, (Schema, "fct_order")) && SameAt(after, before, (Schema, "fct_inventory"))
  }

  /** Loads of None (both fact results) write nothing. */
  lemma {:induction false} FactsNotLoaded(w: map<(string, string), Table>, outs: seq<Option<Frame>>, up: bool)
    requires |outs| == |WarehouseTables| && outs[4] == None && outs[5] == None
    ensures FactTablesKept(w, AfterLoads(w, Jobs(outs), up))
  {
    TableLoaded(w, outs, up, 4);
    TableLoaded(w, outs, up, 5);
  }

  /** load_warehouse(job.data, 'public', job.table, job.key, 'staging'). */
  method LoadStep(s: Stores, job: LoadJob, now: DateTime)
    requires s.Valid()
    modifies s`log, s`buckets, s`deadLetters, s`warehouse
    ensures s.Valid()
    ensures TrailOf(s) == Step(s.logUp, s.sinkUp, old(TrailOf(s)), LoadEffect(job, s.warehouseUp, now))
    ensures s.warehouse == Apply(old(s.warehouse), job, s.warehouseUp)
  {
    Load.LoadWarehouse(s, job.data, Schema, job.table, job.key, "staging", now);
  }

  /** The warehouse after the first k+1 loads is the (k+1)-th load applied to the warehouse after the first k. */
  lemma {:induction false} LoadsSnoc(w0: map<(string, string), Table>, jobs: seq<LoadJob>, k: nat, up: bool)
    requires k < |jobs|
    ensures AfterLoads(w0, jobs[..k + 1], up) == Apply(AfterLoads(w0, jobs[..k], up), jobs[k], up)
  {
    assert Init(jobs[..k + 1]) == jobs[..k];
  }

  /** The first `k` loads of `jobs` have run: the trail and the warehouse are as they leave them. */
  ghost predicate LoadsDone(s: Stores, jobs: seq<LoadJob>, k: nat, t0: Trail, w0: map<(string, string), Table>,
                            t: Trail, w: map<(string, string), Table>, now: DateTime) {
    && k <= |jobs|
    && t == After(s.logUp, s.sinkUp, t0, LoadEffects(jobs, s.warehouseUp, now)[..k])
    && w == AfterLoads(w0, jobs[..k], s.warehouseUp)
  }

  /** The k-th load of `jobs`, after the first k. */
  method LoadStepAt(s: Stores, jobs: seq<LoadJob>, k: nat, ghost t0: Trail, ghost w0: map<(string, string), Table>,
                    now: DateTime)
    requires s.Valid() && k < |jobs|
    requires LoadsDone(s, jobs, k, t0, w0, TrailOf(s), s.warehouse, now)
    modifies s`log, s`buckets, s`deadLetters, s`warehouse
    ensures s.Valid()
    ensures LoadsDone(s, jobs, k + 1, t0, w0, TrailOf(s), s.warehouse, now)
  {
    ghost var t1 := TrailOf(s);
    ghost var es := LoadEffects(jobs, s.warehouseUp, now);
    LoadStep(s, jobs[k], now);
    SnocAt(s.logUp, s.sinkUp, t0, es, k, t1, TrailOf(s));
    LoadsSnoc(w0, jobs, k, s.warehouseUp);
  }

  /** Loads k and k+1 of `jobs`, one after the other. */
  method LoadPair(s: Stores, jobs: seq<LoadJob>, k: nat, ghost t0: Trail, ghost w0: map<(string, string), Table>,
                  now: DateTime)
    requires s.Valid() && k + 1 < |jobs|
    requires LoadsDone(s, jobs, k, t0, w0, TrailOf(s), s.warehouse, now)
    modifies s`log, s`buckets, s`deadLetters, s`warehouse
    ensures s.Valid()
    ensures LoadsDone(s, jobs, k + 2, t0, w0, TrailOf(s), s.warehouse, now)
  {
    LoadStepAt(s, jobs, k, t0, w0, now);
    LoadStepAt(s, jobs, k + 1, t0, w0, now);
  }

  /** The six load_warehouse calls, dimensions before facts, each on its table and key. Loads never raise. */
  method LoadAll(s: Stores, outs: seq<Option<Frame>>, now: DateTime)
    requires s.Valid() && |outs| == |WarehouseTables|
    modifies s`log, s`buckets, s`deadLetters, s`warehouse
    ensures s.Valid()
    ensures TrailOf(s) == After(s.logUp, s.sinkUp, old(TrailOf(s)), LoadEffects(Jobs(outs), s.warehouseUp, now))
    ensures s.warehouse == AfterLoads(old(s.warehouse), Jobs(outs), s.warehouseUp)
  {
    var jobs := Jobs(outs);
    ghost var t0 := TrailOf(s);
    ghost var w0 := s.warehouse;
    ghost var es := LoadEffects(jobs, s.warehouseUp, now);
    assert jobs[..0] == [] && es[..0] == [];
    LoadPair(s, jobs, 0, t0, w0, now);
    LoadPair(s, jobs, 2, t0, w0, now);
    LoadPair(s, jobs, 4, t0, w0, now);
    assert jobs[..6] == jobs && es[..6] == es;
  }

  // ---------------------------------------------------------------------------
  // The watermark
  // ---------------------------------------------------------------------------

  /** Every successful warehouse load recorded in the log names a warehouse table. */
  ghost predicate LoadsNameWarehouseTables(log: seq<LogEvent>) {
    forall e | e in log && e.step == "warehouse" && e.component == "load" && e.status == "success" ::
      e.tableName in WarehouseTables
  }

  /** The effects of a run: loads, if any, name warehouse tables. */
  ghost predicate EffectsNameWarehouseTables(es: seq<Effect>) {
    forall i | 0 <= i < |es| && es[i].event.component == "load" :: es[i].event.tableName in WarehouseTables
  }

  /** Logging such effects keeps the log's loads on warehouse tables. */
  lemma {:induction false} TrailKeepsLoadNames(log: seq<LogEvent>, es: seq<Effect>, logUp: bool)
    requires LoadsNameWarehouseTables(log) && EffectsNameWarehouseTables(es)
    ensures LoadsNameWarehouseTables(log + (if logUp then Events(es) else []))
  {
    var evs := Events(es);
    forall e | e in log + (if logUp then evs else []) && e.step == "warehouse" && e.component == "load" &&
                 e.status == "success"
      ensures e.tableName in WarehouseTables
    {
      if e !in log {
        var i :| 0 <= i < |evs| && evs[i] == e;
      }
    }
  }

  /** Extractions, transforms and the six loads: every load they log names a warehouse table. */
  lemma {:induction false} RunNamesWarehouseTables(qs: seq<Result<Frame, Error>>, st: seq<Stage>, outs: seq<Option<Frame>>, up: bool,
                                now: DateTime)
    requires |qs| == |StagingTables| && |outs| == |WarehouseTables|
    ensures EffectsNameWarehouseTables(ExtractEffects(qs, now) + StageEffects(st, now))
    ensures EffectsNameWarehouseTables(ExtractEffects(qs, now) + StageEffects(st, now) + LoadEffects(Jobs(outs), up, now))
  {
    var a := ExtractEffects(qs, now) + StageEffects(st, now);
    var b := a + LoadEffects(Jobs(outs), up, now);
    forall i | 0 <= i < |b|
      ensures b[i].event.component == "load" ==> b[i].event.tableName in WarehouseTables
    {
      if i >= |a| {
        assert b[i] == LoadEffect(Jobs(outs)[i - |a|], up, now);
      } else if i >= |qs| {
        assert b[i] == StageEffect(st[i - |qs|], now);
      }
    }
  }

  /**
   * The staging names the extractions look up never ILIKE-match the
   * warehouse names the loads log, so no load can ever move an extraction
   * watermark: every incremental extraction starts from '1111-01-01'.
   * The requirement holds of an empty log and every run keeps it.
   */
  lemma {:induction false} WatermarkNeverAdvances(log: seq<LogEvent>, table: string, logUp: bool)
    requires table in StagingTables
    requires LoadsNameWarehouseTables(log)
    ensures Extract.TableWatermark(log, table, logUp) == Sentinel
  {
    forall e | e in log
      ensures !Matches(e, Extract.LoadFilter(table))
    {
      if e.step == "warehouse" && e.component == "load" && e.status == "success" {
        NoStagingNameMatches(table, e.tableName);
      }
    }
    Extract.WatermarkSpec(log, table, logUp);
  }

  /** No staging name, read as an ILIKE pattern, matches a warehouse name. */
  lemma {:induction false} NoStagingNameMatches(p: string, w: string)
    requires p in StagingTables && w in WarehouseTables
    ensures !ILike(p, w)
  {
    ILikeWithoutPercent(p, w);
    if |p| == |w| {
      assert p[0] != '_' && Lower(p[0]) != Lower(w[0]);
    }
  }

  // ---------------------------------------------------------------------------
  // The run
  // ---------------------------------------------------------------------------

  /** The staging query of `table` returns a frame. */
  predicate Extractable(s: Stores, table: string) {
    s.stagingUp && (Schema, table) in s.staging && "created_at" in s.staging[(Schema, table)].columns
  }

  /** Every staging table can be read. */
  predicate AllExtractable(s: Stores) {
    forall t | t in StagingTables :: Extractable(s, t)
  }

  /** Readable staging tables yield all seven frames, whatever the log holds. */
  lemma {:induction false} ExtractableYieldsFrames(s: Stores, log: seq<LogEvent>)
    requires AllExtractable(s)
    ensures var x := ExtractsOf(Queries(s, log));
      && x.customers.Some? && x.employees.Some? && x.storeBranch.Some? && x.products.Some?
      && x.orders.Some? && x.orderDetails.Some? && x.inventory.Some?
  {
    forall i | 0 <= i < |StagingTables|
      ensures Queries(s, log)[i].Success?
    {
      assert Extractable(s, StagingTables[i]);
    }
  }

  /** Two runs of effects one after the other are one run of both; if they log loads only of warehouse tables, the log keeps that. */
  lemma {:induction false} Chained(logUp: bool, sinkUp: bool, t0: Trail, t1: Trail, t2: Trail, es: seq<Effect>, fs: seq<Effect>)
    requires t1 == After(logUp, sinkUp, t0, es) && t2 == After(logUp, sinkUp, t1, fs)
    ensures t2 == After(logUp, sinkUp, t0, es + fs)
    ensures LoadsNameWarehouseTables(t0.log) && EffectsNameWarehouseTables(es + fs) ==> LoadsNameWarehouseTables(t2.log)
  {
    AfterAppend(logUp, sinkUp, t0, es, fs);
    AfterParts(logUp, sinkUp, t0, es + fs);
    if LoadsNameWarehouseTables(t0.log) && EffectsNameWarehouseTables(es + fs) {
      TrailKeepsLoadNames(t0.log, es + fs, logUp);
    }
  }

  /** As written, the run ends with the first dimension error, or else at the fct_order call. */
  lemma {:induction false} WrittenEnd(s: Stores, st: seq<Stage>, crash: Option<Error>, outs: seq<Option<Frame>>, end: RunEnd)
    requires Settled(s, st, crash, outs)
    requires end == if crash.Some? then Crashed(crash.value) else Crashed(ArityMismatch)
    ensures match FirstThrow(s, st)
      case Some(i) => end == Crashed(Outcome(s, st[i].attempt).error)
      case None => end == Crashed(ArityMismatch)
  {
  }

  /**
   * How the corrected run over the stages `st` ends, having started from the
   * trail `t0` and the warehouse `w0` and logged the extraction effects `ex`:
   * if a stage raises, the run stops with its error right after it and no
   * table is written; otherwise it finishes after the six loads of the six
   * results, and the warehouse is as those loads leave it.
   */
  ghost predicate CorrectedRun(s: Stores, st: seq<Stage>, end: RunEnd, ex: seq<Effect>, t0: Trail, t: Trail,
                               w0: map<(string, string), Table>, w: map<(string, string), Table>, now: DateTime)
    requires |st| == |WarehouseTables|
  {
    match FirstThrow(s, st)
    case Some(i) =>
      && end == Crashed(Outcome(s, st[i].attempt).error)
      && w == w0
      && t == After(s.logUp, s.sinkUp, t0, ex + StageEffects(st[..i + 1], now))
    case None =>
      && end == Finished
      && w == AfterLoads(w0, Jobs(Outputs(s, st)), s.warehouseUp)
      && t == After(s.logUp, s.sinkUp, t0, ex + StageEffects(st, now) + LoadEffects(Jobs(Outputs(s, st)), s.warehouseUp, now))
  }

  /** A corrected run whose transforms raised: it stops there, and its loads, if any, name warehouse tables. */
  lemma {:induction false} Stopped(s: Stores, st: seq<Stage>, crash: Option<Error>, outs: seq<Option<Frame>>, end: RunEnd,
                qs: seq<Result<Frame, Error>>, t0: Trail, t: Trail, w0: map<(string, string), Table>, now: DateTime)
    requires |st| == |WarehouseTables| && |qs| == |StagingTables| && Settled(s, st, crash, outs) && crash.Some?
    requires t == After(s.logUp, s.sinkUp, t0, ExtractEffects(qs, now) + StageEffects(st[..Ran(s, st)], now))
    requires end == Crashed(crash.value)
    ensures CorrectedRun(s, st, end, ExtractEffects(qs, now), t0, t, w0, w0, now)
    ensures LoadsNameWarehouseTables(t0.log) ==> LoadsNameWarehouseTables(t.log)
  {
    var es := ExtractEffects(qs, now) + StageEffects(st[..Ran(s, st)], now);
    RunNamesWarehouseTables(qs, st[..Ran(s, st)], [None, None, None, None, None, None], s.warehouseUp, now);
    AfterParts(s.logUp, s.sinkUp, t0, es);
    if LoadsNameWarehouseTables(t0.log) {
      TrailKeepsLoadNames(t0.log, es, s.logUp);
    }
  }

  /** A corrected run whose transforms all returned: the six loads follow, and they name warehouse tables. */
  lemma {:induction false} Completed(s: Stores, st: seq<Stage>, outs: seq<Option<Frame>>, qs: seq<Result<Frame, Error>>,
                  t0: Trail, t1: Trail, t: Trail, w0: map<(string, string), Table>, w: map<(string, string), Table>,
                  now: DateTime)
    requires |st| == |WarehouseTables| && |qs| == |StagingTables| && Settled(s, st, None, outs)
    requires t1 == After(s.logUp, s.sinkUp, t0, ExtractEffects(qs, now) + StageEffects(st[..Ran(s, st)], now))
    requires t == After(s.logUp, s.sinkUp, t1, LoadEffects(Jobs(outs), s.warehouseUp, now))
    requires w == AfterLoads(w0, Jobs(outs), s.warehouseUp)
    ensures CorrectedRun(s, st, Finished, ExtractEffects(qs, now), t0, t, w0, w, now)
    ensures LoadsNameWarehouseTables(t0.log) ==> LoadsNameWarehouseTables(t.log)
  {
    var ex := ExtractEffects(qs, now);
    assert st[..Ran(s, st)] == st;
    RunNamesWarehouseTables(qs, st, outs, s.warehouseUp, now);
    Chained(s.logUp, s.sinkUp, t0, t1, t, ex + StageEffects(st, now), LoadEffects(Jobs(outs), s.warehouseUp, now));
  }

  /**
   * What the corrected run does once the transforms are over: it stops with
   * the error of the stage that raised, or loads the six results, in order.
   */
  method LoadResults(s: Stores, crash: Option<Error>, outs: seq<Option<Frame>>, ghost st: seq<Stage>,
                     ghost qs: seq<Result<Frame, Error>>, ghost t0: Trail, ghost w0: map<(string, string), Table>,
                     now: DateTime) returns (end: RunEnd)
    requires s.Valid() && |st| == |WarehouseTables| && |qs| == |StagingTables| && Settled(s, st, crash, outs)
    requires crash.None? ==> |outs| == |WarehouseTables|
    requires TrailOf(s) == After(s.logUp, s.sinkUp, t0, ExtractEffects(qs, now) + StageEffects(st[..Ran(s, st)], now))
    requires s.warehouse == w0
    modifies s`log, s`buckets, s`deadLetters, s`warehouse
    ensures s.Valid()
    ensures CorrectedRun(s, st, end, ExtractEffects(qs, now), t0, TrailOf(s), w0, s.warehouse, now)
    ensures crash.None? && outs[4] == None && outs[5] == None ==> end == Finished && FactTablesKept(w0, s.warehouse)
    ensures LoadsNameWarehouseTables(t0.log) ==> LoadsNameWarehouseTables(s.log)
  {
    if crash.Some? {
      end := Crashed(crash.value);
      Stopped(s, st, crash, outs, end, qs, t0, TrailOf(s), w0, now);
    } else {
      ghost var t1 := TrailOf(s);
      LoadAll(s, outs, now);
      end := Finished;
      Completed(s, st, outs, qs, t0, t1, TrailOf(s), w0, s.warehouse, now);
      if outs[4] == None && outs[5] == None {
        FactsNotLoaded(w0, outs, s.warehouseUp);
      }
    }
  }

  /**
   * The corrected run after the extractions: the six transforms, then the
   * loads or the error.
   */
  method TransformAndLoad(s: Stores, x: Extracts, ghost qs: seq<Result<Frame, Error>>, ghost t0: Trail,
                          now: DateTime) returns (end: RunEnd)
    requires s.Valid() && |qs| == |StagingTables|
    requires TrailOf(s) == After(s.logUp, s.sinkUp, t0, ExtractEffects(qs, now))
    modifies s`log, s`buckets, s`deadLetters, s`warehouse
    ensures s.Valid()
    ensures CorrectedRun(s, DimStages(x) + FactStages(x), end, ExtractEffects(qs, now), t0, TrailOf(s),
                         old(s.warehouse), s.warehouse, now)
    ensures s.sinkUp && DimInputs(x) && x.orders.Some? && x.inventory.Some? ==>
      end == Finished && FactTablesKept(old(s.warehouse), s.warehouse)
    ensures LoadsNameWarehouseTables(t0.log) ==> LoadsNameWarehouseTables(s.log)
  {
    ghost var t1 := TrailOf(s);
    ghost var st := DimStages(x) + FactStages(x);
    AllStages(x);
    var crash, outs := TransformAllThreeArgs(s, x, now);
    Chained(s.logUp, s.sinkUp, t0, t1, TrailOf(s), ExtractEffects(qs, now), StageEffects(st[..Ran(s, st)], now));
    end := LoadResults(s, crash, outs, st, qs, t0, old(s.warehouse), now);
  }

  /**
   * warehouse_pipeline as written: the seven extractions, then the
   * dimension transforms until one raises; if none does, the fct_order call
   * raises the TypeError. Every run crashes and no load runs.
   */
  method WarehousePipeline(s: Stores, now: DateTime) returns (end: RunEnd)
    requires s.Valid()
    modifies s`log, s`buckets, s`deadLetters
    ensures s.Valid()
    ensures var st := DimStages(ExtractsOf(Queries(s, old(s.log))));
      match FirstThrow(s, st)
      case Some(i) => end == Crashed(Outcome(s, st[i].attempt).error)
      case None => end == Crashed(ArityMismatch)
    ensures var qs := Queries(s, old(s.log));
      var st := DimStages(ExtractsOf(qs));
      TrailOf(s) == After(s.logUp, s.sinkUp, old(TrailOf(s)), ExtractEffects(qs, now) + StageEffects(st[..Ran(s, st)], now))
    ensures s.sinkUp && AllExtractable(s) ==> end == Crashed(ArityMismatch)
    ensures LoadsNameWarehouseTables(old(s.log)) ==> LoadsNameWarehouseTables(s.log)
  {
    ghost var t0 := TrailOf(s);
    ghost var qs := Queries(s, s.log);
    var x := ExtractAll(s, now);
    ghost var t1 := TrailOf(s);
    ghost var st := DimStages(x);
    if s.sinkUp && AllExtractable(s) {
      ExtractableYieldsFrames(s, t0.log);
    }
    var crash, outs := TransformDims(s, x, now);
    RunNamesWarehouseTables(qs, st[..Ran(s, st)], [None, None, None, None, None, None], s.warehouseUp, now);
    Chained(s.logUp, s.sinkUp, t0, t1, TrailOf(s), ExtractEffects(qs, now), StageEffects(st[..Ran(s, st)], now));
    if crash.Some? {
      end := Crashed(crash.value);
    } else {
      // transform_fct_order(df_orders, df_customers, df_employees, df_order_details):
      // the call itself raises, before the body runs.
      end := Crashed(ArityMismatch);
    }
    WrittenEnd(s, st, crash, outs, end);
  }

  /**
   * warehouse_pipeline with the fct_order call given its three arguments:
   * the seven extractions, the six transforms until one raises, and, when
   * none does, the six loads of the six results.
   */
  method WarehousePipelineThreeArgs(s: Stores, now: DateTime) returns (end: RunEnd)
    requires s.Valid()
    modifies s`log, s`buckets, s`deadLetters, s`warehouse
    ensures s.Valid()
    ensures var x := ExtractsOf(Queries(s, old(s.log)));
      CorrectedRun(s, DimStages(x) + FactStages(x), end, ExtractEffects(Queries(s, old(s.log)), now),
                   old(TrailOf(s)), TrailOf(s), old(s.warehouse), s.warehouse, now)
    ensures s.sinkUp && AllExtractable(s) ==> end == Finished && FactTablesKept(old(s.warehouse), s.warehouse)
    ensures LoadsNameWarehouseTables(old(s.log)) ==> LoadsNameWarehouseTables(s.log)
  {
    ghost var t0 := TrailOf(s);
    ghost var qs := Queries(s, s.log);
    var x := ExtractAll(s, now);
    if s.sinkUp && AllExtractable(s) {
      ExtractableYieldsFrames(s, t0.log);
    }
    end := TransformAndLoad(s, x, qs, t0, now);
  }
}
