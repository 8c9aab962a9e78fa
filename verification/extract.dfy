/**
 * `extract_staging` (src/warehouse/extract/extract.py): the incremental read
 * of one staging table. The watermark is the latest successful warehouse
 * load of the table recorded in etl_log, or the sentinel '1111-01-01'; the
 * rows returned are those created strictly after it.
 */
module Extract {
  import opened Wrappers
  import opened Timestamps
  import opened Frames
  import opened Helper

  /** The log lookup: step "warehouse", this table, status "success", component "load". */
  function LoadFilter(table: string): LogFilter {
    LogFilter("warehouse", table, "success", "load")
  }

  /** An empty answer or a NULL maximum means the sentinel; otherwise the maximum. */
  function Watermark(read: LogRead): (w: DateTime)
    ensures read == EmptyFrame || read == MaxRow(None) ==> w == Sentinel
    ensures read.MaxRow? && read.max.Some? ==> w == read.max.value
  {
    match read
    case EmptyFrame => Sentinel
    case MaxRow(None) => Sentinel
    case MaxRow(Some(d)) => d
  }

  /** The watermark of a table, read from the log as it stands. */
  function TableWatermark(log: seq<LogEvent>, table: string, logUp: bool): DateTime {
    Watermark(ReadEtlLog(log, LoadFilter(table), logUp))
  }

  /**
   * Only successful warehouse loads of the table can supply the watermark, and
   * it is the latest of them; without one (or without the log) it is the sentinel.
   */
  lemma WatermarkSpec(log: seq<LogEvent>, table: string, logUp: bool)
    ensures var w := TableWatermark(log, table, logUp);
      var loads := set e | e in log && Matches(e, LoadFilter(table));
      && ((!logUp || loads == {}) ==> w == Sentinel)
      && (logUp && loads != {} ==>
            (exists e | e in loads :: e.etlDate == w &&
               e.step == "warehouse" && e.status == "success" && e.component == "load" && ILike(table, e.tableName)) &&
            forall e | e in loads :: !Before(w, e.etlDate))
  {
    var loads := set e | e in log && Matches(e, LoadFilter(table));
    var latest := LatestDate(log, LoadFilter(table));
    if loads == {} {
      forall e | e in log
        ensures !Matches(e, LoadFilter(table))
      {
        assert Matches(e, LoadFilter(table)) ==> e in loads;
      }
    } else {
      var e :| e in loads;
      assert latest.Some?;
      var m :| m in log && Matches(m, LoadFilter(table)) && m.etlDate == latest.value;
      assert m in loads;
    }
  }

  /** A log row that is not a successful load of the table leaves its watermark where it was. */
  lemma OnlySuccessfulLoadsAdvance(log: seq<LogEvent>, e: LogEvent, table: string, logUp: bool)
    requires e.status != "success" || e.component != "load" || e.step != "warehouse" || !ILike(table, e.tableName)
    ensures TableWatermark(log + [e], table, logUp) == TableWatermark(log, table, logUp)
  {
    UnmatchedEventKeepsLatest(log, e, LoadFilter(table));
  }

  /** `created_at > wm`: only a timestamp strictly after the watermark qualifies; NULL never does. */
  predicate CreatedAfter(c: Cell, wm: DateTime) {
    c.Time? && Before(wm, c.at)
  }

  /** The rows of a staging table created after the watermark; no created_at column is an SQL error. */
  function NewRows(f: Frame, wm: DateTime): (r: Result<Frame, Error>)
    ensures r.Failure? <==> "created_at" !in f.columns
    ensures r.Success? ==> r.value.columns == f.columns && Subseq(r.value.rows, f.rows)
    ensures r.Success? ==> forall x :: x in r.value.rows <==>
      x in f.rows && CreatedAfter(Lookup(f.columns, x, "created_at"), wm)
    ensures r.Success? ==> forall x :: multiset(r.value.rows)[x] ==
                                      if CreatedAfter(Lookup(f.columns, x, "created_at"), wm) then multiset(f.rows)[x] else 0
  {
    match Column(f, "created_at")
    case Failure(e) => Failure(e)
    case Success(i) =>
      assert forall x :: Lookup(f.columns, x, "created_at") == At(x, i);
      Success(Frame(f.columns, Where(f.rows, (x: Row) => CreatedAfter(At(x, i), wm))))
  }

  /** A row stamped exactly at the watermark is not returned. */
  lemma WatermarkRowExcluded(f: Frame, wm: DateTime, x: Row)
    requires NewRows(f, wm).Success?
    requires Lookup(f.columns, x, "created_at") == Time(wm)
    ensures x !in NewRows(f, wm).value.rows
  {
  }

  /** `SELECT * FROM schema.table WHERE created_at > wm` against the staging database. */
  function StagingQuery(up: bool, staging: map<(string, string), Frame>, schema: string, table: string,
                        wm: DateTime): Result<Frame, Error>
  {
    if !up then Failure(ConnectionError("staging"))
    else if (schema, table) !in staging then Failure(UndefinedTable(schema + "." + table))
    else NewRows(staging[(schema, table)], wm)
  }

  /** What one extract_staging call reads, given the stores as they stand before it. */
  function Extraction(s: Stores, table: string, schema: string): Result<Frame, Error>
    reads s
  {
    StagingQuery(s.stagingUp, s.staging, schema, table, TableWatermark(s.log, table, s.logUp))
  }

  /** The one event extract_staging logs. */
  function ExtractEvent(table: string, r: Result<Frame, Error>, now: DateTime): LogEvent {
    Event("warehouse", "extraction", table, now, if r.Success? then None else Some(r.error))
  }

  /** extract_staging: returns the new rows or None, logs exactly one event, never raises. */
  method ExtractStaging(s: Stores, table: string, schema: string, now: DateTime) returns (r: Option<Frame>)
    requires s.Valid()
    modifies s`log
    ensures s.Valid()
    ensures var q := old(Extraction(s, table, schema));
      && r == (if q.Success? then Some(q.value) else None)
      && s.log == old(s.log) + s.Logged(ExtractEvent(table, q, now))
    ensures s.buckets == old(s.buckets) && s.deadLetters == old(s.deadLetters) && s.warehouse == old(s.warehouse)
  {
    var wm := TableWatermark(s.log, table, s.logUp);
    var q := StagingQuery(s.stagingUp, s.staging, schema, table, wm);
    assert q == Extraction(s, table, schema);
    r := if q.Success? then Some(q.value) else None;
    s.EtlLog(ExtractEvent(table, q, now));
  }
}
