/**
 * The shared helpers of `src/utils/helper.py`: connection selection, the
 * append-only ETL log and its MAX(etl_date) query, and the dead-letter sink
 * that parks a failed frame as a CSV object in a bucket.
 *
 * The four databases and the object store are one object, `Stores`, that
 * every stage receives. Whether each store answers is fixed per run (the
 * `...Up` constants); the clock reading `now` is passed to each call.
 */
module Helper {
  import opened Wrappers
  import opened Timestamps
  import opened Frames

  // ---------------------------------------------------------------------------
  // get_db_connection
  // ---------------------------------------------------------------------------

  /** An engine for one of the four logical databases. */
  datatype Engine = Engine(database: string)

  const Databases: set<string> := {"source", "staging", "warehouse", "log"}

  /** Only the four known database names yield an engine; anything else yields None. */
  function GetDbConnection(dbType: string): (r: Option<Engine>)
    ensures r.Some? <==> dbType in Databases
    ensures r.Some? ==> r.value.database == dbType
  {
    if dbType == "source" || dbType == "staging" || dbType == "warehouse" || dbType == "log"
    then Some(Engine(dbType))
    else None
  }

  // ---------------------------------------------------------------------------
  // The etl_log table
  // ---------------------------------------------------------------------------

  /** One row of etl_log; `errorMsg` is present exactly on failures. */
  datatype LogEvent = LogEvent(step: string, component: string, status: string, tableName: string,
                               etlDate: DateTime, errorMsg: Option<Error>)

  /** The event a stage emits: status "success" without an error, "failed" with one. */
  function Event(step: string, component: string, table: string, now: DateTime, err: Option<Error>): (e: LogEvent)
    ensures e.status == (if err.None? then "success" else "failed")
    ensures e.step == step && e.component == component && e.tableName == table
    ensures e.etlDate == now && e.errorMsg == err
  {
    LogEvent(step, component, if err.None? then "success" else "failed", table, now, err)
  }

  // ---------------------------------------------------------------------------
  // read_etl_log: MAX(etl_date) WHERE step = .. AND table_name ILIKE .. AND status = .. AND component = ..
  // ---------------------------------------------------------------------------

  /** ASCII lower-casing, as ILIKE compares. */
  function Lower(c: char): char {
    if 'A' <= c <= 'Z' then ((c as int) + 32) as char else c
  }

  /** PostgreSQL `s ILIKE p`: '%' matches any run, '_' any one character, the rest case-insensitively. */
  predicate ILike(p: string, s: string)
    decreases |p| + |s|
  {
    if p == [] then s == []
    else if p[0] == '%' then ILike(p[1..], s) || (s != [] && ILike(p, s[1..]))
    else s != [] && (p[0] == '_' || Lower(p[0]) == Lower(s[0])) && ILike(p[1..], s[1..])
  }

  /** Without '%', a pattern matches exactly the texts of its length that agree at every non-'_' position. */
  lemma {:induction false} ILikeWithoutPercent(p: string, s: string)
    requires '%' !in p
    ensures ILike(p, s) <==> |p| == |s| && forall i | 0 <= i < |p| :: p[i] == '_' || Lower(p[i]) == Lower(s[i])
    decreases |p|
  {
    if p != [] && s != [] {
      assert '%' !in p[1..];
      ILikeWithoutPercent(p[1..], s[1..]);
      if |p| == |s| && (p[0] == '_' || Lower(p[0]) == Lower(s[0])) && ILike(p[1..], s[1..]) {
        forall i | 0 <= i < |p|
          ensures p[i] == '_' || Lower(p[i]) == Lower(s[i])
        {
          if i > 0 {
            assert p[1..][i - 1] == p[i] && s[1..][i - 1] == s[i];
          }
        }
      }
      if |p| == |s| && forall i | 0 <= i < |p| :: p[i] == '_' || Lower(p[i]) == Lower(s[i]) {
        forall i | 0 <= i < |p| - 1
          ensures p[1..][i] == '_' || Lower(p[1..][i]) == Lower(s[1..][i])
        {
          assert p[1..][i] == p[i + 1] && s[1..][i] == s[i + 1];
        }
      }
    }
  }

  /** The filter read_etl_log is called with. */
  datatype LogFilter = LogFilter(step: string, tableName: string, status: string, component: string)

  predicate Matches(e: LogEvent, f: LogFilter) {
    e.step == f.step && ILike(f.tableName, e.tableName) && e.status == f.status && e.component == f.component
  }

  /** MAX(etl_date) over the matching events; None (SQL NULL) when nothing matches. */
  function LatestDate(log: seq<LogEvent>, f: LogFilter): (r: Option<DateTime>)
    ensures r.None? <==> forall e | e in log :: !Matches(e, f)
    ensures r.Some? ==> exists e | e in log :: Matches(e, f) && e.etlDate == r.value
    ensures r.Some? ==> forall e | e in log && Matches(e, f) :: !Before(r.value, e.etlDate)
    decreases |log|
  {
    if log == [] then None
    else
      assert log == Init(log) + [Last(log)];
      var earlier := LatestDate(Init(log), f);
      if !Matches(Last(log), f) then earlier
      else match earlier
        case None => Some(Last(log).etlDate)
        case Some(d) =>
          NotBeforeTransitive(Later(d, Last(log).etlDate), d);
          Some(Later(d, Last(log).etlDate))
  }

  /** `a` is at least `b` and `b` at least every earlier maximum: then `a` is at least those too. */
  lemma NotBeforeTransitive(a: DateTime, b: DateTime)
    requires !Before(a, b)
    ensures forall c :: !Before(b, c) ==> !Before(a, c)
  {
  }

  /** An event outside the filter (another table, component or status) never moves the maximum. */
  lemma UnmatchedEventKeepsLatest(log: seq<LogEvent>, e: LogEvent, f: LogFilter)
    requires !Matches(e, f)
    ensures LatestDate(log + [e], f) == LatestDate(log, f)
  {
    assert Init(log + [e]) == log;
  }

  /** What pd.read_sql hands back: an empty frame on any error, else one row holding `max`. */
  datatype LogRead = EmptyFrame | MaxRow(max: Option<DateTime>)

  /** read_etl_log: the query when the log database answers, an empty frame otherwise. */
  function ReadEtlLog(log: seq<LogEvent>, f: LogFilter, reachable: bool): (r: LogRead)
    ensures !reachable ==> r == EmptyFrame
    ensures reachable ==> r == MaxRow(LatestDate(log, f))
  {
    if reachable then MaxRow(LatestDate(log, f)) else EmptyFrame
  }

  // ---------------------------------------------------------------------------
  // handle_error: the dead-letter object
  // ---------------------------------------------------------------------------

  /** The object name `{step}_{component}_{table_name}_{YYYY-MM-DD HH:MM:SS}.csv`. */
  function ObjectName(step: string, component: string, table: string, now: DateTime): string {
    step + "_" + component + "_" + table + "_" + Stamp(now) + ".csv"
  }

  /** The name starts with its three parts, ends in ".csv", and the failure time can be read back from it. */
  lemma ObjectNameSpec(step: string, component: string, table: string, now: DateTime)
    requires now.Valid()
    ensures var n := ObjectName(step, component, table, now);
      var prefix := step + "_" + component + "_" + table + "_";
      && |n| == |prefix| + 23
      && n[..|prefix|] == prefix
      && n[|n| - 4..] == ".csv"
      && ParseStamp(n[|n| - 23..|n| - 4]) == Some(now)
  {
    var n := ObjectName(step, component, table, now);
    var prefix := step + "_" + component + "_" + table + "_";
    assert n == prefix + Stamp(now) + ".csv";
    assert n[|n| - 23..|n| - 4] == Stamp(now);
    StampRoundTrip(now);
  }

  /** A parked frame: the bucket, the object name and the frame that was serialised. */
  datatype DeadLetter = DeadLetter(bucket: string, name: string, payload: Frame)

  /** A warehouse row without its key: column label to cell. */
  type Record = map<string, Cell>

  /** A warehouse table: key cell to record. */
  type Table = map<Cell, Record>

  // ---------------------------------------------------------------------------
  // The stores every stage works on
  // ---------------------------------------------------------------------------

  class Stores {
    /** Staging tables by (schema, table name). Read only. */
    const staging: map<(string, string), Frame>
    /** Whether the log database, the staging and warehouse databases and MinIO answer. */
    const logUp: bool
    const stagingUp: bool
    const warehouseUp: bool
    const sinkUp: bool

    /** The etl_log table. */
    var log: seq<LogEvent>
    /** The MinIO buckets that exist. */
    var buckets: set<string>
    /** The objects put by handle_error, oldest first. */
    var deadLetters: seq<DeadLetter>
    /** Warehouse tables by (schema, table name). */
    var warehouse: map<(string, string), Table>

    /** Every parked object lies in a bucket that exists. */
    ghost predicate Valid()
      reads this
    {
      forall d | d in deadLetters :: d.bucket in buckets
    }

    constructor (staging: map<(string, string), Frame>, logUp: bool, stagingUp: bool, warehouseUp: bool,
                 sinkUp: bool, log: seq<LogEvent>, buckets: set<string>, warehouse: map<(string, string), Table>)
      ensures Valid()
      ensures this.staging == staging && this.logUp == logUp && this.stagingUp == stagingUp
      ensures this.warehouseUp == warehouseUp && this.sinkUp == sinkUp
      ensures this.log == log && this.buckets == buckets && this.deadLetters == [] && this.warehouse == warehouse
    {
      this.staging := staging;
      this.logUp := logUp;
      this.stagingUp := stagingUp;
      this.warehouseUp := warehouseUp;
      this.sinkUp := sinkUp;
      this.log := log;
      this.buckets := buckets;
      this.deadLetters := [];
      this.warehouse := warehouse;
    }

    /** What etl_log adds to the log: the event, or nothing when the log database is down. */
    function Logged(e: LogEvent): seq<LogEvent> {
      if logUp then [e] else []
    }

    /** etl_log: appends one row, or (log database down) prints and returns. Never raises. */
    method EtlLog(e: LogEvent)
      modifies this`log
      ensures log == old(log) + Logged(e)
    {
      if logUp {
        log := log + [e];
      }
    }

    /** The exception handle_error raises: MinIO unreachable, or `None.to_csv()`. */
    function SinkError(data: Option<Frame>): Option<Error> {
      if !sinkUp then Some(ConnectionError("minio"))
      else if data.None? then Some(NoneInput)
      else None
    }

    /** The object handle_error puts, if any. */
    function Parked(data: Option<Frame>, bucket: string, name: string): seq<DeadLetter> {
      if sinkUp && data.Some? then [DeadLetter(bucket, name, data.value)] else []
    }

    /**
     * handle_error: create the bucket if it is absent, then serialise the frame
     * and put it under its dated name. A None frame fails at serialisation,
     * after the bucket was ensured.
     */
    method HandleError(data: Option<Frame>, bucket: string, table: string, step: string, component: string,
                       now: DateTime) returns (raised: Option<Error>)
      requires Valid()
      modifies this`buckets, this`deadLetters
      ensures Valid()
      ensures buckets == old(buckets) + (if sinkUp then {bucket} else {})
      ensures sinkUp ==> bucket in buckets
      ensures deadLetters == old(deadLetters) + Parked(data, bucket, ObjectName(step, component, table, now))
      ensures raised == SinkError(data)
    {
      if !sinkUp {
        return Some(ConnectionError("minio"));
      }
      if bucket !in buckets {
        buckets := buckets + {bucket};
      }
      match data
      case None =>
        raised := Some(NoneInput);
      case Some(f) =>
        deadLetters := deadLetters + [DeadLetter(bucket, ObjectName(step, component, table, now), f)];
        raised := None;
    }
  }
}
