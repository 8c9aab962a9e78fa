/**
 * `load_warehouse` (src/warehouse/load/load.py): index the frame by its
 * natural key and upsert it into one warehouse table (insert new keys,
 * overwrite the loaded columns of existing keys). Any failure is logged and
 * the frame is parked in 'error-paccafe'; nothing ever propagates to the
 * caller.
 */
module Load {
  import opened Wrappers
  import opened Timestamps
  import opened Frames
  import opened Helper

  const Bucket := "error-paccafe"

  /** How the try block ends: the rows to upsert, or the exception and the frame `data` then held. */
  datatype LoadAttempt = Loaded(batch: Table) | Refused(error: Error, partial: Option<Frame>)

  /** A usable primary key: no null and no value twice. */
  predicate KeysValid(rows: seq<Row>, i: nat) {
    && (forall j | 0 <= j < |rows| :: At(rows[j], i) != Null)
    && UniqueKeys(rows, i)
  }

  /** The warehouse record of one row: every column but the key. */
  function RecordOf(cols: seq<string>, x: Row, idx: string): (r: Record)
    ensures forall d :: d in r <==> d in cols && d != idx
    ensures forall d | d in r :: r[d] == Lookup(cols, x, d)
  {
    map d | d in cols && d != idx :: Lookup(cols, x, d)
  }

  /** The indexed frame as a table: each key to the record of the (only) row carrying it. */
  function BatchOf(f: Frame, i: nat, idx: string): (b: Table)
    ensures b.Keys == Keys(f.rows, i)
  {
    map k | k in Keys(f.rows, i) :: RecordOf(f.columns, FirstWithKey(f.rows, i, k), idx)
  }

  /**
   * set_index, then the checks the upsert makes before it writes: the key
   * column must exist, its values must be usable as a primary key, and the
   * warehouse must answer.
   */
  function Prepare(data: Option<Frame>, idx: string, up: bool): (p: LoadAttempt)
    ensures data.None? ==> p == Refused(NoneInput, None)
    ensures data.Some? && idx !in data.value.columns ==> p == Refused(KeyError(idx), data)
    ensures p.Loaded? <==>
      data.Some? && idx in data.value.columns && up && KeysValid(data.value.rows, IndexOf(data.value.columns, idx).value)
    ensures p.Refused? && data.Some? && idx in data.value.columns ==> p.partial == Some(SetIndex(data.value, idx).value)
    ensures p.Loaded? ==> p.batch.Keys == Keys(data.value.rows, IndexOf(data.value.columns, idx).value)
  {
    match data
    case None => Refused(NoneInput, None)
    case Some(f) =>
      match Column(f, idx)
      case Failure(e) => Refused(e, data)
      case Success(i) =>
        var indexed := SetIndex(f, idx).value;
        if !KeysValid(f.rows, i) then Refused(KeyConstraint(idx), Some(indexed))
        else if !up then Refused(ConnectionError("warehouse"), Some(indexed))
        else Loaded(BatchOf(f, i, idx))
  }

  /** Every row of a loaded frame is in the batch under its key, as its record. */
  lemma LoadedRowsInBatch(f: Frame, idx: string, up: bool)
    requires Prepare(Some(f), idx, up).Loaded?
    ensures forall x | x in f.rows ::
      && Lookup(f.columns, x, idx) in Prepare(Some(f), idx, up).batch
      && Prepare(Some(f), idx, up).batch[Lookup(f.columns, x, idx)] == RecordOf(f.columns, x, idx)
  {
    var i := IndexOf(f.columns, idx).value;
    forall x | x in f.rows
      ensures Lookup(f.columns, x, idx) in Prepare(Some(f), idx, up).batch
      ensures Prepare(Some(f), idx, up).batch[Lookup(f.columns, x, idx)] == RecordOf(f.columns, x, idx)
    {
      var j :| 0 <= j < |f.rows| && f.rows[j] == x;
      FirstWithKeyUnique(f.rows, i, j);
    }
  }

  /**
   * `if_row_exists="update"`: a new key is inserted with its record; an
   * existing key gets the loaded columns overwritten and keeps the others;
   * keys outside the batch are untouched.
   */
  function Upsert(t: Table, b: Table): (r: Table)
    ensures r.Keys == t.Keys + b.Keys
    ensures forall k | k in b :: forall c | c in b[k] :: c in r[k] && r[k][c] == b[k][c]
    ensures forall k | k in t && k !in b :: r[k] == t[k]
    ensures forall k | k in t && k in b :: forall c | c in t[k] && c !in b[k] :: c in r[k] && r[k][c] == t[k][c]
    ensures forall k | k in r :: r[k].Keys == (if k in t then t[k].Keys else {}) + (if k in b then b[k].Keys else {})
  {
    map k | k in t.Keys + b.Keys :: if k !in b then t[k] else if k in t then t[k] + b[k] else b[k]
  }

  /** Loading the same batch a second time changes nothing. */
  lemma UpsertIdempotent(t: Table, b: Table)
    ensures Upsert(Upsert(t, b), b) == Upsert(t, b)
  {
    var once := Upsert(t, b);
    var twice := Upsert(once, b);
    forall k | k in twice ensures twice[k] == once[k] {
      if k in b {
        assert twice[k] == once[k] + b[k];
      }
    }
  }

  /** The table a load writes into: empty when the upsert has to create it. */
  function Existing(w: map<(string, string), Table>, schema: string, table: string): Table {
    if (schema, table) in w then w[(schema, table)] else map[]
  }

  /** The one event load_warehouse logs. */
  function LoadEvent(table: string, p: LoadAttempt, now: DateTime): (e: LogEvent)
    ensures e.step == "warehouse" && e.component == "load" && e.tableName == table && e.etlDate == now
    ensures e.status == "success" <==> p.Loaded?
    ensures p.Refused? ==> e.errorMsg == Some(p.error)
  {
    Event("warehouse", "load", table, now, if p.Loaded? then None else Some(p.error))
  }

  /**
   * load_warehouse: upsert and log "success", or log "failed" and park the
   * frame (an exception from parking is swallowed). `source` is unused.
   */
  method LoadWarehouse(s: Stores, data: Option<Frame>, schema: string, table: string, idx: string, source: string,
                       now: DateTime)
    requires s.Valid()
    modifies s`warehouse, s`log, s`buckets, s`deadLetters
    ensures s.Valid()
    ensures var p := Prepare(data, idx, s.warehouseUp);
      s.log == old(s.log) + s.Logged(LoadEvent(table, p, now))
    ensures Prepare(data, idx, s.warehouseUp).Loaded? ==> (
      && s.warehouse == old(s.warehouse)[(schema, table) := Upsert(Existing(old(s.warehouse), schema, table),
                                                                    Prepare(data, idx, s.warehouseUp).batch)]
      && s.buckets == old(s.buckets) && s.deadLetters == old(s.deadLetters))
    ensures Prepare(data, idx, s.warehouseUp).Refused? ==> (
      && s.warehouse == old(s.warehouse)
      && s.buckets == old(s.buckets) + (if s.sinkUp then {Bucket} else {})
      && s.deadLetters == old(s.deadLetters) +
           s.Parked(Prepare(data, idx, s.warehouseUp).partial, Bucket, ObjectName("warehouse", "load", table, now)))
  {
    var p := Prepare(data, idx, s.warehouseUp);
    match p {
      case Loaded(batch) =>
        s.warehouse := s.warehouse[(schema, table) := Upsert(Existing(s.warehouse, schema, table), batch)];
      case Refused(e, partial) =>
        var _ := s.HandleError(partial, Bucket, table, "warehouse", "load", now);
    }
    s.EtlLog(LoadEvent(table, p, now));
  }

  /**
   * After a successful load every row of the frame is in the target table
   * under its key, with each of its columns as loaded; keys the frame does
   * not carry keep their records.
   */
  lemma LoadLands(w: Table, f: Frame, idx: string)
    requires Prepare(Some(f), idx, true).Loaded?
    ensures var r := Upsert(w, Prepare(Some(f), idx, true).batch);
      && (forall x, d | x in f.rows && d in f.columns && d != idx ::
            Lookup(f.columns, x, idx) in r && d in r[Lookup(f.columns, x, idx)]
            && r[Lookup(f.columns, x, idx)][d] == Lookup(f.columns, x, d))
      && (forall k | k in w && k !in Keys(f.rows, IndexOf(f.columns, idx).value) :: r[k] == w[k])
  {
    LoadedRowsInBatch(f, idx, true);
  }
}
