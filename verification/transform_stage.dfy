/**
 * The `try / except / finally` frame every warehouse transform shares: the
 * try block either returns a frame (status "success") or raises, in which
 * case the frame `data` held at that moment is handed to handle_error and
 * the function returns None; the `finally` block writes one log event with
 * component "transformation" in both cases. handle_error is called without a
 * guard of its own, so an exception it raises (the object store is
 * unreachable, or `data` is None) escapes the transform after the log event.
 */
module TransformStage {
  import opened Wrappers
  import opened Timestamps
  import opened Frames
  import opened Helper

  /** How the try block ends: the frame it returns, or the exception and the frame `data` then held. */
  datatype Attempt = Built(frame: Frame) | Broke(error: Error, partial: Option<Frame>)

  /** How a Python call ends for its caller: a value, or an exception that propagates. */
  datatype Call<T> = Returned(value: T) | Threw(error: Error)

  /** The event the `finally` block writes. */
  function TransformEvent(table: string, a: Attempt, now: DateTime): (e: LogEvent)
    ensures e.step == "warehouse" && e.component == "transformation" && e.tableName == table && e.etlDate == now
    ensures e.status == "success" <==> a.Built?
    ensures a.Broke? ==> e.status == "failed" && e.errorMsg == Some(a.error)
  {
    Event("warehouse", "transformation", table, now, if a.Built? then None else Some(a.error))
  }

  /** What the caller receives: the frame, None after a handled failure, or handle_error's exception. */
  function Outcome(s: Stores, a: Attempt): (o: Call<Option<Frame>>)
    ensures a.Built? ==> o == Returned(Some(a.frame))
    ensures a.Broke? && s.sinkUp && a.partial.Some? ==> o == Returned(None)
    ensures a.Broke? && !s.sinkUp ==> o == Threw(ConnectionError("minio"))
    ensures a.Broke? && a.partial.None? ==> o.Threw?
  {
    match a
    case Built(f) => Returned(Some(f))
    case Broke(_, partial) =>
      match s.SinkError(partial)
      case Some(e) => Threw(e)
      case None => Returned(None)
  }

  /** A frame that comes back is always the one the try block built. */
  lemma ReturnedFrameIsBuilt(s: Stores, a: Attempt)
    requires Outcome(s, a).Returned? && Outcome(s, a).value.Some?
    ensures a == Built(Outcome(s, a).value.value)
  {
  }

  /**
   * `left.merge(right[keys], on=on, how='left')`: the column selection is
   * evaluated first (None or a missing label raises), then the merge (a
   * missing key column on either side raises).
   */
  function MergeFrom(left: Frame, right: Option<Frame>, keys: seq<string>, on: string): (r: Result<Frame, Error>)
    ensures right.None? ==> r == Failure(NoneInput)
    ensures right.Some? && (exists c | c in keys :: c !in right.value.columns) ==>
      r.Failure? && exists c | c in keys :: c !in right.value.columns && r.error == KeyError(c)
    ensures right.Some? && (forall c | c in keys :: c in right.value.columns) && on !in left.columns ==>
      r == Failure(KeyError(on))
    ensures r.Success? ==> right.Some? && r == LeftMerge(left, Select(right.value, keys).value, on)
  {
    match right
    case None => Failure(NoneInput)
    case Some(rf) =>
      match Select(rf, keys)
      case Failure(e) => Failure(e)
      case Success(picked) => LeftMerge(left, picked, on)
  }

  /** `pd.to_datetime(x).astype(int) / 10**9` on one cell, as whole seconds; NaT and unparseable text raise. */
  function ToEpoch(c: Cell): (r: Result<Cell, Error>)
    ensures c.Time? ==> r == Success(Int(EpochSeconds(c.at)))
    ensures c.Null? ==> r.Failure?
    ensures r.Success? ==> r.value.Int?
  {
    match c
    case Time(t) => Success(Int(EpochSeconds(t)))
    case Text(x) =>
      (match ParseStamp(x)
       case Some(t) => Success(Int(EpochSeconds(t)))
       case None => Failure(ValueError("unparseable date")))
    case Null => Failure(ValueError("NaT cannot be converted to an integer"))
    case Int(_) => Failure(ValueError("integer dates are not modelled"))
  }

  /**
   * The tail both fact transforms share: the date column becomes epoch
   * seconds in place, then drop_duplicates on the natural key.
   */
  function EpochThenDedupe(m: Frame, date: string, key: string): Attempt {
    match Convert(m, date, ToEpoch)
    case Failure(e) => Broke(e, Some(m))
    case Success(c) =>
      match DropDuplicates(c, key)
      case Failure(e) => Broke(e, Some(c))
      case Success(d) => Built(d)
  }

  /**
   * `x` is some input row `orig[j]` with its date cell turned into epoch
   * seconds and every other cell unchanged, and no input row before `j`
   * carries its key (column `k`).
   */
  ghost predicate ConvertedFirst(cols: seq<string>, orig: seq<Row>, x: Row, date: string, k: nat) {
    exists j | 0 <= j < |orig| ::
      && Lookup(cols, orig[j], date).Time?
      && Lookup(cols, x, date) == Int(EpochSeconds(Lookup(cols, orig[j], date).at))
      && AgreeExcept(cols, x, orig[j], date)
      && FirstOfKey(orig, j, k)
  }

  /** The conversion step of the tail, on a frame whose dates are all timestamps. */
  lemma EpochConverted(m: Frame, date: string, key: string)
    requires Rectangular(m) && date in m.columns && key in m.columns && date != key
    requires forall x | x in m.rows :: Lookup(m.columns, x, date).Time?
    ensures Convert(m, date, ToEpoch).Success?
    ensures var c := Convert(m, date, ToEpoch).value;
      var k := IndexOf(m.columns, key).value;
      && c.columns == m.columns
      && |c.rows| == |m.rows|
      && Keys(c.rows, k) == Keys(m.rows, k)
      && forall j | 0 <= j < |m.rows| ::
           && At(c.rows[j], k) == At(m.rows[j], k)
           && Lookup(m.columns, m.rows[j], date).Time?
           && Lookup(m.columns, c.rows[j], date) == Int(EpochSeconds(Lookup(m.columns, m.rows[j], date).at))
           && AgreeExcept(m.columns, c.rows[j], m.rows[j], date)
  {
    ConvertCells(m, date, ToEpoch);
    var c := Convert(m, date, ToEpoch).value;
    var k := IndexOf(m.columns, key).value;
    forall j | 0 <= j < |m.rows|
      ensures At(c.rows[j], k) == At(m.rows[j], k)
      ensures Lookup(m.columns, m.rows[j], date).Time?
      ensures Lookup(m.columns, c.rows[j], date) == Int(EpochSeconds(Lookup(m.columns, m.rows[j], date).at))
    {
      assert m.rows[j] in m.rows;
      assert Lookup(m.columns, c.rows[j], key) == Lookup(m.columns, m.rows[j], key);
    }
    KeysAgree(c.rows, m.rows, k);
  }

  /**
   * Every row the tail keeps is a converted input row, and no earlier input
   * row carries its key.
   */
  lemma EpochRowsFromInput(m: Frame, date: string, key: string)
    requires Rectangular(m) && date in m.columns && key in m.columns && date != key
    requires forall x | x in m.rows :: Lookup(m.columns, x, date).Time?
    ensures EpochThenDedupe(m, date, key).Built?
    ensures forall x | x in EpochThenDedupe(m, date, key).frame.rows :: ConvertedFirst(m.columns, m.rows, x, date, IndexOf(m.columns, key).value)
  {
    var k := IndexOf(m.columns, key).value;
    EpochConverted(m, date, key);
    var c := Convert(m, date, ToEpoch).value;
    var out := DropDuplicates(c, key).value;
    assert EpochThenDedupe(m, date, key) == Built(out);
    assert out.rows == Dedupe(c.rows, k);
    assert forall x | x in out.rows :: exists j | 0 <= j < |c.rows| :: c.rows[j] == x && FirstOfKey(c.rows, j, k) by {
      DedupeFirstPositions(c.rows, k);
    }
    KeptRowsConverted(m.columns, out.rows, c.rows, m.rows, date, k);
  }

  /** Rows picked first-of-key from a converted sequence are each the conversion of a first-of-key original row. */
  lemma KeptRowsConverted(cols: seq<string>, kept: seq<Row>, conv: seq<Row>, orig: seq<Row>, date: string, k: nat)
    requires |conv| == |orig|
    requires forall x | x in kept :: exists j | 0 <= j < |conv| :: conv[j] == x && FirstOfKey(conv, j, k)
    requires forall j | 0 <= j < |orig| ::
      && At(conv[j], k) == At(orig[j], k)
      && Lookup(cols, orig[j], date).Time?
      && Lookup(cols, conv[j], date) == Int(EpochSeconds(Lookup(cols, orig[j], date).at))
      && AgreeExcept(cols, conv[j], orig[j], date)
    ensures forall x | x in kept :: ConvertedFirst(cols, orig, x, date, k)
  {
    forall x | x in kept
      ensures ConvertedFirst(cols, orig, x, date, k)
    {
      var j :| 0 <= j < |conv| && conv[j] == x && FirstOfKey(conv, j, k);
      assert FirstOfKey(orig, j, k);
    }
  }

  /**
   * On a well-formed frame whose dates are all timestamps, the tail succeeds:
   * each surviving row is the first input row of its key with its date
   * turned into epoch seconds and every other cell as it was, one row
   * survives per key, and every key survives.
   */
  lemma EpochThenDedupeSpec(m: Frame, date: string, key: string)
    requires Rectangular(m) && date in m.columns && key in m.columns && date != key
    requires forall x | x in m.rows :: Lookup(m.columns, x, date).Time?
    ensures EpochThenDedupe(m, date, key).Built?
    ensures var out := EpochThenDedupe(m, date, key).frame;
      var k := IndexOf(m.columns, key).value;
      && out.columns == m.columns
      && UniqueKeys(out.rows, k)
      && Keys(out.rows, k) == Keys(m.rows, k)
      && |out.rows| <= |m.rows|
      && forall x | x in out.rows :: ConvertedFirst(m.columns, m.rows, x, date, k)
  {
    EpochConverted(m, date, key);
    var c := Convert(m, date, ToEpoch).value;
    DropDuplicatesSpec(c, key);
    var out := DropDuplicates(c, key).value;
    assert EpochThenDedupe(m, date, key) == Built(out);
    SubseqLength(out.rows, c.rows);
    EpochRowsFromInput(m, date, key);
  }

  /**
   * The except and finally blocks: dead-letter the partial frame and log
   * "failed", or log "success"; exactly one event in either case.
   */
  method Finish(s: Stores, a: Attempt, table: string, bucket: string, now: DateTime) returns (o: Call<Option<Frame>>)
    requires s.Valid()
    modifies s`log, s`buckets, s`deadLetters
    ensures s.Valid()
    ensures o == Outcome(s, a)
    ensures s.log == old(s.log) + s.Logged(TransformEvent(table, a, now))
    ensures a.Built? ==> s.buckets == old(s.buckets) && s.deadLetters == old(s.deadLetters)
    ensures a.Broke? ==> s.buckets == old(s.buckets) + (if s.sinkUp then {bucket} else {})
    ensures a.Broke? ==>
      s.deadLetters == old(s.deadLetters) + s.Parked(a.partial, bucket, ObjectName("warehouse", "transformation", table, now))
  {
    match a {
      case Built(f) =>
        o := Returned(Some(f));
      case Broke(e, partial) =>
        var raised := s.HandleError(partial, bucket, table, "warehouse", "transformation", now);
        o := if raised.Some? then Threw(raised.value) else Returned(None);
    }
    s.EtlLog(TransformEvent(table, a, now));
  }
}
