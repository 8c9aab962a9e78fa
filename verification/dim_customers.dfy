/**
 * `transform_dim_customers` (src/warehouse/transform/transform_dim_customers.py):
 * rename `customer_id` to `nk_customer_id`, then keep the first row of each
 * `nk_customer_id`. Failures are parked in the bucket 'error-paccafe'.
 */
module DimCustomers {
  import opened Wrappers
  import opened Timestamps
  import opened Frames
  import opened Helper
  import opened TransformStage

  const Table := "dim_customers"
  const Bucket := "error-paccafe"

  /** The rename map as written, identity entries included. */
  const Renames: map<string, string> := map[
    "customer_id" := "nk_customer_id", "first_name" := "first_name", "last_name" := "last_name",
    "email" := "email", "phone" := "phone", "loyalty_points" := "loyalty_points", "created_at" := "created_at"]

  /** The one entry of `Renames` that changes a label. */
  const Moves: map<string, string> := map["customer_id" := "nk_customer_id"]

  /** `customer_id` becomes `nk_customer_id`; every other label stays as it is. */
  lemma RenamesMoveOnlyTheKey()
    ensures forall d :: Relabel(Renames, d) == Relabel(Moves, d)
    ensures forall d :: Relabel(Renames, d) == if d == "customer_id" then "nk_customer_id" else d
  {
  }

  /** The try block: rename, then drop_duplicates on the natural key. */
  function Transform(data: Option<Frame>): (a: Attempt)
    ensures data.None? ==> a == Broke(NoneInput, None)
    ensures data.Some? ==> a.Built? || a.partial.Some?
  {
    match data
    case None => Broke(NoneInput, None)
    case Some(f) =>
      var renamed := Rename(f, Renames);
      match DropDuplicates(renamed, "nk_customer_id")
      case Failure(e) => Broke(e, Some(renamed))
      case Success(d) => Built(d)
  }

  /** After the rename there is a key column exactly when the input had `customer_id` or `nk_customer_id`. */
  lemma KeyAfterRename(f: Frame)
    ensures "nk_customer_id" in Rename(f, Renames).columns <==> "customer_id" in f.columns || "nk_customer_id" in f.columns
    ensures "customer_id" !in Rename(f, Renames).columns
  {
    RenamesMoveOnlyTheKey();
    RenamedLabels(f, Renames, "nk_customer_id");
    RenamedAway(f, Renames, "customer_id");
    if "customer_id" in f.columns {
      assert Relabel(Renames, "customer_id") == "nk_customer_id";
    } else if "nk_customer_id" in f.columns {
      assert Relabel(Renames, "nk_customer_id") == "nk_customer_id";
    }
  }

  /**
   * A frame with a customer key comes out renamed, one row per key (the
   * first), rows unaltered and in input order, every key kept; without one
   * the rename's result is parked with a KeyError.
   */
  lemma TransformSpec(f: Frame)
    ensures Transform(Some(f)).Built? <==> "customer_id" in f.columns || "nk_customer_id" in f.columns
    ensures Transform(Some(f)).Broke? ==> Transform(Some(f)) == Broke(KeyError("nk_customer_id"), Some(Rename(f, Renames)))
    ensures Transform(Some(f)).Built? ==>
      var out := Transform(Some(f)).frame;
      var k := IndexOf(out.columns, "nk_customer_id").value;
      && out.columns == RelabelAll(Renames, f.columns)
      && "customer_id" !in out.columns
      && Subseq(out.rows, f.rows)
      && UniqueKeys(out.rows, k)
      && Keys(out.rows, k) == Keys(f.rows, k)
      && (forall i | 0 <= i < |out.rows| :: out.rows[i] == FirstWithKey(f.rows, k, At(out.rows[i], k)))
  {
    KeyAfterRename(f);
    var renamed := Rename(f, Renames);
    if "nk_customer_id" in renamed.columns {
      DropDuplicatesSpec(renamed, "nk_customer_id");
    }
  }

  /** Transforming the output again changes nothing. */
  lemma TransformIdempotent(f: Frame)
    requires Transform(Some(f)).Built?
    ensures Transform(Some(Transform(Some(f)).frame)) == Transform(Some(f))
  {
    var renamed := Rename(f, Renames);
    var out := Transform(Some(f)).frame;
    KeyAfterRename(f);
    RenamesMoveOnlyTheKey();
    assert Rename(out, Renames) == out;
    DropDuplicatesIdempotent(renamed, "nk_customer_id");
  }

  /** transform_dim_customers: the try block, then the shared except/finally bookkeeping. */
  method TransformDimCustomers(s: Stores, data: Option<Frame>, now: DateTime) returns (o: Call<Option<Frame>>)
    requires s.Valid()
    modifies s`log, s`buckets, s`deadLetters
    ensures s.Valid()
    ensures o == Outcome(s, Transform(data))
    ensures s.log == old(s.log) + s.Logged(TransformEvent(Table, Transform(data), now))
    ensures Transform(data).Built? ==> s.buckets == old(s.buckets) && s.deadLetters == old(s.deadLetters)
    ensures Transform(data).Broke? ==> s.buckets == old(s.buckets) + (if s.sinkUp then {Bucket} else {})
    ensures Transform(data).Broke? ==> (s.deadLetters == old(s.deadLetters) +
      s.Parked(Transform(data).partial, Bucket, ObjectName("warehouse", "transformation", Table, now)))
  {
    o := Finish(s, Transform(data), Table, Bucket, now);
  }
}
