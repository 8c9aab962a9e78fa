/**
 * `transform_fct_inventory` (src/warehouse/transform/transform_fct_inventory.py):
 * rename the tracking columns, left-join the product key, turn `change_date`
 * into epoch seconds, and keep the first row of each `nk_tracking_id`. The
 * rename moves `product_id` away before the join names it, so every call
 * takes the failure path and parks the renamed frame in 'error-dellstore'.
 */
module FctInventory {
  import opened Wrappers
  import opened Timestamps
  import opened Frames
  import opened Helper
  import opened TransformStage

  const Table := "fct_inventory"
  const Bucket := "error-dellstore"

  /** The rename map as written, identity entries included. */
  const Renames: map<string, string> := map[
    "tracking_id" := "nk_tracking_id", "product_id" := "sk_product_id", "quantity_change" := "quantity_change",
    "change_date" := "change_date", "reason" := "reason", "created_at" := "created_at"]

  /** The entries of `Renames` that change a label. */
  const Moves: map<string, string> := map["tracking_id" := "nk_tracking_id", "product_id" := "sk_product_id"]

  /** The columns taken from the products frame. */
  const ProductKeys: seq<string> := ["product_id", "nk_product_id"]

  /** Two labels move to their warehouse names; every other label stays as it is. */
  lemma RenamesMoveTwoLabels()
    ensures forall d :: Relabel(Renames, d) == Relabel(Moves, d)
    ensures forall d | d !in Moves :: Relabel(Renames, d) == d
    ensures Relabel(Renames, "tracking_id") == "nk_tracking_id"
    ensures Relabel(Renames, "product_id") == "sk_product_id"
  {
  }

  /** The try block: rename, the left join, the date conversion and the dedupe. */
  function Transform(data: Option<Frame>, products: Option<Frame>): (a: Attempt)
    ensures data.None? ==> a == Broke(NoneInput, None)
  {
    match data
    case None => Broke(NoneInput, None)
    case Some(f) =>
      var renamed := Rename(f, Renames);
      match MergeFrom(renamed, products, ProductKeys, "product_id")
      case Failure(e) => Broke(e, Some(renamed))
      case Success(m) => EpochThenDedupe(m, "change_date", "nk_tracking_id")
  }

  /**
   * Whatever the two frames hold, the try block raises at the join (or
   * before it, on a None input) and the frame parked is the renamed one: a
   * KeyError on `product_id` when the products frame has both key columns, a
   * KeyError on a missing key column otherwise (the untransformed products
   * frame has no `nk_product_id`), and the attribute error on None.
   */
  lemma AlwaysFails(data: Option<Frame>, products: Option<Frame>)
    ensures Transform(data, products).Broke?
    ensures data.Some? ==> Transform(data, products).partial == Some(Rename(data.value, Renames))
    ensures data.Some? && products.None? ==> Transform(data, products).error == NoneInput
    ensures data.Some? && products.Some? && (forall c | c in ProductKeys :: c in products.value.columns) ==>
      Transform(data, products).error == KeyError("product_id")
    ensures data.Some? && products.Some? && (exists c | c in ProductKeys :: c !in products.value.columns) ==>
      exists c | c in ProductKeys :: c !in products.value.columns && Transform(data, products).error == KeyError(c)
  {
    if data.Some? {
      assert "product_id" !in Renames.Values by {
        RenamesMoveTwoLabels();
      }
      RenamedAway(data.value, Renames, "product_id");
    }
  }

  /**
   * transform_fct_inventory: the try block, then the shared except/finally
   * bookkeeping. With a frame in hand and the object store up, the caller
   * always gets None, a "failed" event and the renamed frame parked.
   */
  method TransformFctInventory(s: Stores, data: Option<Frame>, products: Option<Frame>, now: DateTime)
    returns (o: Call<Option<Frame>>)
    requires s.Valid()
    modifies s`log, s`buckets, s`deadLetters
    ensures s.Valid()
    ensures o == Outcome(s, Transform(data, products))
    ensures s.log == old(s.log) + s.Logged(TransformEvent(Table, Transform(data, products), now))
    ensures s.buckets == old(s.buckets) + (if s.sinkUp then {Bucket} else {})
    ensures data.Some? ==> (s.deadLetters == old(s.deadLetters) +
      s.Parked(Some(Rename(data.value, Renames)), Bucket, ObjectName("warehouse", "transformation", Table, now)))
    ensures Transform(data, products).Broke? ==> (s.deadLetters == old(s.deadLetters) +
      s.Parked(Transform(data, products).partial, Bucket, ObjectName("warehouse", "transformation", Table, now)))
    ensures data.Some? && s.sinkUp ==> o == Returned(None)
  {
    AlwaysFails(data, products);
    var a := Transform(data, products);
    o := Finish(s, a, Table, Bucket, now);
  }
}
