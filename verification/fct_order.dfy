/**
 * `transform_fct_order` (src/warehouse/transform/transform_fct_order.py):
 * rename the order columns, left-join the customer and employee keys, turn
 * `order_date` into epoch seconds, and keep the first row of each
 * `nk_order_id`. The rename moves `customer_id` and `employee_id` away before
 * the joins name them, so every call takes the failure path and parks the
 * renamed frame in 'error-dellstore'.
 */
module FctOrder {
  import opened Wrappers
  import opened Timestamps
  import opened Frames
  import opened Helper
  import opened TransformStage

  const Table := "fct_order"
  const Bucket := "error-dellstore"

  /** The rename map as written, identity entries included. */
  const Renames: map<string, string> := map[
    "order_id" := "nk_order_id", "employee_id" := "sk_employee_id", "customer_id" := "sk_customer_id",
    "order_date" := "order_date", "total_amount" := "total_amount", "payment_method" := "payment_method",
    "order_status" := "order_status", "created_at" := "created_at"]

  /** The entries of `Renames` that change a label. */
  const Moves: map<string, string> := map[
    "order_id" := "nk_order_id", "employee_id" := "sk_employee_id", "customer_id" := "sk_customer_id"]

  /** The columns taken from the customers and employees frames. */
  const CustomerKeys: seq<string> := ["customer_id", "nk_customer_id"]
  const EmployeeKeys: seq<string> := ["employee_id", "nk_employee_id"]

  /** Three labels move to their warehouse names; every other label stays as it is. */
  lemma RenamesMoveThreeLabels()
    ensures forall d :: Relabel(Renames, d) == Relabel(Moves, d)
    ensures forall d | d !in Moves :: Relabel(Renames, d) == d
    ensures Relabel(Renames, "order_id") == "nk_order_id"
    ensures Relabel(Renames, "employee_id") == "sk_employee_id"
    ensures Relabel(Renames, "customer_id") == "sk_customer_id"
  {
  }

  /** The try block: rename, two left joins, the date conversion and the dedupe. */
  function Transform(data: Option<Frame>, customers: Option<Frame>, employees: Option<Frame>): (a: Attempt)
    ensures data.None? ==> a == Broke(NoneInput, None)
  {
    match data
    case None => Broke(NoneInput, None)
    case Some(f) =>
      var renamed := Rename(f, Renames);
      match MergeFrom(renamed, customers, CustomerKeys, "customer_id")
      case Failure(e) => Broke(e, Some(renamed))
      case Success(m1) =>
        match MergeFrom(m1, employees, EmployeeKeys, "employee_id")
        case Failure(e) => Broke(e, Some(m1))
        case Success(m2) => EpochThenDedupe(m2, "order_date", "nk_order_id")
  }

  /** After the rename neither join column is left. */
  lemma JoinColumnsRenamedAway(f: Frame)
    ensures "customer_id" !in Rename(f, Renames).columns
    ensures "employee_id" !in Rename(f, Renames).columns
  {
    assert "customer_id" !in Renames.Values && "employee_id" !in Renames.Values by {
      RenamesMoveThreeLabels();
    }
    RenamedAway(f, Renames, "customer_id");
    RenamedAway(f, Renames, "employee_id");
  }

  /**
   * Whatever the three frames hold, the try block raises at the first join
   * (or before it, on a None input) and the frame parked is the renamed one:
   * a KeyError on `customer_id` when the customers frame has both key
   * columns, a KeyError on a missing key column otherwise, and the
   * attribute error on None.
   */
  lemma AlwaysFails(data: Option<Frame>, customers: Option<Frame>, employees: Option<Frame>)
    ensures Transform(data, customers, employees).Broke?
    ensures data.Some? ==> Transform(data, customers, employees).partial == Some(Rename(data.value, Renames))
    ensures data.Some? && customers.None? ==> Transform(data, customers, employees).error == NoneInput
    ensures data.Some? && customers.Some? && (forall c | c in CustomerKeys :: c in customers.value.columns) ==>
      Transform(data, customers, employees).error == KeyError("customer_id")
    ensures data.Some? && customers.Some? && (exists c | c in CustomerKeys :: c !in customers.value.columns) ==>
      exists c | c in CustomerKeys :: c !in customers.value.columns && Transform(data, customers, employees).error == KeyError(c)
  {
    if data.Some? {
      JoinColumnsRenamedAway(data.value);
    }
  }

  /**
   * transform_fct_order: the try block, then the shared except/finally
   * bookkeeping. With a frame in hand and the object store up, the caller
   * always gets None, a "failed" event and the renamed frame parked.
   */
  method TransformFctOrder(s: Stores, data: Option<Frame>, customers: Option<Frame>, employees: Option<Frame>,
                           now: DateTime) returns (o: Call<Option<Frame>>)
    requires s.Valid()
    modifies s`log, s`buckets, s`deadLetters
    ensures s.Valid()
    ensures o == Outcome(s, Transform(data, customers, employees))
    ensures s.log == old(s.log) + s.Logged(TransformEvent(Table, Transform(data, customers, employees), now))
    ensures s.buckets == old(s.buckets) + (if s.sinkUp then {Bucket} else {})
    ensures data.Some? ==> (s.deadLetters == old(s.deadLetters) +
      s.Parked(Some(Rename(data.value, Renames)), Bucket, ObjectName("warehouse", "transformation", Table, now)))
    ensures Transform(data, customers, employees).Broke? ==> (s.deadLetters == old(s.deadLetters) +
      s.Parked(Transform(data, customers, employees).partial, Bucket, ObjectName("warehouse", "transformation", Table, now)))
    ensures data.Some? && s.sinkUp ==> o == Returned(None)
  {
    AlwaysFails(data, customers, employees);
    var a := Transform(data, customers, employees);
    o := Finish(s, a, Table, Bucket, now);
  }
}
