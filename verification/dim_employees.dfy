/**
 * `transform_dim_employees` (src/warehouse/transform/transform_dim_employees.py):
 * drop the rows whose `role` is one of three junk values, rename
 * `employee_id` to `nk_employee_id`, and drop the rows missing a role or a
 * name. Nothing deduplicates. Failures are parked in 'error-dellstore'.
 */
module DimEmployees {
  import opened Wrappers
  import opened Timestamps
  import opened Frames
  import opened Helper
  import opened TransformStage

  const Table := "dim_employees"
  const Bucket := "error-dellstore"

  /** The roles `isin` removes; the comparison is exact, so 'Today' stays. */
  const BadRoles: set<Cell> := {Text("today"), Text("third"), Text("me")}

  /** The `dropna` subset. */
  const Required: seq<string> := ["role", "first_name", "last_name"]

  /** The rename map as written, identity entries included. */
  const Renames: map<string, string> := map[
    "employee_id" := "nk_employee_id", "first_name" := "first_name", "last_name" := "last_name",
    "hire_date" := "hire_date", "role" := "role", "email" := "email", "created_at" := "created_at"]

  /** The one entry of `Renames` that changes a label. */
  const Moves: map<string, string> := map["employee_id" := "nk_employee_id"]

  /** `employee_id` becomes `nk_employee_id`; every other label stays as it is. */
  lemma RenamesMoveOnlyTheKey()
    ensures forall d :: Relabel(Renames, d) == Relabel(Moves, d)
    ensures forall d :: Relabel(Renames, d) == if d == "employee_id" then "nk_employee_id" else d
  {
  }

  /** The try block: role filter, rename, dropna. `data` is reassigned after each step. */
  function Transform(data: Option<Frame>): (a: Attempt)
    ensures data.None? ==> a == Broke(NoneInput, None)
  {
    match data
    case None => Broke(NoneInput, None)
    case Some(f) =>
      match WhereNotIn(f, "role", BadRoles)
      case Failure(e) => Broke(e, Some(f))
      case Success(g) =>
        var renamed := Rename(g, Renames);
        match DropNa(renamed, Required)
        case Failure(e) => Broke(e, Some(renamed))
        case Success(h) => Built(h)
  }

  /** Given a frame, the transform builds one or parks one: it never hands None to the except block. */
  lemma FrameNeverLost(f: Frame)
    ensures Transform(Some(f)).Built? || Transform(Some(f)).partial.Some?
  {
  }

  /** The columns the filters need are present after the rename exactly when they were before. */
  lemma RequiredSurviveRename(g: Frame)
    ensures forall c | c in Required :: c in Rename(g, Renames).columns <==> c in g.columns
  {
    RenamesMoveOnlyTheKey();
    RenameAgrees(g, Renames, Moves);
    RenameKeeps(g, Moves, "role");
    RenameKeeps(g, Moves, "first_name");
    RenameKeeps(g, Moves, "last_name");
  }

  /** Each label the filters read, and the renamed key, reads after the rename the cell it read before. */
  lemma RenamedLookups(g: Frame)
    ensures forall x, c | c in Required :: Lookup(Rename(g, Renames).columns, x, c) == Lookup(g.columns, x, c)
    ensures "nk_employee_id" !in g.columns ==>
      forall x :: Lookup(Rename(g, Renames).columns, x, "nk_employee_id") == Lookup(g.columns, x, "employee_id")
  {
    RenamesMoveOnlyTheKey();
    RenameLookup(g, Renames, "role", "role");
    RenameLookup(g, Renames, "first_name", "first_name");
    RenameLookup(g, Renames, "last_name", "last_name");
    if "nk_employee_id" !in g.columns {
      RenameLookup(g, Renames, "employee_id", "nk_employee_id");
    }
  }

  /** The row test the two filters apply together, read on the input labels. */
  predicate Kept(cols: seq<string>, x: Row) {
    && Lookup(cols, x, "role") !in BadRoles
    && forall c | c in Required :: Lookup(cols, x, c) != Null
  }

  /**
   * With `role`, `first_name` and `last_name` present the output holds
   * exactly the input rows whose role is not junk and whose three required
   * cells are not null, each as often as in the input, unaltered and in input
   * order; otherwise a KeyError, parked with the input (no role column) or the
   * renamed frame.
   */
  lemma TransformSpec(f: Frame)
    ensures Transform(Some(f)).Built? <==> forall c | c in Required :: c in f.columns
    ensures "role" !in f.columns ==> Transform(Some(f)) == Broke(KeyError("role"), Some(f))
    ensures Transform(Some(f)).Broke? && "role" in f.columns ==>
      && Transform(Some(f)).partial.Some?
      && Transform(Some(f)).partial.value.rows == WhereNotIn(f, "role", BadRoles).value.rows
      && exists c | c in Required :: c !in f.columns && Transform(Some(f)).error == KeyError(c)
    ensures Transform(Some(f)).Built? ==>
      var out := Transform(Some(f)).frame;
      && out.columns == RelabelAll(Renames, f.columns)
      && Subseq(out.rows, f.rows)
      && (forall x :: x in out.rows <==> x in f.rows && Kept(f.columns, x))
      && forall x :: multiset(out.rows)[x] == if Kept(f.columns, x) then multiset(f.rows)[x] else 0
  {
    if "role" in f.columns {
      var g := WhereNotIn(f, "role", BadRoles).value;
      WhereNotInCounts(f, "role", BadRoles);
      RequiredSurviveRename(g);
      RenamedLookups(g);
      var renamed := Rename(g, Renames);
      assert g.columns == f.columns;
      if forall c | c in Required :: c in f.columns {
        var out := DropNa(renamed, Required).value;
        DropNaCounts(renamed, Required);
        SubseqTransitive(out.rows, g.rows, f.rows);
      }
    }
  }

  /**
   * Two distinct input rows that pass both filters and share an `employee_id`
   * both reach the output with that id as `nk_employee_id`: nothing deduplicates.
   */
  lemma DuplicateIdsKept(f: Frame, x: Row, y: Row)
    requires forall c | c in Required :: c in f.columns
    requires "nk_employee_id" !in f.columns
    requires x in f.rows && y in f.rows && x != y
    requires Kept(f.columns, x) && Kept(f.columns, y)
    requires Lookup(f.columns, x, "employee_id") == Lookup(f.columns, y, "employee_id")
    ensures var out := Transform(Some(f));
      && out.Built?
      && x in out.frame.rows && y in out.frame.rows
      && Lookup(out.frame.columns, x, "nk_employee_id") == Lookup(f.columns, x, "employee_id")
      && Lookup(out.frame.columns, y, "nk_employee_id") == Lookup(out.frame.columns, x, "nk_employee_id")
  {
    TransformSpec(f);
    var g := WhereNotIn(f, "role", BadRoles).value;
    RenamedLookups(g);
    assert Transform(Some(f)).frame.columns == Rename(g, Renames).columns;
  }

  /** transform_dim_employees: the try block, then the shared except/finally bookkeeping. */
  method TransformDimEmployees(s: Stores, data: Option<Frame>, now: DateTime) returns (o: Call<Option<Frame>>)
    requires s.Valid()
    modifies s`log, s`buckets, s`deadLetters
    ensures s.Valid()
    ensures o == Outcome(s, Transform(data))
    ensures s.log == old(s.log) + s.Logged(TransformEvent(Table, Transform(data), now))
    ensures Transform(data).Built? ==> s.buckets == old(s.buckets) && s.deadLetters == old(s.deadLetters)
    ensures Transform(data).Broke? ==> s.buckets == old(s.buckets) + (if s.sinkUp then {Bucket} else {})
    ensures Transform(data).Broke? ==> (s.deadLetters == old(s.deadLetters) +
      s.Parked(Transform(data).partial, Bucket, ObjectName("warehouse", "transformation", Table, now)))
  {
    o := Finish(s, Transform(data), Table, Bucket, now);
  }
}
