/**
 * `transform_dim_products` (src/warehouse/transform/transform_dim_products.py):
 * rename `product_id` to `nk_product_id` and `store_branch` to `store_name`,
 * left-join the store frame's `store_name` and `sk_store_branch`, rewrite the
 * two price columns with `re.sub(r'\s*-', '', str(x))`, and drop the rows
 * without a product key. Nothing deduplicates. Failures are parked in
 * 'error-dellstore'.
 */
module DimProducts {
  import opened Wrappers
  import opened Timestamps
  import opened Frames
  import opened Helper
  import opened TransformStage

  const Table := "dim_products"
  const Bucket := "error-dellstore"

  /** The rename map as written, identity entries included. */
  const Renames: map<string, string> := map[
    "product_id" := "nk_product_id", "product_name" := "product_name", "category" := "category",
    "unit_price" := "unit_price", "cost_price" := "cost_price", "in_stock" := "in_stock",
    "store_branch" := "store_name", "created_at" := "created_at"]

  /** The two entries of `Renames` that change a label. */
  const Moves: map<string, string> := map["product_id" := "nk_product_id", "store_branch" := "store_name"]

  /** The columns taken from the store frame. */
  const StoreKeys: seq<string> := ["store_name", "sk_store_branch"]

  /** `product_id` becomes `nk_product_id`, `store_branch` becomes `store_name`; nothing else changes. */
  lemma RenamesMoveTwoLabels()
    ensures forall d :: Relabel(Renames, d) == Relabel(Moves, d)
    ensures forall d | d != "product_id" && d != "store_branch" :: Relabel(Renames, d) == d
    ensures Relabel(Renames, "product_id") == "nk_product_id" && Relabel(Renames, "store_branch") == "store_name"
  {
  }

  // ---------------------------------------------------------------------------
  // re.sub(r'\s*-', '', str(x))
  // ---------------------------------------------------------------------------

  /** `\s` on ASCII text: space, tab, line feed, vertical tab, form feed, carriage return. */
  predicate IsSpace(c: char) {
    c == ' ' || c == '\t' || c == '\n' || c == '\U{B}' || c == '\U{C}' || c == '\r'
  }

  /** The length of the whitespace run `s` starts with. */
  function SpaceRun(s: string): (n: nat)
    ensures n <= |s|
    ensures forall i | 0 <= i < n :: IsSpace(s[i])
    ensures n < |s| ==> !IsSpace(s[n])
  {
    if s != [] && IsSpace(s[0]) then 1 + SpaceRun(s[1..]) else 0
  }

  /**
   * `re.sub(r'\s*-', '', s)`: scanning left to right, a whitespace run that
   * ends in '-' is deleted together with the dash; whitespace not followed by
   * a dash, including whitespace after one, stays.
   */
  function StripDashes(s: string): (r: string)
    ensures '-' !in r
    ensures |r| <= |s|
    decreases |s|
  {
    if s == [] then []
    else
      var n := SpaceRun(s);
      if n < |s| && s[n] == '-' then StripDashes(s[n + 1..])
      else [s[0]] + StripDashes(s[1..])
  }

  /** Text without a dash is left exactly as it is. */
  lemma {:induction false} NoDashUnchanged(s: string)
    requires '-' !in s
    ensures StripDashes(s) == s
    decreases |s|
  {
    if s != [] {
      var n := SpaceRun(s);
      if n < |s| {
        assert s[n] in s;
      }
      assert '-' !in s[1..];
      NoDashUnchanged(s[1..]);
      assert s == [s[0]] + s[1..];
    }
  }

  /** Cleaning a cleaned text changes nothing. */
  lemma StripIdempotent(s: string)
    ensures StripDashes(StripDashes(s)) == StripDashes(s)
  {
    NoDashUnchanged(StripDashes(s));
  }

  /** The characters that are neither whitespace nor '-', in order. */
  function Solid(s: string): string
    decreases |s|
  {
    if s == [] then []
    else (if IsSpace(s[0]) || s[0] == '-' then [] else [s[0]]) + Solid(s[1..])
  }

  lemma {:induction false} SolidSkipsBlanks(s: string, m: nat)
    requires m <= |s|
    requires forall i | 0 <= i < m :: IsSpace(s[i]) || s[i] == '-'
    ensures Solid(s) == Solid(s[m..])
    decreases m
  {
    if m > 0 {
      assert s[1..][m - 1..] == s[m..];
      SolidSkipsBlanks(s[1..], m - 1);
    }
  }

  /** Only whitespace and dashes are removed: every other character survives, in order. */
  lemma {:induction false} StripKeepsSolid(s: string)
    ensures Solid(StripDashes(s)) == Solid(s)
    decreases |s|
  {
    if s != [] {
      var n := SpaceRun(s);
      if n < |s| && s[n] == '-' {
        StripKeepsSolid(s[n + 1..]);
        SolidSkipsBlanks(s, n + 1);
      } else {
        StripKeepsSolid(s[1..]);
        assert StripDashes(s) == [s[0]] + StripDashes(s[1..]);
        assert ([s[0]] + StripDashes(s[1..]))[1..] == StripDashes(s[1..]);
      }
    }
  }

  /** A leading minus goes. */
  lemma StripLeadingMinus()
    ensures StripDashes("-12.50") == "12.50"
  {
    assert SpaceRun("-12.50") == 0;
    assert "-12.50"[1..] == "12.50";
    NoDashUnchanged("12.50");
  }

  /** Whitespace before a dash goes with it. */
  lemma StripSpaceBeforeMinus()
    ensures StripDashes(" -12.50") == "12.50"
  {
    assert SpaceRun("-12.50") == 0;
    assert " -12.50"[1..] == "-12.50";
    assert SpaceRun(" -12.50") == 1;
    assert " -12.50"[2..] == "12.50";
    NoDashUnchanged("12.50");
  }

  /** Whitespace after a dash stays: "- 12.50" becomes " 12.50", not "12.50". */
  lemma StripKeepsSpaceAfterMinus()
    ensures StripDashes("- 12.50") == " 12.50"
  {
    assert SpaceRun("- 12.50") == 0;
    assert "- 12.50"[1..] == " 12.50";
    NoDashUnchanged(" 12.50");
  }

  // ---------------------------------------------------------------------------
  // str(x) for the cells a price column can hold
  // ---------------------------------------------------------------------------

  /** Decimal digits of a natural number, most significant first. */
  function NatText(n: nat): (s: string)
    ensures s != [] && AllDigits(s)
  {
    if n < 10 then [DigitChar(n)] else NatText(n / 10) + [DigitChar(n % 10)]
  }

  /** `str(n)` for an integer. */
  function IntText(n: int): string {
    if n < 0 then "-" + NatText(-n) else NatText(n)
  }

  /** `str(x)`: None prints as "None", a timestamp in ISO form, text as itself. */
  function PriceText(c: Cell): string {
    match c
    case Null => "None"
    case Text(t) => t
    case Int(n) => IntText(n)
    case Time(t) => Stamp(t)
  }

  /** The cleaned price, always a string. */
  function CleanPrice(c: Cell): (r: Cell)
    ensures r.Text? && '-' !in r.text
  {
    Text(StripDashes(PriceText(c)))
  }

  /** A predicate for the cells the cleaning leaves behind. */
  predicate PriceCleaned(c: Cell) {
    c.Text? && '-' !in c.text
  }

  /** On an integer price the cleaning is the absolute value, as text; a missing price becomes "None". */
  lemma CleanPriceValues(n: int)
    ensures CleanPrice(Int(n)) == Text(NatText(if n < 0 then -n else n))
    ensures CleanPrice(Null) == Text("None")
  {
    var t := NatText(if n < 0 then -n else n);
    forall i | 0 <= i < |t|
      ensures t[i] != '-'
    {
      assert IsDigit(t[i]);
    }
    NoDashUnchanged(t);
    if n < 0 {
      assert SpaceRun("-" + t) == 0;
      assert ("-" + t)[1..] == t;
    }
    NoDashUnchanged("None");
  }

  // ---------------------------------------------------------------------------
  // The try block
  // ---------------------------------------------------------------------------

  /** The price rewrites and the dropna, on the joined frame. */
  function Clean(merged: Frame): (a: Attempt)
    ensures a.Built? || a.partial.Some?
  {
    match Apply(merged, "unit_price", CleanPrice)
    case Failure(e) => Broke(e, Some(merged))
    case Success(m1) =>
      match Apply(m1, "cost_price", CleanPrice)
      case Failure(e) => Broke(e, Some(m1))
      case Success(m2) =>
        match DropNa(m2, ["nk_product_id"])
        case Failure(e) => Broke(e, Some(m2))
        case Success(out) => Built(out)
  }

  /** The try block: rename, join the store keys, then `Clean`. */
  function Transform(data: Option<Frame>, stores: Option<Frame>): (a: Attempt)
    ensures data.None? ==> a == Broke(NoneInput, None)
    ensures data.Some? ==> a.Built? || a.partial.Some?
  {
    match data
    case None => Broke(NoneInput, None)
    case Some(f) =>
      var renamed := Rename(f, Renames);
      match MergeFrom(renamed, stores, StoreKeys, "store_name")
      case Failure(e) => Broke(e, Some(renamed))
      case Success(merged) => Clean(merged)
  }

  /** A store frame without `store_name` or `sk_store_branch` makes the transform fail with the renamed frame parked. */
  lemma StoreKeysRequired(f: Frame, sb: Frame)
    requires exists c | c in StoreKeys :: c !in sb.columns
    ensures Transform(Some(f), Some(sb)).Broke?
    ensures Transform(Some(f), Some(sb)).partial == Some(Rename(f, Renames))
    ensures exists c | c in StoreKeys :: c !in sb.columns && Transform(Some(f), Some(sb)).error == KeyError(c)
  {
  }

  /** The join step, with the store frame's two key columns present and `store_name` among the product labels. */
  lemma JoinSucceeds(f: Frame, sb: Frame)
    requires forall c | c in StoreKeys :: c in sb.columns
    requires "store_name" in Rename(f, Renames).columns
    ensures var merged := MergeFrom(Rename(f, Renames), Some(sb), StoreKeys, "store_name");
      && merged.Success?
      && merged.value.columns == Rename(f, Renames).columns + ["sk_store_branch"]
  {
    var picked := Select(sb, StoreKeys).value;
    assert IndexOf(picked.columns, "store_name") == Some(0);
    assert DropAt(picked.columns, 0) == ["sk_store_branch"];
  }

  /**
   * The join keeps every product: each renamed product row begins some
   * joined row, each joined row begins with a product row, and there are at
   * least as many joined rows as products.
   */
  lemma StoreJoinKeepsEveryProduct(f: Frame, sb: Frame)
    requires forall c | c in StoreKeys :: c in sb.columns
    requires "store_name" in Rename(f, Renames).columns
    ensures var merged := MergeFrom(Rename(f, Renames), Some(sb), StoreKeys, "store_name");
      && merged.Success?
      && |merged.value.rows| >= |f.rows|
      && (forall x | x in f.rows :: exists r | r in merged.value.rows :: Extends(r, x))
      && (forall r | r in merged.value.rows :: exists x | x in f.rows :: Extends(r, x))
  {
    JoinSucceeds(f, sb);
    var renamed := Rename(f, Renames);
    var keys := Select(sb, StoreKeys).value;
    MergeKeepsLeft(renamed.rows, keys.rows, IndexOf(renamed.columns, "store_name").value,
                   IndexOf(keys.columns, "store_name").value, |keys.columns| - 1);
  }

  /**
   * `sk` is what the join gives a product whose store name is `name`: the
   * `sk_store_branch` of a store row with that name, or null when no store
   * row has it.
   */
  ghost predicate StoreMatched(sb: Frame, name: Cell, sk: Cell) {
    || (sk == Null && forall y | y in sb.rows :: Lookup(sb.columns, y, "store_name") != name)
    || exists y | y in sb.rows :: Lookup(sb.columns, y, "store_name") == name && sk == Lookup(sb.columns, y, "sk_store_branch")
  }

  /**
   * The join against the store_branch frame, row by row: each joined row is
   * a product row followed by one cell, the `sk_store_branch` of a store row
   * with the product's store name, or null when there is none.
   */
  lemma StoreJoinFromBranches(f: Frame, sb: Frame, r: Row)
    requires forall c | c in StoreKeys :: c in sb.columns
    requires "store_name" in Rename(f, Renames).columns && "sk_store_branch" !in Rename(f, Renames).columns
    requires Rectangular(f)
    requires MergeFrom(Rename(f, Renames), Some(sb), StoreKeys, "store_name").Success?
    requires r in MergeFrom(Rename(f, Renames), Some(sb), StoreKeys, "store_name").value.rows
    ensures var renamed := Rename(f, Renames);
      exists x | x in f.rows ::
        && Extends(r, x) && |r| == |x| + 1
        && StoreMatched(sb, Lookup(renamed.columns, x, "store_name"),
                        Lookup(renamed.columns + ["sk_store_branch"], r, "sk_store_branch"))
  {
    var renamed := Rename(f, Renames);
    var picked := Select(sb, StoreKeys).value;
    assert picked.columns == StoreKeys;
    assert IndexOf(picked.columns, "store_name") == Some(0);
    LeftMergeRow(renamed, picked, "store_name", r);
    var x :| x in renamed.rows && (
      || (r == x + Nulls(|picked.columns| - 1) &&
          forall y | y in picked.rows :: Lookup(picked.columns, y, "store_name") != Lookup(renamed.columns, x, "store_name"))
      || (exists y | y in picked.rows ::
            Lookup(picked.columns, y, "store_name") == Lookup(renamed.columns, x, "store_name") && r == x + DropAt(y, 0)));
    assert x in f.rows && |x| == |renamed.columns|;
    StoreCell(sb, renamed.columns, x, r);
  }

  /** One joined row: the product row `x` and the store cell the join appended to it. */
  lemma StoreCell(sb: Frame, cols: seq<string>, x: Row, r: Row)
    requires forall c | c in StoreKeys :: c in sb.columns
    requires |x| == |cols| && "sk_store_branch" !in cols
    requires || (r == x + Nulls(1) &&
                 forall y | y in Select(sb, StoreKeys).value.rows :: Lookup(StoreKeys, y, "store_name") != Lookup(cols, x, "store_name"))
             || (exists y | y in Select(sb, StoreKeys).value.rows ::
                   Lookup(StoreKeys, y, "store_name") == Lookup(cols, x, "store_name") && r == x + DropAt(y, 0))
    ensures Extends(r, x) && |r| == |x| + 1
    ensures StoreMatched(sb, Lookup(cols, x, "store_name"), Lookup(cols + ["sk_store_branch"], r, "sk_store_branch"))
  {
    var picked := Select(sb, StoreKeys).value;
    var name := Lookup(cols, x, "store_name");
    if forall y | y in picked.rows :: Lookup(StoreKeys, y, "store_name") != name {
      StoreCellNone(sb, cols, x, r);
    } else {
      var y :| y in picked.rows && Lookup(StoreKeys, y, "store_name") == name && r == x + DropAt(y, 0);
      StoreCellFound(sb, cols, x, y, r);
    }
  }

  /** A product whose store name no store row carries gets a null key. */
  lemma StoreCellNone(sb: Frame, cols: seq<string>, x: Row, r: Row)
    requires forall c | c in StoreKeys :: c in sb.columns
    requires |x| == |cols| && "sk_store_branch" !in cols
    requires r == x + Nulls(1)
    requires forall y | y in Select(sb, StoreKeys).value.rows :: Lookup(StoreKeys, y, "store_name") != Lookup(cols, x, "store_name")
    ensures Extends(r, x) && |r| == |x| + 1
    ensures StoreMatched(sb, Lookup(cols, x, "store_name"), Lookup(cols + ["sk_store_branch"], r, "sk_store_branch"))
  {
    assert r == x + [Null];
    PaddedLookup(cols, x, "sk_store_branch", Null);
    NoStoreNamed(sb, Lookup(cols, x, "store_name"));
    assert r[..|x|] == x;
  }

  /** A product whose store name the picked row `y` carries gets that row's key. */
  lemma StoreCellFound(sb: Frame, cols: seq<string>, x: Row, y: Row, r: Row)
    requires forall c | c in StoreKeys :: c in sb.columns
    requires |x| == |cols| && "sk_store_branch" !in cols
    requires y in Select(sb, StoreKeys).value.rows
    requires Lookup(StoreKeys, y, "store_name") == Lookup(cols, x, "store_name") && r == x + DropAt(y, 0)
    ensures Extends(r, x) && |r| == |x| + 1
    ensures StoreMatched(sb, Lookup(cols, x, "store_name"), Lookup(cols + ["sk_store_branch"], r, "sk_store_branch"))
  {
    var picked := Select(sb, StoreKeys).value;
    var i :| 0 <= i < |picked.rows| && picked.rows[i] == y;
    PickedRow(sb, i);
    assert DropAt(y, 0) == [y[1]];
    PaddedLookup(cols, x, "sk_store_branch", y[1]);
    assert sb.rows[i] in sb.rows;
    assert r[..|x|] == x;
  }

  /** No picked row carries `name`, so no store row does. */
  lemma NoStoreNamed(sb: Frame, name: Cell)
    requires forall c | c in StoreKeys :: c in sb.columns
    requires forall y | y in Select(sb, StoreKeys).value.rows :: Lookup(StoreKeys, y, "store_name") != name
    ensures forall z | z in sb.rows :: Lookup(sb.columns, z, "store_name") != name
  {
    var picked := Select(sb, StoreKeys).value;
    forall z | z in sb.rows
      ensures Lookup(sb.columns, z, "store_name") != name
    {
      var i :| 0 <= i < |sb.rows| && sb.rows[i] == z;
      PickedRow(sb, i);
      assert picked.rows[i] in picked.rows;
    }
  }

  /** The store frame's row `i`, cut down to the two key columns. */
  lemma PickedRow(sb: Frame, i: nat)
    requires forall c | c in StoreKeys :: c in sb.columns
    requires i < |sb.rows|
    ensures var y := Select(sb, StoreKeys).value.rows[i];
      && |y| == 2
      && Lookup(StoreKeys, y, "store_name") == y[0] == Lookup(sb.columns, sb.rows[i], "store_name")
      && y[1] == Lookup(sb.columns, sb.rows[i], "sk_store_branch")
  {
    var picked := Select(sb, StoreKeys).value;
    assert picked.rows[i] in picked.rows;
    assert IndexOf(StoreKeys, "store_name") == Some(0);
    assert IndexOf(StoreKeys, "sk_store_branch") == Some(1);
  }

  /** `y` is `x` with both prices rewritten by `CleanPrice` and every other cell kept. */
  ghost predicate Repriced(cols: seq<string>, x: Row, y: Row) {
    && |y| == |x|
    && (forall d | d != "unit_price" && d != "cost_price" :: Lookup(cols, y, d) == Lookup(cols, x, d))
    && (|x| == |cols| ==>
          && Lookup(cols, y, "unit_price") == CleanPrice(Lookup(cols, x, "unit_price"))
          && Lookup(cols, y, "cost_price") == CleanPrice(Lookup(cols, x, "cost_price")))
  }

  /** A repriced row keeps every cell but the two prices. */
  lemma RepricedKeeps(cols: seq<string>, x: Row, y: Row, d: string)
    requires Repriced(cols, x, y) && d != "unit_price" && d != "cost_price"
    ensures Lookup(cols, y, d) == Lookup(cols, x, d)
  {
  }

  /** The frame after both price rewrites. */
  function Repriced2(merged: Frame): (m2: Frame)
    requires "unit_price" in merged.columns && "cost_price" in merged.columns
  {
    Apply(Apply(merged, "unit_price", CleanPrice).value, "cost_price", CleanPrice).value
  }

  /** The two price rewrites reprice every row in place. */
  lemma RepriceRows(merged: Frame)
    requires "unit_price" in merged.columns && "cost_price" in merged.columns
    ensures var m2 := Repriced2(merged);
      && m2.columns == merged.columns && |m2.rows| == |merged.rows|
      && forall j | 0 <= j < |merged.rows| :: Repriced(merged.columns, merged.rows[j], m2.rows[j])
  {
    var m1 := Apply(merged, "unit_price", CleanPrice).value;
    var m2 := Apply(m1, "cost_price", CleanPrice).value;
    ApplyCells(merged, "unit_price", CleanPrice);
    ApplyCells(m1, "cost_price", CleanPrice);
    forall j | 0 <= j < |merged.rows|
      ensures Repriced(merged.columns, merged.rows[j], m2.rows[j])
    {
      assert Lookup(m1.columns, m1.rows[j], "cost_price") == Lookup(merged.columns, merged.rows[j], "cost_price");
      assert Lookup(m1.columns, m2.rows[j], "unit_price") == Lookup(m1.columns, m1.rows[j], "unit_price");
    }
  }

  /** Repricing leaves the product key, so the keyed positions, alone. */
  lemma RepriceKeepsKeyed(merged: Frame)
    requires "unit_price" in merged.columns && "cost_price" in merged.columns
    ensures Positions(Repriced2(merged).rows, Complete(merged.columns, ["nk_product_id"])) ==
            Positions(merged.rows, Complete(merged.columns, ["nk_product_id"]))
  {
    var m2 := Repriced2(merged);
    RepriceRows(merged);
    forall j | 0 <= j < |merged.rows|
      ensures Complete(merged.columns, ["nk_product_id"])(m2.rows[j]) == Complete(merged.columns, ["nk_product_id"])(merged.rows[j])
    {
      assert Repriced(merged.columns, merged.rows[j], m2.rows[j]);
      assert Lookup(merged.columns, m2.rows[j], "nk_product_id") == Lookup(merged.columns, merged.rows[j], "nk_product_id");
    }
    PositionsAgree(m2.rows, Complete(merged.columns, ["nk_product_id"]), merged.rows, Complete(merged.columns, ["nk_product_id"]));
  }

  /** `Clean` is the repricing followed by the dropna on the product key. */
  lemma CleanSteps(merged: Frame)
    requires Clean(merged).Built?
    ensures "unit_price" in merged.columns && "cost_price" in merged.columns
    ensures DropNa(Repriced2(merged), ["nk_product_id"]) == Success(Clean(merged).frame)
  {
  }

  /**
   * After `Clean`, the output rows are exactly the joined rows with a
   * product key, in order, each with both prices replaced by `CleanPrice` of
   * the old cell and every other cell kept.
   */
  lemma CleanSpec(merged: Frame)
    requires Clean(merged).Built?
    ensures var out := Clean(merged).frame;
      var ps := Positions(merged.rows, Complete(merged.columns, ["nk_product_id"]));
      && out.columns == merged.columns
      && |out.rows| == |ps|
      && forall k | 0 <= k < |ps| :: Repriced(merged.columns, merged.rows[ps[k]], out.rows[k])
  {
    CleanSteps(merged);
    var m2 := Repriced2(merged);
    RepriceRows(merged);
    RepriceKeepsKeyed(merged);
    DropNaPositions(m2, ["nk_product_id"]);
  }

  /** Every output row of `Clean` has a product key, and when full-width both prices cleaned (text without a dash, never null). */
  lemma CleanRowsClean(merged: Frame)
    requires Clean(merged).Built?
    ensures var out := Clean(merged).frame;
      forall x | x in out.rows ::
        && Lookup(out.columns, x, "nk_product_id") != Null
        && (|x| == |out.columns| ==>
              PriceCleaned(Lookup(out.columns, x, "unit_price")) && PriceCleaned(Lookup(out.columns, x, "cost_price")))
  {
    CleanSpec(merged);
    var out := Clean(merged).frame;
    var ps := Positions(merged.rows, Complete(merged.columns, ["nk_product_id"]));
    forall x | x in out.rows
      ensures Lookup(out.columns, x, "nk_product_id") != Null
      ensures |x| == |out.columns| ==>
                PriceCleaned(Lookup(out.columns, x, "unit_price")) && PriceCleaned(Lookup(out.columns, x, "cost_price"))
    {
      var k :| 0 <= k < |out.rows| && out.rows[k] == x;
      var m := merged.rows[ps[k]];
      assert Repriced(merged.columns, m, x);
      CompleteOne(merged.columns, "nk_product_id", m);
    }
  }

  /** Two keyed rows that share a product key but differ elsewhere both reach the output. */
  lemma SharedProductKeySurvives(merged: Frame, i: nat, j: nat, d: string)
    requires Clean(merged).Built?
    requires i < |merged.rows| && j < |merged.rows|
    requires Lookup(merged.columns, merged.rows[i], "nk_product_id") != Null
    requires Lookup(merged.columns, merged.rows[i], "nk_product_id") == Lookup(merged.columns, merged.rows[j], "nk_product_id")
    requires d != "unit_price" && d != "cost_price"
    requires Lookup(merged.columns, merged.rows[i], d) != Lookup(merged.columns, merged.rows[j], d)
    ensures exists x, y | x in Clean(merged).frame.rows && y in Clean(merged).frame.rows ::
      x != y && Lookup(merged.columns, x, "nk_product_id") == Lookup(merged.columns, y, "nk_product_id")
  {
    CleanSpec(merged);
    var ps := Positions(merged.rows, Complete(merged.columns, ["nk_product_id"]));
    CompleteOne(merged.columns, "nk_product_id", merged.rows[i]);
    CompleteOne(merged.columns, "nk_product_id", merged.rows[j]);
    TwoRepricedRowsKept(merged.columns, merged.rows, Clean(merged).frame.rows, ps, i, j, d);
  }

  lemma TwoRepricedRowsKept(cols: seq<string>, rows: seq<Row>, out: seq<Row>, ps: seq<nat>, i: nat, j: nat, d: string)
    requires |out| == |ps| && forall k | 0 <= k < |ps| :: ps[k] < |rows| && Repriced(cols, rows[ps[k]], out[k])
    requires i in ps && j in ps && i < |rows| && j < |rows|
    requires Lookup(cols, rows[i], "nk_product_id") == Lookup(cols, rows[j], "nk_product_id")
    requires d != "unit_price" && d != "cost_price" && Lookup(cols, rows[i], d) != Lookup(cols, rows[j], d)
    ensures exists x, y | x in out && y in out :: x != y && Lookup(cols, x, "nk_product_id") == Lookup(cols, y, "nk_product_id")
  {
    var ki :| 0 <= ki < |ps| && ps[ki] == i;
    var kj :| 0 <= kj < |ps| && ps[kj] == j;
    var x, y := out[ki], out[kj];
    assert Repriced(cols, rows[i], x) && Repriced(cols, rows[j], y);
    assert Lookup(cols, x, d) != Lookup(cols, y, d);
    assert x in out && y in out;
  }

  // ---------------------------------------------------------------------------
  // The whole transform
  // ---------------------------------------------------------------------------

  /** The labels the try block reads from the renamed product frame. */
  const ProductLabels: seq<string> := ["store_name", "unit_price", "cost_price", "nk_product_id"]

  /**
   * The transform builds a frame exactly when the store frame has both key
   * columns and the renamed products have the four labels it reads; the
   * output then carries the product labels followed by `sk_store_branch`.
   * Otherwise it raises a KeyError naming a missing label.
   */
  lemma TransformOutcome(f: Frame, sb: Frame)
    ensures var renamed := Rename(f, Renames);
      var a := Transform(Some(f), Some(sb));
      && (a.Built? <==> (forall c | c in StoreKeys :: c in sb.columns) && forall c | c in ProductLabels :: c in renamed.columns)
      && (a.Built? ==> a.frame.columns == renamed.columns + ["sk_store_branch"])
      && (a.Broke? ==> exists c :: (c !in sb.columns || c !in renamed.columns) && a.error == KeyError(c))
  {
    var renamed := Rename(f, Renames);
    var a := Transform(Some(f), Some(sb));
    if exists c | c in StoreKeys :: c !in sb.columns {
      StoreKeysRequired(f, sb);
    } else if "store_name" !in renamed.columns {
      assert a == Broke(KeyError("store_name"), Some(renamed));
    } else {
      JoinSucceeds(f, sb);
      var merged := MergeFrom(renamed, Some(sb), StoreKeys, "store_name").value;
      assert a == Clean(merged);
      CleanOutcome(merged);
      assert merged.columns == renamed.columns + ["sk_store_branch"];
      assert "unit_price" in merged.columns <==> "unit_price" in renamed.columns;
      assert "cost_price" in merged.columns <==> "cost_price" in renamed.columns;
      assert "nk_product_id" in merged.columns <==> "nk_product_id" in renamed.columns;
    }
  }

  /** `Clean` builds a frame exactly when both prices and the product key are columns, and otherwise names the missing one. */
  lemma CleanOutcome(merged: Frame)
    ensures Clean(merged).Built? <==> forall c | c in ["unit_price", "cost_price", "nk_product_id"] :: c in merged.columns
    ensures Clean(merged).Built? ==> Clean(merged).frame.columns == merged.columns
    ensures Clean(merged).Broke? ==> exists c :: c !in merged.columns && Clean(merged).error == KeyError(c)
  {
    if "unit_price" in merged.columns {
      var m1 := Apply(merged, "unit_price", CleanPrice).value;
      if "cost_price" in merged.columns {
        var m2 := Apply(m1, "cost_price", CleanPrice).value;
        assert m2.columns == merged.columns;
      }
    }
  }

  /**
   * What one output row says about the product row `x` it came from: `x` has
   * a product key, every non-price cell of `x` is kept, both prices are
   * `CleanPrice` of the old cells, and `sk_store_branch` is what the store
   * frame gives `x`'s store name.
   */
  ghost predicate ProductRow(cols: seq<string>, sb: Frame, x: Row, r: Row) {
    && Lookup(cols, x, "nk_product_id") != Null
    && (forall d | d in cols && d != "unit_price" && d != "cost_price" ::
          Lookup(cols + ["sk_store_branch"], r, d) == Lookup(cols, x, d))
    && Lookup(cols + ["sk_store_branch"], r, "unit_price") == CleanPrice(Lookup(cols, x, "unit_price"))
    && Lookup(cols + ["sk_store_branch"], r, "cost_price") == CleanPrice(Lookup(cols, x, "cost_price"))
    && StoreMatched(sb, Lookup(cols, x, "store_name"), Lookup(cols + ["sk_store_branch"], r, "sk_store_branch"))
  }

  lemma ProductRowFrom(cols: seq<string>, sb: Frame, x: Row, m: Row, r: Row)
    requires |x| == |cols| && Extends(m, x) && |m| == |x| + 1
    requires "sk_store_branch" !in cols && forall c | c in ProductLabels :: c in cols
    requires Repriced(cols + ["sk_store_branch"], m, r)
    requires Lookup(cols + ["sk_store_branch"], m, "nk_product_id") != Null
    requires StoreMatched(sb, Lookup(cols, x, "store_name"), Lookup(cols + ["sk_store_branch"], m, "sk_store_branch"))
    ensures ProductRow(cols, sb, x, r)
  {
    var out := cols + ["sk_store_branch"];
    forall d | d in cols
      ensures Lookup(out, m, d) == Lookup(cols, x, d)
    {
      ExtendsLookup(cols, ["sk_store_branch"], m, x, d);
    }
    assert |m| == |out|;
    assert Lookup(cols, x, "nk_product_id") != Null;
    assert forall d | d in cols && d != "unit_price" && d != "cost_price" :: Lookup(out, r, d) == Lookup(cols, x, d);
    assert Lookup(out, r, "unit_price") == CleanPrice(Lookup(cols, x, "unit_price"));
    assert Lookup(out, r, "cost_price") == CleanPrice(Lookup(cols, x, "cost_price"));
    RepricedKeeps(out, m, r, "sk_store_branch");
    assert StoreMatched(sb, Lookup(cols, x, "store_name"), Lookup(out, r, "sk_store_branch"));
  }

  /** Every output row comes from one keyed product row, as `ProductRow` says. */
  lemma TransformRowsFromProducts(f: Frame, sb: Frame, r: Row)
    requires Transform(Some(f), Some(sb)).Built?
    requires Rectangular(f) && "sk_store_branch" !in Rename(f, Renames).columns
    requires r in Transform(Some(f), Some(sb)).frame.rows
    ensures exists x | x in f.rows :: ProductRow(Rename(f, Renames).columns, sb, x, r)
  {
    var renamed := Rename(f, Renames);
    TransformOutcome(f, sb);
    JoinSucceeds(f, sb);
    var merged := MergeFrom(renamed, Some(sb), StoreKeys, "store_name").value;
    assert Transform(Some(f), Some(sb)) == Clean(merged);
    CleanSpec(merged);
    var ps := Positions(merged.rows, Complete(merged.columns, ["nk_product_id"]));
    var out := Clean(merged).frame;
    var k :| 0 <= k < |out.rows| && out.rows[k] == r;
    var m := merged.rows[ps[k]];
    assert Complete(merged.columns, ["nk_product_id"])(m);
    CompleteOne(merged.columns, "nk_product_id", m);
    StoreJoinFromBranches(f, sb, m);
    var x :| x in f.rows && Extends(m, x) && |m| == |x| + 1 &&
      StoreMatched(sb, Lookup(renamed.columns, x, "store_name"), Lookup(renamed.columns + ["sk_store_branch"], m, "sk_store_branch"));
    assert merged.columns == renamed.columns + ["sk_store_branch"];
    assert Repriced(merged.columns, m, r);
    assert Lookup(merged.columns, m, "nk_product_id") != Null;
    assert forall c | c in ProductLabels :: c in renamed.columns;
    ProductRowFrom(renamed.columns, sb, x, m, r);
  }

  /** Every keyed product row reaches the output, as `ProductRow` says. */
  lemma TransformKeepsKeyedProducts(f: Frame, sb: Frame, x: Row)
    requires Transform(Some(f), Some(sb)).Built?
    requires Rectangular(f) && "sk_store_branch" !in Rename(f, Renames).columns
    requires x in f.rows && Lookup(Rename(f, Renames).columns, x, "nk_product_id") != Null
    ensures exists r | r in Transform(Some(f), Some(sb)).frame.rows :: ProductRow(Rename(f, Renames).columns, sb, x, r)
  {
    var renamed := Rename(f, Renames);
    TransformOutcome(f, sb);
    StoreJoinKeepsEveryProduct(f, sb);
    JoinSucceeds(f, sb);
    var merged := MergeFrom(renamed, Some(sb), StoreKeys, "store_name").value;
    assert Transform(Some(f), Some(sb)) == Clean(merged);
    var m :| m in merged.rows && Extends(m, x);
    StoreJoinFromBranches(f, sb, m);
    var x' :| x' in f.rows && Extends(m, x') && |m| == |x'| + 1 &&
      StoreMatched(sb, Lookup(renamed.columns, x', "store_name"), Lookup(renamed.columns + ["sk_store_branch"], m, "sk_store_branch"));
    assert x' == m[..|x'|] == x;
    ExtendsLookup(renamed.columns, ["sk_store_branch"], m, x, "nk_product_id");
    assert merged.columns == renamed.columns + ["sk_store_branch"];
    KeyedRowKept(merged, m);
    var r :| r in Clean(merged).frame.rows && Repriced(merged.columns, m, r);
    ProductRowFrom(renamed.columns, sb, x, m, r);
  }

  /** A joined row with a product key reaches the output of `Clean`, repriced. */
  lemma KeyedRowKept(merged: Frame, m: Row)
    requires Clean(merged).Built?
    requires m in merged.rows && Lookup(merged.columns, m, "nk_product_id") != Null
    ensures exists r | r in Clean(merged).frame.rows :: Repriced(merged.columns, m, r)
  {
    CompleteOne(merged.columns, "nk_product_id", m);
    CleanSpec(merged);
    var ps := Positions(merged.rows, Complete(merged.columns, ["nk_product_id"]));
    var j :| 0 <= j < |merged.rows| && merged.rows[j] == m;
    assert j in ps;
    var k :| 0 <= k < |ps| && ps[k] == j;
    var r := Clean(merged).frame.rows[k];
    assert Repriced(merged.columns, m, r);
    assert r in Clean(merged).frame.rows;
  }

  /**
   * transform_dim_products on full-width product rows without a
   * `sk_store_branch` column of their own: the output rows are the keyed
   * product rows, each at least once, each repriced and given the store key
   * of a store with its name (null when none has it).
   */
  lemma TransformSpec(f: Frame, sb: Frame)
    requires Transform(Some(f), Some(sb)).Built?
    requires Rectangular(f) && "sk_store_branch" !in Rename(f, Renames).columns
    ensures var out := Transform(Some(f), Some(sb)).frame;
      var cols := Rename(f, Renames).columns;
      && (forall r | r in out.rows :: exists x | x in f.rows :: ProductRow(cols, sb, x, r))
      && forall x | x in f.rows && Lookup(cols, x, "nk_product_id") != Null ::
           exists r | r in out.rows :: ProductRow(cols, sb, x, r)
  {
    forall r | r in Transform(Some(f), Some(sb)).frame.rows
      ensures exists x | x in f.rows :: ProductRow(Rename(f, Renames).columns, sb, x, r)
    {
      TransformRowsFromProducts(f, sb, r);
    }
    forall x | x in f.rows && Lookup(Rename(f, Renames).columns, x, "nk_product_id") != Null
      ensures exists r | r in Transform(Some(f), Some(sb)).frame.rows :: ProductRow(Rename(f, Renames).columns, sb, x, r)
    {
      TransformKeepsKeyedProducts(f, sb, x);
    }
  }

  /** transform_dim_products: the try block, then the shared except/finally bookkeeping. */
  method TransformDimProducts(s: Stores, data: Option<Frame>, stores: Option<Frame>, now: DateTime)
    returns (o: Call<Option<Frame>>)
    requires s.Valid()
    modifies s`log, s`buckets, s`deadLetters
    ensures s.Valid()
    ensures o == Outcome(s, Transform(data, stores))
    ensures s.log == old(s.log) + s.Logged(TransformEvent(Table, Transform(data, stores), now))
    ensures Transform(data, stores).Built? ==> s.buckets == old(s.buckets) && s.deadLetters == old(s.deadLetters)
    ensures Transform(data, stores).Broke? ==> s.buckets == old(s.buckets) + (if s.sinkUp then {Bucket} else {})
    ensures Transform(data, stores).Broke? ==> (s.deadLetters == old(s.deadLetters) +
      s.Parked(Transform(data, stores).partial, Bucket, ObjectName("warehouse", "transformation", Table, now)))
  {
    var a := Transform(data, stores);
    o := Finish(s, a, Table, Bucket, now);
  }
}
