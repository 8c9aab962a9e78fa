/**
 * The table operations the transforms compose, with the semantics of the
 * pandas calls they stand for: `rename(columns=...)`, `df[[...]]`,
 * `df[~df[c].isin(...)]`, `dropna(subset=...)`, `drop_duplicates(subset=[c])`
 * (keep the first), `merge(..., on=c, how='left')`, `df[c] = df[c].apply(g)`
 * and `set_index(c)`. A label that is not a column raises a KeyError, which is
 * a `Failure` here.
 */
module Frames {
  import opened Wrappers
  import opened Timestamps

  /** One cell. `Null` stands for both None and NaN. */
  datatype Cell = Null | Text(text: string) | Int(n: int) | Time(at: DateTime)

  type Row = seq<Cell>

  /** A DataFrame: column labels in order, and rows of positional cells. */
  datatype Frame = Frame(columns: seq<string>, rows: seq<Row>)

  /** Every row has exactly one cell per column, as in any DataFrame. */
  predicate Rectangular(f: Frame) {
    forall r | r in f.rows :: |r| == |f.columns|
  }

  /** The exceptions the modelled code can raise. */
  datatype Error =
    | KeyError(column: string)        // a label that is not a column
    | NoneInput                       // attribute or item access on None
    | TypeError(detail: string)       // a call with the wrong number of arguments
    | ValueError(detail: string)      // a value that cannot be converted
    | ConnectionError(store: string)  // a database or the object store is unreachable
    | UndefinedTable(name: string)    // the staging query names a table that does not exist
    | KeyConstraint(column: string)   // a null or repeated value in the upsert key

  /** The cell at position `i`, Null past the end of a short row. */
  function At(r: Row, i: nat): Cell {
    if i < |r| then r[i] else Null
  }

  function Init<T>(s: seq<T>): seq<T>
    requires s != []
  {
    s[..|s| - 1]
  }

  function Last<T>(s: seq<T>): T
    requires s != []
  {
    s[|s| - 1]
  }

  /** `a` is `b` with some elements removed, the rest in their original order. */
  predicate Subseq<T(==)>(a: seq<T>, b: seq<T>)
    decreases |b|
  {
    a == [] ||
    (b != [] && ((Last(a) == Last(b) && Subseq(Init(a), Init(b))) || Subseq(a, Init(b))))
  }

  lemma {:induction false} SubseqElements<T>(a: seq<T>, b: seq<T>)
    requires Subseq(a, b)
    ensures forall x :: x in a ==> x in b
    decreases |b|
  {
    if a != [] {
      if Last(a) == Last(b) && Subseq(Init(a), Init(b)) {
        SubseqElements(Init(a), Init(b));
        assert a == Init(a) + [Last(a)];
        assert b == Init(b) + [Last(b)];
      } else {
        SubseqElements(a, Init(b));
        assert b == Init(b) + [Last(b)];
      }
    }
  }

  lemma {:induction false} SubseqLength<T>(a: seq<T>, b: seq<T>)
    requires Subseq(a, b)
    ensures |a| <= |b|
    decreases |b|
  {
    if a != [] {
      if Last(a) == Last(b) && Subseq(Init(a), Init(b)) {
        SubseqLength(Init(a), Init(b));
      } else {
        SubseqLength(a, Init(b));
      }
    }
  }

  /** Removing elements twice is removing elements once. */
  lemma {:induction false} SubseqTransitive<T>(a: seq<T>, b: seq<T>, c: seq<T>)
    requires Subseq(a, b) && Subseq(b, c)
    ensures Subseq(a, c)
    decreases |c|
  {
    if a != [] {
      if Subseq(b, Init(c)) {
        SubseqTransitive(a, b, Init(c));
      } else if Last(a) == Last(b) && Subseq(Init(a), Init(b)) {
        SubseqTransitive(Init(a), Init(b), Init(c));
      } else {
        SubseqTransitive(a, Init(b), Init(c));
      }
    }
  }

  // ---------------------------------------------------------------------------
  // Column lookup
  // ---------------------------------------------------------------------------

  /** Position of the first column labelled `c`. */
  function IndexOf(cols: seq<string>, c: string): (r: Option<nat>)
    ensures r.None? <==> c !in cols
    ensures r.Some? ==> r.value < |cols| && cols[r.value] == c && c !in cols[..r.value]
  {
    if cols == [] then None
    else if cols[0] == c then Some(0)
    else match IndexOf(cols[1..], c)
      case None => None
      case Some(i) =>
        assert cols[..i + 1] == [cols[0]] + cols[1..][..i];
        Some(i + 1)
  }

  /** `df[c]`: the position of column `c`, or KeyError. */
  function Column(f: Frame, c: string): (r: Result<nat, Error>)
    ensures r.Failure? <==> c !in f.columns
    ensures r.Failure? ==> r.error == KeyError(c)
    ensures r.Success? ==> r.value < |f.columns| && f.columns[r.value] == c && IndexOf(f.columns, c) == Some(r.value)
  {
    match IndexOf(f.columns, c)
    case None => Failure(KeyError(c))
    case Some(i) => Success(i)
  }

  /** The positions of several columns; the first missing label raises. */
  function Columns(f: Frame, cs: seq<string>): (r: Result<seq<nat>, Error>)
    ensures r.Success? <==> forall c | c in cs :: c in f.columns
    ensures r.Failure? ==> exists c | c in cs :: c !in f.columns && r.error == KeyError(c)
    ensures r.Success? ==> (|r.value| == |cs| &&
      forall j | 0 <= j < |cs| :: r.value[j] < |f.columns| && IndexOf(f.columns, cs[j]) == Some(r.value[j]))
  {
    if cs == [] then Success([])
    else match Column(f, cs[0])
      case Failure(e) => Failure(e)
      case Success(i) =>
        match Columns(f, cs[1..])
        case Failure(e) => Failure(e)
        case Success(rest) => Success([i] + rest)
  }

  /** The cell of column `c` in row `r`, Null when there is no such column. */
  function Lookup(cols: seq<string>, r: Row, c: string): Cell {
    match IndexOf(cols, c)
    case None => Null
    case Some(i) => At(r, i)
  }

  // ---------------------------------------------------------------------------
  // rename(columns=m)
  // ---------------------------------------------------------------------------

  function Relabel(m: map<string, string>, c: string): string {
    if c in m then m[c] else c
  }

  function RelabelAll(m: map<string, string>, cols: seq<string>): (r: seq<string>)
    ensures |r| == |cols|
    ensures forall i | 0 <= i < |cols| :: r[i] == Relabel(m, cols[i])
  {
    if cols == [] then [] else [Relabel(m, cols[0])] + RelabelAll(m, cols[1..])
  }

  /** `rename(columns=m)`: only labels change; every cell stays where it was. */
  function Rename(f: Frame, m: map<string, string>): (r: Frame)
    ensures r.rows == f.rows
    ensures |r.columns| == |f.columns|
    ensures forall i | 0 <= i < |f.columns| :: r.columns[i] == Relabel(m, f.columns[i])
  {
    Frame(RelabelAll(m, f.columns), f.rows)
  }

  /** A label that the map renames, and that no label is renamed to, is gone afterwards. */
  lemma RenamedAway(f: Frame, m: map<string, string>, c: string)
    requires c in m && c !in m.Values
    ensures c !in Rename(f, m).columns
  {
    var r := Rename(f, m);
    forall i | 0 <= i < |r.columns|
      ensures r.columns[i] != c
    {
      if f.columns[i] in m {
        assert m[f.columns[i]] in m.Values;
      }
    }
  }

  /** A column survives a rename under its new label. */
  lemma RenamedTo(f: Frame, m: map<string, string>, c: string)
    requires c in f.columns
    ensures Relabel(m, c) in Rename(f, m).columns
  {
    var i :| 0 <= i < |f.columns| && f.columns[i] == c;
    assert Rename(f, m).columns[i] == Relabel(m, c);
  }

  /** A label is present after renaming exactly when some label before was renamed to it. */
  lemma RenamedLabels(f: Frame, m: map<string, string>, c: string)
    ensures c in Rename(f, m).columns <==> exists d | d in f.columns :: Relabel(m, d) == c
  {
    var r := Rename(f, m);
    if c in r.columns {
      var i :| 0 <= i < |r.columns| && r.columns[i] == c;
      assert f.columns[i] in f.columns;
    }
    if exists d | d in f.columns :: Relabel(m, d) == c {
      var d :| d in f.columns && Relabel(m, d) == c;
      RenamedTo(f, m, d);
    }
  }

  /** When `c` is the one label of `cols` relabelled to `d`, `d` is found where `c` was. */
  lemma {:induction false} IndexOfRelabel(m: map<string, string>, cols: seq<string>, c: string, d: string)
    requires forall e | e in cols :: Relabel(m, e) == d <==> e == c
    ensures IndexOf(RelabelAll(m, cols), d) == IndexOf(cols, c)
    decreases |cols|
  {
    if cols != [] {
      IndexOfRelabel(m, cols[1..], c, d);
      assert RelabelAll(m, cols)[1..] == RelabelAll(m, cols[1..]);
    }
  }

  /** Looking up the new label after a rename reads the cell the old label read before. */
  lemma RenameLookup(f: Frame, m: map<string, string>, c: string, d: string)
    requires forall e | e in f.columns :: Relabel(m, e) == d <==> e == c
    ensures forall x :: Lookup(Rename(f, m).columns, x, d) == Lookup(f.columns, x, c)
  {
    IndexOfRelabel(m, f.columns, c, d);
  }

  /** Two maps that relabel every label alike rename every frame alike. */
  lemma RenameAgrees(f: Frame, m1: map<string, string>, m2: map<string, string>)
    requires forall d :: Relabel(m1, d) == Relabel(m2, d)
    ensures Rename(f, m1) == Rename(f, m2)
  {
  }

  /** A label that is neither renamed nor a rename target is present afterwards exactly when before. */
  lemma RenameKeeps(f: Frame, m: map<string, string>, c: string)
    requires c !in m && c !in m.Values
    ensures c in Rename(f, m).columns <==> c in f.columns
  {
    var r := Rename(f, m);
    if c in f.columns {
      RenamedTo(f, m, c);
    }
    forall i | 0 <= i < |r.columns|
      ensures r.columns[i] != c || f.columns[i] == c
    {
      if f.columns[i] in m {
        assert m[f.columns[i]] in m.Values;
      }
    }
  }

  // ---------------------------------------------------------------------------
  // Row filters: boolean indexing and dropna
  // ---------------------------------------------------------------------------

  /** The rows satisfying `keep`, in their original order. */
  function Where(rows: seq<Row>, keep: Row -> bool): (r: seq<Row>)
    ensures forall x :: x in r <==> x in rows && keep(x)
    ensures forall x :: multiset(r)[x] == if keep(x) then multiset(rows)[x] else 0
    ensures Subseq(r, rows)
    decreases |rows|
  {
    if rows == [] then []
    else
      var w := Where(Init(rows), keep);
      assert rows == Init(rows) + [Last(rows)];
      assert multiset(rows) == multiset(Init(rows)) + multiset{Last(rows)};
      if keep(Last(rows)) then w + [Last(rows)] else w
  }

  /** `df[~df[c].isin(values)]`: drop the rows whose `c` cell is one of `values`. */
  function WhereNotIn(f: Frame, c: string, values: set<Cell>): (r: Result<Frame, Error>)
    ensures r.Failure? <==> c !in f.columns
    ensures r.Failure? ==> r.error == KeyError(c)
    ensures r.Success? ==> r.value.columns == f.columns && Subseq(r.value.rows, f.rows)
    ensures r.Success? ==> forall x :: x in r.value.rows <==> x in f.rows && Lookup(f.columns, x, c) !in values
  {
    match Column(f, c)
    case Failure(e) => Failure(e)
    case Success(i) =>
      assert forall x :: Lookup(f.columns, x, c) == At(x, i);
      Success(Frame(f.columns, Where(f.rows, (r: Row) => At(r, i) !in values)))
  }

  /** `isin` filtering keeps each surviving row as often as the input holds it. */
  lemma WhereNotInCounts(f: Frame, c: string, values: set<Cell>)
    ensures var r := WhereNotIn(f, c, values);
      r.Success? ==> forall x :: multiset(r.value.rows)[x] ==
                                 if Lookup(f.columns, x, c) !in values then multiset(f.rows)[x] else 0
  {
    if c in f.columns {
      var i := Column(f, c).value;
      assert forall x :: Lookup(f.columns, x, c) == At(x, i);
    }
  }

  /** The row test `dropna(subset=cs)` keeps: no cell under the labels `cs` is null. */
  function Complete(cols: seq<string>, cs: seq<string>): Row -> bool {
    (x: Row) => forall c | c in cs :: Lookup(cols, x, c) != Null
  }

  lemma CompleteOne(cols: seq<string>, c: string, x: Row)
    ensures Complete(cols, [c])(x) <==> Lookup(cols, x, c) != Null
  {
    assert forall d | d in [c] :: d == c;
  }

  /** `dropna(subset=cs)`: drop the rows with a null in any of the columns `cs`. */
  function DropNa(f: Frame, cs: seq<string>): (r: Result<Frame, Error>)
    ensures r.Success? <==> forall c | c in cs :: c in f.columns
    ensures r.Failure? ==> exists c | c in cs :: c !in f.columns && r.error == KeyError(c)
    ensures r.Success? ==> r.value.columns == f.columns && Subseq(r.value.rows, f.rows)
    ensures r.Success? ==> forall x :: x in r.value.rows <==>
      x in f.rows && forall c | c in cs :: Lookup(f.columns, x, c) != Null
  {
    match Columns(f, cs)
    case Failure(e) => Failure(e)
    case Success(_) => Success(Frame(f.columns, Where(f.rows, Complete(f.columns, cs))))
  }

  /** `dropna` keeps each complete row as often as the input holds it. */
  lemma DropNaCounts(f: Frame, cs: seq<string>)
    ensures var r := DropNa(f, cs);
      r.Success? ==> forall x :: multiset(r.value.rows)[x] ==
                                 if forall c | c in cs :: Lookup(f.columns, x, c) != Null then multiset(f.rows)[x] else 0
  {
  }

  /** The positions of the rows satisfying `keep`, ascending. */
  function Positions(rows: seq<Row>, keep: Row -> bool): (ps: seq<nat>)
    ensures forall k | 0 <= k < |ps| :: ps[k] < |rows| && keep(rows[ps[k]])
    ensures forall j | 0 <= j < |rows| && keep(rows[j]) :: j in ps
    ensures forall k, l | 0 <= k < l < |ps| :: ps[k] < ps[l]
    decreases |rows|
  {
    if rows == [] then []
    else
      var ps := Positions(Init(rows), keep);
      assert forall j | 0 <= j < |rows| - 1 :: rows[j] == Init(rows)[j];
      ps + if keep(Last(rows)) then [|rows| - 1] else []
  }

  /** `Where` keeps, in order, exactly the rows at `Positions`. */
  lemma {:induction false} WherePositions(rows: seq<Row>, keep: Row -> bool)
    ensures |Where(rows, keep)| == |Positions(rows, keep)|
    ensures forall k | 0 <= k < |Positions(rows, keep)| :: Where(rows, keep)[k] == rows[Positions(rows, keep)[k]]
    decreases |rows|
  {
    if rows != [] {
      WherePositions(Init(rows), keep);
      WherePositionsStep(rows, keep, Where(Init(rows), keep), Positions(Init(rows), keep));
    }
  }

  lemma WherePositionsStep(rows: seq<Row>, keep: Row -> bool, w: seq<Row>, ps: seq<nat>)
    requires rows != [] && w == Where(Init(rows), keep) && ps == Positions(Init(rows), keep)
    requires |w| == |ps| && forall k | 0 <= k < |ps| :: w[k] == Init(rows)[ps[k]]
    ensures |Where(rows, keep)| == |Positions(rows, keep)|
    ensures forall k | 0 <= k < |Positions(rows, keep)| :: Where(rows, keep)[k] == rows[Positions(rows, keep)[k]]
  {
    var n := |rows| - 1;
    assert forall k | 0 <= k < |ps| :: ps[k] < n && w[k] == rows[ps[k]] by {
      forall k | 0 <= k < |ps|
        ensures ps[k] < n && w[k] == rows[ps[k]]
      {
        assert Init(rows)[ps[k]] == rows[ps[k]];
      }
    }
    if keep(Last(rows)) {
      assert Where(rows, keep) == w + [rows[n]];
      assert Positions(rows, keep) == ps + [n];
      PositionsExtend(rows, w, ps, w + [rows[n]], ps + [n]);
    } else {
      assert Where(rows, keep) == w;
      assert Positions(rows, keep) == ps;
      PositionsExtend(rows, w, ps, w, ps);
    }
  }

  lemma PositionsExtend(rows: seq<Row>, w: seq<Row>, ps: seq<nat>, w': seq<Row>, ps': seq<nat>)
    requires rows != [] && |w| == |ps|
    requires forall k | 0 <= k < |ps| :: ps[k] < |rows| - 1 && w[k] == rows[ps[k]]
    requires (w' == w + [rows[|rows| - 1]] && ps' == ps + [|rows| - 1]) || (w' == w && ps' == ps)
    ensures |w'| == |ps'| && forall k | 0 <= k < |ps'| :: w'[k] == rows[ps'[k]]
  {
  }

  /** Two row lists of one length whose tests agree row by row keep the same positions. */
  lemma {:induction false} PositionsAgree(a: seq<Row>, ka: Row -> bool, b: seq<Row>, kb: Row -> bool)
    requires |a| == |b| && forall j | 0 <= j < |a| :: ka(a[j]) == kb(b[j])
    ensures Positions(a, ka) == Positions(b, kb)
    decreases |a|
  {
    if a != [] {
      assert forall j | 0 <= j < |a| - 1 :: Init(a)[j] == a[j] && Init(b)[j] == b[j];
      PositionsAgree(Init(a), ka, Init(b), kb);
    }
  }

  /** `dropna` keeps, in order, exactly the rows at the complete positions, unaltered. */
  lemma DropNaPositions(f: Frame, cs: seq<string>)
    requires DropNa(f, cs).Success?
    ensures var out := DropNa(f, cs).value.rows;
      var ps := Positions(f.rows, Complete(f.columns, cs));
      |out| == |ps| && forall k | 0 <= k < |ps| :: out[k] == f.rows[ps[k]]
  {
    WherePositions(f.rows, Complete(f.columns, cs));
  }

  // ---------------------------------------------------------------------------
  // drop_duplicates(subset=[c]) with keep='first'
  // ---------------------------------------------------------------------------

  /** The values the rows hold at position `k`. */
  function Keys(rows: seq<Row>, k: nat): (r: set<Cell>)
    ensures forall i | 0 <= i < |rows| :: At(rows[i], k) in r
    ensures forall x | x in r :: exists i | 0 <= i < |rows| :: At(rows[i], k) == x
    decreases |rows|
  {
    if rows == [] then {}
    else
      var ks := Keys(Init(rows), k);
      assert forall i | 0 <= i < |rows| - 1 :: rows[i] == Init(rows)[i];
      ks + {At(Last(rows), k)}
  }

  /** No two rows share a value at position `k`. */
  predicate UniqueKeys(rows: seq<Row>, k: nat) {
    forall i, j | 0 <= i < j < |rows| :: At(rows[i], k) != At(rows[j], k)
  }

  /** Keeps each row whose key has not been seen in an earlier row. */
  function Dedupe(rows: seq<Row>, k: nat): (d: seq<Row>)
    ensures Subseq(d, rows)
    ensures Keys(d, k) == Keys(rows, k)
    ensures UniqueKeys(d, k)
    decreases |rows|
  {
    if rows == [] then []
    else
      var d := Dedupe(Init(rows), k);
      if At(Last(rows), k) in Keys(Init(rows), k) then d
      else
        assert Init(d + [Last(rows)]) == d;
        d + [Last(rows)]
  }

  /** The earliest row whose key is `x`. */
  function FirstWithKey(rows: seq<Row>, k: nat, x: Cell): (r: Row)
    requires x in Keys(rows, k)
    ensures r in rows && At(r, k) == x
    decreases |rows|
  {
    if x in Keys(Init(rows), k) then FirstWithKey(Init(rows), k, x) else Last(rows)
  }

  /** No row before position `j` carries the key row `j` carries. */
  ghost predicate FirstOfKey(rows: seq<Row>, j: nat, k: nat)
    requires j < |rows|
  {
    forall i | 0 <= i < j :: At(rows[i], k) != At(rows[j], k)
  }

  /** The earliest row with a key sits at a position no earlier row shares that key. */
  lemma {:induction false} FirstWithKeyIndex(rows: seq<Row>, k: nat, x: Cell)
    requires x in Keys(rows, k)
    ensures exists j | 0 <= j < |rows| :: rows[j] == FirstWithKey(rows, k, x) && FirstOfKey(rows, j, k)
    decreases |rows|
  {
    var init := Init(rows);
    assert forall i | 0 <= i < |init| :: init[i] == rows[i];
    if x in Keys(init, k) {
      FirstWithKeyIndex(init, k, x);
      var j :| 0 <= j < |init| && init[j] == FirstWithKey(init, k, x) && FirstOfKey(init, j, k);
      assert FirstOfKey(rows, j, k);
    } else {
      var j := |rows| - 1;
      assert rows[j] == Last(rows);
      forall i | 0 <= i < j ensures At(rows[i], k) != At(rows[j], k) {
        assert At(init[i], k) in Keys(init, k);
      }
    }
  }

  /** The row kept for a key is the first row carrying it. */
  lemma {:induction false} DedupeKeepsFirst(rows: seq<Row>, k: nat)
    ensures forall i | 0 <= i < |Dedupe(rows, k)| ::
      Dedupe(rows, k)[i] == FirstWithKey(rows, k, At(Dedupe(rows, k)[i], k))
    decreases |rows|
  {
    if rows != [] {
      DedupeKeepsFirst(Init(rows), k);
      var d0 := Dedupe(Init(rows), k);
      var d := Dedupe(rows, k);
      forall i | 0 <= i < |d|
        ensures d[i] == FirstWithKey(rows, k, At(d[i], k))
      {
        if i < |d0| {
          assert d[i] == d0[i];
          assert At(d0[i], k) in Keys(d0, k);
        }
      }
    }
  }

  /** Every row drop_duplicates keeps sits where no earlier row shares its key. */
  lemma DedupeFirstPositions(rows: seq<Row>, k: nat)
    ensures forall x | x in Dedupe(rows, k) :: exists j | 0 <= j < |rows| :: rows[j] == x && FirstOfKey(rows, j, k)
  {
    var d := Dedupe(rows, k);
    DedupeKeepsFirst(rows, k);
    forall x | x in d
      ensures exists j | 0 <= j < |rows| :: rows[j] == x && FirstOfKey(rows, j, k)
    {
      var i :| 0 <= i < |d| && d[i] == x;
      assert At(x, k) in Keys(d, k);
      FirstWithKeyIndex(rows, k, At(x, k));
    }
  }

  /** Rows that already have unique keys pass through unchanged. */
  lemma {:induction false} DedupeUnique(rows: seq<Row>, k: nat)
    requires UniqueKeys(rows, k)
    ensures Dedupe(rows, k) == rows
    decreases |rows|
  {
    if rows != [] {
      forall i, j | 0 <= i < j < |Init(rows)|
        ensures At(Init(rows)[i], k) != At(Init(rows)[j], k)
      {
        assert Init(rows)[i] == rows[i] && Init(rows)[j] == rows[j];
      }
      DedupeUnique(Init(rows), k);
      forall i | 0 <= i < |Init(rows)|
        ensures At(Init(rows)[i], k) != At(Last(rows), k)
      {
        assert Init(rows)[i] == rows[i];
      }
      assert At(Last(rows), k) !in Keys(Init(rows), k);
      assert Dedupe(rows, k) == Dedupe(Init(rows), k) + [Last(rows)];
      assert rows == Init(rows) + [Last(rows)];
    }
  }

  /** With unique keys, the first row carrying a key is the only one. */
  lemma FirstWithKeyUnique(rows: seq<Row>, k: nat, i: nat)
    requires UniqueKeys(rows, k) && i < |rows|
    ensures FirstWithKey(rows, k, At(rows[i], k)) == rows[i]
  {
    DedupeUnique(rows, k);
    DedupeKeepsFirst(rows, k);
  }

  /** Two row sequences that agree position by position on column `k` hold the same keys. */
  lemma KeysAgree(a: seq<Row>, b: seq<Row>, k: nat)
    requires |a| == |b|
    requires forall j | 0 <= j < |a| :: At(a[j], k) == At(b[j], k)
    ensures Keys(a, k) == Keys(b, k)
  {
    forall x | x in Keys(a, k) ensures x in Keys(b, k) {
      var j :| 0 <= j < |a| && At(a[j], k) == x;
    }
    forall x | x in Keys(b, k) ensures x in Keys(a, k) {
      var j :| 0 <= j < |b| && At(b[j], k) == x;
    }
  }

  /** `drop_duplicates(subset=[c])`: the first row for each value of `c` survives. */
  function DropDuplicates(f: Frame, c: string): (r: Result<Frame, Error>)
    ensures r.Failure? <==> c !in f.columns
    ensures r.Success? ==> r.value.columns == f.columns
  {
    match Column(f, c)
    case Failure(e) => Failure(e)
    case Success(k) => Success(Frame(f.columns, Dedupe(f.rows, k)))
  }

  /** Everything drop_duplicates promises, for one key column. */
  lemma DropDuplicatesSpec(f: Frame, c: string)
    requires c in f.columns
    ensures DropDuplicates(f, c).Success?
    ensures var k := IndexOf(f.columns, c).value;
      var d := DropDuplicates(f, c).value.rows;
      && UniqueKeys(d, k)
      && Keys(d, k) == Keys(f.rows, k)
      && Subseq(d, f.rows)
      && (forall i | 0 <= i < |d| :: d[i] == FirstWithKey(f.rows, k, At(d[i], k)))
      && Dedupe(d, k) == d
  {
    var k := IndexOf(f.columns, c).value;
    assert DropDuplicates(f, c).value.rows == Dedupe(f.rows, k);
    DedupeKeepsFirst(f.rows, k);
    DedupeUnique(Dedupe(f.rows, k), k);
  }

  /** Deduplicating twice is deduplicating once. */
  lemma DropDuplicatesIdempotent(f: Frame, c: string)
    requires c in f.columns
    ensures DropDuplicates(DropDuplicates(f, c).value, c) == DropDuplicates(f, c)
  {
    var k := IndexOf(f.columns, c).value;
    DedupeUnique(Dedupe(f.rows, k), k);
  }

  // ---------------------------------------------------------------------------
  // df[[c1, c2, ...]]
  // ---------------------------------------------------------------------------

  function Project(r: Row, idxs: seq<nat>): (p: Row)
    ensures |p| == |idxs|
    ensures forall j | 0 <= j < |idxs| :: p[j] == At(r, idxs[j])
  {
    seq(|idxs|, j requires 0 <= j < |idxs| => At(r, idxs[j]))
  }

  /** `df[cs]`: the listed columns, in the listed order. */
  function Select(f: Frame, cs: seq<string>): (r: Result<Frame, Error>)
    ensures r.Success? <==> forall c | c in cs :: c in f.columns
    ensures r.Failure? ==> exists c | c in cs :: c !in f.columns && r.error == KeyError(c)
    ensures r.Success? ==> r.value.columns == cs && |r.value.rows| == |f.rows| && Rectangular(r.value)
    ensures r.Success? ==> forall i, c | 0 <= i < |f.rows| && c in cs ::
                             Lookup(cs, r.value.rows[i], c) == Lookup(f.columns, f.rows[i], c)
  {
    match Columns(f, cs)
    case Failure(e) => Failure(e)
    case Success(idxs) =>
      Success(Frame(cs, seq(|f.rows|, i requires 0 <= i < |f.rows| => Project(f.rows[i], idxs))))
  }

  // ---------------------------------------------------------------------------
  // merge(right, on=c, how='left')
  // ---------------------------------------------------------------------------

  /** `s` without its element at position `i`. */
  function DropAt<T>(s: seq<T>, i: nat): (r: seq<T>)
    ensures i < |s| ==> |r| == |s| - 1
  {
    if i < |s| then s[..i] + s[i + 1..] else s
  }

  function Nulls(n: nat): (r: Row)
    ensures |r| == n && forall j | 0 <= j < n :: r[j] == Null
  {
    seq(n, j => Null)
  }

  /** `r` begins with the cells of `l`. */
  predicate Extends(r: Row, l: Row) {
    |l| <= |r| && r[..|l|] == l
  }

  /** The right rows whose key cell equals the left row's key cell. */
  function MatchingRows(l: Row, rights: seq<Row>, lk: nat, rk: nat): seq<Row> {
    Where(rights, (r: Row) => At(r, rk) == At(l, lk))
  }

  /** The output rows for one left row: one per match, or one padded with nulls. */
  function JoinRow(l: Row, rights: seq<Row>, lk: nat, rk: nat, pad: nat): (out: seq<Row>)
    ensures forall r | r in out :: Extends(r, l)
    ensures |out| == if MatchingRows(l, rights, lk, rk) == [] then 1 else |MatchingRows(l, rights, lk, rk)|
  {
    var ms := MatchingRows(l, rights, lk, rk);
    if ms == [] then
      assert (l + Nulls(pad))[..|l|] == l;
      [l + Nulls(pad)]
    else
      seq(|ms|, i requires 0 <= i < |ms| => l + DropAt(ms[i], rk))
  }

  function MergeRows(lefts: seq<Row>, rights: seq<Row>, lk: nat, rk: nat, pad: nat): (out: seq<Row>)
    decreases |lefts|
  {
    if lefts == [] then []
    else MergeRows(Init(lefts), rights, lk, rk, pad) + JoinRow(Last(lefts), rights, lk, rk, pad)
  }

  /** `left.merge(right, on=c, how='left')`; the key column appears once, from the left. */
  function LeftMerge(left: Frame, right: Frame, c: string): (r: Result<Frame, Error>)
    ensures r.Success? <==> c in left.columns && c in right.columns
    ensures r.Failure? ==> r.error == KeyError(c)
    ensures r.Success? ==> |left.columns| <= |r.value.columns| && r.value.columns[..|left.columns|] == left.columns
    ensures r.Success? ==> r.value.columns == left.columns + DropAt(right.columns, IndexOf(right.columns, c).value)
    ensures r.Success? ==>
      r.value.rows == MergeRows(left.rows, right.rows, IndexOf(left.columns, c).value, IndexOf(right.columns, c).value, |right.columns| - 1)
  {
    match Column(left, c)
    case Failure(e) => Failure(e)
    case Success(lk) =>
      match Column(right, c)
      case Failure(e) => Failure(e)
      case Success(rk) =>
        var cols := left.columns + DropAt(right.columns, rk);
        assert cols[..|left.columns|] == left.columns;
        Success(Frame(cols, MergeRows(left.rows, right.rows, lk, rk, |right.columns| - 1)))
  }

  /** A left join keeps every left row: each is extended by at least one output row, and every output row extends a left row. */
  lemma MergeKeepsLeft(lefts: seq<Row>, rights: seq<Row>, lk: nat, rk: nat, pad: nat)
    ensures |MergeRows(lefts, rights, lk, rk, pad)| >= |lefts|
    ensures forall l | l in lefts :: exists r | r in MergeRows(lefts, rights, lk, rk, pad) :: Extends(r, l)
    ensures forall r | r in MergeRows(lefts, rights, lk, rk, pad) :: exists l | l in lefts :: Extends(r, l)
  {
    MergeLength(lefts, rights, lk, rk, pad);
    forall i | 0 <= i < |lefts|
      ensures exists r | r in MergeRows(lefts, rights, lk, rk, pad) :: Extends(r, lefts[i])
    {
      MergeCoversLeft(lefts, rights, lk, rk, pad, i);
    }
    forall r | r in MergeRows(lefts, rights, lk, rk, pad)
      ensures exists l | l in lefts :: Extends(r, l)
    {
      MergeOrigin(lefts, rights, lk, rk, pad, r);
      var i :| 0 <= i < |lefts| && Extends(r, lefts[i]);
      assert lefts[i] in lefts;
    }
  }

  lemma {:induction false} MergeLength(lefts: seq<Row>, rights: seq<Row>, lk: nat, rk: nat, pad: nat)
    ensures |MergeRows(lefts, rights, lk, rk, pad)| >= |lefts|
    decreases |lefts|
  {
    if lefts != [] {
      MergeLength(Init(lefts), rights, lk, rk, pad);
    }
  }

  /** The `i`-th left row is extended by some output row. */
  lemma {:induction false} MergeCoversLeft(lefts: seq<Row>, rights: seq<Row>, lk: nat, rk: nat, pad: nat, i: nat)
    requires i < |lefts|
    ensures exists r | r in MergeRows(lefts, rights, lk, rk, pad) :: Extends(r, lefts[i])
    decreases |lefts|
  {
    var m0 := MergeRows(Init(lefts), rights, lk, rk, pad);
    var j := JoinRow(Last(lefts), rights, lk, rk, pad);
    assert MergeRows(lefts, rights, lk, rk, pad) == m0 + j;
    if i == |lefts| - 1 {
      assert j[0] in m0 + j && Extends(j[0], lefts[i]);
    } else {
      MergeCoversLeft(Init(lefts), rights, lk, rk, pad, i);
      assert Init(lefts)[i] == lefts[i];
      var r :| r in m0 && Extends(r, lefts[i]);
      assert r in m0 + j;
    }
  }

  /** Each output row comes from the join of one left row. */
  lemma {:induction false} MergeSource(lefts: seq<Row>, rights: seq<Row>, lk: nat, rk: nat, pad: nat, r: Row)
    requires r in MergeRows(lefts, rights, lk, rk, pad)
    ensures exists i | 0 <= i < |lefts| :: r in JoinRow(lefts[i], rights, lk, rk, pad)
    decreases |lefts|
  {
    var m0 := MergeRows(Init(lefts), rights, lk, rk, pad);
    var j := JoinRow(Last(lefts), rights, lk, rk, pad);
    assert MergeRows(lefts, rights, lk, rk, pad) == m0 + j;
    if r in m0 {
      MergeSource(Init(lefts), rights, lk, rk, pad, r);
      var i :| 0 <= i < |Init(lefts)| && r in JoinRow(Init(lefts)[i], rights, lk, rk, pad);
      assert lefts[i] == Init(lefts)[i];
    } else {
      assert r in JoinRow(lefts[|lefts| - 1], rights, lk, rk, pad);
    }
  }

  /** Each output row extends some left row. */
  lemma MergeOrigin(lefts: seq<Row>, rights: seq<Row>, lk: nat, rk: nat, pad: nat, r: Row)
    requires r in MergeRows(lefts, rights, lk, rk, pad)
    ensures exists i | 0 <= i < |lefts| :: Extends(r, lefts[i])
  {
    MergeSource(lefts, rights, lk, rk, pad, r);
  }

  /**
   * An output row of one left row is either that row padded with nulls, when
   * no right row has its key, or that row followed by the non-key cells of a
   * right row with its key.
   */
  lemma JoinRowCases(l: Row, rights: seq<Row>, lk: nat, rk: nat, pad: nat, r: Row)
    requires r in JoinRow(l, rights, lk, rk, pad)
    ensures || (r == l + Nulls(pad) && forall y | y in rights :: At(y, rk) != At(l, lk))
            || (exists y | y in rights :: At(y, rk) == At(l, lk) && r == l + DropAt(y, rk))
  {
    var ms := MatchingRows(l, rights, lk, rk);
    if ms != [] {
      var i :| 0 <= i < |ms| && r == JoinRow(l, rights, lk, rk, pad)[i];
      assert ms[i] in ms;
    }
  }

  /**
   * `left.merge(right, on=c, how='left')` row by row: every output row is a
   * left row either padded with nulls (no right row shares its key) or
   * followed by the cells of a right row sharing its key, key cell dropped.
   */
  lemma LeftMergeRow(left: Frame, right: Frame, c: string, r: Row)
    requires LeftMerge(left, right, c).Success? && r in LeftMerge(left, right, c).value.rows
    ensures exists x | x in left.rows ::
      || (r == x + Nulls(|right.columns| - 1) &&
          forall y | y in right.rows :: Lookup(right.columns, y, c) != Lookup(left.columns, x, c))
      || (exists y | y in right.rows ::
            Lookup(right.columns, y, c) == Lookup(left.columns, x, c) && r == x + DropAt(y, IndexOf(right.columns, c).value))
  {
    var lk := IndexOf(left.columns, c).value;
    var rk := IndexOf(right.columns, c).value;
    MergeSource(left.rows, right.rows, lk, rk, |right.columns| - 1, r);
    var i :| 0 <= i < |left.rows| && r in JoinRow(left.rows[i], right.rows, lk, rk, |right.columns| - 1);
    JoinRowCases(left.rows[i], right.rows, lk, rk, |right.columns| - 1, r);
    assert left.rows[i] in left.rows;
  }

  /** A left row with no match yields one row whose right-hand cells are all null. */
  lemma UnmatchedRowPadded(l: Row, rights: seq<Row>, lk: nat, rk: nat, pad: nat)
    requires MatchingRows(l, rights, lk, rk) == []
    ensures JoinRow(l, rights, lk, rk, pad) == [l + Nulls(pad)]
    ensures forall j | |l| <= j < |l| + pad :: JoinRow(l, rights, lk, rk, pad)[0][j] == Null
  {
  }

  /** A left row with matches yields exactly one row per matching right row, in right order. */
  lemma MatchedRowJoined(l: Row, rights: seq<Row>, lk: nat, rk: nat, pad: nat)
    requires MatchingRows(l, rights, lk, rk) != []
    ensures var ms := MatchingRows(l, rights, lk, rk);
      var out := JoinRow(l, rights, lk, rk, pad);
      |out| == |ms| && forall i | 0 <= i < |ms| :: out[i] == l + DropAt(ms[i], rk) && At(ms[i], rk) == At(l, lk)
  {
    var ms := MatchingRows(l, rights, lk, rk);
    forall i | 0 <= i < |ms|
      ensures At(ms[i], rk) == At(l, lk)
    {
      assert ms[i] in ms;
    }
  }

  // ---------------------------------------------------------------------------
  // df[c] = df[c].apply(g), and conversions that may raise
  // ---------------------------------------------------------------------------

  /** `r` with its cell at `i` replaced by `v`; a row too short to hold `i` is left alone. */
  function SetAt(r: Row, i: nat, v: Cell): (s: Row)
    ensures |s| == |r|
    ensures i < |r| ==> At(s, i) == v
  {
    if i < |r| then r[i := v] else r
  }

  /** `df[c] = df[c].apply(g)`: the column is overwritten in place, all else kept (see `ApplyCells`). */
  function Apply(f: Frame, c: string, g: Cell -> Cell): (r: Result<Frame, Error>)
    ensures r.Failure? <==> c !in f.columns
    ensures r.Failure? ==> r.error == KeyError(c)
    ensures r.Success? ==> r.value.columns == f.columns && |r.value.rows| == |f.rows|
  {
    match Column(f, c)
    case Failure(e) => Failure(e)
    case Success(i) =>
      Success(Frame(f.columns, seq(|f.rows|, j requires 0 <= j < |f.rows| => SetAt(f.rows[j], i, g(At(f.rows[j], i))))))
  }

  /** Row by row, `apply` puts `g` of the old cell in column `c` and leaves every other column alone. */
  lemma ApplyCells(f: Frame, c: string, g: Cell -> Cell)
    requires c in f.columns
    ensures var rows := Apply(f, c, g).value.rows;
      forall j | 0 <= j < |f.rows| ::
        && |rows[j]| == |f.rows[j]|
        && (|f.rows[j]| == |f.columns| ==> Lookup(f.columns, rows[j], c) == g(Lookup(f.columns, f.rows[j], c)))
        && (forall d | d != c :: Lookup(f.columns, rows[j], d) == Lookup(f.columns, f.rows[j], d))
  {
    var i := IndexOf(f.columns, c).value;
    var rows := Apply(f, c, g).value.rows;
    forall j | 0 <= j < |f.rows|
      ensures |rows[j]| == |f.rows[j]|
      ensures |f.rows[j]| == |f.columns| ==> Lookup(f.columns, rows[j], c) == g(Lookup(f.columns, f.rows[j], c))
      ensures forall d | d != c :: Lookup(f.columns, rows[j], d) == Lookup(f.columns, f.rows[j], d)
    {
      assert rows[j] == SetAt(f.rows[j], i, g(At(f.rows[j], i)));
      forall d | d != c
        ensures Lookup(f.columns, rows[j], d) == Lookup(f.columns, f.rows[j], d)
      {
        SetAtElsewhere(f.rows[j], i, g(At(f.rows[j], i)), IndexOf(f.columns, d));
      }
    }
  }

  lemma SetAtElsewhere(r: Row, i: nat, v: Cell, p: Option<nat>)
    requires p != Some(i)
    ensures p.Some? ==> At(SetAt(r, i, v), p.value) == At(r, p.value)
  {
  }

  /** Converts one column row by row; the first value that cannot be converted raises. */
  function ConvertRows(rows: seq<Row>, i: nat, g: Cell -> Result<Cell, Error>): (r: Result<seq<Row>, Error>)
    ensures r.Success? ==> (|r.value| == |rows| &&
      forall j | 0 <= j < |rows| :: g(At(rows[j], i)).Success? && r.value[j] == SetAt(rows[j], i, g(At(rows[j], i)).value))
    ensures r.Failure? ==> exists j | 0 <= j < |rows| :: g(At(rows[j], i)).Failure?
  {
    if rows == [] then Success([])
    else match g(At(rows[0], i))
      case Failure(e) => Failure(e)
      case Success(v) =>
        match ConvertRows(rows[1..], i, g)
        case Failure(e) => assert forall j | 0 <= j < |rows| - 1 :: rows[1..][j] == rows[j + 1]; Failure(e)
        case Success(rest) => Success([SetAt(rows[0], i, v)] + rest)
  }

  /** `df[c] = conversion(df[c])`, where the conversion may raise. */
  function Convert(f: Frame, c: string, g: Cell -> Result<Cell, Error>): (r: Result<Frame, Error>)
    ensures c !in f.columns ==> r == Failure(KeyError(c))
    ensures r.Success? ==> r.value.columns == f.columns
  {
    match Column(f, c)
    case Failure(e) => Failure(e)
    case Success(i) =>
      match ConvertRows(f.rows, i, g)
      case Failure(e) => Failure(e)
      case Success(rows) => Success(Frame(f.columns, rows))
  }

  /** Two rows that hold the same cell under every label but `c`. */
  ghost predicate AgreeExcept(cols: seq<string>, x: Row, y: Row, c: string) {
    forall d | d != c :: Lookup(cols, x, d) == Lookup(cols, y, d)
  }

  /**
   * When every cell of column `c` converts, the conversion succeeds and, row
   * by row, puts the converted value in `c` and leaves every other column alone.
   */
  lemma ConvertCells(f: Frame, c: string, g: Cell -> Result<Cell, Error>)
    requires c in f.columns
    requires forall x | x in f.rows :: g(Lookup(f.columns, x, c)).Success?
    ensures Convert(f, c, g).Success?
    ensures var rows := Convert(f, c, g).value.rows;
      && |rows| == |f.rows|
      && forall j | 0 <= j < |f.rows| ::
        && |rows[j]| == |f.rows[j]|
        && (|f.rows[j]| == |f.columns| ==> Lookup(f.columns, rows[j], c) == g(Lookup(f.columns, f.rows[j], c)).value)
        && (forall d | d != c :: Lookup(f.columns, rows[j], d) == Lookup(f.columns, f.rows[j], d))
  {
    var i := IndexOf(f.columns, c).value;
    forall j | 0 <= j < |f.rows| ensures g(At(f.rows[j], i)).Success? {
      assert f.rows[j] in f.rows;
    }
    var rows := ConvertRows(f.rows, i, g).value;
    forall j | 0 <= j < |f.rows|
      ensures |rows[j]| == |f.rows[j]|
      ensures |f.rows[j]| == |f.columns| ==> Lookup(f.columns, rows[j], c) == g(Lookup(f.columns, f.rows[j], c)).value
      ensures forall d | d != c :: Lookup(f.columns, rows[j], d) == Lookup(f.columns, f.rows[j], d)
    {
      var v := g(At(f.rows[j], i)).value;
      assert rows[j] == SetAt(f.rows[j], i, v);
      forall d | d != c
        ensures Lookup(f.columns, rows[j], d) == Lookup(f.columns, f.rows[j], d)
      {
        SetAtElsewhere(f.rows[j], i, v, IndexOf(f.columns, d));
      }
    }
  }

  // ---------------------------------------------------------------------------
  // set_index(c)
  // ---------------------------------------------------------------------------

  /** The first position of `c` is the one position holding `c` with no `c` before it. */
  lemma IndexOfAt(cols: seq<string>, c: string, p: nat)
    requires p < |cols| && cols[p] == c && forall k | 0 <= k < p :: cols[k] != c
    ensures IndexOf(cols, c) == Some(p)
  {
  }

  /** A label of `a` is found in `a + b` where it is found in `a`. */
  lemma IndexOfPrefix(a: seq<string>, b: seq<string>, d: string)
    requires d in a
    ensures IndexOf(a + b, d) == IndexOf(a, d)
  {
    var p := IndexOf(a, d).value;
    assert forall k | 0 <= k < p :: (a + b)[k] == a[..p][k];
    IndexOfAt(a + b, d, p);
  }

  /** A label appended after a full-width row's labels reads the cell appended after the row. */
  lemma PaddedLookup(cols: seq<string>, x: Row, c: string, v: Cell)
    requires |x| == |cols| && c !in cols
    ensures Lookup(cols + [c], x + [v], c) == v
  {
    IndexOfAt(cols + [c], c, |cols|);
  }

  /** A row that extends a full-width row `x` reads like `x` under the labels of `x`'s frame. */
  lemma ExtendsLookup(cols: seq<string>, more: seq<string>, r: Row, x: Row, d: string)
    requires Extends(r, x) && |x| == |cols| && d in cols
    ensures Lookup(cols + more, r, d) == Lookup(cols, x, d)
  {
    IndexOfPrefix(cols, more, d);
    var p := IndexOf(cols, d).value;
    assert r[..|x|][p] == x[p];
  }

  /** Dropping a column labelled other than `d` shifts the position of `d` by one when it lay beyond. */
  lemma IndexOfDropAt(cols: seq<string>, i: nat, d: string)
    requires i < |cols| && cols[i] != d
    ensures IndexOf(DropAt(cols, i), d) ==
      match IndexOf(cols, d)
      case None => None
      case Some(p) => Some(if p < i then p else p - 1)
  {
    var t := DropAt(cols, i);
    assert t == cols[..i] + cols[i + 1..];
    match IndexOf(cols, d)
    case None =>
      assert d !in t;
    case Some(p) =>
      if p < i {
        assert t[..p] == cols[..p];
        IndexOfAt(t, d, p);
      } else {
        assert t[..p - 1] == cols[..i] + cols[i + 1..p];
        assert d !in cols[..i] + cols[i + 1..p] by {
          assert forall x | x in cols[..i] + cols[i + 1..p] :: x in cols[..p];
        }
        IndexOfAt(t, d, p - 1);
      }
  }

  /** The cell at `p` of a row, found after the cell at `i` has been dropped. */
  lemma AtDropAt(r: Row, i: nat, p: nat)
    requires p != i
    ensures At(DropAt(r, i), if p < i then p else p - 1) == At(r, p)
  {
  }

  /** A label other than the first is found one place further on than in the tail. */
  lemma IndexOfCons(h: string, t: seq<string>, d: string)
    requires h != d
    ensures IndexOf([h] + t, d).None? <==> IndexOf(t, d).None?
    ensures IndexOf(t, d).Some? ==> IndexOf([h] + t, d) == Some(IndexOf(t, d).value + 1)
  {
    assert ([h] + t)[1..] == t;
  }

  /** A leading column labelled other than `d` does not change what `d` resolves to. */
  lemma LookupCons(h: string, t: seq<string>, x: Cell, r: Row, d: string)
    requires h != d
    ensures Lookup([h] + t, [x] + r, d) == Lookup(t, r, d)
  {
    IndexOfCons(h, t, d);
    if IndexOf(t, d).Some? {
      var q := IndexOf(t, d).value;
      assert At([x] + r, q + 1) == At(r, q);
    }
  }

  /** Dropping column `i` from both labels and row leaves every other label resolving to the same cell. */
  lemma LookupDropAt(cols: seq<string>, r: Row, i: nat, d: string)
    requires i < |cols| && cols[i] != d
    ensures Lookup(DropAt(cols, i), DropAt(r, i), d) == Lookup(cols, r, d)
  {
    IndexOfDropAt(cols, i, d);
    if IndexOf(cols, d).Some? {
      AtDropAt(r, i, IndexOf(cols, d).value);
    }
  }

  /** Moving column `i` in front leaves every other label resolving to the same cell. */
  lemma FrontCells(cols: seq<string>, r: Row, i: nat, d: string)
    requires i < |cols| && cols[i] != d
    ensures Lookup([cols[i]] + DropAt(cols, i), [At(r, i)] + DropAt(r, i), d) == Lookup(cols, r, d)
  {
    LookupCons(cols[i], DropAt(cols, i), At(r, i), DropAt(r, i), d);
    LookupDropAt(cols, r, i, d);
  }

  /** `set_index(c)`: the key column moves in front (where to_csv writes the index). */
  function SetIndex(f: Frame, c: string): (r: Result<Frame, Error>)
    ensures r.Failure? <==> c !in f.columns
    ensures r.Success? ==> |r.value.rows| == |f.rows| && r.value.columns != [] && r.value.columns[0] == c
    ensures r.Success? ==> forall j | 0 <= j < |f.rows| ::
                             r.value.rows[j] != [] && r.value.rows[j][0] == Lookup(f.columns, f.rows[j], c)
    ensures r.Success? ==> forall j, d | 0 <= j < |f.rows| && d != c ::
                             Lookup(r.value.columns, r.value.rows[j], d) == Lookup(f.columns, f.rows[j], d)
  {
    match Column(f, c)
    case Failure(e) => Failure(e)
    case Success(i) =>
      var rows := seq(|f.rows|, j requires 0 <= j < |f.rows| => [At(f.rows[j], i)] + DropAt(f.rows[j], i));
      assert forall j, d | 0 <= j < |f.rows| && d != c ::
        Lookup([c] + DropAt(f.columns, i), rows[j], d) == Lookup(f.columns, f.rows[j], d) by {
        forall j, d | 0 <= j < |f.rows| && d != c
          ensures Lookup([c] + DropAt(f.columns, i), rows[j], d) == Lookup(f.columns, f.rows[j], d)
        {
          FrontCells(f.columns, f.rows[j], i, d);
        }
      }
      Success(Frame([c] + DropAt(f.columns, i), rows))
  }
}
