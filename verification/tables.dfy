/**
 * The values the pipeline passes between its stages: cells, raw grids as a
 * reader returns them (no header applied) and tables with labelled columns,
 * with the positional access (`iloc`) and label access (`df[...]`) the scripts use.
 */
module Tables {

  import opened Common
  import opened Strings

  /** One cell: text, a number, or an empty cell (NaN). */
  datatype Cell = Text(s: string) | Number(n: int) | Empty

  type Row = seq<Cell>

  /** `str(cell)`: numbers in decimal, an empty cell as Python prints NaN. */
  function CellText(c: Cell): string {
    match c
    case Text(s) => s
    case Number(n) => IntText(n)
    case Empty => "nan"
  }

  /** `str` of every cell of a row. */
  function Texts(cells: seq<Cell>): (r: seq<string>)
    ensures |r| == |cells|
    ensures forall i :: 0 <= i < |cells| ==> r[i] == CellText(cells[i])
  {
    seq(|cells|, i requires 0 <= i < |cells| => CellText(cells[i]))
  }

  /** Text labels for a list of names. */
  function TextLabels(names: seq<string>): (r: seq<Cell>)
    ensures |r| == |names|
    ensures forall i :: 0 <= i < |names| ==> r[i] == Text(names[i])
  {
    seq(|names|, i requires 0 <= i < |names| => Text(names[i]))
  }

  datatype RawGrid = RawGrid(width: nat, rows: seq<Row>)

  predicate Rectangular(g: RawGrid) {
    forall i :: 0 <= i < |g.rows| ==> |g.rows[i]| == g.width
  }

  /** What a reader returns: rows of one width, every row (header rows included) as data. */
  type Grid = g: RawGrid | Rectangular(g) witness RawGrid(0, [])

  /** A data frame: one label per column and rows of one cell per column. */
  datatype Table = Table(labels: seq<Cell>, rows: seq<Row>) {
    predicate Valid() {
      forall i :: 0 <= i < |rows| ==> |rows[i]| == |labels|
    }
  }

  /** `rows[i]` with Python's negative positions; `None` where `iloc` raises IndexError. */
  function RowAt(rows: seq<Row>, i: int): (r: Option<Row>)
    ensures r.Some? <==> -|rows| <= i < |rows|
    ensures 0 <= i < |rows| ==> r == Some(rows[i])
    ensures -|rows| <= i < 0 ==> r == Some(rows[|rows| + i])
    ensures r.Some? ==> r.value in rows
  {
    if 0 <= i < |rows| then Some(rows[i])
    else if -|rows| <= i < 0 then Some(rows[|rows| + i])
    else None
  }

  /** Where the Python slice `rows[i:]` starts. */
  function SliceStart(n: nat, i: int): (s: nat)
    ensures s <= n
    ensures 0 <= i <= n ==> s == i
  {
    if i < 0 then (if n + i < 0 then 0 else n + i)
    else if i > n then n
    else i
  }

  /** `df.iloc[i:]`: never raises; an index past the end gives no rows. */
  function RowsFrom(rows: seq<Row>, i: int): (r: seq<Row>)
    ensures r == rows[SliceStart(|rows|, i)..]
    ensures |r| == |rows| - SliceStart(|rows|, i)
  {
    rows[SliceStart(|rows|, i)..]
  }

  /** Positions of the columns labelled `x`, in increasing order. */
  function Positions(labels: seq<Cell>, x: Cell): (ps: seq<nat>)
    ensures forall a :: 0 <= a < |ps| ==> ps[a] < |labels| && labels[ps[a]] == x
    ensures forall k :: 0 <= k < |labels| && labels[k] == x ==> k in ps
  {
    if labels == [] then []
    else
      var n := |labels| - 1;
      var init := labels[..n];
      var ps := Positions(init, x);
      var r := ps + (if labels[n] == x then [n] else []);
      assert forall a :: 0 <= a < |ps| ==> r[a] == ps[a] && init[ps[a]] == labels[ps[a]];
      assert forall k :: 0 <= k < n ==> init[k] == labels[k];
      r
  }

  predicate Ascending(ps: seq<nat>) {
    forall a, b :: 0 <= a < b < |ps| ==> ps[a] < ps[b]
  }

  /** The positions come in increasing order. */
  lemma {:induction false} PositionsAscending(labels: seq<Cell>, x: Cell)
    ensures Ascending(Positions(labels, x))
  {
    if labels != [] {
      var n := |labels| - 1;
      var ps := Positions(labels[..n], x);
      PositionsAscending(labels[..n], x);
      var r := Positions(labels, x);
      assert r == ps + (if labels[n] == x then [n] else []);
      forall a, b | 0 <= a < b < |r|
        ensures r[a] < r[b]
      {
        assert r[a] == ps[a] && ps[a] < |labels[..n]| == n;
        if b < |ps| {
          assert r[b] == ps[b];
        } else {
          assert r[b] == n;
        }
      }
    }
  }

  /** A label that does not occur has no position. */
  lemma PositionsAbsent(labels: seq<Cell>, x: Cell)
    ensures x !in labels ==> Positions(labels, x) == []
  {
    var ps := Positions(labels, x);
    if ps != [] {
      assert labels[ps[0]] == x;
    }
  }

  /** With unique labels a present label has exactly one position. */
  lemma {:induction false} PositionsUnique(labels: seq<Cell>, x: Cell)
    requires NoDuplicates(labels) && x in labels
    ensures Positions(labels, x) == [IndexOf(labels, x)]
  {
    var n := |labels| - 1;
    var init := labels[..n];
    assert labels == init + [labels[n]];
    if labels[n] == x {
      assert x !in init;
      PositionsAbsent(init, x);
      IndexOfUnique(labels, n);
    } else {
      assert x in init;
      PositionsUnique(init, x);
      var i := IndexOf(init, x);
      IndexOfUnique(labels, i);
    }
  }

  /**
   * `df[names]`: for each name in turn, every column labelled with it. With
   * duplicate labels a name selects all of its columns, as pandas does.
   */
  function ColumnsFor(labels: seq<Cell>, names: seq<string>): (ps: seq<nat>)
    ensures forall k :: 0 <= k < |ps| ==> ps[k] < |labels|
    ensures forall p :: p in ps ==> p < |labels| && labels[p].Text? && labels[p].s in names
    ensures forall p :: 0 <= p < |labels| && labels[p].Text? && labels[p].s in names ==> p in ps
  {
    if names == [] then []
    else
      var here, rest := Positions(labels, Text(names[0])), ColumnsFor(labels, names[1..]);
      assert forall p :: 0 <= p < |labels| && labels[p].Text? && labels[p].s in names ==> p in here || p in rest by {
        forall p | 0 <= p < |labels| && labels[p].Text? && labels[p].s in names
          ensures p in here || p in rest
        {
          if labels[p].s != names[0] {
            assert labels[p].s in names[1..];
          }
        }
      }
      here + rest
  }

  /** A label of exactly one column has that column, its first occurrence, as its only position. */
  lemma PositionsSole(labels: seq<Cell>, x: Cell)
    requires |Positions(labels, x)| == 1
    ensures x in labels && Positions(labels, x) == [IndexOf(labels, x)]
  {
    var ps := Positions(labels, x);
    assert labels[ps[0]] == x;
    var i := IndexOf(labels, x);
    assert i in ps;
  }

  /**
   * When each name labels exactly one column (whatever the other labels are,
   * blank or repeated), `df[names]` takes one column per name, in order.
   */
  lemma {:induction false} ColumnsForUnique(labels: seq<Cell>, names: seq<string>)
    requires forall n :: n in names ==> |Positions(labels, Text(n))| == 1
    ensures |ColumnsFor(labels, names)| == |names|
    ensures forall i :: 0 <= i < |names| ==>
              Text(names[i]) in labels && ColumnsFor(labels, names)[i] == IndexOf(labels, Text(names[i]))
  {
    if names != [] {
      assert names[0] in names;
      PositionsSole(labels, Text(names[0]));
      ColumnsForUnique(labels, names[1..]);
    }
  }

  /** The columns at positions `ps`, in that order. */
  function Project(t: Table, ps: seq<nat>): (r: Table)
    requires t.Valid()
    requires forall k :: 0 <= k < |ps| ==> ps[k] < |t.labels|
    ensures r.Valid() && |r.rows| == |t.rows| && |r.labels| == |ps|
    ensures forall k :: 0 <= k < |ps| ==> r.labels[k] == t.labels[ps[k]]
    ensures forall i, k :: 0 <= i < |r.rows| && 0 <= k < |ps| ==> r.rows[i][k] == t.rows[i][ps[k]]
  {
    Table(
      seq(|ps|, k requires 0 <= k < |ps| => t.labels[ps[k]]),
      seq(|t.rows|, i requires 0 <= i < |t.rows| =>
        assert t.rows[i] in t.rows;
        seq(|ps|, k requires 0 <= k < |ps| => t.rows[i][ps[k]])))
  }

  /** The cell of `row` under label `x` when rows are aligned by name; empty where the label is absent. */
  function CellUnder(labels: seq<Cell>, row: Row, x: Cell): Cell
    requires |row| == |labels|
  {
    if x in labels then row[IndexOf(labels, x)] else Empty
  }
}
