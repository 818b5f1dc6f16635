/**
 * Column selection: the requested names are split into those that label a
 * column and those that do not; the file is dropped when none is present.
 */
module Selector {

  import opened Common
  import opened Tables

  /** The requested names that label some column, in request order. */
  function PresentNames(labels: seq<Cell>, names: seq<string>): (r: seq<string>)
    ensures forall n :: n in r <==> n in names && Text(n) in labels
    ensures |r| <= |names|
  {
    if names == [] then []
    else (if Text(names[0]) in labels then [names[0]] else []) + PresentNames(labels, names[1..])
  }

  /** The requested names that label no column, in request order. */
  function MissingNames(labels: seq<Cell>, names: seq<string>): (r: seq<string>)
    ensures forall n :: n in r <==> n in names && Text(n) !in labels
    ensures |r| <= |names|
  {
    if names == [] then []
    else (if Text(names[0]) in labels then [] else [names[0]]) + MissingNames(labels, names[1..])
  }

  /** Every requested name (with its repeats) is reported exactly once: present or missing. */
  lemma {:induction false} PresentMissingPartition(labels: seq<Cell>, names: seq<string>)
    ensures multiset(PresentNames(labels, names)) + multiset(MissingNames(labels, names)) == multiset(names)
  {
    if names != [] {
      var rest := names[1..];
      PresentMissingPartition(labels, rest);
      assert names == [names[0]] + rest;
      if Text(names[0]) in labels {
        assert PresentNames(labels, names) == [names[0]] + PresentNames(labels, rest);
        assert MissingNames(labels, names) == MissingNames(labels, rest);
      } else {
        assert PresentNames(labels, names) == PresentNames(labels, rest);
        assert MissingNames(labels, names) == [names[0]] + MissingNames(labels, rest);
      }
    }
  }

  /** Request order is kept: the present names of a split request are those of its two halves. */
  lemma {:induction false} PresentNamesAppend(labels: seq<Cell>, a: seq<string>, b: seq<string>)
    ensures PresentNames(labels, a + b) == PresentNames(labels, a) + PresentNames(labels, b)
  {
    if a != [] {
      var ab := a + b;
      assert ab[0] == a[0] && ab[1..] == a[1..] + b;
      PresentNamesAppend(labels, a[1..], b);
      var h := if Text(a[0]) in labels then [a[0]] else [];
      var x, y := PresentNames(labels, a[1..]), PresentNames(labels, b);
      assert PresentNames(labels, ab) == h + (x + y);
      assert PresentNames(labels, a) == h + x;
      assert h + (x + y) == (h + x) + y;
    } else {
      assert a + b == b;
    }
  }

  /** What the selection step does with one table. */
  datatype Selection = Kept(table: Table, missing: seq<string>) | NoneFound(missing: seq<string>)

  /**
   * `data_df[existing_cols]` after the present/missing split; an empty
   * request keeps the table as it is.
   */
  function Select(t: Table, requested: seq<string>): (r: Selection)
    requires t.Valid()
    ensures requested == [] ==> r == Kept(t, [])
    ensures requested != [] ==> r.missing == MissingNames(t.labels, requested)
    ensures requested != [] ==> (r.NoneFound? <==> PresentNames(t.labels, requested) == [])
    ensures r.Kept? ==> r.table.Valid() && |r.table.rows| == |t.rows|
    ensures r.Kept? && requested != [] ==>
      forall k :: 0 <= k < |r.table.labels| ==>
        r.table.labels[k].Text? && r.table.labels[k].s in PresentNames(t.labels, requested)
  {
    if requested == [] then Kept(t, [])
    else
      var present := PresentNames(t.labels, requested);
      if present == [] then NoneFound(MissingNames(t.labels, requested))
      else Kept(Project(t, ColumnsFor(t.labels, present)), MissingNames(t.labels, requested))
  }

  /**
   * Every column labelled by a requested name is kept, duplicates included,
   * with its label and cells.
   */
  lemma SelectKeepsEveryColumn(t: Table, requested: seq<string>, p: nat)
    requires t.Valid() && requested != [] && Select(t, requested).Kept?
    requires p < |t.labels| && t.labels[p].Text? && t.labels[p].s in requested
    ensures var s := Select(t, requested).table;
      exists k :: 0 <= k < |s.labels| && s.labels[k] == t.labels[p]
        && forall i :: 0 <= i < |s.rows| ==> s.rows[i][k] == t.rows[i][p]
  {
    var present := PresentNames(t.labels, requested);
    assert t.labels[p].s in present;
    var ps := ColumnsFor(t.labels, present);
    var k :| 0 <= k < |ps| && ps[k] == p;
    var s := Select(t, requested).table;
    assert s == Project(t, ps);
    assert s.labels[k] == t.labels[p];
  }

  /** The positions whose columns a selection keeps: all of them for an empty request. */
  function SelectedPositions(labels: seq<Cell>, requested: seq<string>): (ps: seq<nat>)
    ensures forall k :: 0 <= k < |ps| ==> ps[k] < |labels|
    ensures requested == [] ==> |ps| == |labels| && forall k :: 0 <= k < |ps| ==> ps[k] == k
    ensures requested != [] ==>
      forall q :: 0 <= q < |labels| ==> (q in ps <==> labels[q].Text? && labels[q].s in requested)
  {
    if requested == [] then seq(|labels|, k requires 0 <= k => k as nat)
    else
      var present := PresentNames(labels, requested);
      var ps := ColumnsFor(labels, present);
      assert forall q :: 0 <= q < |labels| && labels[q].Text? && labels[q].s in requested ==> labels[q].s in present;
      ps
  }

  /** A kept table is the projection of the table on the selected positions. */
  lemma SelectColumns(t: Table, requested: seq<string>)
    requires t.Valid() && Select(t, requested).Kept?
    ensures var ps, s := SelectedPositions(t.labels, requested), Select(t, requested).table;
      && |s.labels| == |ps| && |s.rows| == |t.rows|
      && (forall k :: 0 <= k < |ps| ==> s.labels[k] == t.labels[ps[k]])
      && forall i, k :: 0 <= i < |s.rows| && 0 <= k < |ps| ==> s.rows[i][k] == t.rows[i][ps[k]]
  {
    if requested != [] {
      assert Select(t, requested).table == Project(t, SelectedPositions(t.labels, requested));
    }
  }

  /**
   * When each present name labels exactly one column (other labels may be
   * blank or repeated) the kept table has one column per present name, in
   * request order, holding that column's cells.
   */
  lemma SelectUniqueLabels(t: Table, requested: seq<string>)
    requires t.Valid() && requested != []
    requires forall n :: n in PresentNames(t.labels, requested) ==> |Positions(t.labels, Text(n))| == 1
    requires Select(t, requested).Kept?
    ensures var present := PresentNames(t.labels, requested);
      var s := Select(t, requested).table;
      && s.labels == TextLabels(present)
      && forall i, k :: 0 <= i < |s.rows| && 0 <= k < |present| ==>
           s.rows[i][k] == t.rows[i][IndexOf(t.labels, Text(present[k]))]
  {
    var present := PresentNames(t.labels, requested);
    ColumnsForUnique(t.labels, present);
  }

  /** Blank header cells beside the requested one do not matter: `SKU` is kept alone. */
  lemma SelectBesideBlankLabels(t: Table)
    requires t.Valid() && t.labels == [Text("SKU"), Empty, Empty]
    ensures Select(t, ["SKU"]).Kept? && Select(t, ["SKU"]).table.labels == [Text("SKU")]
  {
    var requested := ["SKU"];
    assert Text("SKU") in t.labels by { assert t.labels[0] == Text("SKU"); }
    assert PresentNames(t.labels, requested) == requested by {
      assert requested[1..] == [];
    }
    var l, x := t.labels, Text("SKU");
    assert l[..2][..1] == l[..1] && l[..1][..0] == [];
    assert Positions(l[..1], x) == [0];
    assert Positions(l[..2], x) == [0];
    assert Positions(l, x) == [0];
    SelectUniqueLabels(t, requested);
  }
}
