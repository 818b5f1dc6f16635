/**
 * Vertical concatenation of the collected tables (`pd.concat(..., ignore_index=True)`).
 * Columns are matched by label: the result has every label once, in order of
 * first appearance, and a row gets an empty cell under a label its table lacks.
 * Tables with repeated labels can only be stacked when all label lists are
 * identical; otherwise the call raises.
 */
module Concat {

  import opened Common
  import opened Tables

  /** The number of rows of all tables together. */
  function TotalRows(ts: seq<Table>): nat {
    if ts == [] then 0 else TotalRows(ts[..|ts| - 1]) + |ts[|ts| - 1].rows|
  }

  predicate AllValid(ts: seq<Table>) {
    forall k :: 0 <= k < |ts| ==> ts[k].Valid()
  }

  predicate AllUnique(ts: seq<Table>) {
    forall k :: 0 <= k < |ts| ==> NoDuplicates(ts[k].labels)
  }

  predicate SameLabels(ts: seq<Table>)
    requires ts != []
  {
    forall k :: 0 <= k < |ts| ==> ts[k].labels == ts[0].labels
  }

  /** `acc` followed by the labels of `labels` it does not hold yet, in order of first appearance. */
  function AddNew(acc: seq<Cell>, labels: seq<Cell>): seq<Cell>
    decreases |labels|
  {
    if labels == [] then acc
    else AddNew(if labels[0] in acc then acc else acc + [labels[0]], labels[1..])
  }

  /**
   * Adding labels keeps what was there in place, adds every label, nothing
   * else, and never a second copy of a label.
   */
  lemma {:induction false} AddNewSpec(acc: seq<Cell>, labels: seq<Cell>)
    ensures var r := AddNew(acc, labels);
      && |acc| <= |r| && r[..|acc|] == acc
      && (forall x :: x in r <==> x in acc || x in labels)
      && (NoDuplicates(acc) ==> NoDuplicates(r))
    decreases |labels|
  {
    if labels != [] {
      var acc' := if labels[0] in acc then acc else acc + [labels[0]];
      AddNewSpec(acc', labels[1..]);
      var r := AddNew(acc, labels);
      assert r == AddNew(acc', labels[1..]);
      assert r[..|acc|] == r[..|acc'|][..|acc|];
      assert forall x :: x in labels <==> x == labels[0] || x in labels[1..];
      if NoDuplicates(acc) && labels[0] !in acc {
        forall i, j | 0 <= i < j < |acc'|
          ensures acc'[i] != acc'[j]
        {
          if j == |acc| {
            assert acc'[i] == acc[i];
          }
        }
      }
    }
  }

  /** Labels with no repeat, none of them already present, are added as they are. */
  lemma {:induction false} AddNewFresh(acc: seq<Cell>, labels: seq<Cell>)
    requires NoDuplicates(labels)
    requires forall i :: 0 <= i < |labels| ==> labels[i] !in acc
    ensures AddNew(acc, labels) == acc + labels
    decreases |labels|
  {
    if labels != [] {
      var rest := labels[1..];
      var acc' := acc + [labels[0]];
      assert labels[0] !in acc;
      assert AddNew(acc, labels) == AddNew(acc', rest);
      forall i, j | 0 <= i < j < |rest|
        ensures rest[i] != rest[j]
      {
        assert rest[i] == labels[i + 1] && rest[j] == labels[j + 1];
      }
      forall i | 0 <= i < |rest|
        ensures rest[i] !in acc'
      {
        assert rest[i] == labels[i + 1] && labels[i + 1] != labels[0];
      }
      AddNewFresh(acc', rest);
      assert acc' + rest == acc + labels;
    }
  }

  /** A label is in the result exactly when it was there already or is added. */
  lemma {:induction false} AddNewHas(acc: seq<Cell>, labels: seq<Cell>, x: Cell)
    ensures x in AddNew(acc, labels) <==> x in acc || x in labels
    decreases |labels|
  {
    if labels != [] {
      var acc' := if labels[0] in acc then acc else acc + [labels[0]];
      AddNewHas(acc', labels[1..], x);
      assert x in labels <==> x == labels[0] || x in labels[1..];
    }
  }

  /** Adding labels to labels without repeats never repeats one. */
  lemma {:induction false} AddNewUnique(acc: seq<Cell>, labels: seq<Cell>)
    requires NoDuplicates(acc)
    ensures NoDuplicates(AddNew(acc, labels))
    decreases |labels|
  {
    if labels != [] {
      var acc' := if labels[0] in acc then acc else acc + [labels[0]];
      if labels[0] !in acc {
        forall i, j | 0 <= i < j < |acc'|
          ensures acc'[i] != acc'[j]
        {
          if j == |acc| {
            assert acc'[i] == acc[i];
          }
        }
      }
      AddNewUnique(acc', labels[1..]);
    }
  }

  /** The column labels of the result: the labels of each table in turn, those not seen yet. */
  function UnionLabels(ts: seq<Table>): (r: seq<Cell>)
    ensures NoDuplicates(r)
  {
    if ts == [] then []
    else
      var n := |ts| - 1;
      AddNewUnique(UnionLabels(ts[..n]), ts[n].labels);
      AddNew(UnionLabels(ts[..n]), ts[n].labels)
  }

  /** Every label of every table occurs once in the result, and nothing else does. */
  lemma UnionLabelsSpec(ts: seq<Table>)
    ensures NoDuplicates(UnionLabels(ts))
    ensures forall x :: x in UnionLabels(ts) <==> exists k :: 0 <= k < |ts| && x in ts[k].labels
  {
    UnionLabelsMembers(ts);
  }

  lemma UnionLabelsMembers(ts: seq<Table>)
    ensures forall x :: x in UnionLabels(ts) <==> exists k :: 0 <= k < |ts| && x in ts[k].labels
  {
    forall x
      ensures x in UnionLabels(ts) <==> exists k :: 0 <= k < |ts| && x in ts[k].labels
    {
      UnionLabelsMember(ts, x);
    }
  }

  lemma {:induction false} UnionLabelsMember(ts: seq<Table>, x: Cell)
    ensures x in UnionLabels(ts) <==> exists k :: 0 <= k < |ts| && x in ts[k].labels
  {
    if ts != [] {
      var n := |ts| - 1;
      UnionLabelsMember(ts[..n], x);
      var init := UnionLabels(ts[..n]);
      AddNewHas(init, ts[n].labels, x);
      assert UnionLabels(ts) == AddNew(init, ts[n].labels);
      if x in init {
        var k :| 0 <= k < n && x in ts[..n][k].labels;
        assert ts[..n][k] == ts[k];
      } else if x !in ts[n].labels {
        forall k | 0 <= k < |ts|
          ensures x !in ts[k].labels
        {
          if k < n {
            assert ts[..n][k] == ts[k];
          }
        }
      }
    }
  }

  /** The labels of the first table come first, in its own order. */
  lemma {:induction false} UnionLabelsStart(ts: seq<Table>)
    requires ts != [] && NoDuplicates(ts[0].labels)
    ensures |ts[0].labels| <= |UnionLabels(ts)|
    ensures UnionLabels(ts)[..|ts[0].labels|] == ts[0].labels
  {
    var n := |ts| - 1;
    if n == 0 {
      AddNewFresh([], ts[0].labels);
    } else {
      assert ts[..n][0] == ts[0];
      UnionLabelsStart(ts[..n]);
      var init := UnionLabels(ts[..n]);
      AddNewSpec(init, ts[n].labels);
      assert UnionLabels(ts)[..|init|] == init;
      assert UnionLabels(ts)[..|ts[0].labels|] == init[..|ts[0].labels|];
    }
  }

  /** One table's rows laid out under `labels`, cells matched by label. */
  function Aligned(t: Table, labels: seq<Cell>): (rows: seq<Row>)
    requires t.Valid()
    ensures |rows| == |t.rows|
    ensures forall i :: 0 <= i < |rows| ==> |rows[i]| == |labels|
    ensures forall i, k :: 0 <= i < |rows| && 0 <= k < |labels| ==>
              rows[i][k] == CellUnder(t.labels, t.rows[i], labels[k])
  {
    seq(|t.rows|, i requires 0 <= i < |t.rows| =>
      seq(|labels|, k requires 0 <= k < |labels| => CellUnder(t.labels, t.rows[i], labels[k])))
  }

  /** The rows of all tables, table after table, each aligned under `labels`. */
  function UnionRows(ts: seq<Table>, labels: seq<Cell>): (rows: seq<Row>)
    requires AllValid(ts)
    ensures |rows| == TotalRows(ts)
    ensures forall i :: 0 <= i < |rows| ==> |rows[i]| == |labels|
  {
    if ts == [] then []
    else
      var n := |ts| - 1;
      UnionRows(ts[..n], labels) + Aligned(ts[n], labels)
  }

  /** The rows of all tables, table after table, as they are. */
  function StackRows(ts: seq<Table>): (rows: seq<Row>)
    requires ts != [] && AllValid(ts) && SameLabels(ts)
    ensures |rows| == TotalRows(ts)
    ensures forall i :: 0 <= i < |rows| ==> |rows[i]| == |ts[0].labels|
  {
    var n := |ts| - 1;
    if n == 0 then ts[0].rows
    else
      assert ts[..n][0] == ts[0];
      StackRows(ts[..n]) + ts[n].rows
  }

  /**
   * `pd.concat`: `None` where pandas raises (no tables, or label lists that
   * differ while one of them repeats a label).
   */
  function ConcatTables(ts: seq<Table>): (r: Option<Table>)
    requires AllValid(ts)
    ensures r.None? <==> ts == [] || (!AllUnique(ts) && !SameLabels(ts))
    ensures r.Some? ==> r.value.Valid() && |r.value.rows| == TotalRows(ts)
    ensures r.Some? && AllUnique(ts) ==> r.value.labels == UnionLabels(ts)
    ensures r.Some? && !AllUnique(ts) ==> r.value.labels == ts[0].labels
  {
    if ts == [] then None
    else if AllUnique(ts) then
      var labels := UnionLabels(ts);
      Some(Table(labels, UnionRows(ts, labels)))
    else if SameLabels(ts) then Some(Table(ts[0].labels, StackRows(ts)))
    else None
  }

  /** Where the block of table `j` starts in the result. */
  function RowsBefore(ts: seq<Table>, j: nat): nat
    requires j <= |ts|
  {
    TotalRows(ts[..j])
  }

  /** Row `i` of table `j` is row `RowsBefore(ts, j) + i` of the aligned result. */
  lemma {:induction false} UnionRowsAt(ts: seq<Table>, labels: seq<Cell>, j: nat, i: nat)
    requires AllValid(ts) && j < |ts| && i < |ts[j].rows|
    ensures RowsBefore(ts, j) + i < |UnionRows(ts, labels)|
    ensures UnionRows(ts, labels)[RowsBefore(ts, j) + i] == Aligned(ts[j], labels)[i]
  {
    var n := |ts| - 1;
    var init := ts[..n];
    if j < n {
      assert init[..j] == ts[..j];
      assert init[j] == ts[j];
      UnionRowsAt(init, labels, j, i);
    } else {
      assert init == ts[..j];
    }
    TotalRowsGrows(ts, j);
  }

  /** The blocks before table `j` and table `j` itself fit in the total. */
  lemma {:induction false} TotalRowsGrows(ts: seq<Table>, j: nat)
    requires j < |ts|
    ensures TotalRows(ts[..j]) + |ts[j].rows| <= TotalRows(ts)
  {
    var n := |ts| - 1;
    if j < n {
      assert ts[..n][..j] == ts[..j];
      TotalRowsGrows(ts[..n], j);
    } else {
      assert ts[..n] == ts[..j];
    }
  }

  /**
   * With unique labels every row of table `j` reappears at its offset in the
   * result: under each of its own labels the same cell, under every other
   * label an empty cell.
   */
  lemma ConcatRowAt(ts: seq<Table>, j: nat, i: nat)
    requires AllValid(ts) && AllUnique(ts) && j < |ts| && i < |ts[j].rows|
    ensures var r := ConcatTables(ts).value;
      && RowsBefore(ts, j) + i < |r.rows|
      && var row := r.rows[RowsBefore(ts, j) + i];
      && (forall c :: 0 <= c < |ts[j].labels| ==> CellUnder(r.labels, row, ts[j].labels[c]) == ts[j].rows[i][c])
      && (forall k :: 0 <= k < |r.labels| && r.labels[k] !in ts[j].labels ==> row[k] == Empty)
  {
    var r := ConcatTables(ts).value;
    var labels := UnionLabels(ts);
    UnionLabelsSpec(ts);
    UnionRowsAt(ts, labels, j, i);
    var row := r.rows[RowsBefore(ts, j) + i];
    forall c | 0 <= c < |ts[j].labels|
      ensures CellUnder(r.labels, row, ts[j].labels[c]) == ts[j].rows[i][c]
    {
      var x := ts[j].labels[c];
      assert x in labels;
      var k := IndexOf(labels, x);
      IndexOfUnique(ts[j].labels, c);
      assert row[k] == CellUnder(ts[j].labels, ts[j].rows[i], x);
    }
  }

  /** Row `i` of table `j` is row `RowsBefore(ts, j) + i` of the stacked result. */
  lemma {:induction false} StackRowsAt(ts: seq<Table>, j: nat, i: nat)
    requires ts != [] && AllValid(ts) && SameLabels(ts) && j < |ts| && i < |ts[j].rows|
    ensures RowsBefore(ts, j) + i < |StackRows(ts)|
    ensures StackRows(ts)[RowsBefore(ts, j) + i] == ts[j].rows[i]
  {
    var n := |ts| - 1;
    TotalRowsGrows(ts, j);
    if n == 0 {
      assert ts[..j] == [];
    } else {
      var init := ts[..n];
      assert init[0] == ts[0];
      if j < n {
        assert init[..j] == ts[..j];
        assert init[j] == ts[j];
        StackRowsAt(init, j, i);
      } else {
        assert init == ts[..j];
      }
    }
  }

  /** The labels of the two-file example below. */
  lemma UnionLabelsExample(t1: Table, t2: Table)
    requires t1.labels == [Text("A"), Text("B"), Text("source_file")]
    requires t2.labels == [Text("A"), Text("C"), Text("source_file")]
    ensures UnionLabels([t1, t2]) == [Text("A"), Text("B"), Text("source_file"), Text("C")]
  {
    assert [t1, t2][..1] == [t1];
    assert [t1][..0] == [];
    AddNewFresh([], t1.labels);
    assert UnionLabels([t1]) == t1.labels;
    assert UnionLabels([t1, t2]) == AddNew(t1.labels, t2.labels);
    AddNewLabelsExample();
  }

  lemma AddNewLabelsExample()
    ensures AddNew([Text("A"), Text("B"), Text("source_file")], [Text("A"), Text("C"), Text("source_file")])
      == [Text("A"), Text("B"), Text("source_file"), Text("C")]
  {
    var l1, l2 := [Text("A"), Text("B"), Text("source_file")], [Text("A"), Text("C"), Text("source_file")];
    var l3 := l1 + [Text("C")];
    assert l2[0] in l1 && l2[1..][0] !in l1;
    assert AddNew(l1, l2) == AddNew(l1, l2[1..]);
    assert l2[1..][1..] == [Text("source_file")];
    assert AddNew(l1, l2[1..]) == AddNew(l3, [Text("source_file")]);
    assert Text("source_file") in l3 && [Text("source_file")][1..] == [];
    assert AddNew(l3, [Text("source_file")]) == AddNew(l3, []) == l3;
  }

  /**
   * Two files sharing `A` and the tag column: the result has `A`, `B`,
   * `source_file`, then `C`, the second file's new label.
   */
  lemma ConcatLabelsExample(t1: Table, t2: Table)
    requires t1.Valid() && t2.Valid()
    requires t1.labels == [Text("A"), Text("B"), Text("source_file")]
    requires t2.labels == [Text("A"), Text("C"), Text("source_file")]
    ensures ConcatTables([t1, t2]).Some?
    ensures ConcatTables([t1, t2]).value.labels == [Text("A"), Text("B"), Text("source_file"), Text("C")]
  {
    assert AllUnique([t1, t2]);
    UnionLabelsExample(t1, t2);
  }
}
