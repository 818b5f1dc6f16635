/**
 * Enrichment of the combined table from a lookup file: both key columns are
 * turned into text, a key-first projection of the lookup table is left-joined
 * on the keys, and the lookup key column is dropped unless it shares the
 * source key's name or was asked for. Any exception only ends the merge: the
 * table as it stood at that moment is what gets saved.
 */
module Enricher {

  import opened Common
  import opened Tables
  import opened Reader
  import opened Normalizer

  /** The merge settings of the v4.8 application (row positions already 0-based). */
  datatype MergeSettings = MergeSettings(
    lookupFile: string,
    sourceKey: string,
    lookupKey: string,
    colsToAdd: seq<string>,
    headerIndex: int,
    dataIndex: int,
    txtEnabled: bool,
    txtDelimiter: string)

  /** The table to save, and whether the merge ended in an exception. */
  datatype MergeResult = Merged(table: Table) | MergeFailed(table: Table)

  /** `df[key] = df[key].astype(str)` on every column labelled `key`. */
  function CoerceColumn(t: Table, key: Cell): (r: Table)
    requires t.Valid()
    ensures r.Valid() && r.labels == t.labels && |r.rows| == |t.rows|
    ensures forall i, k :: 0 <= i < |t.rows| && 0 <= k < |t.labels| && t.labels[k] == key ==>
              r.rows[i][k].Text? && CellText(r.rows[i][k]) == CellText(t.rows[i][k])
    ensures forall i, k :: 0 <= i < |t.rows| && 0 <= k < |t.labels| && t.labels[k] != key ==>
              r.rows[i][k] == t.rows[i][k]
  {
    Table(t.labels, seq(|t.rows|, i requires 0 <= i < |t.rows| =>
      seq(|t.labels|, k requires 0 <= k < |t.labels| =>
        if t.labels[k] == key then Text(CellText(t.rows[i][k])) else t.rows[i][k])))
  }

  /** `names` without the occurrences of `x`, in order. */
  function Without(names: seq<string>, x: string): (r: seq<string>)
    ensures forall n :: n in r <==> n in names && n != x
    ensures |r| <= |names|
  {
    if names == [] then []
    else (if names[0] == x then [] else [names[0]]) + Without(names[1..], x)
  }

  /** One name: dropped when it is `x`, kept otherwise. */
  lemma WithoutOne(n: string, x: string)
    ensures Without([n], x) == if n == x then [] else [n]
  {
    assert [n][1..] == [];
  }

  /** The comprehension works name by name: order and repeats of the other names are kept. */
  lemma {:induction false} WithoutAppend(a: seq<string>, b: seq<string>, x: string)
    ensures Without(a + b, x) == Without(a, x) + Without(b, x)
  {
    if a == [] {
      assert a + b == b;
    } else {
      assert (a + b)[0] == a[0];
      assert (a + b)[1..] == a[1..] + b;
      WithoutAppend(a[1..], b, x);
    }
  }

  /** `columns_for_subset`: the lookup key, then the requested columns other than the key. */
  function SubsetNames(lookupKey: string, colsToAdd: seq<string>): (r: seq<string>)
    ensures |r| >= 1 && r[0] == lookupKey
    ensures forall n :: n in r[1..] <==> n in colsToAdd && n != lookupKey
    ensures lookupKey !in r[1..]
  {
    [lookupKey] + Without(colsToAdd, lookupKey)
  }

  /** The key goes first and a repeated request of it is dropped; the other names keep their order. */
  lemma SubsetNamesExample()
    ensures SubsetNames("SKU", ["Desc", "SKU", "ASIN"]) == ["SKU", "Desc", "ASIN"]
  {
    var cols := ["Desc", "SKU", "ASIN"];
    assert cols == ["Desc"] + ["SKU"] + ["ASIN"];
    WithoutAppend(["Desc"] + ["SKU"], ["ASIN"], "SKU");
    WithoutAppend(["Desc"], ["SKU"], "SKU");
    WithoutOne("Desc", "SKU");
    WithoutOne("SKU", "SKU");
    WithoutOne("ASIN", "SKU");
  }

  /** The elements of `s` at positions `ps`, in that order. */
  function Pick<T>(s: seq<T>, ps: seq<nat>): (r: seq<T>)
    requires forall k :: 0 <= k < |ps| ==> ps[k] < |s|
    ensures |r| == |ps|
    ensures forall k :: 0 <= k < |ps| ==> r[k] == s[ps[k]]
  {
    seq(|ps|, k requires 0 <= k < |ps| => s[ps[k]])
  }

  /** All positions below `n` but `skip`, in order. */
  function PositionsBut(n: nat, skip: nat): (ps: seq<nat>)
    requires skip < n
    ensures |ps| == n - 1
    ensures forall k :: 0 <= k < |ps| ==> ps[k] == if k < skip then k else k + 1
  {
    seq(n - 1, k requires 0 <= k < n - 1 => if k < skip then k else k + 1)
  }

  /** All positions below `n`, in order. */
  function AllPositions(n: nat): (ps: seq<nat>)
    ensures |ps| == n
    ensures forall k :: 0 <= k < n ==> ps[k] == k
  {
    seq(n, k requires 0 <= k < n => k)
  }

  /** The cells of one column. */
  function Column(t: Table, pos: nat): (c: seq<Cell>)
    requires t.Valid() && pos < |t.labels|
    ensures |c| == |t.rows|
    ensures forall i :: 0 <= i < |t.rows| ==> c[i] == t.rows[i][pos]
  {
    seq(|t.rows|, i requires 0 <= i < |t.rows| => t.rows[i][pos])
  }

  /** A row of `n` empty cells: what an unmatched row gets under the lookup's columns. */
  function Blank(n: nat): (r: Row)
    ensures |r| == n && forall k :: 0 <= k < n ==> r[k] == Empty
  {
    seq(n, k requires 0 <= k < n => Empty)
  }

  /** What the join needs to know about the two tables. */
  predicate JoinShape(right: Table, width: nat, lpos: nat, rpos: nat, keep: seq<nat>) {
    && right.Valid() && lpos < width && rpos < |right.labels|
    && forall k :: 0 <= k < |keep| ==> keep[k] < |right.labels|
  }

  /** The rows one left row becomes, before the lookup rows are looked at in detail. */
  function JoinRow(l: Row, right: Table, lpos: nat, rpos: nat, keep: seq<nat>): (rows: seq<Row>)
    requires JoinShape(right, |l|, lpos, rpos, keep)
    ensures |rows| == Fanout(l, right, lpos, rpos)
    ensures forall j :: 0 <= j < |rows| ==> |rows[j]| == |l| + |keep|
  {
    var ms := Positions(Column(right, rpos), l[lpos]);
    if ms == [] then [l + Blank(|keep|)]
    else seq(|ms|, j requires 0 <= j < |ms| => l + Pick(right.rows[ms[j]], keep))
  }

  /**
   * What one left row becomes: the row followed by the kept cells of each
   * lookup row with the same key, in lookup order, or by empty cells when no
   * lookup row matches.
   */
  lemma JoinRowMatches(l: Row, right: Table, lpos: nat, rpos: nat, keep: seq<nat>)
    requires JoinShape(right, |l|, lpos, rpos, keep)
    ensures var ms := Positions(Column(right, rpos), l[lpos]);
      var rows := JoinRow(l, right, lpos, rpos, keep);
      && (ms == [] ==> rows == [l + Blank(|keep|)])
      && |rows| == (if ms == [] then 1 else |ms|)
      && (forall j :: 0 <= j < |ms| ==>
            right.rows[ms[j]][rpos] == l[lpos] && rows[j] == l + Pick(right.rows[ms[j]], keep))
      && (forall i :: 0 <= i < |right.rows| && right.rows[i][rpos] == l[lpos] ==> i in ms)
  {
  }

  /** How many rows a left row becomes: its number of matches, and at least one. */
  function Fanout(l: Row, right: Table, lpos: nat, rpos: nat): (n: nat)
    requires right.Valid() && lpos < |l| && rpos < |right.labels|
    ensures n >= 1
  {
    var m := |Positions(Column(right, rpos), l[lpos])|;
    if m == 0 then 1 else m
  }

  predicate Widths(rows: seq<Row>, width: nat) {
    forall i :: 0 <= i < |rows| ==> |rows[i]| == width
  }

  /** The rows of a left join, left row after left row. */
  function JoinRows(left: seq<Row>, width: nat, right: Table, lpos: nat, rpos: nat, keep: seq<nat>): (rows: seq<Row>)
    requires Widths(left, width) && JoinShape(right, width, lpos, rpos, keep)
    ensures Widths(rows, width + |keep|)
  {
    if left == [] then []
    else
      var n := |left| - 1;
      JoinRows(left[..n], width, right, lpos, rpos, keep) + JoinRow(left[n], right, lpos, rpos, keep)
  }

  /** The expected number of joined rows: the sum of the fan-outs. */
  function JoinedCount(left: seq<Row>, width: nat, right: Table, lpos: nat, rpos: nat): nat
    requires Widths(left, width) && right.Valid() && lpos < width && rpos < |right.labels|
  {
    if left == [] then 0
    else
      var n := |left| - 1;
      JoinedCount(left[..n], width, right, lpos, rpos) + Fanout(left[n], right, lpos, rpos)
  }

  /** A left join keeps every left row: one row per match, one padded row without a match. */
  lemma {:induction false} JoinRowsCount(left: seq<Row>, width: nat, right: Table, lpos: nat, rpos: nat, keep: seq<nat>)
    requires Widths(left, width) && JoinShape(right, width, lpos, rpos, keep)
    ensures |JoinRows(left, width, right, lpos, rpos, keep)| == JoinedCount(left, width, right, lpos, rpos)
  {
    if left != [] {
      JoinRowsCount(left[..|left| - 1], width, right, lpos, rpos, keep);
    }
  }

  /** Left order is kept: the join of two row lists is the join of the first followed by that of the second. */
  lemma {:induction false} JoinRowsAppend(a: seq<Row>, b: seq<Row>, width: nat, right: Table, lpos: nat, rpos: nat, keep: seq<nat>)
    requires Widths(a, width) && Widths(b, width) && JoinShape(right, width, lpos, rpos, keep)
    ensures Widths(a + b, width)
    ensures JoinRows(a + b, width, right, lpos, rpos, keep)
         == JoinRows(a, width, right, lpos, rpos, keep) + JoinRows(b, width, right, lpos, rpos, keep)
    decreases |b|
  {
    assert Widths(a + b, width) by {
      forall i | 0 <= i < |a + b|
        ensures |(a + b)[i]| == width
      {
        if i >= |a| {
          assert (a + b)[i] == b[i - |a|];
        }
      }
    }
    if b == [] {
      assert a + b == a;
    } else {
      var n := |b| - 1;
      var b', ab := b[..n], a + b;
      assert ab[..|ab| - 1] == a + b';
      assert ab[|ab| - 1] == b[n];
      JoinRowsAppend(a, b', width, right, lpos, rpos, keep);
      var tail := JoinRow(b[n], right, lpos, rpos, keep);
      assert JoinRows(ab, width, right, lpos, rpos, keep) == JoinRows(a + b', width, right, lpos, rpos, keep) + tail;
      assert JoinRows(b, width, right, lpos, rpos, keep) == JoinRows(b', width, right, lpos, rpos, keep) + tail;
    }
  }

  /** A label as pandas renames it on a name clash (`_x` on the left, `_y` on the right). */
  function Suffixed(c: Cell, suffix: string): Cell {
    Text(CellText(c) + suffix)
  }

  /** The labels of one side of the join, with those the other side also has suffixed. */
  function Disambiguate(labels: seq<Cell>, others: seq<Cell>, suffix: string): (r: seq<Cell>)
    ensures |r| == |labels|
    ensures forall k :: 0 <= k < |labels| && labels[k] !in others ==> r[k] == labels[k]
    ensures forall k :: 0 <= k < |labels| && labels[k] in others ==> r[k] == Suffixed(labels[k], suffix)
  {
    seq(|labels|, k requires 0 <= k < |labels| =>
      if labels[k] in others then Suffixed(labels[k], suffix) else labels[k])
  }

  /** The lookup columns the join adds: all of them, or all but the key when both keys share a name. */
  function KeptPositions(right: Table, rpos: nat, sameKey: bool): (keep: seq<nat>)
    requires rpos < |right.labels|
    ensures forall k :: 0 <= k < |keep| ==> keep[k] < |right.labels|
    ensures sameKey ==> keep == PositionsBut(|right.labels|, rpos)
    ensures !sameKey ==> keep == AllPositions(|right.labels|)
  {
    if sameKey then PositionsBut(|right.labels|, rpos) else AllPositions(|right.labels|)
  }

  /**
   * `pd.merge(left, right, left_on=..., right_on=..., how='left')` with the
   * key columns at `lpos` and `rpos`; `sameKey` when both keys have one name.
   */
  function LeftJoin(left: Table, right: Table, lpos: nat, rpos: nat, sameKey: bool): (r: Table)
    requires left.Valid() && right.Valid() && lpos < |left.labels| && rpos < |right.labels|
    ensures r.Valid()
    ensures var keep := KeptPositions(right, rpos, sameKey);
      && |r.labels| == |left.labels| + |keep|
      && r.rows == JoinRows(left.rows, |left.labels|, right, lpos, rpos, keep)
      && r.labels[..|left.labels|] == Disambiguate(left.labels, Pick(right.labels, keep), "_x")
      && r.labels[|left.labels|..] == Disambiguate(Pick(right.labels, keep), left.labels, "_y")
  {
    var keep := KeptPositions(right, rpos, sameKey);
    var added := Pick(right.labels, keep);
    var labels := Disambiguate(left.labels, added, "_x") + Disambiguate(added, left.labels, "_y");
    Table(labels, JoinRows(left.rows, |left.labels|, right, lpos, rpos, keep))
  }

  /** Positions of the labels other than `x`, in order. */
  function OtherPositions(labels: seq<Cell>, x: Cell): (ps: seq<nat>)
    ensures forall k :: 0 <= k < |ps| ==> ps[k] < |labels| && labels[ps[k]] != x
    ensures forall p :: 0 <= p < |labels| && labels[p] != x ==> p in ps
  {
    if labels == [] then []
    else
      var n := |labels| - 1;
      OtherPositions(labels[..n], x) + (if labels[n] == x then [] else [n])
  }

  /** The remaining positions come in table order, so no column is repeated. */
  lemma {:induction false} OtherPositionsAscending(labels: seq<Cell>, x: Cell)
    ensures Ascending(OtherPositions(labels, x))
  {
    if labels != [] {
      var n := |labels| - 1;
      var ps := OtherPositions(labels[..n], x);
      OtherPositionsAscending(labels[..n], x);
      var r := OtherPositions(labels, x);
      assert r == ps + (if labels[n] == x then [] else [n]);
      forall a, b | 0 <= a < b < |r|
        ensures r[a] < r[b]
      {
        assert r[a] == ps[a] && ps[a] < |labels[..n]| == n;
        if b < |ps| {
          assert r[b] == ps[b];
        } else {
          assert r[b] == n;
        }
      }
    }
  }

  /**
   * `df.drop(columns=[x])`: every column labelled `x` goes, the others stay,
   * in their order and with their cells (the columns at `OtherPositions`,
   * which are ascending and complete).
   */
  function DropColumn(t: Table, x: Cell): (r: Table)
    requires t.Valid()
    ensures r == Project(t, OtherPositions(t.labels, x))
    ensures r.Valid() && |r.rows| == |t.rows|
    ensures x !in r.labels
    ensures forall y :: y != x ==> (y in r.labels <==> y in t.labels)
  {
    var ps := OtherPositions(t.labels, x);
    var r := Project(t, ps);
    assert forall y :: y in r.labels ==> y in t.labels && y != x;
    assert forall y :: y in t.labels && y != x ==> y in r.labels by {
      forall y | y in t.labels && y != x
        ensures y in r.labels
      {
        var p :| 0 <= p < |t.labels| && t.labels[p] == y;
        var k :| 0 <= k < |ps| && ps[k] == p;
        assert r.labels[k] == y;
      }
    }
    r
  }

  /** Reads the lookup file and frames it with a de-duplicated header; `None` on any exception. */
  function LookupTable(env: Env, m: MergeSettings): (r: Option<Table>)
    ensures r.Some? ==> r.value.Valid()
    ensures var l := LoadLookup(env, m.lookupFile, m.txtEnabled, m.txtDelimiter);
      r.Some? <==> l.Loaded? && -|l.grid.rows| <= m.headerIndex < |l.grid.rows|
    ensures var l := LoadLookup(env, m.lookupFile, m.txtEnabled, m.txtDelimiter);
      r.Some? ==>
        && r.value.labels == HeaderLabels(RowAt(l.grid.rows, m.headerIndex).value, true)
        && r.value.rows == RowsFrom(l.grid.rows, m.dataIndex)
  {
    match LoadLookup(env, m.lookupFile, m.txtEnabled, m.txtDelimiter)
    case Loaded(g) => Frame(g, m.headerIndex, m.dataIndex, true)
    case _ => None
  }

  /** Whether the lookup key column goes after the join. */
  predicate DropsLookupKey(m: MergeSettings)
    ensures DropsLookupKey(m) ==> m.sourceKey != m.lookupKey
    ensures m.lookupKey in m.colsToAdd ==> !DropsLookupKey(m)
  {
    m.sourceKey != m.lookupKey && m.lookupKey !in m.colsToAdd
  }

  /** Every name labels some column (`df[names]` raises otherwise). */
  predicate AllLabelled(labels: seq<Cell>, names: seq<string>) {
    forall n :: n in names ==> Text(n) in labels
  }

  /** The state just before `pd.merge`, or the table to save when a step before it raised. */
  datatype Prepared = Ready(left: Table, subset: Table, lpos: nat, rpos: nat) | NotReady(table: Table)

  /**
   * `lookup_df[subset_cols]` once the lookup key column holds text; `None`
   * where one of the names labels no column.
   */
  function LookupSubset(lookup: Table, m: MergeSettings): (r: Option<Table>)
    requires lookup.Valid()
    ensures r.None? <==> !AllLabelled(lookup.labels, SubsetNames(m.lookupKey, m.colsToAdd))
    ensures r.Some? ==> r.value.Valid()
  {
    var right := CoerceColumn(lookup, Text(m.lookupKey));
    var names := SubsetNames(m.lookupKey, m.colsToAdd);
    if !AllLabelled(right.labels, names) then None
    else Some(Project(right, ColumnsFor(right.labels, names)))
  }

  /** The only position of `x` among `labels`; `None` when it has none or several (pandas raises). */
  function SolePosition(labels: seq<Cell>, x: Cell): (r: Option<nat>)
    ensures r.Some? <==> |Positions(labels, x)| == 1
    ensures r.Some? ==> Positions(labels, x) == [r.value] && r.value < |labels| && labels[r.value] == x
  {
    var ps := Positions(labels, x);
    if |ps| == 1 then
      assert ps[0] in ps;
      Some(ps[0])
    else None
  }

  /**
   * The steps before the join: read and frame the lookup file, turn the
   * source key to text (an absent key raises), turn the lookup key to text,
   * project the lookup table on `SubsetNames` (an absent name raises), and
   * check that each key labels exactly one column (pandas raises otherwise).
   */
  function Prepare(env: Env, m: MergeSettings, final: Table): (p: Prepared)
    requires final.Valid()
    ensures p.NotReady? ==> p.table.Valid()
    ensures LookupTable(env, m).None? || Text(m.sourceKey) !in final.labels ==> p == NotReady(final)
    ensures LookupTable(env, m).Some? && Text(m.sourceKey) in final.labels
            && Text(m.lookupKey) !in LookupTable(env, m).value.labels ==>
              p == NotReady(CoerceColumn(final, Text(m.sourceKey)))
    ensures LookupTable(env, m).Some? && Text(m.sourceKey) in final.labels && p.NotReady? ==>
              p == NotReady(CoerceColumn(final, Text(m.sourceKey)))
    ensures var lt := LookupTable(env, m);
      p.Ready? <==>
        && lt.Some?
        && Text(m.sourceKey) in final.labels
        && Text(m.lookupKey) in lt.value.labels
        && LookupSubset(lt.value, m).Some?
        && |Positions(final.labels, Text(m.sourceKey))| == 1
        && |Positions(LookupSubset(lt.value, m).value.labels, Text(m.lookupKey))| == 1
    ensures p.Ready? ==>
      && LookupTable(env, m).Some?
      && p.left == CoerceColumn(final, Text(m.sourceKey))
      && p.subset == LookupSubset(LookupTable(env, m).value, m).value
      && p.subset.Valid()
      && Positions(p.left.labels, Text(m.sourceKey)) == [p.lpos]
      && Positions(p.subset.labels, Text(m.lookupKey)) == [p.rpos]
  {
    match LookupTable(env, m)
    case None => NotReady(final)
    case Some(lookup) =>
      var sk, lk := Text(m.sourceKey), Text(m.lookupKey);
      if sk !in final.labels then NotReady(final)
      else
        var left := CoerceColumn(final, sk);
        if lk !in lookup.labels then NotReady(left)
        else
          match LookupSubset(lookup, m)
          case None => NotReady(left)
          case Some(subset) =>
            match (SolePosition(left.labels, sk), SolePosition(subset.labels, lk))
            case (Some(lpos), Some(rpos)) => Ready(left, subset, lpos, rpos)
            case _ => NotReady(left)
  }

  /**
   * The merge block of the v4.8 application. On an exception the table as it
   * stood is kept, so the result is saved either way.
   */
  function Enrich(env: Env, m: MergeSettings, final: Table): (r: MergeResult)
    requires final.Valid()
    ensures r.table.Valid()
    ensures LookupTable(env, m).None? || Text(m.sourceKey) !in final.labels ==> r == MergeFailed(final)
    ensures Prepare(env, m, final).NotReady? ==> r == MergeFailed(Prepare(env, m, final).table)
    ensures r.Merged? ==> |Positions(final.labels, Text(m.sourceKey))| == 1
    ensures var p := Prepare(env, m, final);
      p.Ready? && DropsLookupKey(m) ==>
        var merged := LeftJoin(p.left, p.subset, p.lpos, p.rpos, m.sourceKey == m.lookupKey);
        Text(m.lookupKey) !in merged.labels ==> r == MergeFailed(merged)
    ensures var p := Prepare(env, m, final);
      p.Ready? ==>
        var merged := LeftJoin(p.left, p.subset, p.lpos, p.rpos, m.sourceKey == m.lookupKey);
        && (!DropsLookupKey(m) ==> r == Merged(merged))
        && (DropsLookupKey(m) && Text(m.lookupKey) in merged.labels ==>
              r == Merged(DropColumn(merged, Text(m.lookupKey))))
  {
    match Prepare(env, m, final)
    case NotReady(t) => MergeFailed(t)
    case Ready(left, subset, lpos, rpos) =>
      var lk := Text(m.lookupKey);
      var merged := LeftJoin(left, subset, lpos, rpos, m.sourceKey == m.lookupKey);
      if !DropsLookupKey(m) then Merged(merged)
      else if lk in merged.labels then Merged(DropColumn(merged, lk))
      else MergeFailed(merged)
  }

  /**
   * Keys are compared as text: after coercion a source key cell equals a
   * lookup key cell exactly when their `str` renderings are equal (a number
   * 5 matches the text "5").
   */
  lemma KeysMatchAsText(a: Table, ka: Cell, i: nat, p: nat, b: Table, kb: Cell, j: nat, q: nat)
    requires a.Valid() && b.Valid()
    requires i < |a.rows| && p < |a.labels| && a.labels[p] == ka
    requires j < |b.rows| && q < |b.labels| && b.labels[q] == kb
    ensures CoerceColumn(a, ka).rows[i][p] == CoerceColumn(b, kb).rows[j][q]
        <==> CellText(a.rows[i][p]) == CellText(b.rows[j][q])
  {
    var x, y := CoerceColumn(a, ka).rows[i][p], CoerceColumn(b, kb).rows[j][q];
    assert x == Text(CellText(a.rows[i][p])) && y == Text(CellText(b.rows[j][q]));
  }

  /** A merge that succeeds went through the join, and dropped the lookup key column exactly when asked to. */
  lemma EnrichMerged(env: Env, m: MergeSettings, final: Table)
    requires final.Valid() && Enrich(env, m, final).Merged?
    ensures var p := Prepare(env, m, final);
      && p.Ready?
      && var merged := LeftJoin(p.left, p.subset, p.lpos, p.rpos, m.sourceKey == m.lookupKey);
      && (DropsLookupKey(m) ==> Enrich(env, m, final).table == DropColumn(merged, Text(m.lookupKey)))
      && (!DropsLookupKey(m) ==> Enrich(env, m, final).table == merged)
  {
  }

  /** With one key name the join adds the lookup columns but the key, so the source key column keeps its label. */
  lemma SameKeyKept(left: Table, subset: Table, lpos: nat, rpos: nat, key: Cell)
    requires left.Valid() && subset.Valid() && lpos < |left.labels| && rpos < |subset.labels|
    requires left.labels[lpos] == key && Positions(subset.labels, key) == [rpos]
    ensures key in LeftJoin(left, subset, lpos, rpos, true).labels
  {
    var keep := KeptPositions(subset, rpos, true);
    var added := Pick(subset.labels, keep);
    forall k | 0 <= k < |added|
      ensures added[k] != key
    {
      assert keep[k] != rpos;
    }
    var merged := LeftJoin(left, subset, lpos, rpos, true);
    assert merged.labels[..|left.labels|][lpos] == key;
  }

  /** With two key names and no clash the lookup key column is added under its own label. */
  lemma OtherKeyAdded(left: Table, subset: Table, lpos: nat, rpos: nat, key: Cell)
    requires left.Valid() && subset.Valid() && lpos < |left.labels| && rpos < |subset.labels|
    requires subset.labels[rpos] == key && key !in left.labels
    ensures key in LeftJoin(left, subset, lpos, rpos, false).labels
  {
    var keep := KeptPositions(subset, rpos, false);
    var added := Pick(subset.labels, keep);
    assert added[rpos] == key;
    var merged := LeftJoin(left, subset, lpos, rpos, false);
    assert merged.labels[|left.labels|..][rpos] == key;
  }

  /**
   * The lookup key column survives the merge exactly when it shares the
   * source key's name or was asked for (assuming the combined table has no
   * column of that name besides the source key, so pandas renames nothing).
   */
  lemma LookupKeyKeptIff(env: Env, m: MergeSettings, final: Table)
    requires final.Valid() && Enrich(env, m, final).Merged?
    requires m.sourceKey != m.lookupKey ==> Text(m.lookupKey) !in final.labels
    ensures Text(m.lookupKey) in Enrich(env, m, final).table.labels <==> !DropsLookupKey(m)
  {
    EnrichMerged(env, m, final);
    var p := Prepare(env, m, final);
    var sk, lk := Text(m.sourceKey), Text(m.lookupKey);
    assert p.lpos in Positions(p.left.labels, sk) && p.rpos in Positions(p.subset.labels, lk);
    if !DropsLookupKey(m) {
      if m.sourceKey == m.lookupKey {
        SameKeyKept(p.left, p.subset, p.lpos, p.rpos, lk);
      } else {
        OtherKeyAdded(p.left, p.subset, p.lpos, p.rpos, lk);
      }
    }
  }

  /**
   * The rows of a left join, block by block: left row `i` becomes the block
   * of `Fanout` rows that starts after the blocks of the rows before it.
   */
  lemma JoinRowsBlock(left: seq<Row>, width: nat, right: Table, lpos: nat, rpos: nat, keep: seq<nat>, i: nat)
    requires Widths(left, width) && JoinShape(right, width, lpos, rpos, keep) && i < |left|
    ensures var start := JoinedCount(left[..i], width, right, lpos, rpos);
      var rows := JoinRows(left, width, right, lpos, rpos, keep);
      && start + Fanout(left[i], right, lpos, rpos) <= |rows|
      && rows[start..start + Fanout(left[i], right, lpos, rpos)] == JoinRow(left[i], right, lpos, rpos, keep)
  {
    JoinRowsSplit(left, width, right, lpos, rpos, keep, i);
    JoinRowsCount(left[..i], width, right, lpos, rpos, keep);
    SliceMiddle(JoinRows(left[..i], width, right, lpos, rpos, keep),
                JoinRow(left[i], right, lpos, rpos, keep),
                JoinRows(left[i + 1..], width, right, lpos, rpos, keep));
  }

  /** The join of the rows before `i`, of row `i`, and of the rows after it, in this order. */
  lemma JoinRowsSplit(left: seq<Row>, width: nat, right: Table, lpos: nat, rpos: nat, keep: seq<nat>, i: nat)
    requires Widths(left, width) && JoinShape(right, width, lpos, rpos, keep) && i < |left|
    ensures Widths(left[..i], width) && Widths(left[i + 1..], width)
    ensures JoinRows(left, width, right, lpos, rpos, keep)
         == JoinRows(left[..i], width, right, lpos, rpos, keep)
          + JoinRow(left[i], right, lpos, rpos, keep)
          + JoinRows(left[i + 1..], width, right, lpos, rpos, keep)
  {
    var before, at, after := left[..i], [left[i]], left[i + 1..];
    assert left == before + at + after;
    assert Widths(before, width) && Widths(at, width) && Widths(after, width) by {
      assert forall k :: 0 <= k < |before| ==> before[k] == left[k];
      assert forall k :: 0 <= k < |after| ==> after[k] == left[i + 1 + k];
    }
    JoinRowsAppend(before, at, width, right, lpos, rpos, keep);
    JoinRowsAppend(before + at, after, width, right, lpos, rpos, keep);
    assert at[..0] == [];
  }

  /** The middle part of a concatenation of three. */
  lemma SliceMiddle<T>(a: seq<T>, b: seq<T>, c: seq<T>)
    ensures (a + b + c)[|a|..|a| + |b|] == b
  {
  }

  /** The merged table has at least one row per combined row: a left join never loses a row. */
  lemma {:induction false} JoinedCountAtLeast(left: seq<Row>, width: nat, right: Table, lpos: nat, rpos: nat)
    requires Widths(left, width) && right.Valid() && lpos < width && rpos < |right.labels|
    ensures JoinedCount(left, width, right, lpos, rpos) >= |left|
  {
    if left != [] {
      JoinedCountAtLeast(left[..|left| - 1], width, right, lpos, rpos);
    }
  }

  /** A successful merge has as many rows as the join produces, and never fewer than the combined table. */
  lemma EnrichRowCount(env: Env, m: MergeSettings, final: Table)
    requires final.Valid() && Enrich(env, m, final).Merged?
    ensures var p := Prepare(env, m, final);
      && p.Ready?
      && |Enrich(env, m, final).table.rows| == JoinedCount(p.left.rows, |p.left.labels|, p.subset, p.lpos, p.rpos)
      && |Enrich(env, m, final).table.rows| >= |final.rows|
  {
    EnrichMerged(env, m, final);
    var p := Prepare(env, m, final);
    LeftJoinRowCount(p.left, p.subset, p.lpos, p.rpos, m.sourceKey == m.lookupKey);
  }

  /** The join has one row per match of each left row, and at least one per left row. */
  lemma LeftJoinRowCount(left: Table, right: Table, lpos: nat, rpos: nat, sameKey: bool)
    requires left.Valid() && right.Valid() && lpos < |left.labels| && rpos < |right.labels|
    ensures var n := |LeftJoin(left, right, lpos, rpos, sameKey).rows|;
      n == JoinedCount(left.rows, |left.labels|, right, lpos, rpos) && n >= |left.rows|
  {
    var keep := KeptPositions(right, rpos, sameKey);
    JoinRowsCount(left.rows, |left.labels|, right, lpos, rpos, keep);
    JoinedCountAtLeast(left.rows, |left.labels|, right, lpos, rpos);
  }
}
