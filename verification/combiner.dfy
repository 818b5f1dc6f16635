/**
 * The per-file extraction and the accumulator loop shared by all the
 * scripts: read, normalise, select, tag with the file's base name, collect.
 * A file that fails at any step is skipped and the loop goes on.
 */
module Combiner {

  import opened Common
  import opened Tables
  import opened Reader
  import opened Normalizer
  import opened Selector

  /** The column every extracted table gets, holding the file's base name. */
  const SOURCE_COLUMN: string := "source_file"

  /**
   * `df['source_file'] = name`: every existing column of that label is
   * overwritten, otherwise a new last column is added.
   */
  function Tag(t: Table, name: string): (r: Table)
    requires t.Valid()
    ensures r.Valid() && |r.rows| == |t.rows|
    ensures Text(SOURCE_COLUMN) in r.labels
    ensures forall i, k :: 0 <= i < |r.rows| && 0 <= k < |r.labels| && r.labels[k] == Text(SOURCE_COLUMN) ==>
              r.rows[i][k] == Text(name)
    ensures Text(SOURCE_COLUMN) !in t.labels ==>
              && r.labels == t.labels + [Text(SOURCE_COLUMN)]
              && forall i :: 0 <= i < |t.rows| ==> r.rows[i][..|t.labels|] == t.rows[i]
    ensures Text(SOURCE_COLUMN) in t.labels ==>
              && r.labels == t.labels
              && forall i, k :: 0 <= i < |t.rows| && 0 <= k < |t.labels| && t.labels[k] != Text(SOURCE_COLUMN) ==>
                   r.rows[i][k] == t.rows[i][k]
  {
    var tag := Text(name);
    if Text(SOURCE_COLUMN) in t.labels then
      Table(t.labels, seq(|t.rows|, i requires 0 <= i < |t.rows| =>
        assert t.rows[i] in t.rows;
        seq(|t.labels|, k requires 0 <= k < |t.labels| =>
          if t.labels[k] == Text(SOURCE_COLUMN) then tag else t.rows[i][k])))
    else
      Table(t.labels + [Text(SOURCE_COLUMN)], seq(|t.rows|, i requires 0 <= i < |t.rows| => t.rows[i] + [tag]))
  }

  /**
   * What distinguishes the scripts once the files are known: how files are
   * read, the 0-based header and data positions, whether header names are
   * de-duplicated, and the requested column names.
   */
  datatype Pipeline = Pipeline(
    policy: ReadPolicy,
    headerIndex: int,
    dataIndex: int,
    dedup: bool,
    requested: seq<string>)

  /** Why a file contributed nothing (the scripts only log it). */
  datatype SkipReason = NotEnoughRows | NoColumnFound | ErrorRaised

  datatype FileResult = Taken(table: Table) | Skipped(reason: SkipReason)

  /** The body of the per-file loop, with its exception handler. */
  function ExtractFile(p: Pipeline, env: Env, path: string): (r: FileResult)
    ensures r.Taken? ==>
      && LoadInput(env, p.policy, path).Loaded?
      && var g := LoadInput(env, p.policy, path).grid;
      && p.dataIndex <= |g.rows|
      && -|g.rows| <= p.headerIndex < |g.rows|
      && |r.table.rows| == |g.rows| - SliceStart(|g.rows|, p.dataIndex)
    ensures r.Taken? ==> r.table.Valid() && Text(SOURCE_COLUMN) in r.table.labels
    ensures r.Taken? ==>
              forall i, k :: 0 <= i < |r.table.rows| && 0 <= k < |r.table.labels| && r.table.labels[k] == Text(SOURCE_COLUMN) ==>
                r.table.rows[i][k] == Text(env.baseName(path))
    ensures LoadInput(env, p.policy, path).Raised? ==> r == Skipped(ErrorRaised)
    ensures LoadInput(env, p.policy, path).NoFrame? ==> r == Skipped(NotEnoughRows)
    ensures LoadInput(env, p.policy, path).Loaded? && |LoadInput(env, p.policy, path).grid.rows| < p.dataIndex ==>
              r == Skipped(NotEnoughRows)
    ensures var l := LoadInput(env, p.policy, path);
      l.Loaded? && Normalize(l.grid, p.headerIndex, p.dataIndex, p.dedup).NoHeaderRow? ==> r == Skipped(ErrorRaised)
    ensures var l := LoadInput(env, p.policy, path);
      r.Taken? <==>
        && l.Loaded?
        && Normalize(l.grid, p.headerIndex, p.dataIndex, p.dedup).Framed?
        && Select(Normalize(l.grid, p.headerIndex, p.dataIndex, p.dedup).table, p.requested).Kept?
    ensures r.Taken? ==>
      var t := Normalize(LoadInput(env, p.policy, path).grid, p.headerIndex, p.dataIndex, p.dedup).table;
      r.table == Tag(Select(t, p.requested).table, env.baseName(path))
  {
    match LoadInput(env, p.policy, path)
    case NoFrame => Skipped(NotEnoughRows)
    case Raised => Skipped(ErrorRaised)
    case Loaded(g) =>
      match Normalize(g, p.headerIndex, p.dataIndex, p.dedup)
      case TooFewRows => Skipped(NotEnoughRows)
      case NoHeaderRow => Skipped(ErrorRaised)
      case Framed(t) =>
        match Select(t, p.requested)
        case NoneFound(_) => Skipped(NoColumnFound)
        case Kept(s, _) => Taken(Tag(s, env.baseName(path)))
  }

  /**
   * A file whose grid is framed is skipped for lack of columns exactly when
   * the request is non-empty and names no label of its table.
   */
  lemma ExtractFileSelection(p: Pipeline, env: Env, path: string, g: Grid)
    requires LoadInput(env, p.policy, path) == Loaded(g)
    requires Normalize(g, p.headerIndex, p.dataIndex, p.dedup).Framed?
    ensures var t := Normalize(g, p.headerIndex, p.dataIndex, p.dedup).table;
      ExtractFile(p, env, path).Skipped? <==> p.requested != [] && PresentNames(t.labels, p.requested) == []
  {
  }

  /**
   * Apart from a `source_file` column, which holds the base name, a tagged
   * selection holds the selected columns of the table, label and cells.
   */
  lemma TagSelectColumns(t: Table, requested: seq<string>, name: string)
    requires t.Valid() && Select(t, requested).Kept?
    ensures var ps, r := SelectedPositions(t.labels, requested), Tag(Select(t, requested).table, name);
      && |ps| <= |r.labels| && |r.rows| == |t.rows|
      && forall i, k :: 0 <= i < |r.rows| && 0 <= k < |ps| && t.labels[ps[k]] != Text(SOURCE_COLUMN) ==>
           r.labels[k] == t.labels[ps[k]] && r.rows[i][k] == t.rows[i][ps[k]]
  {
    SelectColumns(t, requested);
    var s := Select(t, requested).table;
    var r := Tag(s, name);
    forall i, k | 0 <= i < |r.rows| && 0 <= k < |s.labels|
      ensures s.labels[k] != Text(SOURCE_COLUMN) ==> r.labels[k] == s.labels[k] && r.rows[i][k] == s.rows[i][k]
    {
      if Text(SOURCE_COLUMN) !in s.labels {
        assert r.rows[i][..|s.labels|] == s.rows[i];
      }
    }
  }

  /** A taken table is the tagged selection of the framed table, so it holds the selected columns. */
  lemma ExtractFileColumns(p: Pipeline, env: Env, path: string)
    requires ExtractFile(p, env, path).Taken?
    ensures var t := Normalize(LoadInput(env, p.policy, path).grid, p.headerIndex, p.dataIndex, p.dedup).table;
      var ps, r := SelectedPositions(t.labels, p.requested), ExtractFile(p, env, path).table;
      && |ps| <= |r.labels| && |r.rows| == |t.rows|
      && forall i, k :: 0 <= i < |r.rows| && 0 <= k < |ps| && t.labels[ps[k]] != Text(SOURCE_COLUMN) ==>
           r.labels[k] == t.labels[ps[k]] && r.rows[i][k] == t.rows[i][ps[k]]
  {
    var t := Normalize(LoadInput(env, p.policy, path).grid, p.headerIndex, p.dataIndex, p.dedup).table;
    TagSelectColumns(t, p.requested, env.baseName(path));
  }

  /**
   * Apart from a `source_file` column, column `k` of `r` is column `ps[k]`
   * of the grid `g`, labelled by the header cell `h[ps[k]]`, from row `d` on.
   */
  predicate HeaderColumns(r: Table, g: Grid, h: Row, d: int, ps: seq<nat>) {
    && r.Valid()
    && |ps| <= |r.labels|
    && 0 <= d && d + |r.rows| == |g.rows|
    && (forall k :: 0 <= k < |ps| ==> ps[k] < |h|)
    && (forall j :: d <= j < |g.rows| ==> |g.rows[j]| == |h|)
    && forall i, k :: 0 <= i < |r.rows| && 0 <= k < |ps| && h[ps[k]] != Text(SOURCE_COLUMN) ==>
         r.labels[k] == h[ps[k]] && r.rows[i][k] == g.rows[d + i][ps[k]]
  }

  /** A tagged selection of the rows of a grid from row `d` on holds columns of that grid. */
  lemma TagSelectGrid(t: Table, g: Grid, d: nat, requested: seq<string>, name: string)
    requires t.Valid() && d <= |g.rows| && t.rows == g.rows[d..] && Select(t, requested).Kept?
    ensures HeaderColumns(Tag(Select(t, requested).table, name), g, t.labels, d, SelectedPositions(t.labels, requested))
  {
    TagSelectColumns(t, requested, name);
    forall j | d <= j < |g.rows|
      ensures |g.rows[j]| == |t.labels|
    {
      assert g.rows[j] == t.rows[j - d];
    }
  }

  /**
   * Without de-duplication the labels are the raw header cells: a taken
   * table holds the selected columns of the grid under the header row, from
   * the data position on.
   */
  lemma ExtractFileRaw(p: Pipeline, env: Env, path: string, g: Grid)
    requires !p.dedup && 0 <= p.dataIndex
    requires LoadInput(env, p.policy, path) == Loaded(g)
    requires ExtractFile(p, env, path).Taken?
    ensures -|g.rows| <= p.headerIndex < |g.rows|
    ensures var h := RowAt(g.rows, p.headerIndex).value;
      HeaderColumns(ExtractFile(p, env, path).table, g, h, p.dataIndex, SelectedPositions(h, p.requested))
  {
    var t := Normalize(g, p.headerIndex, p.dataIndex, p.dedup).table;
    assert t.labels == RowAt(g.rows, p.headerIndex).value && t.rows == g.rows[p.dataIndex..];
    TagSelectGrid(t, g, p.dataIndex, p.requested, env.baseName(path));
  }

  /** The files that contribute a table, in processing order. */
  function TakenFiles(p: Pipeline, env: Env, files: seq<string>): (r: seq<string>)
    ensures |r| <= |files|
    ensures forall f :: f in r <==> f in files && ExtractFile(p, env, f).Taken?
  {
    if files == [] then []
    else
      var last := files[|files| - 1];
      TakenFiles(p, env, files[..|files| - 1]) + (if ExtractFile(p, env, last).Taken? then [last] else [])
  }

  /** The specification of `all_data_frames` after the loop over `files`. */
  function Accumulated(p: Pipeline, env: Env, files: seq<string>): (ts: seq<Table>)
    ensures |ts| <= |files|
  {
    if files == [] then []
    else
      var last := files[|files| - 1];
      var init := Accumulated(p, env, files[..|files| - 1]);
      match ExtractFile(p, env, last)
      case Taken(t) => init + [t]
      case Skipped(_) => init
  }

  /** The k-th collected table is what the k-th contributing file yields. */
  lemma {:induction false} AccumulatedFromTaken(p: Pipeline, env: Env, files: seq<string>)
    ensures |Accumulated(p, env, files)| == |TakenFiles(p, env, files)|
    ensures forall k :: 0 <= k < |Accumulated(p, env, files)| ==>
              ExtractFile(p, env, TakenFiles(p, env, files)[k]) == Taken(Accumulated(p, env, files)[k])
  {
    if files != [] {
      var init := files[..|files| - 1];
      AccumulatedFromTaken(p, env, init);
    }
  }

  /**
   * Exception isolation: processing two lists of files one after the other
   * collects the tables of each, in order; a failing file removes only its own.
   */
  lemma {:induction false} AccumulatedAppend(p: Pipeline, env: Env, a: seq<string>, b: seq<string>)
    ensures Accumulated(p, env, a + b) == Accumulated(p, env, a) + Accumulated(p, env, b)
    decreases |b|
  {
    if b == [] {
      assert a + b == a;
    } else {
      var b', last := b[..|b| - 1], b[|b| - 1];
      assert (a + b)[..|a + b| - 1] == a + b';
      assert (a + b)[|a + b| - 1] == last;
      AccumulatedAppend(p, env, a, b');
      var ab, ab' := Accumulated(p, env, a + b), Accumulated(p, env, a + b');
      if ExtractFile(p, env, last).Taken? {
        assert ab == ab' + [ExtractFile(p, env, last).table];
        assert Accumulated(p, env, b) == Accumulated(p, env, b') + [ExtractFile(p, env, last).table];
      } else {
        assert ab == ab';
        assert Accumulated(p, env, b) == Accumulated(p, env, b');
      }
    }
  }

  /** The contributing files of two lists processed in turn are those of each, in order. */
  lemma {:induction false} TakenFilesAppend(p: Pipeline, env: Env, a: seq<string>, b: seq<string>)
    ensures TakenFiles(p, env, a + b) == TakenFiles(p, env, a) + TakenFiles(p, env, b)
    decreases |b|
  {
    if b == [] {
      assert a + b == a;
    } else {
      var b', last := b[..|b| - 1], b[|b| - 1];
      assert (a + b)[..|a + b| - 1] == a + b';
      assert (a + b)[|a + b| - 1] == last;
      TakenFilesAppend(p, env, a, b');
    }
  }

  /** The accumulator loop of every script. */
  method CollectFrames(p: Pipeline, env: Env, files: seq<string>) returns (allDataFrames: seq<Table>)
    ensures allDataFrames == Accumulated(p, env, files)
  {
    allDataFrames := [];
    for i := 0 to |files|
      invariant allDataFrames == Accumulated(p, env, files[..i])
    {
      assert files[..i + 1][..i] == files[..i];
      var result := ExtractFile(p, env, files[i]);
      if result.Taken? {
        allDataFrames := allDataFrames + [result.table];
      }
    }
    assert files[..|files|] == files;
  }

  /**
   * Every collected table is valid and every row of it carries, in each
   * `source_file` column, the base name of the file it came from.
   */
  lemma AccumulatedTagged(p: Pipeline, env: Env, files: seq<string>, k: nat)
    requires k < |Accumulated(p, env, files)|
    ensures |TakenFiles(p, env, files)| == |Accumulated(p, env, files)|
    ensures var t := Accumulated(p, env, files)[k];
      var f := TakenFiles(p, env, files)[k];
      && f in files
      && t.Valid()
      && Text(SOURCE_COLUMN) in t.labels
      && forall i, c :: 0 <= i < |t.rows| && 0 <= c < |t.labels| && t.labels[c] == Text(SOURCE_COLUMN) ==>
           t.rows[i][c] == Text(env.baseName(f))
  {
    AccumulatedFromTaken(p, env, files);
    var f := TakenFiles(p, env, files)[k];
    assert f in TakenFiles(p, env, files);
  }
}
