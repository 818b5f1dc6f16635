/**
 * The common tail of every script once the file list is known: collect the
 * per-file tables, stop when there are none, concatenate the rest.
 */
module Assembly {

  import opened Common
  import opened Tables
  import opened Reader
  import opened Combiner
  import opened Concat

  /** What the files amount to: nothing extracted, a concatenation that raised, or the combined table. */
  datatype Combined = NoData | ConcatRaised | Combined(table: Table)

  /** Every collected table is well formed. */
  lemma AccumulatedValid(p: Pipeline, env: Env, files: seq<string>)
    ensures AllValid(Accumulated(p, env, files))
  {
    forall k | 0 <= k < |Accumulated(p, env, files)|
      ensures Accumulated(p, env, files)[k].Valid()
    {
      AccumulatedTagged(p, env, files, k);
    }
  }

  /**
   * The specification of the scripts' tail: no collected table ends the run;
   * otherwise the collected tables are concatenated.
   */
  function Combine(p: Pipeline, env: Env, files: seq<string>): (r: Combined)
    ensures r.NoData? <==> Accumulated(p, env, files) == []
    ensures r.ConcatRaised? ==> !AllUnique(Accumulated(p, env, files))
    ensures r.Combined? ==> r.table.Valid() && |r.table.rows| == TotalRows(Accumulated(p, env, files))
  {
    AccumulatedValid(p, env, files);
    var ts := Accumulated(p, env, files);
    if ts == [] then NoData
    else
      match ConcatTables(ts)
      case None => ConcatRaised
      case Some(t) => Combined(t)
  }

  /** The accumulator loop followed by the emptiness test and `pd.concat`. */
  method CombineFiles(p: Pipeline, env: Env, files: seq<string>) returns (r: Combined)
    ensures r == Combine(p, env, files)
  {
    var allDataFrames := CollectFrames(p, env, files);
    if allDataFrames == [] {
      return NoData;
    }
    AccumulatedValid(p, env, files);
    var finalDf := ConcatTables(allDataFrames);
    if finalDf.None? {
      r := ConcatRaised;
    } else {
      r := Combined(finalDf.value);
    }
  }

  /** The sum of the per-file row counts, file by file. */
  function ExtractedRows(p: Pipeline, env: Env, files: seq<string>): nat {
    if files == [] then 0
    else
      var last := files[|files| - 1];
      ExtractedRows(p, env, files[..|files| - 1])
        + (match ExtractFile(p, env, last) case Taken(t) => |t.rows| case Skipped(_) => 0)
  }

  /** The combined table holds exactly the rows the files contributed, no more and no fewer. */
  lemma {:induction false} TotalRowsExtracted(p: Pipeline, env: Env, files: seq<string>)
    ensures TotalRows(Accumulated(p, env, files)) == ExtractedRows(p, env, files)
  {
    if files != [] {
      var init := files[..|files| - 1];
      TotalRowsExtracted(p, env, init);
      var ts := Accumulated(p, env, init);
      match ExtractFile(p, env, files[|files| - 1])
      case Taken(t) =>
        assert (ts + [t])[..|ts|] == ts;
      case Skipped(_) =>
    }
  }

  /**
   * With unique labels in every collected table, the tables are always
   * concatenated, and the result has one row per contributed row.
   */
  lemma CombineRowCount(p: Pipeline, env: Env, files: seq<string>)
    requires Accumulated(p, env, files) != [] && AllUnique(Accumulated(p, env, files))
    ensures Combine(p, env, files).Combined?
    ensures |Combine(p, env, files).table.rows| == ExtractedRows(p, env, files)
  {
    TotalRowsExtracted(p, env, files);
  }

  /** A list of files none of which contributes ends the run with nothing extracted. */
  lemma NothingTakenNoData(p: Pipeline, env: Env, files: seq<string>)
    requires forall f :: f in files ==> ExtractFile(p, env, f).Skipped?
    ensures Combine(p, env, files) == NoData
  {
    AccumulatedFromTaken(p, env, files);
  }
}
