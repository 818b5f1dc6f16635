/**
 * The stand-alone script `combine_excel.py`: fixed settings, `.xlsm` files
 * only, row constants used as 0-based positions as they are, and a CSV
 * written to a fixed file name.
 */
module ExcelScript {

  import opened Tables
  import opened Reader
  import opened Discovery
  import opened Normalizer
  import opened Combiner
  import opened Concat
  import opened Assembly

  const SHEET_NAME: string := "Template"
  /** The header row as a 0-based position: the fourth row of the sheet. */
  const HEADER_ROW: int := 3
  /** The first data row as a 0-based position: the seventh row of the sheet. */
  const DATA_START_ROW: int := 6
  const COLUMNS_TO_EXTRACT: seq<string> := [
    "SKU", "Title", "Product Type", "List Price", "Your Price USD (Sell on Amazon, US)",
    "Parentage Level", "Parent SKU", "Product Id", "Handling Time (US)", "Size",
    "Item Length Longer Edge", "Item Width Shorter Edge", "Item Weight",
    "Item Package Length", "Item Package Width", "Item Package Height", "Package Weight"]
  const OUTPUT_FILE: string := "combined_data.csv"

  /** What a run ends with (the script only prints its messages). */
  datatype Outcome =
    | Crashed
    | NoFilesFound
    | NoDataExtracted
    | Written(path: string, table: Table)

  /** The per-file settings: the constants as they are, no de-duplication. */
  function ScriptPipeline(): (p: Pipeline)
    ensures p.headerIndex == 3 && p.dataIndex == 6 && !p.dedup
    ensures p.policy == WorkbookOnly("Template") && |p.requested| == 17
  {
    Pipeline(WorkbookOnly(SHEET_NAME), HEADER_ROW, DATA_START_ROW, false, COLUMNS_TO_EXTRACT)
  }

  /**
   * The specification of `process_excel_files` on the script's constants:
   * `.xlsm` files only; no file, or no contributing file, ends the run with
   * nothing written; a concatenation that raises escapes.
   */
  function ProcessOutcome(env: Env, folder: string): (r: Outcome)
    ensures r == NoFilesFound <==> Glob(env, folder, "*.xlsm") == []
    ensures r.Written? ==>
      && r.path == OUTPUT_FILE
      && r.table.Valid()
      && |r.table.rows| == TotalRows(Accumulated(ScriptPipeline(), env, Glob(env, folder, "*.xlsm")))
  {
    var files := Glob(env, folder, "*.xlsm");
    if files == [] then NoFilesFound
    else
      match Combine(ScriptPipeline(), env, files)
      case NoData => NoDataExtracted
      case ConcatRaised => Crashed
      case Combined(t) => Written(OUTPUT_FILE, t)
  }

  /** `process_excel_files`. */
  method ProcessExcelFiles(env: Env, folder: string) returns (outcome: Outcome)
    ensures outcome == ProcessOutcome(env, folder)
  {
    var excelFiles := Glob(env, folder, "*.xlsm");
    if excelFiles == [] {
      return NoFilesFound;
    }
    var combined := CombineFiles(ScriptPipeline(), env, excelFiles);
    match combined
    case NoData =>
      outcome := NoDataExtracted;
    case ConcatRaised =>
      outcome := Crashed;
    case Combined(finalDf) =>
      outcome := Written(OUTPUT_FILE, finalDf);
  }

  /**
   * The constants are positions, not row numbers: the header is the fourth
   * row of the sheet and the data starts at the seventh; a sheet of exactly
   * six rows passes the guard with no data rows.
   */
  lemma HeaderIsFourthRow(g: Grid)
    requires 6 <= |g.rows|
    ensures var r := Normalize(g, HEADER_ROW, DATA_START_ROW, false);
      && r.Framed?
      && r.table.labels == g.rows[3]
      && r.table.rows == g.rows[6..]
  {
    NormalizeShape(g, 3, 6, false);
  }

  /** A sheet with fewer than six rows is skipped for lack of rows. */
  lemma ShortSheetSkipped(env: Env, path: string, g: Grid)
    requires LoadInput(env, WorkbookOnly(SHEET_NAME), path) == Loaded(g) && |g.rows| < 6
    ensures ExtractFile(ScriptPipeline(), env, path) == Skipped(NotEnoughRows)
  {
  }

  /**
   * A written run holds exactly the rows the files contributed when every
   * collected table has distinct labels.
   */
  lemma WrittenRows(env: Env, folder: string)
    requires var ts := Accumulated(ScriptPipeline(), env, Glob(env, folder, "*.xlsm"));
      ts != [] && AllUnique(ts)
    ensures var r := ProcessOutcome(env, folder);
      r.Written? && |r.table.rows| == ExtractedRows(ScriptPipeline(), env, Glob(env, folder, "*.xlsm"))
  {
    var files := Glob(env, folder, "*.xlsm");
    CombineRowCount(ScriptPipeline(), env, files);
    assert files != [];
  }
}
