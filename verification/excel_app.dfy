/**
 * The run of the two earlier GUI applications (`combine_app.py` and its
 * English twin `combine_app_en.py`, which differ only in the language of
 * their messages): a folder guard, workbook discovery that prefers `.xlsm`,
 * the pipeline without header de-duplication, and a CSV written to the
 * configured output file.
 */
module ExcelApp {

  import opened Tables
  import opened Strings
  import opened Reader
  import opened Discovery
  import opened Combiner
  import opened Concat
  import opened Normalizer
  import opened Selector
  import opened Assembly

  /** The settings record; the row settings are numbers (the dialog refuses anything else). */
  datatype AppSettings = AppSettings(
    folderPath: string,
    sheetName: string,
    headerRow: int,
    dataStartRow: int,
    columnsToExtract: string,
    outputFile: string)

  /** What a run ends with. */
  datatype Outcome =
    | NoFolder
    | Crashed
    | NoFilesFound
    | NoDataExtracted
    | Written(path: string, table: Table)

  /** The per-file settings: the named sheet of a workbook, raw header row, 0-based positions. */
  function AppPipeline(s: AppSettings): (p: Pipeline)
    ensures p.headerIndex == s.headerRow - 1 && p.dataIndex == s.dataStartRow - 1
    ensures !p.dedup && p.policy == WorkbookOnly(s.sheetName)
    ensures p.requested == ParseColumnList(s.columnsToExtract)
  {
    Pipeline(WorkbookOnly(s.sheetName), s.headerRow - 1, s.dataStartRow - 1, false, ParseColumnList(s.columnsToExtract))
  }

  /**
   * The specification of `process_excel_files`: no workbook ends the run, so
   * does a run where no file contributes; a concatenation that raises
   * escapes; otherwise the combined table is written to the output file.
   */
  function ProcessOutcome(env: Env, s: AppSettings): (r: Outcome)
    ensures r != NoFolder
    ensures r == NoFilesFound <==> XlsmElseXlsx(env, s.folderPath) == []
    ensures r.Written? ==>
      && r.path == s.outputFile
      && r.table.Valid()
      && |r.table.rows| == TotalRows(Accumulated(AppPipeline(s), env, XlsmElseXlsx(env, s.folderPath)))
  {
    var files := XlsmElseXlsx(env, s.folderPath);
    if files == [] then NoFilesFound
    else
      match Combine(AppPipeline(s), env, files)
      case NoData => NoDataExtracted
      case ConcatRaised => Crashed
      case Combined(t) => Written(s.outputFile, t)
  }

  /** `process_excel_files`. */
  method ProcessExcelFiles(env: Env, s: AppSettings) returns (outcome: Outcome)
    ensures outcome == ProcessOutcome(env, s)
  {
    var excelFiles := Glob(env, s.folderPath, "*.xlsm");
    if excelFiles == [] {
      excelFiles := Glob(env, s.folderPath, "*.xlsx");
    }
    if excelFiles == [] {
      return NoFilesFound;
    }
    var combined := CombineFiles(AppPipeline(s), env, excelFiles);
    match combined
    case NoData =>
      outcome := NoDataExtracted;
    case ConcatRaised =>
      outcome := Crashed;
    case Combined(finalDf) =>
      outcome := Written(s.outputFile, finalDf);
  }

  /** The specification of `run_processing`: an empty folder path stops the run before anything else. */
  function RunOutcome(env: Env, s: AppSettings): (r: Outcome)
    ensures r == NoFolder <==> s.folderPath == ""
    ensures s.folderPath != "" ==> r == ProcessOutcome(env, s)
  {
    if s.folderPath == "" then NoFolder else ProcessOutcome(env, s)
  }

  /** `run_processing`. */
  method RunProcessing(env: Env, s: AppSettings) returns (outcome: Outcome)
    ensures outcome == RunOutcome(env, s)
  {
    if s.folderPath == "" {
      return NoFolder;
    }
    outcome := ProcessExcelFiles(env, s);
  }

  /**
   * A file that is taken contributes the rows from the data row on (for a
   * data row setting of at least 1), under the raw header row's labels:
   * apart from a `source_file` column, each kept column has the label of
   * its header cell and the cells of that column of the sheet.
   */
  lemma TakenFileRows(env: Env, s: AppSettings, path: string, g: Grid)
    requires 1 <= s.dataStartRow
    requires LoadInput(env, WorkbookOnly(s.sheetName), path) == Loaded(g)
    requires ExtractFile(AppPipeline(s), env, path).Taken?
    ensures |ExtractFile(AppPipeline(s), env, path).table.rows| == |g.rows| - (s.dataStartRow - 1)
    ensures -|g.rows| <= s.headerRow - 1 < |g.rows|
    ensures var h := RowAt(g.rows, s.headerRow - 1).value;
      HeaderColumns(ExtractFile(AppPipeline(s), env, path).table, g, h, s.dataStartRow - 1,
                    SelectedPositions(h, ParseColumnList(s.columnsToExtract)))
  {
    ExtractFileRaw(AppPipeline(s), env, path, g);
  }

  /**
   * A written run holds exactly the rows the files contributed when every
   * collected table has distinct labels (otherwise pandas may refuse to
   * concatenate).
   */
  lemma WrittenRows(env: Env, s: AppSettings)
    requires s.folderPath != ""
    requires var ts := Accumulated(AppPipeline(s), env, XlsmElseXlsx(env, s.folderPath));
      ts != [] && AllUnique(ts)
    ensures var r := RunOutcome(env, s);
      r.Written? && |r.table.rows| == ExtractedRows(AppPipeline(s), env, XlsmElseXlsx(env, s.folderPath))
  {
    var files := XlsmElseXlsx(env, s.folderPath);
    CombineRowCount(AppPipeline(s), env, files);
    assert files != [];
  }
}
