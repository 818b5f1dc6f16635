/**
 * The run of the v4.8 application: the required-settings check that guards
 * it, then the pipeline over every file of the input folder, the optional
 * merge with a lookup file, and the choice of output path and writer.
 */
module CombinerApp {

  import opened Common
  import opened Strings
  import opened Tables
  import opened Reader
  import opened Discovery
  import opened Combiner
  import opened Concat
  import opened Assembly
  import opened Enricher

  /**
   * The settings record. A row setting is a number, or `None` when its field
   * was saved blank (the settings dialog keeps a blank entry as an empty string).
   */
  datatype Settings = Settings(
    inputFolder: string,
    outputFolder: string,
    sheetName: string,
    headerRow: Option<int>,
    dataStartRow: Option<int>,
    columnsToExtract: string,
    outputFilename: string,
    outputFormat: string,
    enableMerge: bool,
    lookupFilePath: string,
    sourceKeyColumn: string,
    lookupKeyColumn: string,
    lookupColumnsToAdd: string,
    enableTxtProcessing: bool,
    txtDelimiter: string,
    enableLookupTxt: bool,
    lookupTxtDelimiter: string,
    lookupHeaderRow: Option<int>,
    lookupDataStartRow: Option<int>)

  /** The settings the run may insist on. */
  datatype Field =
    | InputFolder | OutputFolder | SheetName | HeaderRow | DataStartRow | OutputFilename
    | TxtDelimiter
    | LookupFilePath | LookupHeaderRow | LookupDataStartRow | SourceKeyColumn | LookupKeyColumn
    | LookupColumnsToAdd
    | LookupTxtDelimiter

  /** `str(settings[field])`. */
  function FieldText(s: Settings, f: Field): string {
    match f
    case InputFolder => s.inputFolder
    case OutputFolder => s.outputFolder
    case SheetName => s.sheetName
    case HeaderRow => RowText(s.headerRow)
    case DataStartRow => RowText(s.dataStartRow)
    case OutputFilename => s.outputFilename
    case TxtDelimiter => s.txtDelimiter
    case LookupFilePath => s.lookupFilePath
    case LookupHeaderRow => RowText(s.lookupHeaderRow)
    case LookupDataStartRow => RowText(s.lookupDataStartRow)
    case SourceKeyColumn => s.sourceKeyColumn
    case LookupKeyColumn => s.lookupKeyColumn
    case LookupColumnsToAdd => s.lookupColumnsToAdd
    case LookupTxtDelimiter => s.lookupTxtDelimiter
  }

  function RowText(r: Option<int>): string {
    match r
    case None => ""
    case Some(n) => IntText(n)
  }

  const BASE_FIELDS: seq<Field> := [InputFolder, OutputFolder, SheetName, HeaderRow, DataStartRow, OutputFilename]
  const MERGE_FIELDS: seq<Field> :=
    [LookupFilePath, LookupHeaderRow, LookupDataStartRow, SourceKeyColumn, LookupKeyColumn, LookupColumnsToAdd]

  /**
   * The required fields, in order: the six base fields, the input delimiter
   * with text input, the six merge fields with merging, and the lookup
   * delimiter only with both merging and lookup text input.
   */
  function Required(s: Settings): (r: seq<Field>)
    ensures |r| >= 6 && r[..6] == BASE_FIELDS
    ensures TxtDelimiter in r <==> s.enableTxtProcessing
    ensures LookupTxtDelimiter in r <==> s.enableMerge && s.enableLookupTxt
    ensures forall f :: f in MERGE_FIELDS ==> (f in r <==> s.enableMerge)
  {
    var txt := if s.enableTxtProcessing then [TxtDelimiter] else [];
    var merge := if s.enableMerge then MERGE_FIELDS + (if s.enableLookupTxt then [LookupTxtDelimiter] else []) else [];
    assert (BASE_FIELDS + txt + merge)[..6] == BASE_FIELDS;
    BASE_FIELDS + txt + merge
  }

  /** The `required_fields` list, built by appending as the application does. */
  method RequiredFields(s: Settings) returns (requiredFields: seq<Field>)
    ensures requiredFields == Required(s)
  {
    requiredFields := BASE_FIELDS;
    if s.enableTxtProcessing {
      requiredFields := requiredFields + [TxtDelimiter];
    }
    if s.enableMerge {
      requiredFields := requiredFields + MERGE_FIELDS;
      if s.enableLookupTxt {
        requiredFields := requiredFields + [LookupTxtDelimiter];
      }
    }
  }

  /** `not str(settings[field]).strip()`: the text is whitespace only (see `StripBlankIffAllSpace`). */
  predicate IsBlank(s: Settings, f: Field) {
    AllSpace(FieldText(s, f))
  }

  /** The fields among `fields` whose text is blank once trimmed, in the order of `fields`. */
  function MissingFields(s: Settings, fields: seq<Field>): (r: seq<Field>)
    ensures |r| <= |fields|
  {
    if fields == [] then []
    else (if IsBlank(s, fields[0]) then [fields[0]] else []) + MissingFields(s, fields[1..])
  }

  /** A field is reported missing exactly when it is one of `fields` and its text is blank. */
  lemma {:induction false} MissingFieldsMembers(s: Settings, fields: seq<Field>, f: Field)
    ensures f in MissingFields(s, fields) <==> f in fields && IsBlank(s, f)
  {
    if fields != [] {
      MissingFieldsMembers(s, fields[1..], f);
      assert fields == [fields[0]] + fields[1..];
    }
  }

  /** The missing fields of a concatenation are those of each part, in turn. */
  lemma {:induction false} MissingFieldsAppend(s: Settings, a: seq<Field>, b: seq<Field>)
    ensures MissingFields(s, a + b) == MissingFields(s, a) + MissingFields(s, b)
  {
    if a != [] {
      var ab := a + b;
      assert ab[0] == a[0] && ab[1..] == a[1..] + b;
      MissingFieldsAppend(s, a[1..], b);
      var head := if IsBlank(s, a[0]) then [a[0]] else [];
      assert MissingFields(s, ab) == head + MissingFields(s, a[1..] + b);
      assert MissingFields(s, a) == head + MissingFields(s, a[1..]);
    } else {
      assert a + b == b;
    }
  }

  /**
   * The missing fields of a run come in the order they are required: the
   * base fields first, then the text delimiter, then the merge fields.
   */
  lemma MissingFieldsInOrder(s: Settings)
    ensures MissingFields(s, Required(s))
         == MissingFields(s, BASE_FIELDS)
            + MissingFields(s, Required(s)[6..])
  {
    var r := Required(s);
    assert r == BASE_FIELDS + r[6..];
    MissingFieldsAppend(s, BASE_FIELDS, r[6..]);
  }

  /** A blank row field is always reported; a numeric one never is. */
  lemma RowFieldBlank(s: Settings, f: Field)
    requires f in {HeaderRow, DataStartRow, LookupHeaderRow, LookupDataStartRow}
    ensures IsBlank(s, f) <==> FieldText(s, f) == ""
  {
    var t := FieldText(s, f);
    if t != "" {
      assert t[0] in t;
    }
  }

  /**
   * Settings that pass the check have every row setting the run reads: the
   * input rows always, the lookup rows whenever merging is on.
   */
  lemma CompleteSettingsHaveRows(s: Settings)
    requires MissingFields(s, Required(s)) == []
    ensures s.headerRow.Some? && s.dataStartRow.Some?
    ensures s.enableMerge ==> s.lookupHeaderRow.Some? && s.lookupDataStartRow.Some?
  {
    var r := Required(s);
    assert r[..6][3] == HeaderRow && r[..6][4] == DataStartRow;
    BlankReported(s, r, HeaderRow);
    BlankReported(s, r, DataStartRow);
    if s.enableMerge {
      assert LookupHeaderRow in MERGE_FIELDS && LookupDataStartRow in MERGE_FIELDS;
      BlankReported(s, r, LookupHeaderRow);
      BlankReported(s, r, LookupDataStartRow);
    }
  }

  /** A required field with empty text is reported missing. */
  lemma BlankReported(s: Settings, fields: seq<Field>, f: Field)
    requires f in fields
    ensures FieldText(s, f) == "" ==> MissingFields(s, fields) != []
  {
    MissingFieldsMembers(s, fields, f);
  }

  /** What a run ends with. */
  datatype Outcome =
    | MissingSettings(fields: seq<Field>)
    | Crashed
    | NoFilesFound
    | NoDataExtracted
    | Saved(path: string, asWorkbook: bool, table: Table, mergeFailed: bool)

  /** The per-file settings of the pipeline: every input kind, de-duplicated headers, 0-based rows. */
  function InputPipeline(s: Settings, sep: string): (p: Pipeline)
    requires s.headerRow.Some? && s.dataStartRow.Some?
    ensures p.headerIndex == s.headerRow.value - 1 && p.dataIndex == s.dataStartRow.value - 1
    ensures p.dedup && p.policy == AnyFormat(s.sheetName, sep)
    ensures p.requested == ParseColumnList(s.columnsToExtract)
  {
    Pipeline(AnyFormat(s.sheetName, sep), s.headerRow.value - 1, s.dataStartRow.value - 1, true,
             ParseColumnList(s.columnsToExtract))
  }

  /** The files of the input folder, in discovery order. */
  function InputFiles(env: Env, s: Settings): seq<string> {
    GlobAll(env, s.inputFolder, Patterns(s.enableTxtProcessing))
  }

  /** The output file name: the format string is the extension, whatever it is. */
  function OutputName(s: Settings): (name: string)
    ensures EndsWith(name, "." + s.outputFormat)
    ensures |s.outputFilename| < |name| && name[..|s.outputFilename|] == s.outputFilename
  {
    s.outputFilename + "." + s.outputFormat
  }

  /** The merge settings read from the settings record: the lookup rows become 0-based, the names are parsed. */
  function LookupSettings(s: Settings): (m: MergeSettings)
    requires s.lookupHeaderRow.Some? && s.lookupDataStartRow.Some?
    ensures m.headerIndex == s.lookupHeaderRow.value - 1 && m.dataIndex == s.lookupDataStartRow.value - 1
    ensures m.lookupFile == s.lookupFilePath && m.sourceKey == s.sourceKeyColumn && m.lookupKey == s.lookupKeyColumn
    ensures m.colsToAdd == ParseColumnList(s.lookupColumnsToAdd)
    ensures m.txtEnabled == s.enableLookupTxt && m.txtDelimiter == s.lookupTxtDelimiter
  {
    MergeSettings(s.lookupFilePath, s.sourceKeyColumn, s.lookupKeyColumn,
                  ParseColumnList(s.lookupColumnsToAdd),
                  s.lookupHeaderRow.value - 1, s.lookupDataStartRow.value - 1,
                  s.enableLookupTxt, s.lookupTxtDelimiter)
  }

  /**
   * The merge step. Without merging the table is kept (`Merged` here only
   * means nothing failed); a lookup row setting that is blank raises before
   * the table is touched; otherwise it is the merge block on the settings.
   */
  function MergeStep(env: Env, s: Settings, t: Table): (r: MergeResult)
    requires t.Valid()
    ensures r.table.Valid()
    ensures !s.enableMerge ==> r == Merged(t)
    ensures s.enableMerge && (s.lookupHeaderRow.None? || s.lookupDataStartRow.None?) ==> r == MergeFailed(t)
    ensures s.enableMerge && s.lookupHeaderRow.Some? && s.lookupDataStartRow.Some? ==>
              r == Enrich(env, LookupSettings(s), t)
  {
    if !s.enableMerge then Merged(t)
    else if s.lookupHeaderRow.Some? && s.lookupDataStartRow.Some? then Enrich(env, LookupSettings(s), t)
    else MergeFailed(t)
  }

  /**
   * The specification of `process_files`. A blank input row setting or an
   * input delimiter that does not unescape raises before any file is looked
   * for; no matching file and no extracted table end the run with nothing
   * saved; a concatenation that raises ends it too. Otherwise the table, merged
   * or not, is saved to `<output folder>/<name>.<format>`, as a workbook only
   * for the format `xlsx`.
   */
  function ProcessOutcome(env: Env, s: Settings): (r: Outcome)
    ensures r.MissingSettings? == false
    ensures s.headerRow.None? || s.dataStartRow.None? || env.unescape(s.txtDelimiter).None? ==> r == Crashed
    ensures r.Saved? ==>
      && r.path == env.joinPath(s.outputFolder, OutputName(s))
      && (r.asWorkbook <==> s.outputFormat == "xlsx")
      && r.table.Valid()
      && (r.mergeFailed ==> s.enableMerge)
  {
    if s.headerRow.None? || s.dataStartRow.None? then Crashed
    else
      match env.unescape(s.txtDelimiter)
      case None => Crashed
      case Some(sep) =>
        var files := InputFiles(env, s);
        if files == [] then NoFilesFound
        else Finish(env, s, Combine(InputPipeline(s, sep), env, files))
  }

  /** What the run ends with once the files have been combined: merge (when enabled) and save. */
  function Finish(env: Env, s: Settings, c: Combined): (r: Outcome)
    requires c.Combined? ==> c.table.Valid()
    ensures c.NoData? ==> r == NoDataExtracted
    ensures c.ConcatRaised? ==> r == Crashed
    ensures c.Combined? ==>
      && r.Saved?
      && r.path == env.joinPath(s.outputFolder, OutputName(s))
      && (r.asWorkbook <==> s.outputFormat == "xlsx")
      && r.table == MergeStep(env, s, c.table).table
      && (r.mergeFailed <==> MergeStep(env, s, c.table).MergeFailed?)
  {
    match c
    case NoData => NoDataExtracted
    case ConcatRaised => Crashed
    case Combined(t) =>
      var m := MergeStep(env, s, t);
      Saved(env.joinPath(s.outputFolder, OutputName(s)), s.outputFormat == "xlsx", m.table, m.MergeFailed?)
  }

  /** `process_files`: discovery loop, accumulator loop, concatenation, merge, save. */
  method ProcessFiles(env: Env, s: Settings) returns (outcome: Outcome)
    ensures outcome == ProcessOutcome(env, s)
  {
    if s.headerRow.None? || s.dataStartRow.None? {
      return Crashed;
    }
    var sep := env.unescape(s.txtDelimiter);
    if sep.None? {
      return Crashed;
    }
    var allFiles := DiscoverFiles(env, s.inputFolder, s.enableTxtProcessing);
    if allFiles == [] {
      return NoFilesFound;
    }
    var combined := CombineFiles(InputPipeline(s, sep.value), env, allFiles);
    match combined
    case NoData =>
      outcome := NoDataExtracted;
    case ConcatRaised =>
      outcome := Crashed;
    case Combined(finalDf) =>
      var merge := MergeStep(env, s, finalDf);
      var fullOutputPath := env.joinPath(s.outputFolder, OutputName(s));
      outcome := Saved(fullOutputPath, s.outputFormat == "xlsx", merge.table, merge.MergeFailed?);
    assert outcome == Finish(env, s, combined);
  }

  /** The specification of `run_processing`: the required-fields check, then `process_files`. */
  function RunOutcome(env: Env, s: Settings): (r: Outcome)
    ensures r.MissingSettings? <==> MissingFields(s, Required(s)) != []
    ensures r.MissingSettings? ==> r.fields == MissingFields(s, Required(s))
    ensures !r.MissingSettings? ==> r == ProcessOutcome(env, s)
  {
    var missing := MissingFields(s, Required(s));
    if missing != [] then MissingSettings(missing) else ProcessOutcome(env, s)
  }

  /** `run_processing`. */
  method RunProcessing(env: Env, s: Settings) returns (outcome: Outcome)
    ensures outcome == RunOutcome(env, s)
  {
    var requiredFields := RequiredFields(s);
    var missingFields := MissingFields(s, requiredFields);
    if missingFields != [] {
      return MissingSettings(missingFields);
    }
    outcome := ProcessFiles(env, s);
  }

  /**
   * A run that passes the settings check does not crash on a row setting:
   * it crashes before discovery only when the input delimiter does not unescape.
   */
  lemma CheckedRunReachesDiscovery(env: Env, s: Settings)
    requires MissingFields(s, Required(s)) == []
    requires env.unescape(s.txtDelimiter).Some?
    ensures RunOutcome(env, s) == NoFilesFound <==> InputFiles(env, s) == []
  {
    CompleteSettingsHaveRows(s);
  }

  /** Past the row settings, the delimiter and discovery, the run is the files' combination, merged and saved. */
  lemma ProcessReachesFinish(env: Env, s: Settings, sep: string)
    requires s.headerRow.Some? && s.dataStartRow.Some?
    requires env.unescape(s.txtDelimiter) == Some(sep) && InputFiles(env, s) != []
    ensures ProcessOutcome(env, s) == Finish(env, s, Combine(InputPipeline(s, sep), env, InputFiles(env, s)))
  {
  }

  /**
   * A saved run without merging writes exactly the rows the files
   * contributed (when their labels are unique, so the tables are concatenated
   * rather than refused), and never reports a failed merge.
   */
  lemma SavedRowsWithoutMerge(env: Env, s: Settings, sep: string)
    requires !s.enableMerge && s.headerRow.Some? && s.dataStartRow.Some?
    requires env.unescape(s.txtDelimiter) == Some(sep) && InputFiles(env, s) != []
    requires var ts := Accumulated(InputPipeline(s, sep), env, InputFiles(env, s));
      ts != [] && AllUnique(ts)
    ensures var r := ProcessOutcome(env, s);
      && r.Saved? && !r.mergeFailed
      && |r.table.rows| == ExtractedRows(InputPipeline(s, sep), env, InputFiles(env, s))
  {
    ProcessReachesFinish(env, s, sep);
    CombineRowCount(InputPipeline(s, sep), env, InputFiles(env, s));
  }

  /**
   * A merge that raises does not stop the run: the table as it stood is
   * saved, flagged as a failed merge.
   */
  lemma FailedMergeStillSaves(env: Env, s: Settings, sep: string)
    requires s.enableMerge && s.headerRow.Some? && s.dataStartRow.Some?
    requires env.unescape(s.txtDelimiter) == Some(sep) && InputFiles(env, s) != []
    requires var c := Combine(InputPipeline(s, sep), env, InputFiles(env, s));
      c.Combined? && MergeStep(env, s, c.table).MergeFailed?
    ensures var r := ProcessOutcome(env, s);
      && r.Saved? && r.mergeFailed && r.path == env.joinPath(s.outputFolder, OutputName(s))
      && r.table == MergeStep(env, s, Combine(InputPipeline(s, sep), env, InputFiles(env, s)).table).table
  {
    ProcessReachesFinish(env, s, sep);
  }

  /** The default column request parses to its three names. */
  lemma DefaultRequest(s: Settings)
    requires s.columnsToExtract == "SKU, Price, Quantity"
    requires s.headerRow == Some(5) && s.dataStartRow == Some(7)
    ensures InputPipeline(s, "\t").requested == ["SKU", "Price", "Quantity"]
    ensures InputPipeline(s, "\t").headerIndex == 4 && InputPipeline(s, "\t").dataIndex == 6
  {
    ParseDefaultColumns();
  }
}
