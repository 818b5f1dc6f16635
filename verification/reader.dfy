/**
 * The reading side of the pipeline. The file system, the spreadsheet and CSV
 * parsers, path handling and Python's `unicode_escape` codec are outside the
 * model: they are the fields of an `Env` value, and every operation that
 * needs them takes it as a parameter.
 */
module Reader {

  import opened Common
  import opened Tables

  /** Which worksheet `read_excel` opens: a named one, or the first (pandas' default). */
  datatype Sheet = Named(name: string) | FirstSheet

  datatype Encoding = Utf8 | Latin1

  /** How a file is parsed: as a workbook, or as delimited text (`sep` absent: a comma). */
  datatype Format =
    | Workbook(sheet: Sheet)
    | Delimited(sep: Option<string>, skipBadLines: bool, encoding: Encoding)

  /** What a parser call does: a grid, a `UnicodeDecodeError`, or any other exception. */
  datatype ReadResult = Read(grid: Grid) | Undecodable | ReadError

  /** The calls into code outside the model. */
  datatype Env = Env(
    glob: string -> seq<string>,
    read: (string, Format) -> ReadResult,
    baseName: string -> string,
    joinPath: (string, string) -> string,
    unescape: string -> Option<string>)

  /** What the per-file read step leaves in `df_full`. */
  datatype Loaded = Loaded(grid: Grid) | NoFrame | Raised

  /** How a script reads its input files: v4.8 reads every kind, the other scripts workbooks only. */
  datatype ReadPolicy =
    | AnyFormat(sheet: string, txtSep: string)
    | WorkbookOnly(sheet: string)

  predicate EndsWith(s: string, suffix: string) {
    |suffix| <= |s| && s[|s| - |suffix|..] == suffix
  }

  predicate IsWorkbookPath(path: string) {
    EndsWith(path, ".xlsx") || EndsWith(path, ".xlsm")
  }

  /** A parse that must succeed: any failure is an exception. */
  function Strict(r: ReadResult): Loaded {
    if r.Read? then Loaded(r.grid) else Raised
  }

  /** A delimited read in UTF-8, repeated in Latin-1 when the bytes do not decode. */
  function ReadDelimited(env: Env, path: string, sep: Option<string>, skipBadLines: bool): (r: Loaded)
    ensures r != NoFrame
    ensures env.read(path, Delimited(sep, skipBadLines, Utf8)).Read? ==>
              r == Loaded(env.read(path, Delimited(sep, skipBadLines, Utf8)).grid)
    ensures r.Loaded? ==>
              || env.read(path, Delimited(sep, skipBadLines, Utf8)) == Read(r.grid)
              || (&& env.read(path, Delimited(sep, skipBadLines, Utf8)) == Undecodable
                  && env.read(path, Delimited(sep, skipBadLines, Latin1)) == Read(r.grid))
  {
    match env.read(path, Delimited(sep, skipBadLines, Utf8))
    case Read(g) => Loaded(g)
    case ReadError => Raised
    case Undecodable => Strict(env.read(path, Delimited(sep, skipBadLines, Latin1)))
  }

  /** Reading one input file: the parser is chosen by the path's suffix. */
  function LoadInput(env: Env, policy: ReadPolicy, path: string): (r: Loaded)
    ensures r.NoFrame? <==>
              policy.AnyFormat? && !IsWorkbookPath(path) && !EndsWith(path, ".csv") && !EndsWith(path, ".txt")
    ensures policy.WorkbookOnly? || IsWorkbookPath(path) ==>
              (r.Loaded? <==> env.read(path, Workbook(Named(policy.sheet))).Read?)
  {
    match policy
    case WorkbookOnly(sheet) => Strict(env.read(path, Workbook(Named(sheet))))
    case AnyFormat(sheet, txtSep) =>
      if IsWorkbookPath(path) then Strict(env.read(path, Workbook(Named(sheet))))
      else if EndsWith(path, ".csv") then ReadDelimited(env, path, None, true)
      else if EndsWith(path, ".txt") then ReadDelimited(env, path, Some(txtSep), true)
      else NoFrame
  }

  /**
   * A file that is loaded was parsed by the parser its suffix selects, in
   * UTF-8 or, only after UTF-8 failed to decode, in Latin-1; a file of any
   * other suffix yields no frame; a workbook is never re-read.
   */
  lemma LoadInputSource(env: Env, policy: ReadPolicy, path: string)
    ensures var r := LoadInput(env, policy, path);
      && (r.NoFrame? <==> policy.AnyFormat? && !IsWorkbookPath(path) && !EndsWith(path, ".csv") && !EndsWith(path, ".txt"))
      && (r.Loaded? && (policy.WorkbookOnly? || IsWorkbookPath(path)) ==>
            env.read(path, Workbook(Named(policy.sheet))) == Read(r.grid))
      && (r.Loaded? && policy.AnyFormat? && !IsWorkbookPath(path) ==>
            var sep := if EndsWith(path, ".csv") then None else Some(policy.txtSep);
            env.read(path, Delimited(sep, true, Utf8)) == Read(r.grid)
            || (env.read(path, Delimited(sep, true, Utf8)) == Undecodable
                && env.read(path, Delimited(sep, true, Latin1)) == Read(r.grid)))
  {
  }

  /**
   * Reading the lookup file. A `.txt` lookup (when enabled) is read with the
   * unescaped lookup delimiter, a `.csv` with commas, anything else as the
   * first sheet of a workbook; no bad line is skipped. A decode failure is
   * retried in Latin-1 for the delimited kinds and leaves no frame for a
   * workbook.
   */
  function LoadLookup(env: Env, path: string, txtEnabled: bool, txtDelimiter: string): (r: Loaded)
    ensures r.NoFrame? ==> !(txtEnabled && EndsWith(path, ".txt")) && !EndsWith(path, ".csv")
                           && env.read(path, Workbook(FirstSheet)) == Undecodable
    ensures txtEnabled && EndsWith(path, ".txt") && env.unescape(txtDelimiter).None? ==> r.Raised?
  {
    if txtEnabled && EndsWith(path, ".txt") then
      match env.unescape(txtDelimiter)
      case None => Raised
      case Some(sep) => ReadDelimited(env, path, Some(sep), false)
    else if EndsWith(path, ".csv") then ReadDelimited(env, path, None, false)
    else
      match env.read(path, Workbook(FirstSheet))
      case Read(g) => Loaded(g)
      case Undecodable => NoFrame
      case ReadError => Raised
  }
}
