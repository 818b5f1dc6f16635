/**
 * Turning a raw grid into a table: one row (by position) becomes the header,
 * the rows from the data position on become the data.
 */
module Normalizer {

  import opened Common
  import opened Tables
  import opened Header

  /** The outcome of normalising one grid. */
  datatype Framed = Framed(table: Table) | TooFewRows | NoHeaderRow

  /** The column labels taken from the header row, de-duplicated as text or kept as they are. */
  function HeaderLabels(header: Row, dedup: bool): (labels: seq<Cell>)
    ensures |labels| == |header|
    ensures dedup ==> labels == TextLabels(Deduplicate(Texts(header)))
    ensures !dedup ==> labels == header
  {
    if dedup then TextLabels(Deduplicate(Texts(header))) else header
  }

  /**
   * Header and data sliced out of a grid, with Python's positional rules:
   * a negative header position counts from the end and one out of range
   * raises; the data slice never raises.
   */
  function Frame(g: Grid, headerIndex: int, dataIndex: int, dedup: bool): (r: Option<Table>)
    ensures r.None? <==> !(-|g.rows| <= headerIndex < |g.rows|)
    ensures r.Some? ==> r.value.Valid()
    ensures r.Some? ==> (r.value.rows == RowsFrom(g.rows, dataIndex)
                         && r.value.labels == HeaderLabels(RowAt(g.rows, headerIndex).value, dedup))
  {
    match RowAt(g.rows, headerIndex)
    case None => None
    case Some(header) => Some(Table(HeaderLabels(header, dedup), RowsFrom(g.rows, dataIndex)))
  }

  /** The per-file normaliser: a grid with fewer rows than the data position is refused first. */
  function Normalize(g: Grid, headerIndex: int, dataIndex: int, dedup: bool): (r: Framed)
    ensures r.TooFewRows? <==> |g.rows| < dataIndex
    ensures r.NoHeaderRow? <==> dataIndex <= |g.rows| && Frame(g, headerIndex, dataIndex, dedup).None?
    ensures r.Framed? ==> Some(r.table) == Frame(g, headerIndex, dataIndex, dedup)
  {
    if |g.rows| < dataIndex then TooFewRows
    else
      match Frame(g, headerIndex, dataIndex, dedup)
      case None => NoHeaderRow
      case Some(t) => Framed(t)
  }

  /**
   * A grid that passes the guard with a header row in range yields exactly the
   * rows from the data position on, under the labels of the header row.
   */
  lemma NormalizeShape(g: Grid, headerIndex: nat, dataIndex: nat, dedup: bool)
    requires dataIndex <= |g.rows| && headerIndex < |g.rows|
    ensures Normalize(g, headerIndex, dataIndex, dedup).Framed?
    ensures var t := Normalize(g, headerIndex, dataIndex, dedup).table;
      && t.rows == g.rows[dataIndex..]
      && |t.rows| == |g.rows| - dataIndex
      && t.labels == HeaderLabels(g.rows[headerIndex], dedup)
  {
  }

  /**
   * The guard compares against the data position itself: a grid with exactly
   * that many rows passes, with no data rows.
   */
  lemma GuardAdmitsEmptyData(g: Grid, headerIndex: nat, dedup: bool)
    requires headerIndex < |g.rows|
    ensures var r := Normalize(g, headerIndex, |g.rows|, dedup);
      r.Framed? && r.table.rows == []
  {
  }

  /** A header position of -1 (a 1-based setting of 0) takes the grid's last row as the header. */
  lemma HeaderZeroTakesLastRow(g: Grid, dataIndex: int, dedup: bool)
    requires |g.rows| > 0 && dataIndex <= |g.rows|
    ensures var r := Normalize(g, -1, dataIndex, dedup);
      r.Framed? && r.table.labels == HeaderLabels(g.rows[|g.rows| - 1], dedup)
  {
  }
}
