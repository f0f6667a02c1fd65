/**
 * `process_excel_file` as the scraper runs it: the rows of the sheet are
 * updated in place, one visited row at a time, and the whole sheet is
 * saved after every tenth processed profile and once at the end.
 */
module Batch {
  import opened Wrappers
  import opened Page
  import opened Extraction
  import opened Extractor
  import opened Sheet

  /**
   * The body of the row loop for one row: what it writes into the row and
   * whether the row counts as a processed profile.
   */
  method ProcessRow(row: Row, web: string -> Page) returns (v: Visit)
    ensures v == VisitRow(row, web)
  {
    match row.url {
      case Blank =>
        v := Visit(row.(phone1 := NoUrl), false);
      case NonText(error) =>
        v := Visit(row.(phone1 := ErrorPrefix + error), false);
      case Url(text) =>
        if text == "" {
          v := Visit(row.(phone1 := NoUrl), false);
        } else {
          var url := NormalizeUrl(text);
          var phones, _ := ExtractPhones(web(url));
          v := Visit(row.(phone1 := Phone1Cell(phones), phone2 := Phone2Cell(phones)), true);
        }
    }
  }

  /**
   * Writes the visit of the row at `index` into the sheet and, when the row
   * counts, counts it and saves the sheet at every tenth count.
   */
  method WriteVisit(ghost visit: Row -> Visit, rows: array<Row>, index: nat, v: Visit, processed: nat, saves: seq<Save>)
    returns (processed': nat, saves': seq<Save>)
    requires index < rows.Length && v == visit(rows[index])
    modifies rows
    ensures Progress(rows[..], processed', saves') == Advance(Progress(old(rows[..]), processed, saves), index, visit)
  {
    ghost var before := rows[..];
    rows[index] := v.row;
    assert rows[..] == before[index := v.row];
    processed', saves' := processed, saves;
    if v.counted {
      processed' := processed' + 1;
      if processed' % SaveEvery == 0 {
        saves' := saves' + [Save(processed', rows[..])];
      }
    }
  }

  /** One pass of the row loop: the row at `index` is visited and its visit written. */
  method VisitIndex(ghost visit: Row -> Visit, rows: array<Row>, index: nat, processed: nat, saves: seq<Save>, web: string -> Page)
    returns (processed': nat, saves': seq<Save>)
    requires VisitsOn(visit, web) && index < rows.Length
    modifies rows
    ensures Progress(rows[..], processed', saves') == Advance(Progress(old(rows[..]), processed, saves), index, visit)
  {
    var v := ProcessRow(rows[index], web);
    processed', saves' := WriteVisit(visit, rows, index, v, processed, saves);
  }

  /**
   * The row loop over `range(lo, hi)`: every row in the range is visited in
   * turn and rewritten in place. The ghost `visit` is the row visit as the
   * proof sees it; `ProcessExcelFile` passes `Visitor(web)`.
   */
  method VisitRange(ghost visit: Row -> Visit, rows: array<Row>, lo: nat, hi: int, web: string -> Page)
    returns (processed: nat, saves: seq<Save>)
    requires VisitsOn(visit, web) && hi <= rows.Length
    modifies rows
    ensures Progress(rows[..], processed, saves) == Sweep(old(rows[..]), lo, RangeLength(lo, hi), visit)
  {
    ghost var rows0 := rows[..];
    processed, saves := 0, [];
    var index := lo;
    ghost var n := 0;
    while index < hi
      invariant index == lo + n
      invariant n == 0 || index <= hi
      invariant Progress(rows[..], processed, saves) == Sweep(rows0, lo, n, visit)
    {
      SweepAdvances(rows0, lo, n, visit);
      processed, saves := VisitIndex(visit, rows, index, processed, saves, web);
      index, n := index + 1, n + 1;
    }
  }

  /**
   * Runs the row loop over `rows` and returns the saves in the order they
   * were written. `web` gives the page each URL leads to.
   */
  method ProcessExcelFile(rows: array<Row>, startRow: int, maxRows: Option<int>, web: string -> Page)
    returns (saves: seq<Save>)
    requires startRow >= 1
    modifies rows
    ensures (rows[..], saves) == ProcessSheet(old(rows[..]), startRow, maxRows, web)
  {
    saves := [];
    if rows.Length == 0 {
      return;
    }
    var startIndex := startRow - 1;
    var endIndex := rows.Length;
    if maxRows.Some? && maxRows.value != 0 && startIndex + maxRows.value < endIndex {
      endIndex := startIndex + maxRows.value;
    }
    assert (startIndex, endIndex) == Bounds(rows.Length, startRow, maxRows);
    var processed;
    processed, saves := VisitRange(Visitor(web), rows, startIndex, endIndex, web);
    saves := saves + [Save(processed, rows[..])];
  }
}
