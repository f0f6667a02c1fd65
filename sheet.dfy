/**
 * What `process_excel_file` does to the sheet, as functions: the rows it
 * visits, what it writes into one row, and the sweep over the visited rows
 * with a save after every tenth processed profile and a final save.
 */
module Sheet {
  import opened Wrappers
  import opened Text
  import opened Phone
  import opened Page
  import opened Extraction

  /**
   * The first cell of a row: missing or falsy (`NaN`, the empty string),
   * a text, or a truthy value that is not text, on which `startswith` raises
   * the error whose message is `error`.
   */
  datatype UrlCell = Blank | Url(text: string) | NonText(error: string)

  /** A row of the sheet: the profile URL and the two phone columns. */
  datatype Row = Row(url: UrlCell, phone1: string, phone2: string)

  /** A write of the whole sheet, after `processed` profiles. */
  datatype Save = Save(processed: nat, rows: seq<Row>)

  const NoUrl := "No URL"
  const NoPhoneFound := "No phone found"
  const ErrorPrefix := "Error: "
  const SaveEvery: nat := 10

  /** A URL that does not start with `http` gets `https://` in place of its leading slashes. */
  function NormalizeUrl(url: string): (r: string)
    ensures StartsWith(r, "http")
    ensures StartsWith(url, "http") ==> r == url
    ensures !StartsWith(url, "http") ==>
              8 <= |r| <= |url| + 8 && r[..8] == "https://" && r[8..] == url[|url| - (|r| - 8)..] && (|r| == 8 || r[8] != '/')
  {
    if StartsWith(url, "http") then url
    else
      var r := "https://" + TrimSlashes(url);
      assert r[..4] == "http";
      assert r[8..] == TrimSlashes(url);
      r
  }

  /** Normalising twice is normalising once. */
  lemma NormalizeUrlIdempotent(url: string)
    ensures NormalizeUrl(NormalizeUrl(url)) == NormalizeUrl(url)
  {
  }

  /** What a non-`http` URL loses in normalising is leading slashes only. */
  lemma NormalizeUrlDropsOnlySlashes(url: string)
    requires !StartsWith(url, "http")
    ensures forall i :: 0 <= i < |url| - (|NormalizeUrl(url)| - 8) ==> url[i] == '/'
  {
    LeadingRunSatisfies(url, IsSlash);
  }

  /** The `Phone1` cell for the phones of a profile. */
  function Phone1Cell(phones: seq<string>): string {
    if |phones| > 0 then phones[0] else NoPhoneFound
  }

  /** The `Phone2` cell for the phones of a profile. */
  function Phone2Cell(phones: seq<string>): string {
    if |phones| > 1 then phones[1] else ""
  }

  /** The row after its visit, and whether it counts as a processed profile. */
  datatype Visit = Visit(row: Row, counted: bool)

  /**
   * One visited row. A missing URL writes `No URL` and a value that is not
   * text writes the error; neither counts. A URL is normalised, its page is
   * scraped, and both phone cells are written.
   */
  function VisitRow(row: Row, web: string -> Page): (v: Visit)
    ensures v.row.url == row.url
    ensures v.counted <==> row.url.Url? && row.url.text != ""
    ensures !v.counted ==> v.row.phone2 == row.phone2
    ensures (row.url.Blank? || row.url == Url("")) ==> v.row.phone1 == NoUrl
    ensures row.url.NonText? ==> v.row.phone1 == ErrorPrefix + row.url.error
    ensures v.counted ==> (IsCanonical(v.row.phone1) || v.row.phone1 == NoPhoneFound)
    ensures v.counted ==> v.row.phone2 == "" || (IsCanonical(v.row.phone2) && v.row.phone2 != v.row.phone1)
    ensures v.counted ==>
              var ps := Extract(web(NormalizeUrl(row.url.text))).phones;
              v.row.phone1 == (if ps == [] then NoPhoneFound else ps[0]) &&
              v.row.phone2 == (if |ps| > 1 then ps[1] else "")
  {
    match row.url
    case Blank => Visit(row.(phone1 := NoUrl), false)
    case NonText(error) => Visit(row.(phone1 := ErrorPrefix + error), false)
    case Url(text) =>
      if text == "" then Visit(row.(phone1 := NoUrl), false)
      else
        var phones := Extract(web(NormalizeUrl(text))).phones;
        Visit(row.(phone1 := Phone1Cell(phones), phone2 := Phone2Cell(phones)), true)
  }

  /** The visit of every row on the pages `web` gives. */
  function Visitor(web: string -> Page): Row -> Visit {
    row => VisitRow(row, web)
  }

  /** `visit` gives what `VisitRow` gives on `web` wherever `VisitRow` is looked at. */
  ghost predicate VisitsOn(visit: Row -> Visit, web: string -> Page) {
    forall row {:trigger VisitRow(row, web)} :: visit(row) == VisitRow(row, web)
  }

  /** `max_rows` limits the range only when it is given and not zero. */
  predicate Limits(maxRows: Option<int>) {
    maxRows.Some? && maxRows.value != 0
  }

  /** `start_index` and `end_index` of the row loop. */
  function Bounds(len: nat, startRow: int, maxRows: Option<int>): (int, int) {
    var lo := startRow - 1;
    (lo, if Limits(maxRows) then (if len < lo + maxRows.value then len else lo + maxRows.value) else len)
  }

  /** The row at index `i` is one the loop is meant to visit. */
  predicate Wanted(i: int, len: nat, startRow: int, maxRows: Option<int>) {
    startRow - 1 <= i < len && (Limits(maxRows) ==> i < startRow - 1 + maxRows.value)
  }

  /**
   * The loop visits exactly the rows from `start_row - 1` on that exist,
   * and no more than `max_rows` of them when it limits the range.
   */
  lemma BoundsVisitWanted(len: nat, startRow: int, maxRows: Option<int>)
    ensures forall i :: Bounds(len, startRow, maxRows).0 <= i < Bounds(len, startRow, maxRows).1 <==>
                        Wanted(i, len, startRow, maxRows)
    ensures Limits(maxRows) ==> Bounds(len, startRow, maxRows).1 - Bounds(len, startRow, maxRows).0 <= maxRows.value
  {
  }

  /** The sheet, the number of processed profiles and the saves so far. */
  datatype Progress = Progress(rows: seq<Row>, processed: nat, saves: seq<Save>)

  /**
   * One pass of the row loop at index `i`: the row is rewritten and, when it
   * counts, the count goes up and every tenth count saves the sheet.
   */
  function Advance(p: Progress, i: nat, visit: Row -> Visit): (q: Progress)
    requires i < |p.rows|
    ensures |q.rows| == |p.rows|
  {
    var v := visit(p.rows[i]);
    var rows := p.rows[i := v.row];
    if !v.counted then Progress(rows, p.processed, p.saves)
    else
      var processed := p.processed + 1;
      Progress(rows, processed, if processed % SaveEvery == 0 then p.saves + [Save(processed, rows)] else p.saves)
  }

  /**
   * The state after the loop has applied `visit` to the `n` rows from index
   * `lo`; `process_excel_file` visits with `VisitRow` on the scraped web.
   */
  function Sweep(rows0: seq<Row>, lo: nat, n: nat, visit: Row -> Visit): (p: Progress)
    requires n == 0 || lo + n <= |rows0|
    ensures |p.rows| == |rows0|
    decreases n
  {
    if n == 0 then Progress(rows0, 0, [])
    else Advance(Sweep(rows0, lo, n - 1, visit), lo + n - 1, visit)
  }

  /** One more row of the range is one more pass of the loop. */
  lemma SweepAdvances(rows0: seq<Row>, lo: nat, n: nat, visit: Row -> Visit)
    requires lo + n < |rows0|
    ensures Sweep(rows0, lo, n + 1, visit) == Advance(Sweep(rows0, lo, n, visit), lo + n, visit)
  {
  }

  /** The number of rows in the range, as the loop over `range(start_index, end_index)` sees it. */
  function RangeLength(lo: int, hi: int): nat {
    if lo < hi then hi - lo else 0
  }

  /**
   * `process_excel_file`: the sheet after the run and every save made. An
   * empty sheet is left alone and never saved; otherwise the last save is
   * the final sheet.
   */
  function ProcessSheet(rows0: seq<Row>, startRow: int, maxRows: Option<int>, web: string -> Page): (r: (seq<Row>, seq<Save>))
    requires startRow >= 1
    ensures |r.0| == |rows0|
    ensures rows0 == [] ==> r == (rows0, [])
    ensures rows0 != [] ==> r.1 != [] && r.1[|r.1| - 1].rows == r.0
  {
    if rows0 == [] then (rows0, [])
    else
      var (lo, hi) := Bounds(|rows0|, startRow, maxRows);
      var p := Sweep(rows0, lo, RangeLength(lo, hi), Visitor(web));
      (p.rows, p.saves + [Save(p.processed, p.rows)])
  }

  /** Each visited row holds what its visit writes; every other row is untouched. */
  lemma {:induction false} SweepRows(rows0: seq<Row>, lo: nat, n: nat, visit: Row -> Visit)
    requires n == 0 || lo + n <= |rows0|
    ensures forall i :: 0 <= i < |rows0| ==>
              Sweep(rows0, lo, n, visit).rows[i] == if lo <= i < lo + n then visit(rows0[i]).row else rows0[i]
    decreases n
  {
    if n > 0 {
      SweepRows(rows0, lo, n - 1, visit);
    }
  }

  /**
   * A save is made after every tenth processed profile and at no other
   * point of the loop: the k-th save comes after 10 * (k + 1) profiles.
   */
  lemma {:induction false} SweepSaveCadence(rows0: seq<Row>, lo: nat, n: nat, visit: Row -> Visit)
    requires n == 0 || lo + n <= |rows0|
    ensures |Sweep(rows0, lo, n, visit).saves| == Sweep(rows0, lo, n, visit).processed / SaveEvery
    ensures forall k :: 0 <= k < |Sweep(rows0, lo, n, visit).saves| ==>
              Sweep(rows0, lo, n, visit).saves[k].processed == SaveEvery * (k + 1)
    ensures Sweep(rows0, lo, n, visit).processed <= n
    decreases n
  {
    if n > 0 {
      SweepSaveCadence(rows0, lo, n - 1, visit);
    }
  }

  /** The number of rows among the `n` from index `lo` whose visit counts them. */
  function Counted(rows0: seq<Row>, lo: nat, n: nat, visit: Row -> Visit): (c: nat)
    requires n == 0 || lo + n <= |rows0|
    ensures c <= n
    decreases n
  {
    if n == 0 then 0
    else Counted(rows0, lo, n - 1, visit) + if visit(rows0[lo + n - 1]).counted then 1 else 0
  }

  /** The loop's count is the number of rows in the range that reached `extract_phones`. */
  lemma {:induction false} SweepCountsCounted(rows0: seq<Row>, lo: nat, n: nat, visit: Row -> Visit)
    requires n == 0 || lo + n <= |rows0|
    ensures Sweep(rows0, lo, n, visit).processed == Counted(rows0, lo, n, visit)
    decreases n
  {
    if n > 0 {
      SweepCountsCounted(rows0, lo, n - 1, visit);
      SweepRows(rows0, lo, n - 1, visit);
      assert Sweep(rows0, lo, n - 1, visit).rows[lo + n - 1] == rows0[lo + n - 1];
    }
  }

  /**
   * `save` was made right after the `m`-th row of the range was written:
   * that row counted, and the save holds the count and the sheet as they
   * stood then.
   */
  ghost predicate SavedAfter(save: Save, rows0: seq<Row>, lo: nat, m: int, visit: Row -> Visit) {
    0 < m && lo + m <= |rows0| && visit(rows0[lo + m - 1]).counted &&
    save == Save(Sweep(rows0, lo, m, visit).processed, Sweep(rows0, lo, m, visit).rows)
  }

  /** `save` was made right after one of the first `n` rows of the range was written. */
  ghost predicate SnapshotWithin(save: Save, rows0: seq<Row>, lo: nat, n: nat, visit: Row -> Visit) {
    exists m :: m <= n && SavedAfter(save, rows0, lo, m, visit)
  }

  /** Every save of the loop is a snapshot taken right after a counted row was written. */
  lemma {:induction false} SweepSavesAreSnapshots(rows0: seq<Row>, lo: nat, n: nat, visit: Row -> Visit)
    requires n == 0 || lo + n <= |rows0|
    ensures forall k :: 0 <= k < |Sweep(rows0, lo, n, visit).saves| ==>
              SnapshotWithin(Sweep(rows0, lo, n, visit).saves[k], rows0, lo, n, visit)
    decreases n
  {
    if n > 0 {
      SweepSavesAreSnapshots(rows0, lo, n - 1, visit);
      var p, q := Sweep(rows0, lo, n - 1, visit), Sweep(rows0, lo, n, visit);
      SweepRows(rows0, lo, n - 1, visit);
      assert p.rows[lo + n - 1] == rows0[lo + n - 1];
      forall k | 0 <= k < |q.saves|
        ensures SnapshotWithin(q.saves[k], rows0, lo, n, visit)
      {
        if k < |p.saves| {
          assert SnapshotWithin(p.saves[k], rows0, lo, n - 1, visit);
          var m :| m <= n - 1 && SavedAfter(p.saves[k], rows0, lo, m, visit);
          assert q.saves[k] == p.saves[k];
          assert SavedAfter(q.saves[k], rows0, lo, m, visit);
        } else {
          assert SavedAfter(q.saves[k], rows0, lo, n, visit);
        }
      }
    }
  }

  /** With the default `start_row` of 2 the first data row is never visited. */
  lemma DefaultStartSkipsFirstRow(rows0: seq<Row>, maxRows: Option<int>, web: string -> Page)
    requires rows0 != []
    ensures ProcessSheet(rows0, 2, maxRows, web).0[0] == rows0[0]
  {
    var (lo, hi) := Bounds(|rows0|, 2, maxRows);
    SweepRows(rows0, lo, RangeLength(lo, hi), Visitor(web));
  }
}
