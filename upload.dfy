/** The top level of the script: the uploaded file's extension chooses the PDF
    scanner or the spreadsheet mapper, and both yield a data frame with the
    canonical columns (or an empty one). */
module Upload {
  import opened Text
  import opened Sheet
  import PdfScan

  /** `name.split('.')[-1]`: the text after the last dot, or the whole name when it has none. */
  function Extension(name: string): (r: string)
    ensures '.' !in r
    ensures |r| <= |name| && r == name[|name| - |r|..]
    ensures |r| == |name| || name[|name| - |r| - 1] == '.'
    decreases |name|
  {
    if name == [] then []
    else if name[|name| - 1] == '.' then []
    else Extension(name[..|name| - 1]) + [name[|name| - 1]]
  }

  /** The extension of `base.ext` is `ext` whenever `ext` holds no dot. */
  lemma {:induction false} ExtensionAfterDot(base: string, ext: string)
    requires '.' !in ext
    ensures Extension(base + "." + ext) == ext
    decreases |ext|
  {
    var name := base + "." + ext;
    if ext == [] {
      assert name[|name| - 1] == '.';
    } else {
      var n := |ext| - 1;
      assert name[..|name| - 1] == base + "." + ext[..n];
      assert name[|name| - 1] == ext[n];
      ExtensionAfterDot(base, ext[..n]);
      assert ext[..n] + [ext[n]] == ext;
    }
  }

  datatype Route = Pdf | Spreadsheet

  /** `file_type == 'pdf'` after lower-casing the extension. */
  function RouteOf(name: string): Route {
    if Lower(Extension(name)) == "pdf" then Pdf else Spreadsheet
  }

  /** The route depends on the extension alone, whatever its letter case. */
  lemma RouteByExtension(base: string, ext: string)
    requires '.' !in ext
    ensures RouteOf(base + "." + ext) == Pdf <==> Lower(ext) == "pdf"
  {
    ExtensionAfterDot(base, ext);
  }

  /** One record as a row of the data frame `pd.DataFrame(data)`: each dictionary
      key's value lands under the column of the same canonical name. */
  function RecordRow(r: PdfScan.PanelRecord): (row: Row)
    ensures |row| == 5 && Absent !in row
    ensures row[Rank(Type)] == TextCell(r.unitType) && row[Rank(Count)] == Number(r.count)
    ensures row[Rank(Height)] == Number(r.height) && row[Rank(Width)] == Number(r.width)
    ensures row[Rank(Depth)] == Number(r.depth)
  {
    [TextCell(r.unitType), Number(r.count), Number(r.height), Number(r.width), Number(r.depth)]
  }

  /** `pd.DataFrame(data)` for the list of record dictionaries: no columns when the list is empty. */
  function RecordsTable(recs: seq<PdfScan.PanelRecord>): (t: Table)
    ensures IsEmpty(t) <==> recs == []
    ensures recs != [] ==>
              && t.columns == CanonicalNames && |t.rows| == |recs|
              && forall i :: 0 <= i < |recs| ==> t.rows[i] == RecordRow(recs[i])
  {
    if recs == [] then EmptyTable
    else Table(CanonicalNames, seq(|recs|, i requires 0 <= i < |recs| => RecordRow(recs[i])))
  }

  /** The script body for an uploaded file named `name`, whose content is given
      both as page texts (read when it is a PDF) and as a loaded table (read otherwise).
      The spreadsheet precondition is that of `ExtractFromTable`. */
  method ExtractUpload(name: string, pages: seq<Option<string>>, cols: seq<string>, rows: seq<Row>)
    returns (t: Table)
    requires RouteOf(name) == Spreadsheet ==> Rectangular(cols, rows) && Distinct(NormalizeAll(cols))
    ensures RouteOf(name) == Pdf ==> t == RecordsTable(PdfScan.PagesRecords(pages))
    ensures RouteOf(name) == Spreadsheet ==> t == SheetResult(cols, rows)
  {
    var fileType := Lower(Extension(name));
    if fileType == "pdf" {
      var data := PdfScan.ExtractFromPdf(pages);
      t := RecordsTable(data);
    } else {
      t := ExtractFromTable(cols, rows);
    }
  }

  /** A PDF whose only page holds the label line gives a one-row frame. */
  lemma PdfLabelLineTable()
    ensures RecordsTable(PdfScan.PagesRecords([Some(PdfScan.LabelLine)]))
      == Table(CanonicalNames, [[TextCell("Grc.L"), Number(1), Number(175), Number(3235), Number(525)]])
  {
    PdfScan.SingleLabelLine();
  }
}
