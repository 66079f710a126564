/** The export functions: the spreadsheet row mapping, the PDF and Word tables built row by
    row, and the empty-registry guard the three exporters share. */
module Reports {
  import opened Wrappers
  import opened Records
  import opened Html
  import opened Timestamp

  /** One spreadsheet row, keys No, Nama, NIK, Alamat, "Nominal (Rp)", "Tanggal Input".
      The amount is the parsed number itself, not a currency string. */
  datatype ExcelRow = ExcelRow(no: nat, nama: string, nik: string, alamat: string,
                               nominal: Option<int>, tanggalInput: string)

  /** The cells of one body row of the PDF or Word table. */
  datatype TableRow = TableRow(no: nat, nama: string, nik: string, alamat: string,
                               nominal: string, tanggalInput: string)

  /** The PDF fragment: its heading block and its table. */
  datatype PdfReport = PdfReport(printedAt: string, total: nat, header: seq<string>,
                                 rows: seq<TableRow>)

  /** The table generateWordTable returns. */
  datatype WordTable = WordTable(header: seq<string>, rows: seq<TableRow>)

  datatype ExcelFile = ExcelFile(fileName: string, sheetName: string, rows: seq<ExcelRow>)
  datatype PdfFile = PdfFile(fileName: string, report: PdfReport)
  datatype WordFile = WordFile(fileName: string, mimeType: string, title: string,
                               printedAt: string, total: nat, table: WordTable)

  /** The only way an export fails: there is nothing to export (a danger notice). */
  datatype ExportError = NothingToExport

  const ColumnHeaders: seq<string> := ["No", "Nama", "NIK", "Alamat", "Nominal (Rp)", "Tanggal Input"]
  const SheetName: string := "Data Penduduk"
  const WordMimeType: string := "application/vnd.ms-word"

  /** `Data_Penduduk_${this.getTimestamp()}.<extension>`. */
  function ExportFileName(now: DateTime, extension: string): (name: string)
    ensures var n := |name| - |extension| - 1;
      14 <= n && name[..14] == "Data_Penduduk_" && name[14..n] == GetTimestamp(now)
      && name[n..] == "." + extension
    ensures IsCalendarTime(now) ==> |name| == 28 + |extension|
  {
    var token := GetTimestamp(now);
    NameParts("Data_Penduduk_", token, "." + extension);
    "Data_Penduduk_" + token + ("." + extension)
  }

  /** Where the three parts of a concatenation sit. */
  lemma NameParts(prefix: string, middle: string, suffix: string)
    ensures var name := prefix + middle + suffix;
      name[..|prefix|] == prefix && name[|prefix|..|prefix| + |middle|] == middle
      && name[|prefix| + |middle|..] == suffix
  {
  }

  /** The spreadsheet rows for `data`, numbered from start + 1: row i is numbered
      start + i + 1 and copies entry i's fields unchanged. */
  function ExcelRowsFrom(data: seq<Entry>, start: nat): (rows: seq<ExcelRow>)
    ensures |rows| == |data|
    ensures forall i :: 0 <= i < |data| ==>
              rows[i].no == start + i + 1 && rows[i].nama == data[i].nama
              && rows[i].nik == data[i].nik && rows[i].alamat == data[i].alamat
              && rows[i].nominal == data[i].nominal && rows[i].tanggalInput == data[i].tanggalInput
  {
    if data == [] then []
    else
      var e := data[0];
      [ExcelRow(start + 1, e.nama, e.nik, e.alamat, e.nominal, e.tanggalInput)]
        + ExcelRowsFrom(data[1..], start + 1)
  }

  /** `this.data.map((item, index) => ({No: index + 1, ...}))`. */
  function ExcelRows(data: seq<Entry>): (rows: seq<ExcelRow>)
    ensures |rows| == |data|
    ensures forall i :: 0 <= i < |data| ==>
              rows[i] == ExcelRow(i + 1, data[i].nama, data[i].nik, data[i].alamat,
                                  data[i].nominal, data[i].tanggalInput)
  {
    ExcelRowsFrom(data, 0)
  }

  /** The cells one loop iteration appends: name and address escaped, the amount passed
      through the currency formatter, NIK and creation time as stored. The escaped cells
      cannot open or close markup, and decode back to the stored text. */
  function TableRowOf(no: nat, e: Entry, currency: Option<int> -> string): (r: TableRow)
    ensures r.no == no && r.nik == e.nik && r.tanggalInput == e.tanggalInput
    ensures r.nominal == currency(e.nominal)
    ensures r.nama == EscapeHtml(e.nama) && r.alamat == EscapeHtml(e.alamat)
    ensures UnescapeHtml(r.nama) == e.nama && UnescapeHtml(r.alamat) == e.alamat
    ensures forall k :: 0 <= k < |r.nama| ==> r.nama[k] != '<' && r.nama[k] != '>'
    ensures forall k :: 0 <= k < |r.alamat| ==> r.alamat[k] != '<' && r.alamat[k] != '>'
  {
    UnescapeEscape(e.nama);
    UnescapeEscape(e.alamat);
    TableRow(no, EscapeHtml(e.nama), e.nik, EscapeHtml(e.alamat), currency(e.nominal), e.tanggalInput)
  }

  /** generatePDFHTML: the heading carries the print time and the entry count, and the
      body gets one row per entry, in order, numbered from 1. */
  method GeneratePdfHtml(data: seq<Entry>, printedAt: string, currency: Option<int> -> string)
    returns (report: PdfReport)
    ensures report.printedAt == printedAt && report.total == |data|
    ensures report.header == ColumnHeaders
    ensures |report.rows| == |data|
    ensures forall i :: 0 <= i < |data| ==> report.rows[i] == TableRowOf(i + 1, data[i], currency)
  {
    var rows: seq<TableRow> := [];
    var i := 0;
    while i < |data|
      invariant 0 <= i <= |data| && |rows| == i
      invariant forall k :: 0 <= k < i ==> rows[k] == TableRowOf(k + 1, data[k], currency)
    {
      rows := rows + [TableRowOf(i + 1, data[i], currency)];
      i := i + 1;
    }
    report := PdfReport(printedAt, |data|, ColumnHeaders, rows);
  }

  /** generateWordTable: the same columns and one row per entry, in order, numbered from 1. */
  method GenerateWordTable(data: seq<Entry>, currency: Option<int> -> string)
    returns (table: WordTable)
    ensures table.header == ColumnHeaders
    ensures |table.rows| == |data|
    ensures forall i :: 0 <= i < |data| ==> table.rows[i] == TableRowOf(i + 1, data[i], currency)
  {
    var rows: seq<TableRow> := [];
    var i := 0;
    while i < |data|
      invariant 0 <= i <= |data| && |rows| == i
      invariant forall k :: 0 <= k < i ==> rows[k] == TableRowOf(k + 1, data[k], currency)
    {
      rows := rows + [TableRowOf(i + 1, data[i], currency)];
      i := i + 1;
    }
    table := WordTable(ColumnHeaders, rows);
  }

  /** exportToExcel: nothing but a failure on an empty registry; otherwise one sheet,
      "Data Penduduk", holding one row per entry, and a timestamped .xlsx name. */
  method ExportToExcel(data: seq<Entry>, now: DateTime) returns (r: Result<ExcelFile, ExportError>)
    ensures r.Err? <==> |data| == 0
    ensures r.Ok? ==> r.value.fileName == ExportFileName(now, "xlsx")
                      && r.value.sheetName == SheetName && r.value.rows == ExcelRows(data)
                      && |r.value.rows| == |data|
  {
    if |data| == 0 {
      return Err(NothingToExport);
    }
    r := Ok(ExcelFile(ExportFileName(now, "xlsx"), SheetName, ExcelRows(data)));
  }

  /** exportToPDF: nothing but a failure on an empty registry; otherwise the report of
      generatePDFHTML under a timestamped .pdf name. */
  method ExportToPdf(data: seq<Entry>, printedAt: string, now: DateTime,
                     currency: Option<int> -> string) returns (r: Result<PdfFile, ExportError>)
    ensures r.Err? <==> |data| == 0
    ensures r.Ok? ==> r.value.fileName == ExportFileName(now, "pdf")
                      && r.value.report.total == |data| && |r.value.report.rows| == |data|
                      && r.value.report.printedAt == printedAt
    ensures r.Ok? ==> forall i :: 0 <= i < |data| ==>
                        r.value.report.rows[i] == TableRowOf(i + 1, data[i], currency)
  {
    if |data| == 0 {
      return Err(NothingToExport);
    }
    var report := GeneratePdfHtml(data, printedAt, currency);
    r := Ok(PdfFile(ExportFileName(now, "pdf"), report));
  }

  /** exportToWord: nothing but a failure on an empty registry; otherwise the table of
      generateWordTable wrapped in a document headed by the print time and the entry
      count, sent as application/vnd.ms-word under a timestamped .doc name. */
  method ExportToWord(data: seq<Entry>, printedAt: string, now: DateTime,
                      currency: Option<int> -> string) returns (r: Result<WordFile, ExportError>)
    ensures r.Err? <==> |data| == 0
    ensures r.Ok? ==> r.value.fileName == ExportFileName(now, "doc")
                      && r.value.mimeType == WordMimeType && r.value.title == SheetName
                      && r.value.printedAt == printedAt
                      && r.value.total == |data| && |r.value.table.rows| == |data|
    ensures r.Ok? ==> forall i :: 0 <= i < |data| ==>
                        r.value.table.rows[i] == TableRowOf(i + 1, data[i], currency)
  {
    if |data| == 0 {
      return Err(NothingToExport);
    }
    var table := GenerateWordTable(data, currency);
    r := Ok(WordFile(ExportFileName(now, "doc"), WordMimeType, SheetName, printedAt, |data|, table));
  }

  /** The spreadsheet and the markup tables agree row for row: the same number, NIK and
      creation time, the same name and address once the escaping is undone, and the
      formatted form of the same amount. */
  lemma ReportParity(data: seq<Entry>, rows: seq<TableRow>, currency: Option<int> -> string)
    requires |rows| == |data|
    requires forall i :: 0 <= i < |data| ==> rows[i] == TableRowOf(i + 1, data[i], currency)
    ensures |ExcelRows(data)| == |rows|
    ensures forall i :: 0 <= i < |rows| ==>
              var x := ExcelRows(data)[i];
              rows[i].no == x.no && rows[i].nik == x.nik && rows[i].tanggalInput == x.tanggalInput
              && UnescapeHtml(rows[i].nama) == x.nama && UnescapeHtml(rows[i].alamat) == x.alamat
              && rows[i].nominal == currency(x.nominal)
  {
  }
}
