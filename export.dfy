/** Turning the attendance records into the three export formats
    (src/lib/exportUtils.ts): the spreadsheet rows, the PDF table body, the Word HTML
    document, the date column and the file names. Writing the files is left to the
    libraries and is not part of this model. */
module Export {
  import opened Wrappers
  import opened Text
  import Attendance

  /** A moment as date-fns reads it in local time; `month` counts from 1. */
  datatype DateTime = DateTime(year: nat, month: nat, day: nat, hour: nat, minute: nat, second: nat)

  /** Every part fits the width its format token pads it to. */
  predicate InRange(t: DateTime) {
    t.year < 10000 && 1 <= t.month <= 12 && 1 <= t.day <= 31
    && t.hour < 24 && t.minute < 60 && t.second < 60
  }

  /** format(t, "dd/MM/yyyy HH:mm") */
  function DisplayDate(t: DateTime): string {
    ZeroPadded(t.day, 2) + "/" + ZeroPadded(t.month, 2) + "/" + ZeroPadded(t.year, 4)
    + " " + ZeroPadded(t.hour, 2) + ":" + ZeroPadded(t.minute, 2)
  }

  /** format(t, "yyyyMMdd_HHmmss") */
  function FileStamp(t: DateTime): string {
    ZeroPadded(t.year, 4) + ZeroPadded(t.month, 2) + ZeroPadded(t.day, 2) + "_"
    + ZeroPadded(t.hour, 2) + ZeroPadded(t.minute, 2) + ZeroPadded(t.second, 2)
  }

  function Pow10(k: nat): nat {
    if k == 0 then 1 else 10 * Pow10(k - 1)
  }

  lemma {:induction false} DecimalFits(n: nat, width: nat)
    requires width >= 1 && n < Pow10(width)
    ensures |Decimal(n)| <= width
    decreases n
  {
    if n >= 10 {
      assert width >= 2;
      DecimalFits(n / 10, width - 1);
    }
  }

  /** A part below 10^width is rendered in exactly `width` digits, and they read back as it. */
  lemma PaddedPart(n: nat, width: nat)
    requires width >= 1 && n < Pow10(width)
    ensures |ZeroPadded(n, width)| == width
    ensures AllAsciiDigits(ZeroPadded(n, width)) && DecimalValue(ZeroPadded(n, width)) == n
  {
    DecimalFits(n, width);
    ZeroPaddedShape(n, width);
    ZeroPaddedValue(n, width);
  }

  lemma PowersUsed()
    ensures Pow10(2) == 100 && Pow10(4) == 10000
  {
    assert Pow10(1) == 10;
    assert Pow10(3) == 1000;
  }

  /** Where the five groups of "dd/MM/yyyy HH:mm" sit. */
  lemma DateLayout(a: string, b: string, c: string, d: string, e: string)
    requires |a| == 2 && |b| == 2 && |c| == 4 && |d| == 2 && |e| == 2
    ensures var r := a + "/" + b + "/" + c + " " + d + ":" + e;
      |r| == 16 && r[2] == '/' && r[5] == '/' && r[10] == ' ' && r[13] == ':'
      && r[0..2] == a && r[3..5] == b && r[6..10] == c && r[11..13] == d && r[14..16] == e
  {
  }

  /** Where the six groups of "yyyyMMdd_HHmmss" sit. */
  lemma StampLayout(a: string, b: string, c: string, d: string, e: string, f: string)
    requires |a| == 4 && |b| == 2 && |c| == 2 && |d| == 2 && |e| == 2 && |f| == 2
    ensures var r := a + b + c + "_" + d + e + f;
      |r| == 15 && r[8] == '_'
      && r[0..4] == a && r[4..6] == b && r[6..8] == c && r[9..11] == d && r[11..13] == e && r[13..15] == f
  {
  }

  /** The displayed date is 16 characters "dd/MM/yyyy HH:mm" whose digit groups read back
      as the day, month, year, hour and minute. */
  lemma DisplayDateLayout(t: DateTime)
    requires InRange(t)
    ensures var r := DisplayDate(t);
      |r| == 16 && r[2] == '/' && r[5] == '/' && r[10] == ' ' && r[13] == ':'
      && AllAsciiDigits(r[0..2]) && DecimalValue(r[0..2]) == t.day
      && AllAsciiDigits(r[3..5]) && DecimalValue(r[3..5]) == t.month
      && AllAsciiDigits(r[6..10]) && DecimalValue(r[6..10]) == t.year
      && AllAsciiDigits(r[11..13]) && DecimalValue(r[11..13]) == t.hour
      && AllAsciiDigits(r[14..16]) && DecimalValue(r[14..16]) == t.minute
  {
    PowersUsed();
    PaddedPart(t.day, 2);
    PaddedPart(t.month, 2);
    PaddedPart(t.year, 4);
    PaddedPart(t.hour, 2);
    PaddedPart(t.minute, 2);
    DateLayout(ZeroPadded(t.day, 2), ZeroPadded(t.month, 2), ZeroPadded(t.year, 4),
               ZeroPadded(t.hour, 2), ZeroPadded(t.minute, 2));
  }

  /** The file-name stamp is 15 characters "yyyyMMdd_HHmmss" whose digit groups read back
      as the parts of the moment. */
  lemma FileStampLayout(t: DateTime)
    requires InRange(t)
    ensures var r := FileStamp(t);
      |r| == 15 && r[8] == '_'
      && AllAsciiDigits(r[0..4]) && DecimalValue(r[0..4]) == t.year
      && AllAsciiDigits(r[4..6]) && DecimalValue(r[4..6]) == t.month
      && AllAsciiDigits(r[6..8]) && DecimalValue(r[6..8]) == t.day
      && AllAsciiDigits(r[9..11]) && DecimalValue(r[9..11]) == t.hour
      && AllAsciiDigits(r[11..13]) && DecimalValue(r[11..13]) == t.minute
      && AllAsciiDigits(r[13..15]) && DecimalValue(r[13..15]) == t.second
  {
    PowersUsed();
    PaddedPart(t.year, 4);
    PaddedPart(t.month, 2);
    PaddedPart(t.day, 2);
    PaddedPart(t.hour, 2);
    PaddedPart(t.minute, 2);
    PaddedPart(t.second, 2);
    StampLayout(ZeroPadded(t.year, 4), ZeroPadded(t.month, 2), ZeroPadded(t.day, 2),
                ZeroPadded(t.hour, 2), ZeroPadded(t.minute, 2), ZeroPadded(t.second, 2));
  }

  /** Whatever the moment, the displayed date has at least the 16 characters of its pattern. */
  lemma DisplayDateLong(t: DateTime)
    ensures |DisplayDate(t)| >= 16
  {
    ZeroPaddedShape(t.day, 2);
    ZeroPaddedShape(t.month, 2);
    ZeroPaddedShape(t.year, 4);
    ZeroPaddedShape(t.hour, 2);
    ZeroPaddedShape(t.minute, 2);
  }

  /** formatDate: "-" for a missing or empty date, otherwise the parsed date displayed.
      `parse` stands for `new Date(...)` read in local time. */
  function FormatDate(dateString: Option<string>, parse: string -> DateTime): (r: string)
    ensures r == "-" <==> dateString == None || dateString.value == ""
    ensures r != "-" ==> r == DisplayDate(parse(dateString.value))
  {
    if dateString == None || dateString.value == "" then "-"
    else
      var t := parse(dateString.value);
      DisplayDateLong(t);
      DisplayDate(t)
  }

  /** A table cell: a number or a text. */
  datatype Cell = Number(n: nat) | Str(s: string)

  const TtdPlaceholder: string := "[Tanda Tangan]"

  /** The spreadsheet's columns in order: header and character width. */
  const ExcelColumns: seq<(string, nat)> := [
    ("No", 5), ("Nama", 25), ("NIP", 20), ("Jabatan", 25), ("Instansi", 25),
    ("Wilayah", 25), ("Bidang/Urusan", 25), ("TTD", 15), ("Tanggal", 20)
  ]

  /** The PDF table's columns in order: header and cell width. */
  const PdfColumns: seq<(string, nat)> := [
    ("No", 10), ("Nama", 30), ("NIP", 20), ("Jabatan", 25), ("Instansi", 25),
    ("Wilayah", 25), ("Bidang/Urusan", 25), ("TTD", 30), ("Tanggal", 20)
  ]

  /** The six columns both tables copy straight from the record. */
  function DetailCells(item: Attendance.AttendanceData): seq<Cell> {
    [Str(item.name), Str(item.nip), Str(item.position), Str(item.institution),
     Str(item.region), Str(item.department)]
  }

  /** The nine cells of a table row: number, the six details, the signature column, the date. */
  function TableRow(index: nat, item: Attendance.AttendanceData, ttd: string, date: string): seq<Cell> {
    [Number(index + 1)] + DetailCells(item) + [Str(ttd), Str(date)]
  }

  lemma TableRowCells(index: nat, item: Attendance.AttendanceData, ttd: string, date: string)
    ensures TableRow(index, item, ttd, date)
      == [Number(index + 1), Str(item.name), Str(item.nip), Str(item.position), Str(item.institution),
          Str(item.region), Str(item.department), Str(ttd), Str(date)]
  {
  }

  /** The object the spreadsheet mapping makes of the record at `index`. */
  function ExcelRow(index: nat, item: Attendance.AttendanceData, parse: string -> DateTime): (row: seq<Cell>)
    ensures |row| == |ExcelColumns|
    ensures row[0] == Number(index + 1) && row[1..7] == DetailCells(item)
    ensures row[7] == Str(TtdPlaceholder) && row[8] == Str(FormatDate(item.createdAt, parse))
  {
    TableRow(index, item, TtdPlaceholder, FormatDate(item.createdAt, parse))
  }

  /** data.map((item, index) => ...) for the spreadsheet. */
  function ExcelRows(data: seq<Attendance.AttendanceData>, parse: string -> DateTime): (rows: seq<seq<Cell>>)
    ensures |rows| == |data|
    ensures forall i :: 0 <= i < |data| ==> |rows[i]| == 9 && rows[i][0] == Number(i + 1) && rows[i][1..7] == DetailCells(data[i])
  {
    seq(|data|, i requires 0 <= i < |data| => ExcelRow(i, data[i], parse))
  }

  /** One spreadsheet row per record, in input order, numbered from 1, each with one cell
      per column of the width table, the signature replaced by the placeholder. */
  lemma ExcelRowsShape(data: seq<Attendance.AttendanceData>, parse: string -> DateTime)
    ensures |ExcelRows(data, parse)| == |data|
    ensures forall i :: 0 <= i < |data| ==>
      var row := ExcelRows(data, parse)[i];
      |row| == |ExcelColumns| && row[0] == Number(i + 1) && row[1..7] == DetailCells(data[i])
      && row[7] == Str(TtdPlaceholder) && row[8] == Str(FormatDate(data[i].createdAt, parse))
  {
  }

  /** The spreadsheet never shows a signature: records that differ only in their signature
      export to the same rows. */
  lemma ExcelIgnoresSignatures(data: seq<Attendance.AttendanceData>, other: seq<Attendance.AttendanceData>,
                               parse: string -> DateTime)
    requires |data| == |other|
    requires forall i :: 0 <= i < |data| ==> other[i] == data[i].(signature := other[i].signature)
    ensures ExcelRows(data, parse) == ExcelRows(other, parse)
  {
    assert forall i :: 0 <= i < |data| ==> ExcelRow(i, data[i], parse) == ExcelRow(i, other[i], parse);
  }

  /** The PDF body row for the record at `i`: the signature column is left empty. */
  function PdfRow(i: nat, item: Attendance.AttendanceData, parse: string -> DateTime): seq<Cell> {
    TableRow(i, item, "", FormatDate(item.createdAt, parse))
  }

  /** The `tableRows` loop: one row pushed per record. */
  method PdfTableRows(data: seq<Attendance.AttendanceData>, parse: string -> DateTime)
    returns (tableRows: seq<seq<Cell>>)
    ensures |tableRows| == |data|
    ensures forall i :: 0 <= i < |data| ==> tableRows[i] == PdfRow(i, data[i], parse)
  {
    tableRows := [];
    var i := 0;
    while i < |data|
      invariant 0 <= i <= |data| && |tableRows| == i
      invariant forall k :: 0 <= k < i ==> tableRows[k] == PdfRow(k, data[k], parse)
    {
      var item := data[i];
      var date := FormatDate(item.createdAt, parse);
      var row := [Number(i + 1), Str(item.name), Str(item.nip), Str(item.position),
                  Str(item.institution), Str(item.region), Str(item.department),
                  Str(""), Str(date)];
      TableRowCells(i, item, "", date);
      tableRows := tableRows + [row];
      i := i + 1;
    }
  }

  /** The PDF and the spreadsheet agree cell for cell except in the signature column, where
      the PDF leaves "" and the spreadsheet writes the placeholder; both have one cell per
      header, and the two tables share their headers. */
  lemma PdfMatchesExcel(i: nat, item: Attendance.AttendanceData, parse: string -> DateTime)
    ensures |PdfRow(i, item, parse)| == |PdfColumns| == |ExcelRow(i, item, parse)|
    ensures forall j :: 0 <= j < |PdfColumns| ==> PdfColumns[j].0 == ExcelColumns[j].0
    ensures forall j :: 0 <= j < 9 && j != 7 ==> PdfRow(i, item, parse)[j] == ExcelRow(i, item, parse)[j]
    ensures PdfRow(i, item, parse)[7] == Str("") && ExcelRow(i, item, parse)[7] == Str(TtdPlaceholder)
  {
  }

  /** The start of the Word document, up to the opening of the table body. */
  const WordHeader: string := @"
    <html xmlns:o='urn:schemas-microsoft-com:office:office' xmlns:w='urn:schemas-microsoft-com:office:word' xmlns='http://www.w3.org/TR/REC-html40'>
    <head>
      <meta charset=""utf-8"">
      <title>Daftar Kehadiran</title>
      <style>
        @page {
          size: Legal;
          margin: 1cm;
        }
        body {
          font-family: Arial, sans-serif;
          font-size: 11pt;
        }
        table { border-collapse: collapse; width: 100%; }
        th, td { border: 1px solid #ddd; padding: 8px; text-align: left; }
        th { background-color: #f2f2f2; }
        .header { text-align: center; margin-bottom: 20px; }
        .signature-img { width: auto; max-width: 100px; height: auto; max-height: 50px; display: block; margin: auto; }
      </style>
    </head>
    <body>
      <div class=""header"">
        <h2>Daftar Kehadiran Forum Perangkat Daerah Tahun 2025</h2>
        <h3>Dinas Pekerjaan Umum Penataan Ruang & Perumahan Rakyat Kawasan Permukiman</h3>
        <h3>Provinsi Kepulauan Bangka Belitung</h3>
      </div>
      
      <table>
        <thead>
          <tr>
            <th>No</th>
            <th>Nama</th>
            <th>NIP</th>
            <th>Jabatan</th>
            <th>Instansi</th>
            <th>Wilayah</th>
            <th>Bidang/Urusan</th>
            <th>TTD</th>
            <th>Tanggal</th>
          </tr>
        </thead>
        <tbody>
  "

  /** The closing tags after the last row. */
  const WordFooter: string := @"
        </tbody>
      </table>
    </body>
    </html>
  "

  const ImgCellStart: string := "<td><img src=\""

  /** The signature cell of a Word row: an image of the signature, or an empty cell for an
      unsigned record. */
  function SignatureCell(item: Attendance.AttendanceData): (cell: string)
    ensures cell == "<td></td>" <==> item.signature == ""
    ensures item.signature != "" ==> OccursAt(cell, ImgCellStart, 0) && OccursAt(cell, item.signature, |ImgCellStart|)
  {
    if item.signature != "" then
      var cell := ImgCellStart + item.signature + "\" class=\"signature-img\" alt=\"Tanda tangan " + item.name + "\"></td>";
      assert cell[..|ImgCellStart|] == ImgCellStart;
      assert cell[|ImgCellStart|..|ImgCellStart| + |item.signature|] == item.signature;
      cell
    else
      "<td></td>"
  }

  /** A row shows an image exactly when the record has a signature, and the image source is
      the signature itself; an unsigned record gets an empty cell. */
  lemma SignatureCellImgIff(item: Attendance.AttendanceData)
    ensures item.signature != "" <==> OccursAt(SignatureCell(item), ImgCellStart, 0)
    ensures item.signature != "" ==> OccursAt(SignatureCell(item), item.signature, |ImgCellStart|)
    ensures item.signature == "" ==> SignatureCell(item) == "<td></td>"
  {
    if item.signature == "" {
      assert |SignatureCell(item)| < |ImgCellStart|;
    }
  }

  lemma TakeAll<T>(s: seq<T>)
    ensures s[..|s|] == s
  {
  }

  /** Appending the next record's row to a document that holds the rows so far gives the
      document holding one row more. */
  lemma AppendRow(header: string, html: string, data: seq<Attendance.AttendanceData>, index: nat,
                  row: (nat, Attendance.AttendanceData) -> string)
    requires index < |data| && html == header + RowsFrom(data[..index], 0, row)
    ensures html + row(index, data[index]) == header + RowsFrom(data[..index + 1], 0, row)
  {
    assert data[..index + 1] == data[..index] + [data[index]];
    RowsSnoc(data[..index], data[index], 0, row);
  }

  /** Where the three parts of a concatenation sit. */
  lemma ThreeParts(a: string, b: string, c: string)
    ensures |a + b + c| == |a| + |b| + |c|
    ensures (a + b + c)[..|a|] == a && (a + b + c)[|a|..|a| + |b|] == b && (a + b + c)[|a| + |b|..] == c
  {
  }

  const RowStart: string := "\n      <tr>\n        <td>"

  /** The HTML of a row after its number: the record's cells, the signature cell and the
      date, then the row's end. */
  function RowTail(item: Attendance.AttendanceData, parse: string -> DateTime): string {
    "</td>\n        <td>" + item.name + "</td>\n        <td>" + item.nip + "</td>\n        <td>"
    + item.position + "</td>\n        <td>" + item.institution + "</td>\n        <td>" + item.region
    + "</td>\n        <td>" + item.department + "</td>\n        " + SignatureCell(item)
    + "\n        <td>" + FormatDate(item.createdAt, parse) + "</td>\n      </tr>\n    "
  }

  /** The HTML of the record at `index`. */
  function WordRow(index: nat, item: Attendance.AttendanceData, parse: string -> DateTime): (html: string)
    ensures OccursAt(html, RowStart, 0) && OccursAt(html, Decimal(index + 1), |RowStart|)
  {
    ThreeParts(RowStart, Decimal(index + 1), RowTail(item, parse));
    RowStart + Decimal(index + 1) + RowTail(item, parse)
  }

  /** A row opens a table row whose first cell is its number, index + 1 written in decimal. */
  lemma WordRowNumber(index: nat, item: Attendance.AttendanceData, parse: string -> DateTime)
    ensures var r := WordRow(index, item, parse); var d := Decimal(index + 1);
      |RowStart| + |d| <= |r| && r[..|RowStart|] == RowStart
      && r[|RowStart|..|RowStart| + |d|] == d && DecimalValue(d) == index + 1
  {
    DecimalRoundTrip(index + 1);
    ThreeParts(RowStart, Decimal(index + 1), RowTail(item, parse));
  }

  /** The rows `row` makes of the records, numbered from `start`, in order. */
  function RowsFrom(data: seq<Attendance.AttendanceData>, start: nat,
                    row: (nat, Attendance.AttendanceData) -> string): string
    decreases |data|
  {
    if data == [] then "" else row(start, data[0]) + RowsFrom(data[1..], start + 1, row)
  }

  /** Appending a record appends its row, numbered after the others. */
  lemma {:induction false} RowsSnoc(data: seq<Attendance.AttendanceData>, item: Attendance.AttendanceData,
                                    start: nat, row: (nat, Attendance.AttendanceData) -> string)
    ensures RowsFrom(data + [item], start, row) == RowsFrom(data, start, row) + row(start + |data|, item)
    decreases |data|
  {
    if data == [] {
      assert [item][1..] == [];
    } else {
      assert (data + [item])[1..] == data[1..] + [item];
      RowsSnoc(data[1..], item, start + 1, row);
    }
  }

  /** The rows of two lists of records are the rows of the first followed by those of the
      second, the second numbered on from where the first stopped. */
  lemma {:induction false} RowsSplit(a: seq<Attendance.AttendanceData>, b: seq<Attendance.AttendanceData>,
                                     start: nat, row: (nat, Attendance.AttendanceData) -> string)
    ensures RowsFrom(a + b, start, row) == RowsFrom(a, start, row) + RowsFrom(b, start + |a|, row)
    decreases |a|
  {
    if a == [] {
      assert a + b == b;
    } else {
      assert (a + b)[1..] == a[1..] + b;
      RowsSplit(a[1..], b, start + 1, row);
    }
  }

  /** WordRow with the date reading fixed. */
  function WordRowWith(parse: string -> DateTime): (nat, Attendance.AttendanceData) -> string {
    (index: nat, item: Attendance.AttendanceData) => WordRow(index, item, parse)
  }

  /** The Word rows of the records, numbered from start + 1. */
  function WordRows(data: seq<Attendance.AttendanceData>, start: nat, parse: string -> DateTime): string {
    RowsFrom(data, start, WordRowWith(parse))
  }

  /** The row of record i sits between the rows of the records before it and those after it. */
  lemma RowsAt(data: seq<Attendance.AttendanceData>, i: nat, start: nat,
               row: (nat, Attendance.AttendanceData) -> string)
    requires i < |data|
    ensures RowsFrom(data, start, row)
      == RowsFrom(data[..i], start, row) + row(start + i, data[i]) + RowsFrom(data[i + 1..], start + i + 1, row)
  {
    var rest := [data[i]] + data[i + 1..];
    assert data == data[..i] + rest;
    RowsSplit(data[..i], rest, start, row);
    RowsSplit([data[i]], data[i + 1..], start + i, row);
    assert [data[i]][1..] == [];
  }

  /** In the Word rows, record i's row, numbered i + 1, comes after the rows of the records
      before it and before the rows of those after it. */
  lemma WordRowsAt(data: seq<Attendance.AttendanceData>, i: nat, parse: string -> DateTime)
    requires i < |data|
    ensures WordRows(data, 0, parse)
      == WordRows(data[..i], 0, parse) + WordRow(i, data[i], parse) + WordRows(data[i + 1..], i + 1, parse)
  {
    var row := WordRowWith(parse);
    RowsAt(data, i, 0, row);
    assert row(i, data[i]) == WordRow(i, data[i], parse);
  }

  /** exportToWord's document: the header, one row per record appended in order, then the
      closing tags. */
  method WordDocument(data: seq<Attendance.AttendanceData>, parse: string -> DateTime)
    returns (htmlContent: string)
    ensures htmlContent == WordHeader + WordRows(data, 0, parse) + WordFooter
  {
    htmlContent := WordHeader;
    ghost var row := WordRowWith(parse);
    var index := 0;
    while index < |data|
      invariant 0 <= index <= |data|
      invariant htmlContent == WordHeader + RowsFrom(data[..index], 0, row)
    {
      AppendRow(WordHeader, htmlContent, data, index, row);
      htmlContent := htmlContent + WordRow(index, data[index], parse);
      index := index + 1;
    }
    TakeAll(data);
    htmlContent := htmlContent + WordFooter;
  }

  /** Which export produced a file. */
  datatype ExportKind = Excel | Pdf | Word

  function Extension(kind: ExportKind): string {
    match kind
    case Excel => ".xlsx"
    case Pdf => ".pdf"
    case Word => ".doc"
  }

  const FilePrefix: string := "Daftar_Kehadiran_"

  /** The name the download is saved under. */
  function ExportFileName(kind: ExportKind, now: DateTime): string {
    FilePrefix + FileStamp(now) + Extension(kind)
  }

  /** The three exports of the same moment get three different names, each the prefix, the
      15-character stamp and its own extension. */
  lemma ExportFileNames(k1: ExportKind, k2: ExportKind, now: DateTime)
    requires InRange(now)
    ensures var n := ExportFileName(k1, now);
      |n| == |FilePrefix| + 15 + |Extension(k1)| && n[..|FilePrefix|] == FilePrefix
      && n[|FilePrefix|..|FilePrefix| + 15] == FileStamp(now) && n[|FilePrefix| + 15..] == Extension(k1)
    ensures k1 != k2 ==> ExportFileName(k1, now) != ExportFileName(k2, now)
  {
    FileStampLayout(now);
    ThreeParts(FilePrefix, FileStamp(now), Extension(k1));
    ThreeParts(FilePrefix, FileStamp(now), Extension(k2));
    if k1 != k2 {
      assert Extension(k1) != Extension(k2);
    }
  }
}
