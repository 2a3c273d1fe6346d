/**
 * The values both API routes work on: the rows the spreadsheet library
 * hands back, the uploaded workbook, and the HTTP responses the routes
 * return (status code plus JSON body or file payload).
 */
module Tabular {
  import opened Strings

  /**
   * One object produced by `sheet_to_json`: `keys` is its `Object.keys`
   * order, `cells` its values, already rendered as text.
   */
  datatype Row = Row(keys: seq<string>, cells: map<string, string>)

  /** `row[col] ?? ''`: the cell under `col`, or the empty string when the row has no such key. */
  function Cell(row: Row, col: string): string
  {
    if col in row.cells then row.cells[col] else ""
  }

  /** The rows of one sheet, in sheet order. */
  type Sheet = seq<Row>

  /** What `XLSX.read` gives: a parse failure, or the sheets in `SheetNames` order. */
  datatype Workbook = Corrupt | Book(sheets: seq<Sheet>)

  /** The `file` form field: its declared name and its parsed content. */
  datatype Upload = Upload(name: string, book: Workbook)

  /** A download payload: text (CSV, vCard) or the single-sheet workbook handed to `XLSX.write`. */
  datatype FileContent =
    | Text(text: string)
    | XlsxWorkbook(sheetName: string, header: seq<string>, rows: seq<Row>)

  datatype Body =
    | ErrorBody(error: string)
    | PreviewBody(rows: seq<Row>, total: nat)
    | HeadersBody(headers: seq<string>)
    | FileBody(content: FileContent, contentType: string, filename: string)

  /** A route's answer: HTTP status and body. */
  datatype Response = Response(status: int, body: Body)

  function JsonError(status: int, message: string): Response
  {
    Response(status, ErrorBody(message))
  }

  const NoFileMessage: string := "No file provided."
  const InvalidTypeMessage: string := "Invalid file type. Only .xlsx and .xls files are supported."
  const NoSheetsMessage: string := "The file contains no sheets."

  /**
   * The extension test both routes apply to the declared file name:
   * `filename.split('.').pop().toLowerCase()` must be `xlsx` or `xls`.
   */
  predicate AcceptedUploadName(filename: string)
  {
    AsciiLower(LastSegment(filename, '.')) in ["xlsx", "xls"]
  }

  /** A name without a dot is its own extension: it passes the type check exactly when its lower-case form is `xlsx` or `xls`. */
  lemma DotlessNameIsExtension(name: string)
    requires '.' !in name
    ensures AcceptedUploadName(name) <==> AsciiLower(name) in ["xlsx", "xls"]
  {
    LastSegmentWithoutSeparator(name, '.');
  }

  /** So the bare words `xlsx` and `XLS` pass the type check. */
  lemma BareExtensionsAccepted()
    ensures AcceptedUploadName("xlsx")
    ensures AcceptedUploadName("XLS")
  {
    DotlessNameIsExtension("xlsx");
    assert AsciiLower("xlsx") == "xlsx";
    DotlessNameIsExtension("XLS");
    assert AsciiLower("XLS") == "xls";
  }

  /** Any other dotless name is not an accepted extension. */
  lemma DotlessNameNotAccepted()
    ensures !AcceptedUploadName("report")
  {
    DotlessNameIsExtension("report");
    assert |AsciiLower("report")| == 6;
  }

  /** A name is accepted exactly when it ends in a dot and one of the two extensions, in any ASCII case, or is that extension alone. */
  lemma AcceptedUploadNameEndings(filename: string)
    ensures AcceptedUploadName(filename) <==>
      exists e :: e in ["xlsx", "xls"] && |e| <= |filename| &&
        AsciiLower(filename[|filename| - |e|..]) == e &&
        (|e| == |filename| || filename[|filename| - |e| - 1] == '.')
  {
    var ext := LastSegment(filename, '.');
    var n := |filename|;
    if AcceptedUploadName(filename) {
      assert AsciiLower(ext) in ["xlsx", "xls"];
      var e := AsciiLower(ext);
      assert |e| == |ext| && filename[n - |e|..] == ext;
    }
    forall e | e in ["xlsx", "xls"] && |e| <= n && AsciiLower(filename[n - |e|..]) == e &&
        (|e| == n || filename[n - |e| - 1] == '.')
      ensures AcceptedUploadName(filename)
    {
      var tail := filename[n - |e|..];
      assert '.' !in tail by {
        forall i | 0 <= i < |tail| ensures tail[i] != '.' {
          assert LowerChar(tail[i]) == e[i];
        }
      }
      assert ext == tail;
    }
  }
}
