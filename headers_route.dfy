/**
 * `app/api/headers/route.js`: the header discovery endpoint. It applies
 * the same file and workbook guards as the export pipeline and answers
 * with the keys of the first data row of the first sheet.
 */
module HeadersRoute {
  import opened Wrappers
  import opened Strings
  import opened Tabular
  import ProcessRoute

  const UnreadableMessage: string := "Could not parse the file. The file may be corrupted or in an unsupported format."
  const NoDataRowsMessage: string := "The sheet appears to be empty or has no data rows."
  const NoHeadersMessage: string := "No column headers could be detected."

  /** The upload passes every guard: named `.xlsx`/`.xls`, readable, with a first sheet whose first row has keys. */
  predicate HasHeaders(file: Option<Upload>)
  {
    && file.Some?
    && AcceptedUploadName(file.value.name)
    && file.value.book.Book?
    && |file.value.book.sheets| > 0
    && |file.value.book.sheets[0]| > 0
    && |file.value.book.sheets[0][0].keys| > 0
  }

  /**
   * `POST /api/headers`, without the transport and the catch-all 500: a
   * header list exactly when every guard passes, and then it is the first
   * row's keys, in order, and never empty.
   */
  function Headers(file: Option<Upload>): (r: Response)
    ensures r.status in {200, 400, 422}
    ensures r.status == 200 <==> r.body.HeadersBody?
    ensures r.body.HeadersBody? <==> HasHeaders(file)
    ensures r.body.HeadersBody? ==> r.body.headers == file.value.book.sheets[0][0].keys && r.body.headers != []
    ensures !r.body.HeadersBody? ==> r.body.ErrorBody?
  {
    if file.None? then JsonError(400, NoFileMessage)
    else if !AcceptedUploadName(file.value.name) then JsonError(400, InvalidTypeMessage)
    else
      match file.value.book
      case Corrupt => JsonError(422, UnreadableMessage)
      case Book(sheets) =>
        if |sheets| == 0 then JsonError(422, NoSheetsMessage)
        else
          var rows := sheets[0];
          if |rows| == 0 then JsonError(422, NoDataRowsMessage)
          else
            var headers := rows[0].keys;
            if |headers| == 0 then JsonError(422, NoHeadersMessage)
            else Response(200, HeadersBody(headers))
  }

  /** The guards in source order: missing file and bad extension are 400, then unreadable, no sheets, no rows and no keys are 422. */
  lemma HeadersGuards(file: Option<Upload>)
    ensures file.None? ==> Headers(file) == JsonError(400, NoFileMessage)
    ensures file.Some? && !AcceptedUploadName(file.value.name) ==> Headers(file) == JsonError(400, InvalidTypeMessage)
    ensures (file.Some? && AcceptedUploadName(file.value.name) && file.value.book.Corrupt?) ==>
      Headers(file) == JsonError(422, UnreadableMessage)
    ensures (file.Some? && AcceptedUploadName(file.value.name) && file.value.book == Book([])) ==>
      Headers(file) == JsonError(422, NoSheetsMessage)
    ensures (&& file.Some? && AcceptedUploadName(file.value.name) && file.value.book.Book?
             && |file.value.book.sheets| > 0 && file.value.book.sheets[0] == []) ==>
      Headers(file) == JsonError(422, NoDataRowsMessage)
    ensures (&& file.Some? && AcceptedUploadName(file.value.name) && file.value.book.Book?
             && |file.value.book.sheets| > 0 && |file.value.book.sheets[0]| > 0
             && file.value.book.sheets[0][0].keys == []) ==>
      Headers(file) == JsonError(422, NoHeadersMessage)
  {
  }

  /** So the route rejects such an upload by its name, whatever the file holds. */
  lemma DotlessNameRejected(book: Workbook)
    ensures Headers(Some(Upload("report", book))) == JsonError(400, InvalidTypeMessage)
  {
    DotlessNameNotAccepted();
  }

  /** Only the first sheet is read: workbooks that agree on it get the same answer. */
  lemma HeadersFirstSheetOnly(name: string, sheets: seq<Sheet>, sheets': seq<Sheet>)
    requires |sheets| > 0 && |sheets'| > 0 && sheets[0] == sheets'[0]
    ensures Headers(Some(Upload(name, Book(sheets)))) == Headers(Some(Upload(name, Book(sheets'))))
  {
  }

  /**
   * The two routes agree on the columns of an upload: choosing filter and
   * export columns among the discovered headers never makes the export
   * pipeline reject them as unknown.
   */
  lemma DiscoveredColumnsAreKnown(file: Option<Upload>, filterColumns: seq<string>, exportColumns: seq<string>,
                                  filterValue: string, matchType: string, caseSensitive: bool,
                                  format: ProcessRoute.ExportFormat, vcfPrefix: string, vcfSuffix: string,
                                  previewOnly: bool, csv: ProcessRoute.CsvEncoder)
    requires Headers(file).body.HeadersBody?
    requires forall c :: c in filterColumns ==> c in Headers(file).body.headers
    requires forall c :: c in exportColumns ==> c in Headers(file).body.headers
    ensures ProcessRoute.ProcessRows(file.value.book.sheets[0], file.value.name, filterColumns, exportColumns,
                                     filterValue, matchType, caseSensitive, format, vcfPrefix, vcfSuffix,
                                     previewOnly, csv).status != 400
  {
    ProcessRoute.UnknownColumns(file.value.book.sheets[0], file.value.name, filterColumns, exportColumns,
                                filterValue, matchType, caseSensitive, format, vcfPrefix, vcfSuffix, previewOnly, csv);
  }
}
