/** Writing a sheet to the spreadsheet and reading it back: the grid
    `convertToSpreadsheetRows` writes, parsed as `getSheetData` parses it,
    is the sheet again whenever its rows all carry the same language
    properties and no language is called with the empty string. */
module SheetRoundTrip {
  import opened Wrappers
  import opened OrderedSet
  import opened Assoc
  import opened Text
  import opened Types
  import opened ReverseTranslationProcessor
  import opened SheetParser

  /** The values written to the sheet: the header line, then the rows. */
  function Grid(sheet: SheetData): (g: seq<seq<string>>)
    ensures |g| == |sheet.rows| + 1
  {
    var written := ConvertToSpreadsheetRows(sheet);
    [written.headers] + written.rows
  }

  /** The sheets the round trip reproduces: at least one row, every row a
      proper object with the first row's language properties, none of them
      named with the empty string. */
  predicate Uniform(sheet: SheetData) {
    && |sheet.rows| > 0
    && "" !in Keys(sheet.rows[0].fields)
    && forall i :: 0 <= i < |sheet.rows| ==>
         ValidRow(sheet.rows[i]) && Keys(sheet.rows[i].fields) == Keys(sheet.rows[0].fields)
  }

  /** Every column after the first has a non-empty header: all are copied,
      in order. */
  lemma {:induction false} CopiedHeadersAll(headers: seq<string>)
    requires |headers| > 0
    requires forall j :: 0 < j < |headers| ==> headers[j] != ""
    ensures CopiedHeaders(headers, 0) == headers[1..]
    decreases |headers|
  {
    if |headers| > 1 {
      var p := headers[..|headers| - 1];
      CopiedHeadersAll(p);
      assert headers[1..] == p[1..] + [headers[|headers| - 1]];
    } else {
      assert CopiedHeaders(headers[..0], 0) == [];
    }
  }

  /** The header line of a written sheet is found to have its key column
      first. */
  lemma KeyColumnFirst(headers: seq<string>)
    requires |headers| > 0 && headers[0] == KeyField
    ensures FindKeyColumn(headers) == Some(0)
  {
    KeyHeaderSpellings(headers[0]);
  }

  /** The headers a proper row writes: `key`, then its properties. */
  predicate WrittenHeaders(row: TranslationRow, headers: seq<string>) {
    ValidRow(row) && "" !in Keys(row.fields) && headers == [KeyField] + Keys(row.fields)
  }

  /** The key is read back from the first column. */
  lemma ParsedKey(row: TranslationRow, headers: seq<string>)
    requires WrittenHeaders(row, headers)
    ensures ParseRow(headers, 0, Flatten(row, headers)).key == row.key
  {
    ParseRowKey(headers, 0, Flatten(row, headers));
  }

  /** The properties are read back in order. */
  lemma ParsedKeys(row: TranslationRow, headers: seq<string>)
    requires WrittenHeaders(row, headers)
    ensures Keys(ParseRow(headers, 0, Flatten(row, headers)).fields) == Keys(row.fields)
  {
    CopiedHeadersAll(headers);
    assert headers[1..] == Keys(row.fields);
    ParseRowKeys(headers, 0, Flatten(row, headers));
    WithoutKeyFilters(Keys(row.fields));
    DedupDistinct(Keys(row.fields));
  }

  /** Each property is read back from its own column. */
  lemma ParsedField(row: TranslationRow, headers: seq<string>, n: string)
    requires WrittenHeaders(row, headers) && n in Keys(row.fields)
    ensures Get(ParseRow(headers, 0, Flatten(row, headers)).fields, n) == Get(row.fields, n)
  {
    var cells := Flatten(row, headers);
    ParseRowGet(headers, 0, cells, n);
    LastColumnIsLast(headers, 0, n);
    var i :| 0 <= i < |Keys(row.fields)| && Keys(row.fields)[i] == n;
    assert headers[i + 1] == n && Copied(headers, 0, i + 1);
    var j := LastColumn(headers, 0, n).value;
    assert headers[j] == n;
  }

  /** A proper row whose properties head the columns after `key`, none of
      them empty, is parsed back from its flattened cells. */
  lemma ParseFlattenedRow(row: TranslationRow, headers: seq<string>)
    requires WrittenHeaders(row, headers)
    ensures ParseRow(headers, 0, Flatten(row, headers)) == row
  {
    var parsed := ParseRow(headers, 0, Flatten(row, headers));
    ParsedKey(row, headers);
    ParsedKeys(row, headers);
    forall n | n in Keys(row.fields) ensures Get(row.fields, n) == Get(parsed.fields, n) {
      ParsedField(row, headers, n);
    }
    Extensionality(row.fields, parsed.fields);
  }

  /** The written headers of a uniform sheet are those of each of its rows. */
  lemma UniformHeaders(sheet: SheetData, i: int)
    requires Uniform(sheet) && 0 <= i < |sheet.rows|
    ensures WrittenHeaders(sheet.rows[i], Headers(sheet))
    ensures FindKeyColumn(Headers(sheet)) == Some(0)
  {
    HeadersOfSheet(sheet, "");
    KeyColumnFirst(Headers(sheet));
  }

  /** The written grid starts with the header line, and its line `i + 1`
      holds the cells of row `i`. */
  lemma GridLine(sheet: SheetData, i: int)
    requires 0 <= i < |sheet.rows|
    ensures Grid(sheet)[0] == Headers(sheet)
    ensures Grid(sheet)[i + 1] == Flatten(sheet.rows[i], Headers(sheet))
  {
  }

  /** Data line `i` of a written uniform sheet is parsed back to row `i`. */
  lemma ParsedRowAt(sheet: SheetData, i: int)
    requires Uniform(sheet) && 0 <= i < |sheet.rows|
    ensures ParseSheet(sheet.sheetName, Some(Grid(sheet))).Success?
    ensures ParseSheet(sheet.sheetName, Some(Grid(sheet))).value.rows[i] == sheet.rows[i]
  {
    UniformHeaders(sheet, i);
    GridLine(sheet, i);
    ParseSheetRows(sheet.sheetName, Grid(sheet), i);
    ParseFlattenedRow(sheet.rows[i], Headers(sheet));
  }

  /** Flattening then parsing gives a uniform sheet back, name and rows. */
  lemma ParseFlattened(sheet: SheetData)
    requires Uniform(sheet)
    ensures ParseSheet(sheet.sheetName, Some(Grid(sheet))) == Success(sheet)
  {
    var parsed := ParseSheet(sheet.sheetName, Some(Grid(sheet)));
    ParsedRowAt(sheet, 0);
    forall i | 0 <= i < |sheet.rows| ensures parsed.value.rows[i] == sheet.rows[i] {
      ParsedRowAt(sheet, i);
    }
    assert parsed.value.rows == sheet.rows;
  }

  /** A sheet without rows writes only its header line, which does not
      read back. */
  lemma ParseFlattenedEmpty(sheet: SheetData)
    requires |sheet.rows| == 0
    ensures Grid(sheet) == [[KeyField]]
    ensures ParseSheet(sheet.sheetName, Some(Grid(sheet))) == Failure(NoData(sheet.sheetName))
  {
  }

  /** The sheet of a page with keys, built from a tree with no language
      called `key`, is headed by `key` and the tree's languages; when no
      language is called `''` either, parsing its grid gives it back. */
  lemma PageSheetReadsBack(t: TranslationsByLanguage, page: string)
    requires WellFormed(t) && KeyField !in Keys(t)
    requires CollectKeys(t, Keys(t), page) != []
    ensures Headers(PageSheet(t, Keys(t), page)) == [KeyField] + Keys(t)
    ensures "" !in Keys(t) ==> ParseSheet(page, Some(Grid(PageSheet(t, Keys(t), page)))) == Success(PageSheet(t, Keys(t), page))
  {
    var sheet := PageSheet(t, Keys(t), page);
    WithoutKeyFilters(Keys(t));
    forall j | 0 <= j < |sheet.rows| ensures ValidRow(sheet.rows[j]) && Keys(sheet.rows[j].fields) == Keys(t) {
      ConvertedRow(t, page, j, "");
    }
    HeadersOfSheet(sheet, "");
    if "" !in Keys(t) {
      ParseFlattened(sheet);
    }
  }
}
