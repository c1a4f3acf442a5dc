/** The grid-to-rows part of `GoogleSheetService.getSheetData`: the values
    the Sheets API returns for a sheet (a header row and data rows, each a
    list of cell strings that may stop short) become a `SheetData`. The
    API request itself is not modelled: its answer is the `values`
    parameter, `None` standing for a missing `values` field. */
module SheetParser {
  import opened Wrappers
  import opened OrderedSet
  import opened Assoc
  import opened Text
  import opened Types

  /** The two errors `getSheetData` raises, each naming the sheet. */
  datatype SheetError =
    | NoData(sheetName: string)       // no values, or no data row under the headers
    | NoKeyColumn(sheetName: string)  // no header reads `key` in any case

  /** `headers.findIndex(h => h.toLowerCase() === 'key')`, `None` for -1. */
  function FindKeyColumn(headers: seq<string>): (r: Option<nat>)
    ensures r.Some? ==> r.value < |headers|
    decreases |headers|
  {
    if |headers| == 0 then None
    else if IsKeyHeader(headers[0]) then Some(0)
    else match FindKeyColumn(headers[1..])
      case None => None
      case Some(i) => Some(i + 1)
  }

  /** `FindKeyColumn` finds the FIRST key header, and finds none exactly
      when there is none. */
  lemma {:induction false} FindKeyColumnIsFirst(headers: seq<string>)
    ensures FindKeyColumn(headers).None? <==> forall i :: 0 <= i < |headers| ==> !IsKeyHeader(headers[i])
    ensures FindKeyColumn(headers).Some? ==>
      && IsKeyHeader(headers[FindKeyColumn(headers).value])
      && forall i :: 0 <= i < FindKeyColumn(headers).value ==> !IsKeyHeader(headers[i])
    decreases |headers|
  {
    if |headers| != 0 && !IsKeyHeader(headers[0]) {
      var tail := headers[1..];
      FindKeyColumnIsFirst(tail);
      forall i | 1 <= i < |headers| ensures headers[i] == tail[i - 1] {
      }
    }
  }

  /** `row[index] || ''`: the cell, or the empty string past the end of a
      short row. */
  function CellAt(cells: seq<string>, index: nat): string {
    if index < |cells| then cells[index] else ""
  }

  /** Column `j` is copied into a property named after its header: it is
      not the key column and its header is not empty. */
  predicate Copied(headers: seq<string>, keyIndex: nat, j: int) {
    0 <= j < |headers| && j != keyIndex && headers[j] != ""
  }

  /** The loop over the headers: `{ key: row[keyIndex] || '' }`, then
      `translationRow[header] = row[index] || ''` for every copied column
      in order. A copied column whose header is exactly `key` replaces the
      key. */
  function ParseRow(headers: seq<string>, keyIndex: nat, cells: seq<string>): TranslationRow
    decreases |headers|
  {
    if |headers| == 0 then TranslationRow(CellAt(cells, keyIndex), [])
    else
      var j := |headers| - 1;
      var r := ParseRow(headers[..j], keyIndex, cells);
      if Copied(headers, keyIndex, j) then SetField(r, headers[j], CellAt(cells, j)) else r
  }

  /** `getSheetData` after the request: the error cases, then one row per
      line under the header line. */
  function ParseSheet(sheetName: string, values: Option<seq<seq<string>>>): (r: Result<SheetData, SheetError>)
    ensures (values.None? || |values.value| < 2) <==> r == Failure(NoData(sheetName))
    ensures r.Success? ==> r.value.sheetName == sheetName && |r.value.rows| == |values.value| - 1
  {
    if values.None? || |values.value| < 2 then Failure(NoData(sheetName))
    else
      var grid := values.value;
      var headers := grid[0];
      match FindKeyColumn(headers)
      case None => Failure(NoKeyColumn(sheetName))
      case Some(keyIndex) =>
        Success(SheetData(sheetName, seq(|grid| - 1, i requires 0 <= i < |grid| - 1 => ParseRow(headers, keyIndex, grid[i + 1]))))
  }

  // ---------------------------------------------------------------------
  // What a parsed row holds.
  // ---------------------------------------------------------------------

  /** The last copied column whose header is `name`. */
  function LastColumn(headers: seq<string>, keyIndex: nat, name: string): (r: Option<nat>)
    ensures r.Some? ==> r.value < |headers|
    decreases |headers|
  {
    if |headers| == 0 then None
    else
      var j := |headers| - 1;
      if Copied(headers, keyIndex, j) && headers[j] == name then Some(j)
      else LastColumn(headers[..j], keyIndex, name)
  }

  /** `LastColumn` finds a column exactly when one is copied under `name`,
      and no later one is. */
  lemma {:induction false} LastColumnIsLast(headers: seq<string>, keyIndex: nat, name: string)
    ensures LastColumn(headers, keyIndex, name).None? <==>
      forall j :: 0 <= j < |headers| ==> !(Copied(headers, keyIndex, j) && headers[j] == name)
    ensures LastColumn(headers, keyIndex, name).Some? ==>
      var j0 := LastColumn(headers, keyIndex, name).value;
      && Copied(headers, keyIndex, j0) && headers[j0] == name
      && forall j :: j0 < j < |headers| ==> !(Copied(headers, keyIndex, j) && headers[j] == name)
    decreases |headers|
  {
    if |headers| != 0 {
      var p := headers[..|headers| - 1];
      LastColumnIsLast(p, keyIndex, name);
      assert forall j :: 0 <= j < |p| ==> (Copied(p, keyIndex, j) <==> Copied(headers, keyIndex, j));
    }
  }

  /** The headers of the copied columns, in order. */
  function CopiedHeaders(headers: seq<string>, keyIndex: nat): seq<string>
    decreases |headers|
  {
    if |headers| == 0 then []
    else
      var j := |headers| - 1;
      CopiedHeaders(headers[..j], keyIndex) + (if Copied(headers, keyIndex, j) then [headers[j]] else [])
  }

  /** Property `n` of the parsed row: the cell of the last copied column
      headed `n`; failing that, the key cell for `key`; otherwise
      nothing. */
  lemma {:induction false} ParseRowGet(headers: seq<string>, keyIndex: nat, cells: seq<string>, n: string)
    ensures GetField(ParseRow(headers, keyIndex, cells), n) ==
      match LastColumn(headers, keyIndex, n)
      case Some(j) => Some(CellAt(cells, j))
      case None => if n == KeyField then Some(CellAt(cells, keyIndex)) else None
    decreases |headers|
  {
    if |headers| != 0 {
      ParseRowGet(headers[..|headers| - 1], keyIndex, cells, n);
    }
  }

  /** The language properties of the parsed row are the copied headers
      other than `key`, each once, in first-seen order. */
  lemma {:induction false} ParseRowKeys(headers: seq<string>, keyIndex: nat, cells: seq<string>)
    ensures Keys(ParseRow(headers, keyIndex, cells).fields) == Dedup(WithoutKey(CopiedHeaders(headers, keyIndex)))
    decreases |headers|
  {
    if |headers| != 0 {
      var j := |headers| - 1;
      var p := CopiedHeaders(headers[..j], keyIndex);
      ParseRowKeys(headers[..j], keyIndex, cells);
      if Copied(headers, keyIndex, j) {
        DedupWithoutKeySnoc(p, headers[j]);
      } else {
        assert CopiedHeaders(headers, keyIndex) == p;
      }
    } else {
      assert Keys(TranslationRow(CellAt(cells, keyIndex), []).fields) == [];
    }
  }

  /** The parsed row is a proper object. */
  lemma {:induction false} ParseRowValid(headers: seq<string>, keyIndex: nat, cells: seq<string>)
    ensures ValidRow(ParseRow(headers, keyIndex, cells))
    decreases |headers|
  {
    if |headers| != 0 {
      ParseRowValid(headers[..|headers| - 1], keyIndex, cells);
    } else {
      assert Keys(TranslationRow(CellAt(cells, keyIndex), []).fields) == [];
    }
  }

  /** The key of a parsed row is the key cell, unless another column is
      headed exactly `key`: then the last such column's cell wins. */
  lemma {:induction false} ParseRowKey(headers: seq<string>, keyIndex: nat, cells: seq<string>)
    ensures (forall j :: 0 <= j < |headers| && j != keyIndex ==> headers[j] != KeyField) ==>
      ParseRow(headers, keyIndex, cells).key == CellAt(cells, keyIndex)
    ensures LastColumn(headers, keyIndex, KeyField).Some? ==>
      ParseRow(headers, keyIndex, cells).key == CellAt(cells, LastColumn(headers, keyIndex, KeyField).value)
  {
    ParseRowGet(headers, keyIndex, cells, KeyField);
    LastColumnIsLast(headers, keyIndex, KeyField);
  }

  /** Every non-empty header other than the key column's names a property
      holding the cell of the last column so headed; an empty header names
      nothing. */
  lemma {:induction false} ParseRowField(headers: seq<string>, keyIndex: nat, cells: seq<string>, n: string)
    requires n != KeyField
    ensures n == "" ==> GetField(ParseRow(headers, keyIndex, cells), n).None?
    ensures GetField(ParseRow(headers, keyIndex, cells), n).Some? <==>
      exists j :: Copied(headers, keyIndex, j) && headers[j] == n
    ensures n in Keys(ParseRow(headers, keyIndex, cells).fields) <==>
      exists j :: Copied(headers, keyIndex, j) && headers[j] == n
  {
    ParseRowGet(headers, keyIndex, cells, n);
    ParseRowKeys(headers, keyIndex, cells);
    LastColumnIsLast(headers, keyIndex, n);
  }

  /** A well-formed grid gives one row per data line, each parsed against
      the first `key` header. */
  lemma ParseSheetRows(sheetName: string, grid: seq<seq<string>>, i: int)
    requires |grid| >= 2
    ensures ParseSheet(sheetName, Some(grid)) == Failure(NoKeyColumn(sheetName)) <==>
      forall h :: 0 <= h < |grid[0]| ==> !IsKeyHeader(grid[0][h])
    ensures ParseSheet(sheetName, Some(grid)).Success? && 0 <= i < |grid| - 1 ==>
      && FindKeyColumn(grid[0]).Some?
      && ParseSheet(sheetName, Some(grid)).value.rows[i] == ParseRow(grid[0], FindKeyColumn(grid[0]).value, grid[i + 1])
  {
    FindKeyColumnIsFirst(grid[0]);
  }
}
