/** `ReverseTranslationProcessor`: turns the locale tree back into sheets
    (one per category) and a sheet into the header row and cell grid that
    are written to the spreadsheet. */
module ReverseTranslationProcessor {
  import opened Wrappers
  import opened OrderedSet
  import opened Assoc
  import opened Types

  // ---------------------------------------------------------------------
  // convertToSheetData
  // ---------------------------------------------------------------------

  /** The `pages` set: the category names of the languages `langs`, each
      once, in first-seen order. */
  function CollectPages(t: TranslationsByLanguage, langs: seq<string>): (pages: seq<string>)
    ensures Distinct(pages)
    decreases |langs|
  {
    if |langs| == 0 then []
    else AddAll(CollectPages(t, langs[..|langs| - 1]), CategoryNames(t, langs[|langs| - 1]))
  }

  /** The `allKeys` set of one page: the keys the languages `langs` hold in
      that category, each once, in first-seen order. */
  function CollectKeys(t: TranslationsByLanguage, langs: seq<string>, page: string): (keys: seq<string>)
    ensures Distinct(keys)
    decreases |langs|
  {
    if |langs| == 0 then []
    else
      var p := CollectKeys(t, langs[..|langs| - 1], page);
      var l := langs[|langs| - 1];
      if Get(Categories(t, l), page).Some? then AddAll(p, EntryKeys(t, l, page)) else p
  }

  /** The cell of a row for one language: the stored translation when it is
      a non-empty string, otherwise the empty string. */
  function Value(t: TranslationsByLanguage, l: string, page: string, key: string): string {
    if Get(Categories(t, l), page).Some? && Lookup(t, l, page, key).Some? && Lookup(t, l, page, key).value != ""
    then Lookup(t, l, page, key).value
    else ""
  }

  /** `{ key }` followed by `row[language] = ...` for every language in
      order; a language called `key` overwrites the key. */
  function BuildRow(t: TranslationsByLanguage, langs: seq<string>, page: string, key: string): TranslationRow
    decreases |langs|
  {
    if |langs| == 0 then TranslationRow(key, [])
    else
      var l := langs[|langs| - 1];
      SetField(BuildRow(t, langs[..|langs| - 1], page, key), l, Value(t, l, page, key))
  }

  /** The sheet of one page: a row per key of `allKeys`, in order. */
  function PageSheet(t: TranslationsByLanguage, langs: seq<string>, page: string): SheetData {
    var keys := CollectKeys(t, langs, page);
    SheetData(page, seq(|keys|, j requires 0 <= j < |keys| => BuildRow(t, langs, page, keys[j])))
  }

  /** The categories of the whole tree, in first-seen order. */
  function Pages(t: TranslationsByLanguage): seq<string> {
    CollectPages(t, Keys(t))
  }

  /** `convertToSheetData`. */
  function ConvertToSheetData(t: TranslationsByLanguage): seq<SheetData> {
    if |t| == 0 then []
    else
      var pages := Pages(t);
      seq(|pages|, i requires 0 <= i < |pages| => PageSheet(t, Keys(t), pages[i]))
  }

  /** A category is a page exactly when some language holds it. */
  lemma {:induction false} CollectPagesMembers(t: TranslationsByLanguage, langs: seq<string>, c: string)
    ensures c in CollectPages(t, langs) <==> exists i :: 0 <= i < |langs| && c in CategoryNames(t, langs[i])
    decreases |langs|
  {
    if |langs| != 0 {
      var n := |langs| - 1;
      var p := langs[..n];
      CollectPagesMembers(t, p, c);
      if c in CollectPages(t, langs) {
        if c in CollectPages(t, p) {
          var i :| 0 <= i < |p| && c in CategoryNames(t, p[i]);
          assert p[i] == langs[i];
        } else {
          assert c in CategoryNames(t, langs[n]);
        }
      } else {
        forall i | 0 <= i < |langs| ensures !(c in CategoryNames(t, langs[i])) {
          if i < n {
            assert p[i] == langs[i];
          }
        }
      }
    }
  }

  /** A key belongs to a page exactly when some language holds it in that
      category. */
  lemma {:induction false} CollectKeysMembers(t: TranslationsByLanguage, langs: seq<string>, page: string, k: string)
    ensures k in CollectKeys(t, langs, page) <==> exists i :: 0 <= i < |langs| && k in EntryKeys(t, langs[i], page)
    decreases |langs|
  {
    if |langs| != 0 {
      var n := |langs| - 1;
      var p := langs[..n];
      CollectKeysMembers(t, p, page, k);
      if k in CollectKeys(t, langs, page) {
        if k in CollectKeys(t, p, page) {
          var i :| 0 <= i < |p| && k in EntryKeys(t, p[i], page);
          assert p[i] == langs[i];
        } else {
          assert k in EntryKeys(t, langs[n], page);
        }
      } else {
        forall i | 0 <= i < |langs| ensures !(k in EntryKeys(t, langs[i], page)) {
          if i < n {
            assert p[i] == langs[i];
          }
        }
      }
    }
  }

  /** The truthiness tests change nothing: the cell is the stored
      translation, or the empty string when there is none. */
  lemma ValueIsLookup(t: TranslationsByLanguage, l: string, page: string, key: string)
    ensures Value(t, l, page, key) == Lookup(t, l, page, key).GetOr("")
  {
  }

  /** The property `n` of a built row: the value of language `n` when `n`
      is one of `langs` (even when `n` is `key`), otherwise the key for
      `key` and nothing for any other name. Its language properties come
      in the order of `langs`, each once. */
  lemma {:induction false} BuildRowFields(t: TranslationsByLanguage, langs: seq<string>, page: string, key: string, n: string)
    ensures GetField(BuildRow(t, langs, page, key), n) ==
      if n in langs then Some(Value(t, n, page, key))
      else if n == KeyField then Some(key)
      else None
    ensures Keys(BuildRow(t, langs, page, key).fields) == Dedup(WithoutKey(langs))
    ensures ValidRow(BuildRow(t, langs, page, key))
    decreases |langs|
  {
    if |langs| != 0 {
      var p := langs[..|langs| - 1];
      var l := langs[|langs| - 1];
      assert langs == p + [l];
      BuildRowFields(t, p, page, key, n);
      if l != KeyField {
        AddAllConcat([], WithoutKey(p), [l]);
      }
    } else {
      assert Keys(TranslationRow(key, []).fields) == [];
    }
  }

  /** No sheets come out exactly when no language holds a category: the
      empty tree, but also a tree such as `{en: {}}`. */
  lemma ConvertEmpty(t: TranslationsByLanguage)
    ensures ConvertToSheetData(t) == [] <==> forall l :: l in Keys(t) ==> CategoryNames(t, l) == []
  {
    if |t| > 0 {
      var pages := Pages(t);
      ConvertedSheetNames(t, "");
      if pages != [] {
        ConvertedSheetNames(t, pages[0]);
      } else {
        forall l | l in Keys(t) ensures CategoryNames(t, l) == [] {
          var names := CategoryNames(t, l);
          if names != [] {
            ConvertedSheetNames(t, names[0]);
          }
        }
      }
    }
  }

  /** One sheet per category of the tree, each once, in first-seen order;
      a category is a sheet exactly when some language holds it. */
  lemma ConvertedSheetNames(t: TranslationsByLanguage, c: string)
    ensures |t| > 0 ==> |ConvertToSheetData(t)| == |Pages(t)|
    ensures forall i :: 0 <= i < |ConvertToSheetData(t)| ==> ConvertToSheetData(t)[i].sheetName == Pages(t)[i]
    ensures Distinct(Pages(t))
    ensures c in Pages(t) <==> exists l :: l in Keys(t) && c in CategoryNames(t, l)
  {
    CollectPagesMembers(t, Keys(t), c);
    if exists l :: l in Keys(t) && c in CategoryNames(t, l) {
      var l :| l in Keys(t) && c in CategoryNames(t, l);
      var i :| 0 <= i < |Keys(t)| && Keys(t)[i] == l;
    }
  }

  /** The rows of the sheet of `page` are one per key that some language
      holds in that category, each once, in first-seen order. */
  lemma ConvertedRowKeys(t: TranslationsByLanguage, page: string, k: string)
    ensures |PageSheet(t, Keys(t), page).rows| == |CollectKeys(t, Keys(t), page)|
    ensures Distinct(CollectKeys(t, Keys(t), page))
    ensures k in CollectKeys(t, Keys(t), page) <==> exists l :: l in Keys(t) && k in EntryKeys(t, l, page)
  {
    CollectKeysMembers(t, Keys(t), page, k);
    if exists l :: l in Keys(t) && k in EntryKeys(t, l, page) {
      var l :| l in Keys(t) && k in EntryKeys(t, l, page);
      var i :| 0 <= i < |Keys(t)| && Keys(t)[i] == l;
    }
  }

  /** Row `j` of the sheet of `page`, for the `j`-th key `k`: every language
      of the tree has a property holding its translation or the empty
      string; the key is `k` unless a language is called `key`; the
      language properties follow the order of the languages. */
  lemma ConvertedRow(t: TranslationsByLanguage, page: string, j: int, n: string)
    requires 0 <= j < |CollectKeys(t, Keys(t), page)|
    ensures var row := PageSheet(t, Keys(t), page).rows[j];
            var k := CollectKeys(t, Keys(t), page)[j];
            && GetField(row, n) ==
                 (if n in Keys(t) then Some(Lookup(t, n, page, k).GetOr(""))
                  else if n == KeyField then Some(k)
                  else None)
            && (KeyField !in Keys(t) ==> row.key == k)
            && (WellFormed(t) ==> Keys(row.fields) == WithoutKey(Keys(t)))
            && ValidRow(row)
  {
    var k := CollectKeys(t, Keys(t), page)[j];
    BuildRowFields(t, Keys(t), page, k, n);
    BuildRowFields(t, Keys(t), page, k, KeyField);
    ValueIsLookup(t, n, page, k);
    if WellFormed(t) {
      WithoutKeyFilters(Keys(t));
      DedupDistinct(WithoutKey(Keys(t)));
    }
  }

  // ---------------------------------------------------------------------
  // convertToSpreadsheetRows
  // ---------------------------------------------------------------------

  /** The header row and the data rows written to a sheet. */
  datatype SpreadsheetRows = SpreadsheetRows(headers: seq<string>, rows: seq<seq<string>>)

  /** `['key', ...Object.keys(firstRow).filter(k => k !== 'key')]`, or just
      `['key']` for a sheet without rows. */
  function Headers(sheet: SheetData): seq<string> {
    if |sheet.rows| == 0 then [KeyField]
    else [KeyField] + WithoutKey(FieldNames(sheet.rows[0]))
  }

  /** `headers.map(header => row[header] || '')`. */
  function Flatten(row: TranslationRow, headers: seq<string>): (cells: seq<string>)
    ensures |cells| == |headers|
  {
    seq(|headers|, j requires 0 <= j < |headers| => GetField(row, headers[j]).GetOr(""))
  }

  /** `convertToSpreadsheetRows`. */
  function ConvertToSpreadsheetRows(sheet: SheetData): (r: SpreadsheetRows)
    ensures |sheet.rows| == 0 ==> r == SpreadsheetRows([KeyField], [])
    ensures |r.rows| == |sheet.rows|
    ensures forall i :: 0 <= i < |r.rows| ==> |r.rows[i]| == |r.headers|
  {
    var headers := Headers(sheet);
    SpreadsheetRows(headers, seq(|sheet.rows|, i requires 0 <= i < |sheet.rows| => Flatten(sheet.rows[i], headers)))
  }

  /** The headers start with `key`, which does not come again, followed by
      the first row's other property names in order: for a row built by
      the extension, exactly its language properties. */
  lemma HeadersOfSheet(sheet: SheetData, h: string)
    ensures |Headers(sheet)| > 0 && Headers(sheet)[0] == KeyField
    ensures KeyField !in Headers(sheet)[1..]
    ensures h in Headers(sheet)[1..] <==> |sheet.rows| > 0 && h != KeyField && h in Keys(sheet.rows[0].fields)
    ensures |sheet.rows| > 0 && ValidRow(sheet.rows[0]) ==> Headers(sheet) == [KeyField] + Keys(sheet.rows[0].fields)
    ensures |sheet.rows| > 0 && ValidRow(sheet.rows[0]) ==> Distinct(Headers(sheet))
  {
    if |sheet.rows| > 0 {
      var row := sheet.rows[0];
      assert Headers(sheet)[1..] == WithoutKey(FieldNames(row));
      assert FieldNames(row)[1..] == Keys(row.fields);
      WithoutKeyHead(Keys(row.fields));
      WithoutKeyFilters(Keys(row.fields));
      if ValidRow(row) {
        var hs := Headers(sheet);
        forall a, b | 0 <= a < b < |hs| ensures hs[a] != hs[b] {
          if a > 0 {
            assert hs[a] == Keys(row.fields)[a - 1] && hs[b] == Keys(row.fields)[b - 1];
          } else {
            assert hs[b] in Keys(row.fields);
          }
        }
      }
    } else {
      assert Headers(sheet)[1..] == [];
    }
  }

  /** Cell `j` of data row `i` is the row's property named by header `j`,
      or the empty string when the row lacks it. */
  lemma FlattenedCell(sheet: SheetData, i: int, j: int)
    requires 0 <= i < |sheet.rows| && 0 <= j < |Headers(sheet)|
    ensures ConvertToSpreadsheetRows(sheet).rows[i][j] == GetField(sheet.rows[i], Headers(sheet)[j]).GetOr("")
    ensures j == 0 ==> ConvertToSpreadsheetRows(sheet).rows[i][j] == sheet.rows[i].key
  {
  }

  /** The grid exported for a page of a tree with no language called
      `key`: a line per key of the page, holding the key and then each
      language's translation in the order of the languages, `''` where a
      language has none. */
  lemma ExportedCell(t: TranslationsByLanguage, page: string, i: int, j: int)
    requires WellFormed(t) && KeyField !in Keys(t)
    requires 0 <= i < |CollectKeys(t, Keys(t), page)| && 0 <= j <= |Keys(t)|
    ensures var written := ConvertToSpreadsheetRows(PageSheet(t, Keys(t), page));
            var k := CollectKeys(t, Keys(t), page)[i];
            && written.headers == [KeyField] + Keys(t)
            && |written.rows| == |CollectKeys(t, Keys(t), page)|
            && |written.rows[i]| == |Keys(t)| + 1
            && written.rows[i][0] == k
            && (0 < j ==> written.rows[i][j] == Lookup(t, Keys(t)[j - 1], page, k).GetOr(""))
  {
    var sheet := PageSheet(t, Keys(t), page);
    WithoutKeyFilters(Keys(t));
    ConvertedRow(t, page, 0, "");
    ConvertedRow(t, page, i, "");
    HeadersOfSheet(sheet, "");
    FlattenedCell(sheet, i, 0);
    if 0 < j {
      ConvertedRow(t, page, i, Keys(t)[j - 1]);
      FlattenedCell(sheet, i, j);
    }
  }
}
