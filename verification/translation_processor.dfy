/** `TranslationProcessor.processSheetData`: builds the locale tree
    (language -> category -> key -> string) from the sheets of the
    spreadsheet, one category per sheet. */
module TranslationProcessor {
  import opened Wrappers
  import opened OrderedSet
  import opened Assoc
  import opened Text
  import opened Types

  /** The languages of a sheet: the property names of its FIRST row other
      than `key`; a sheet without rows has none. */
  function Languages(sheet: SheetData): seq<string> {
    if |sheet.rows| == 0 then [] else WithoutKey(FieldNames(sheet.rows[0]))
  }

  /** `l` is a property name of the sheet's first row other than `key`. */
  predicate HasLanguage(sheet: SheetData, l: string) {
    |sheet.rows| > 0 && l != KeyField && l in Keys(sheet.rows[0].fields)
  }

  /** A sheet's languages are the first row's property names other than
      `key`, in the first row's order; property names that only later rows
      carry are not among them. */
  lemma LanguagesOfSheet(sheet: SheetData, l: string)
    ensures |sheet.rows| == 0 ==> Languages(sheet) == []
    ensures l in Languages(sheet) <==> HasLanguage(sheet, l)
    ensures |sheet.rows| > 0 && ValidRow(sheet.rows[0]) ==> Languages(sheet) == Keys(sheet.rows[0].fields)
  {
    if |sheet.rows| > 0 {
      var row := sheet.rows[0];
      var names := FieldNames(row);
      assert names[1..] == Keys(row.fields);
      WithoutKeyHead(Keys(row.fields));
      WithoutKeyFilters(Keys(row.fields));
    }
  }

  /** `row[language]?.trim() || ''`: the trimmed cell, empty when missing. */
  function Cell(row: TranslationRow, language: string): (v: string)
    ensures Trim(v) == v
    ensures GetField(row, language).None? ==> v == ""
    ensures GetField(row, language).Some? ==> v == Trim(GetField(row, language).value)
  {
    match GetField(row, language)
    case None => ""
    case Some(s) => TrimIdempotent(s); Trim(s)
  }

  /** Creates an empty category object for each language that has none. */
  function EnsureLanguages(t: TranslationsByLanguage, langs: seq<string>): (r: TranslationsByLanguage)
    ensures Keys(r) == AddAll(Keys(t), langs)
    ensures forall l :: Categories(r, l) == Categories(t, l)
    decreases |langs|
  {
    if |langs| == 0 then t
    else
      var p := EnsureLanguages(t, langs[..|langs| - 1]);
      var l := langs[|langs| - 1];
      if Get(p, l).Some? then p else Put(p, l, [])
  }

  /** `translations[l][c] ||= {}; translations[l][c][k] = v`. */
  function Write(t: TranslationsByLanguage, l: string, c: string, k: string, v: string): TranslationsByLanguage {
    var categories := Categories(t, l);
    var entries := Get(categories, c).GetOr([]);
    Put(t, l, Put(categories, c, Put(entries, k, v)))
  }

  /** Writing adds the language, if missing, at the end. */
  lemma WriteKeys(t: TranslationsByLanguage, l: string, c: string, k: string, v: string)
    ensures Keys(Write(t, l, c, k, v)) == Add(Keys(t), l)
  {
  }

  /** Writing adds the category to language `l` only. */
  lemma WriteCategories(t: TranslationsByLanguage, l: string, c: string, k: string, v: string, l': string)
    ensures CategoryNames(Write(t, l, c, k, v), l') ==
      if l' == l then Add(CategoryNames(t, l), c) else CategoryNames(t, l')
  {
  }

  /** Writing adds the key to category `c` of language `l` only. */
  lemma WriteEntries(t: TranslationsByLanguage, l: string, c: string, k: string, v: string, l': string, c': string)
    ensures EntryKeys(Write(t, l, c, k, v), l', c') ==
      if l' == l && c' == c then Add(EntryKeys(t, l, c), k) else EntryKeys(t, l', c')
  {
  }

  /** Writing sets exactly one value. */
  lemma WriteLookup(t: TranslationsByLanguage, l: string, c: string, k: string, v: string, l': string, c': string, k': string)
    ensures Lookup(Write(t, l, c, k, v), l', c', k') ==
      if l' == l && c' == c && k' == k then Some(v) else Lookup(t, l', c', k')
  {
  }

  /** The inner loop: the row's trimmed cell under key `k` for every
      language of the sheet, in order. */
  function WriteLanguages(t: TranslationsByLanguage, c: string, langs: seq<string>, k: string, row: TranslationRow): TranslationsByLanguage
    decreases |langs|
  {
    if |langs| == 0 then t
    else
      var l := langs[|langs| - 1];
      Write(WriteLanguages(t, c, langs[..|langs| - 1], k, row), l, c, k, Cell(row, l))
  }

  /** One row: skipped when its trimmed key is empty. */
  function WriteRow(t: TranslationsByLanguage, c: string, langs: seq<string>, row: TranslationRow): TranslationsByLanguage {
    var k := Trim(row.key);
    if k == "" then t else WriteLanguages(t, c, langs, k, row)
  }

  /** The loop over the rows of one sheet, in order. */
  function WriteRows(t: TranslationsByLanguage, c: string, langs: seq<string>, rows: seq<TranslationRow>): TranslationsByLanguage
    decreases |rows|
  {
    if |rows| == 0 then t
    else WriteRow(WriteRows(t, c, langs, rows[..|rows| - 1]), c, langs, rows[|rows| - 1])
  }

  /** One sheet: skipped without rows; otherwise its languages get an entry
      and then every row is written under the sheet's name. */
  function ProcessSheet(t: TranslationsByLanguage, sheet: SheetData): TranslationsByLanguage {
    if |sheet.rows| == 0 then t
    else
      var langs := Languages(sheet);
      WriteRows(EnsureLanguages(t, langs), sheet.sheetName, langs, sheet.rows)
  }

  /** The loop over the sheets, in input order, starting from `t`. */
  function ProcessSheets(t: TranslationsByLanguage, sheets: seq<SheetData>): TranslationsByLanguage
    decreases |sheets|
  {
    if |sheets| == 0 then t
    else ProcessSheet(ProcessSheets(t, sheets[..|sheets| - 1]), sheets[|sheets| - 1])
  }

  /** `processSheetData`. */
  function ProcessSheetData(sheets: seq<SheetData>): TranslationsByLanguage {
    ProcessSheets([], sheets)
  }

  // ---------------------------------------------------------------------
  // What the loops write: reference definitions.
  // ---------------------------------------------------------------------

  /** The trimmed keys of the rows that are not skipped, in row order. */
  function KeptKeys(rows: seq<TranslationRow>): seq<string>
    decreases |rows|
  {
    if |rows| == 0 then []
    else
      var k := Trim(rows[|rows| - 1].key);
      var p := KeptKeys(rows[..|rows| - 1]);
      if k == "" then p else p + [k]
  }

  /** A key is kept exactly when it is non-empty and some row's key trims
      to it. */
  lemma {:induction false} KeptKeysMembers(rows: seq<TranslationRow>, k: string)
    ensures k in KeptKeys(rows) <==> k != "" && exists j :: 0 <= j < |rows| && Trim(rows[j].key) == k
    decreases |rows|
  {
    if |rows| != 0 {
      var p := rows[..|rows| - 1];
      KeptKeysMembers(p, k);
      assert forall j :: 0 <= j < |p| ==> p[j] == rows[j];
      if k != "" && Trim(rows[|rows| - 1].key) != k && exists j :: 0 <= j < |rows| && Trim(rows[j].key) == k {
        var j :| 0 <= j < |rows| && Trim(rows[j].key) == k;
        assert Trim(p[j].key) == k;
      }
    }
  }

  /** The last row whose trimmed key is `k`: its cells are the ones that
      stay, since later rows overwrite earlier ones. */
  function LastRowIndex(rows: seq<TranslationRow>, k: string): (r: Option<nat>)
    ensures r.Some? ==> r.value < |rows|
    decreases |rows|
  {
    if |rows| == 0 then None
    else if k != "" && Trim(rows[|rows| - 1].key) == k then Some(|rows| - 1)
    else LastRowIndex(rows[..|rows| - 1], k)
  }

  /** `LastRowIndex` finds a row exactly when one trims to the non-empty
      `k`, and no later row does. */
  lemma {:induction false} LastRowIndexIsLast(rows: seq<TranslationRow>, k: string)
    ensures LastRowIndex(rows, k).None? <==> (k == "" || forall j :: 0 <= j < |rows| ==> Trim(rows[j].key) != k)
    ensures LastRowIndex(rows, k).Some? ==>
      && k != "" && Trim(rows[LastRowIndex(rows, k).value].key) == k
      && forall j :: LastRowIndex(rows, k).value < j < |rows| ==> Trim(rows[j].key) != k
    decreases |rows|
  {
    if |rows| != 0 && !(k != "" && Trim(rows[|rows| - 1].key) == k) {
      var p := rows[..|rows| - 1];
      LastRowIndexIsLast(p, k);
      assert forall j :: 0 <= j < |p| ==> p[j] == rows[j];
    }
  }

  /** The value the rows leave under language `l` and key `k`, if any. */
  function RowsValue(rows: seq<TranslationRow>, l: string, k: string): Option<string> {
    match LastRowIndex(rows, k)
    case None => None
    case Some(j) => Some(Cell(rows[j], l))
  }

  // ---------------------------------------------------------------------
  // Effect of one row.
  // ---------------------------------------------------------------------

  lemma {:induction false} WriteLanguagesKeys(t: TranslationsByLanguage, c: string, langs: seq<string>, k: string, row: TranslationRow)
    ensures Keys(WriteLanguages(t, c, langs, k, row)) == AddAll(Keys(t), langs)
    decreases |langs|
  {
    if |langs| != 0 {
      WriteLanguagesKeys(t, c, langs[..|langs| - 1], k, row);
      WriteKeys(WriteLanguages(t, c, langs[..|langs| - 1], k, row), langs[|langs| - 1], c, k, Cell(row, langs[|langs| - 1]));
    }
  }

  lemma {:induction false} WriteLanguagesCategories(t: TranslationsByLanguage, c: string, langs: seq<string>, k: string, row: TranslationRow, l: string)
    ensures CategoryNames(WriteLanguages(t, c, langs, k, row), l) ==
      if l in langs then Add(CategoryNames(t, l), c) else CategoryNames(t, l)
    decreases |langs|
  {
    if |langs| != 0 {
      var p := langs[..|langs| - 1];
      assert langs == p + [langs[|langs| - 1]];
      var m := langs[|langs| - 1];
      var q := WriteLanguages(t, c, p, k, row);
      assert WriteLanguages(t, c, langs, k, row) == Write(q, m, c, k, Cell(row, m));
      var before := CategoryNames(t, l);
      WriteLanguagesCategories(t, c, p, k, row, l);
      WriteCategories(q, m, c, k, Cell(row, m), l);
      assert l in langs <==> l in p || l == m;
      if l == m && l in p {
        AddTwice(before, c);
      }
    }
  }

  lemma {:induction false} WriteLanguagesEntries(t: TranslationsByLanguage, c: string, langs: seq<string>, k: string, row: TranslationRow, l: string, c': string)
    ensures EntryKeys(WriteLanguages(t, c, langs, k, row), l, c') ==
      if l in langs && c' == c then Add(EntryKeys(t, l, c), k) else EntryKeys(t, l, c')
    decreases |langs|
  {
    if |langs| != 0 {
      var p := langs[..|langs| - 1];
      assert langs == p + [langs[|langs| - 1]];
      var m := langs[|langs| - 1];
      var q := WriteLanguages(t, c, p, k, row);
      assert WriteLanguages(t, c, langs, k, row) == Write(q, m, c, k, Cell(row, m));
      WriteLanguagesEntries(t, c, p, k, row, l, c');
      WriteEntries(q, m, c, k, Cell(row, m), l, c');
      if l == m && l in p && c' == c {
        AddTwice(EntryKeys(t, l, c), k);
      }
    }
  }

  lemma {:induction false} WriteLanguagesLookup(t: TranslationsByLanguage, c: string, langs: seq<string>, k: string, row: TranslationRow, l: string, c': string, k': string)
    ensures Lookup(WriteLanguages(t, c, langs, k, row), l, c', k') ==
      if l in langs && c' == c && k' == k then Some(Cell(row, l)) else Lookup(t, l, c', k')
    decreases |langs|
  {
    if |langs| != 0 {
      var p := langs[..|langs| - 1];
      assert langs == p + [langs[|langs| - 1]];
      WriteLanguagesLookup(t, c, p, k, row, l, c', k');
      WriteLookup(WriteLanguages(t, c, p, k, row), langs[|langs| - 1], c, k, Cell(row, langs[|langs| - 1]), l, c', k');
    }
  }

  // ---------------------------------------------------------------------
  // Effect of the rows of one sheet.
  // ---------------------------------------------------------------------

  /** Adding the same elements twice is adding them once. */
  lemma AddAllTwice(s: seq<string>, xs: seq<string>)
    ensures AddAll(AddAll(s, xs), xs) == AddAll(s, xs)
  {
    AddAllPresent(AddAll(s, xs), xs);
  }

  lemma {:induction false} WriteRowsKeys(t: TranslationsByLanguage, c: string, langs: seq<string>, rows: seq<TranslationRow>)
    ensures Keys(WriteRows(t, c, langs, rows)) ==
      if KeptKeys(rows) == [] then Keys(t) else AddAll(Keys(t), langs)
    decreases |rows|
  {
    if |rows| != 0 {
      var p := WriteRows(t, c, langs, rows[..|rows| - 1]);
      WriteRowsKeys(t, c, langs, rows[..|rows| - 1]);
      WriteLanguagesKeys(p, c, langs, Trim(rows[|rows| - 1].key), rows[|rows| - 1]);
      AddAllTwice(Keys(t), langs);
    }
  }

  lemma {:induction false} WriteRowsCategories(t: TranslationsByLanguage, c: string, langs: seq<string>, rows: seq<TranslationRow>, l: string)
    ensures CategoryNames(WriteRows(t, c, langs, rows), l) ==
      if l in langs && KeptKeys(rows) != [] then Add(CategoryNames(t, l), c) else CategoryNames(t, l)
    decreases |rows|
  {
    if |rows| != 0 {
      var p := WriteRows(t, c, langs, rows[..|rows| - 1]);
      WriteRowsCategories(t, c, langs, rows[..|rows| - 1], l);
      WriteLanguagesCategories(p, c, langs, Trim(rows[|rows| - 1].key), rows[|rows| - 1], l);
    }
  }

  lemma {:induction false} WriteRowsEntries(t: TranslationsByLanguage, c: string, langs: seq<string>, rows: seq<TranslationRow>, l: string, c': string)
    ensures EntryKeys(WriteRows(t, c, langs, rows), l, c') ==
      if l in langs && c' == c then AddAll(EntryKeys(t, l, c), KeptKeys(rows)) else EntryKeys(t, l, c')
    decreases |rows|
  {
    if |rows| != 0 {
      var p := WriteRows(t, c, langs, rows[..|rows| - 1]);
      var k := Trim(rows[|rows| - 1].key);
      WriteRowsEntries(t, c, langs, rows[..|rows| - 1], l, c');
      WriteLanguagesEntries(p, c, langs, k, rows[|rows| - 1], l, c');
      if k != "" {
        AddAllConcat(EntryKeys(t, l, c), KeptKeys(rows[..|rows| - 1]), [k]);
      }
    }
  }

  lemma {:induction false} WriteRowsLookup(t: TranslationsByLanguage, c: string, langs: seq<string>, rows: seq<TranslationRow>, l: string, c': string, k: string)
    ensures Lookup(WriteRows(t, c, langs, rows), l, c', k) ==
      if l in langs && c' == c && RowsValue(rows, l, k).Some?
      then RowsValue(rows, l, k) else Lookup(t, l, c', k)
    decreases |rows|
  {
    if |rows| != 0 {
      var prefix := rows[..|rows| - 1];
      var last := rows[|rows| - 1];
      var p := WriteRows(t, c, langs, prefix);
      assert WriteRows(t, c, langs, rows) == WriteRow(p, c, langs, last);
      WriteRowsLookup(t, c, langs, prefix, l, c', k);
      if k != "" && Trim(last.key) == k {
        assert LastRowIndex(rows, k) == Some(|rows| - 1);
        WriteLanguagesLookup(p, c, langs, k, last, l, c', k);
      } else {
        assert LastRowIndex(rows, k) == LastRowIndex(prefix, k);
        if LastRowIndex(prefix, k).Some? {
          var j := LastRowIndex(prefix, k).value;
          assert prefix[j] == rows[j];
          assert RowsValue(rows, l, k) == RowsValue(prefix, l, k);
        }
        if Trim(last.key) != "" {
          WriteLanguagesLookup(p, c, langs, Trim(last.key), last, l, c', k);
        }
      }
    }
  }

  // ---------------------------------------------------------------------
  // Effect of one sheet.
  // ---------------------------------------------------------------------

  lemma ProcessSheetKeys(t: TranslationsByLanguage, sheet: SheetData)
    ensures Keys(ProcessSheet(t, sheet)) == AddAll(Keys(t), Languages(sheet))
  {
    if |sheet.rows| != 0 {
      var langs := Languages(sheet);
      WriteRowsKeys(EnsureLanguages(t, langs), sheet.sheetName, langs, sheet.rows);
      AddAllTwice(Keys(t), langs);
    }
  }

  lemma ProcessSheetCategories(t: TranslationsByLanguage, sheet: SheetData, l: string)
    ensures CategoryNames(ProcessSheet(t, sheet), l) ==
      if HasLanguage(sheet, l) && KeptKeys(sheet.rows) != []
      then Add(CategoryNames(t, l), sheet.sheetName) else CategoryNames(t, l)
  {
    LanguagesOfSheet(sheet, l);
    if |sheet.rows| != 0 {
      var langs := Languages(sheet);
      WriteRowsCategories(EnsureLanguages(t, langs), sheet.sheetName, langs, sheet.rows, l);
    }
  }

  lemma ProcessSheetEntries(t: TranslationsByLanguage, sheet: SheetData, l: string, c: string)
    ensures EntryKeys(ProcessSheet(t, sheet), l, c) ==
      if HasLanguage(sheet, l) && c == sheet.sheetName
      then AddAll(EntryKeys(t, l, c), KeptKeys(sheet.rows)) else EntryKeys(t, l, c)
  {
    LanguagesOfSheet(sheet, l);
    if |sheet.rows| != 0 {
      var langs := Languages(sheet);
      WriteRowsEntries(EnsureLanguages(t, langs), sheet.sheetName, langs, sheet.rows, l, c);
    }
  }

  lemma ProcessSheetLookup(t: TranslationsByLanguage, sheet: SheetData, l: string, c: string, k: string)
    ensures Lookup(ProcessSheet(t, sheet), l, c, k) ==
      if HasLanguage(sheet, l) && c == sheet.sheetName && RowsValue(sheet.rows, l, k).Some?
      then RowsValue(sheet.rows, l, k) else Lookup(t, l, c, k)
  {
    LanguagesOfSheet(sheet, l);
    if |sheet.rows| != 0 {
      var langs := Languages(sheet);
      WriteRowsLookup(EnsureLanguages(t, langs), sheet.sheetName, langs, sheet.rows, l, c, k);
    }
  }

  // ---------------------------------------------------------------------
  // Effect of the whole sequence of sheets.
  // ---------------------------------------------------------------------

  /** The languages of every sheet, in sheet order (with repetitions). */
  function AllLanguages(sheets: seq<SheetData>): seq<string>
    decreases |sheets|
  {
    if |sheets| == 0 then []
    else AllLanguages(sheets[..|sheets| - 1]) + Languages(sheets[|sheets| - 1])
  }

  lemma {:induction false} AllLanguagesMembers(sheets: seq<SheetData>, l: string)
    ensures l in AllLanguages(sheets) <==> exists i :: 0 <= i < |sheets| && HasLanguage(sheets[i], l)
    decreases |sheets|
  {
    if |sheets| != 0 {
      var n := |sheets| - 1;
      var p := sheets[..n];
      AllLanguagesMembers(p, l);
      LanguagesOfSheet(sheets[n], l);
      if l in AllLanguages(p) {
        var i :| 0 <= i < |p| && HasLanguage(p[i], l);
        assert p[i] == sheets[i];
      }
      if exists i :: 0 <= i < |sheets| && HasLanguage(sheets[i], l) {
        var i :| 0 <= i < |sheets| && HasLanguage(sheets[i], l);
        if i < n {
          assert p[i] == sheets[i];
        }
      }
    }
  }

  /** The sheet names under which language `l` receives at least one key,
      in sheet order (with repetitions). */
  function WrittenCategories(sheets: seq<SheetData>, l: string): seq<string>
    decreases |sheets|
  {
    if |sheets| == 0 then []
    else
      var s := sheets[|sheets| - 1];
      WrittenCategories(sheets[..|sheets| - 1], l)
        + (if HasLanguage(s, l) && KeptKeys(s.rows) != [] then [s.sheetName] else [])
  }

  lemma {:induction false} WrittenCategoriesMembers(sheets: seq<SheetData>, l: string, c: string)
    ensures c in WrittenCategories(sheets, l) <==>
      exists i :: 0 <= i < |sheets| && sheets[i].sheetName == c && HasLanguage(sheets[i], l) && KeptKeys(sheets[i].rows) != []
    decreases |sheets|
  {
    if |sheets| != 0 {
      var n := |sheets| - 1;
      var p := sheets[..n];
      WrittenCategoriesMembers(p, l, c);
      if c in WrittenCategories(p, l) {
        var i :| 0 <= i < |p| && p[i].sheetName == c && HasLanguage(p[i], l) && KeptKeys(p[i].rows) != [];
        assert p[i] == sheets[i];
      }
      if exists i :: 0 <= i < |sheets| && sheets[i].sheetName == c && HasLanguage(sheets[i], l) && KeptKeys(sheets[i].rows) != [] {
        var i :| 0 <= i < |sheets| && sheets[i].sheetName == c && HasLanguage(sheets[i], l) && KeptKeys(sheets[i].rows) != [];
        if i < n {
          assert p[i] == sheets[i];
        }
      }
    }
  }

  /** Row `j` of sheet `i` assigns `translations[l][c][k]`. */
  predicate Assigns(sheets: seq<SheetData>, i: int, j: int, l: string, c: string, k: string) {
    && 0 <= i < |sheets| && 0 <= j < |sheets[i].rows|
    && sheets[i].sheetName == c && HasLanguage(sheets[i], l)
    && k != "" && Trim(sheets[i].rows[j].key) == k
  }

  /** Sheet `s` writes a value for `translations[l][c][k]`. */
  predicate SheetWrites(s: SheetData, l: string, c: string, k: string) {
    s.sheetName == c && HasLanguage(s, l) && LastRowIndex(s.rows, k).Some?
  }

  /** The keys written for language `l` in category `c`, in order (with
      repetitions). */
  function WrittenKeys(sheets: seq<SheetData>, l: string, c: string): seq<string>
    decreases |sheets|
  {
    if |sheets| == 0 then []
    else
      var s := sheets[|sheets| - 1];
      WrittenKeys(sheets[..|sheets| - 1], l, c) + (if HasLanguage(s, l) && s.sheetName == c then KeptKeys(s.rows) else [])
  }

  /** No key is written for `l` in `c` exactly when `c` is not among the
      categories written for `l`. */
  lemma {:induction false} WrittenKeysEmpty(sheets: seq<SheetData>, l: string, c: string)
    ensures WrittenKeys(sheets, l, c) == [] <==> c !in WrittenCategories(sheets, l)
    decreases |sheets|
  {
    if |sheets| != 0 {
      WrittenKeysEmpty(sheets[..|sheets| - 1], l, c);
    }
  }

  /** A key is written for `l` in `c` exactly when some row assigns it. */
  lemma {:induction false} WrittenKeysMembers(sheets: seq<SheetData>, l: string, c: string, k: string)
    ensures k in WrittenKeys(sheets, l, c) <==> exists i, j :: Assigns(sheets, i, j, l, c, k)
    decreases |sheets|
  {
    if |sheets| != 0 {
      var n := |sheets| - 1;
      var p := sheets[..n];
      var s := sheets[n];
      WrittenKeysMembers(p, l, c, k);
      KeptKeysMembers(s.rows, k);
      if k in WrittenKeys(sheets, l, c) {
        if k in WrittenKeys(p, l, c) {
          var i, j :| Assigns(p, i, j, l, c, k);
          assert p[i] == sheets[i];
          assert Assigns(sheets, i, j, l, c, k);
        } else {
          var j :| 0 <= j < |s.rows| && Trim(s.rows[j].key) == k;
          assert Assigns(sheets, n, j, l, c, k);
        }
      }
      if exists i, j :: Assigns(sheets, i, j, l, c, k) {
        var i, j :| Assigns(sheets, i, j, l, c, k);
        if i < n {
          assert p[i] == sheets[i];
          assert Assigns(p, i, j, l, c, k);
        } else {
          assert i == n && sheets[i] == s;
          assert 0 <= j < |s.rows| && Trim(s.rows[j].key) == k;
        }
      }
    }
  }

  /** The last sheet that writes `translations[l][c][k]`. */
  function LastSheet(sheets: seq<SheetData>, l: string, c: string, k: string): (r: Option<nat>)
    ensures r.Some? ==> r.value < |sheets|
    decreases |sheets|
  {
    if |sheets| == 0 then None
    else if SheetWrites(sheets[|sheets| - 1], l, c, k) then Some(|sheets| - 1)
    else LastSheet(sheets[..|sheets| - 1], l, c, k)
  }

  /** `LastSheet` finds a writing sheet exactly when there is one, and no
      later sheet writes. */
  lemma {:induction false} LastSheetIsLast(sheets: seq<SheetData>, l: string, c: string, k: string)
    ensures LastSheet(sheets, l, c, k).None? <==> forall i :: 0 <= i < |sheets| ==> !SheetWrites(sheets[i], l, c, k)
    ensures LastSheet(sheets, l, c, k).Some? ==>
      && SheetWrites(sheets[LastSheet(sheets, l, c, k).value], l, c, k)
      && forall i :: LastSheet(sheets, l, c, k).value < i < |sheets| ==> !SheetWrites(sheets[i], l, c, k)
    decreases |sheets|
  {
    if |sheets| != 0 && !SheetWrites(sheets[|sheets| - 1], l, c, k) {
      var p := sheets[..|sheets| - 1];
      LastSheetIsLast(p, l, c, k);
      assert forall i :: 0 <= i < |p| ==> p[i] == sheets[i];
    }
  }

  /** The position (sheet, row) of the last assignment to
      `translations[l][c][k]`, if there is one. */
  function LastWrite(sheets: seq<SheetData>, l: string, c: string, k: string): (r: Option<(nat, nat)>)
    ensures r.Some? ==> r.value.0 < |sheets| && r.value.1 < |sheets[r.value.0].rows|
  {
    match LastSheet(sheets, l, c, k)
    case None => None
    case Some(i) => LastSheetIsLast(sheets, l, c, k); Some((i, LastRowIndex(sheets[i].rows, k).value))
  }

  /** `LastWrite` finds an assignment exactly when there is one, and the one
      it finds comes after every other: sheet order first, then row order. */
  lemma LastWriteIsLast(sheets: seq<SheetData>, l: string, c: string, k: string)
    ensures LastWrite(sheets, l, c, k).None? <==> forall i, j :: !Assigns(sheets, i, j, l, c, k)
    ensures LastWrite(sheets, l, c, k).Some? ==>
      var (i0, j0) := LastWrite(sheets, l, c, k).value;
      && Assigns(sheets, i0, j0, l, c, k)
      && forall i, j :: Assigns(sheets, i, j, l, c, k) ==> i < i0 || (i == i0 && j <= j0)
  {
    LastSheetIsLast(sheets, l, c, k);
    forall i, j | Assigns(sheets, i, j, l, c, k) ensures SheetWrites(sheets[i], l, c, k) {
      LastRowIndexIsLast(sheets[i].rows, k);
    }
    if LastSheet(sheets, l, c, k).Some? {
      var i0 := LastSheet(sheets, l, c, k).value;
      LastRowIndexIsLast(sheets[i0].rows, k);
      assert Assigns(sheets, i0, LastRowIndex(sheets[i0].rows, k).value, l, c, k);
    }
  }

  /** The value `translations[l][c][k]` is left with, if any: the trimmed
      cell of the last assigning row. */
  function SheetsValue(sheets: seq<SheetData>, l: string, c: string, k: string): Option<string> {
    match LastWrite(sheets, l, c, k)
    case None => None
    case Some((i, j)) => Some(Cell(sheets[i].rows[j], l))
  }

  lemma {:induction false} ProcessSheetsKeys(t: TranslationsByLanguage, sheets: seq<SheetData>)
    ensures Keys(ProcessSheets(t, sheets)) == AddAll(Keys(t), AllLanguages(sheets))
    decreases |sheets|
  {
    if |sheets| != 0 {
      var p := sheets[..|sheets| - 1];
      ProcessSheetsKeys(t, p);
      ProcessSheetKeys(ProcessSheets(t, p), sheets[|sheets| - 1]);
      AddAllConcat(Keys(t), AllLanguages(p), Languages(sheets[|sheets| - 1]));
    }
  }

  lemma {:induction false} ProcessSheetsCategories(t: TranslationsByLanguage, sheets: seq<SheetData>, l: string)
    ensures CategoryNames(ProcessSheets(t, sheets), l) == AddAll(CategoryNames(t, l), WrittenCategories(sheets, l))
    decreases |sheets|
  {
    if |sheets| != 0 {
      var p := sheets[..|sheets| - 1];
      var s := sheets[|sheets| - 1];
      ProcessSheetsCategories(t, p, l);
      ProcessSheetCategories(ProcessSheets(t, p), s, l);
      var extra := if HasLanguage(s, l) && KeptKeys(s.rows) != [] then [s.sheetName] else [];
      AddAllConcat(CategoryNames(t, l), WrittenCategories(p, l), extra);
    }
  }

  lemma {:induction false} ProcessSheetsEntries(t: TranslationsByLanguage, sheets: seq<SheetData>, l: string, c: string)
    ensures EntryKeys(ProcessSheets(t, sheets), l, c) == AddAll(EntryKeys(t, l, c), WrittenKeys(sheets, l, c))
    decreases |sheets|
  {
    if |sheets| != 0 {
      var p := sheets[..|sheets| - 1];
      var s := sheets[|sheets| - 1];
      ProcessSheetsEntries(t, p, l, c);
      ProcessSheetEntries(ProcessSheets(t, p), s, l, c);
      var extra := if HasLanguage(s, l) && s.sheetName == c then KeptKeys(s.rows) else [];
      AddAllConcat(EntryKeys(t, l, c), WrittenKeys(p, l, c), extra);
    }
  }

  lemma {:induction false} ProcessSheetsLookup(t: TranslationsByLanguage, sheets: seq<SheetData>, l: string, c: string, k: string)
    ensures Lookup(ProcessSheets(t, sheets), l, c, k) ==
      if SheetsValue(sheets, l, c, k).Some? then SheetsValue(sheets, l, c, k) else Lookup(t, l, c, k)
    decreases |sheets|
  {
    if |sheets| != 0 {
      var p := sheets[..|sheets| - 1];
      var s := sheets[|sheets| - 1];
      ProcessSheetsLookup(t, p, l, c, k);
      ProcessSheetLookup(ProcessSheets(t, p), s, l, c, k);
      if !SheetWrites(s, l, c, k) {
        assert LastSheet(sheets, l, c, k) == LastSheet(p, l, c, k);
        match LastSheet(p, l, c, k)
        case None =>
        case Some(i) => assert p[i] == sheets[i];
      }
    }
  }

  // ---------------------------------------------------------------------
  // Properties of processSheetData.
  // ---------------------------------------------------------------------

  /** Processing `a` and then `b` is processing `a + b`. */
  lemma {:induction false} ProcessSheetsConcat(t: TranslationsByLanguage, a: seq<SheetData>, b: seq<SheetData>)
    ensures ProcessSheets(t, a + b) == ProcessSheets(ProcessSheets(t, a), b)
    decreases |b|
  {
    if |b| == 0 {
      assert a + b == a;
    } else {
      var p := b[..|b| - 1];
      assert (a + b)[..|a + b| - 1] == a + p;
      assert (a + b)[|a + b| - 1] == b[|b| - 1];
      ProcessSheetsConcat(t, a, p);
    }
  }

  /** A sheet without rows changes nothing, wherever it stands. */
  lemma EmptySheetIgnored(a: seq<SheetData>, s: SheetData, b: seq<SheetData>)
    requires |s.rows| == 0
    ensures ProcessSheetData(a + [s] + b) == ProcessSheetData(a + b)
  {
    ProcessSheetsConcat([], a + [s], b);
    ProcessSheetsConcat([], a, [s]);
    ProcessSheetsConcat([], a, b);
    assert [s] == [] + [s];
  }

  /** The top-level properties are the languages of the sheets, each once,
      in first-seen order; a language gets one even when none of its rows
      survives. */
  lemma ResultLanguages(sheets: seq<SheetData>, l: string)
    ensures Keys(ProcessSheetData(sheets)) == Dedup(AllLanguages(sheets))
    ensures l in Keys(ProcessSheetData(sheets)) <==> exists i :: 0 <= i < |sheets| && HasLanguage(sheets[i], l)
  {
    ProcessSheetsKeys([], sheets);
    AllLanguagesMembers(sheets, l);
  }

  /** Language `l` holds the names of the sheets that gave it a key, each
      once, in first-seen order: a category exists exactly when it holds a
      key, and only under a language that exists. */
  lemma ResultCategories(sheets: seq<SheetData>, l: string, c: string)
    ensures CategoryNames(ProcessSheetData(sheets), l) == Dedup(WrittenCategories(sheets, l))
    ensures c in CategoryNames(ProcessSheetData(sheets), l) <==>
      exists i :: 0 <= i < |sheets| && sheets[i].sheetName == c && HasLanguage(sheets[i], l) && KeptKeys(sheets[i].rows) != []
    ensures c in CategoryNames(ProcessSheetData(sheets), l) <==> EntryKeys(ProcessSheetData(sheets), l, c) != []
    ensures c in CategoryNames(ProcessSheetData(sheets), l) ==> l in Keys(ProcessSheetData(sheets))
  {
    ProcessSheetsCategories([], sheets, l);
    ProcessSheetsEntries([], sheets, l, c);
    WrittenCategoriesMembers(sheets, l, c);
    WrittenKeysEmpty(sheets, l, c);
    ResultLanguages(sheets, l);
    var w := WrittenKeys(sheets, l, c);
    assert w != [] ==> w[0] in Dedup(w);
  }

  /** Category `c` of language `l` holds the trimmed, non-empty keys of the
      rows that assign it, each once, in first-seen order, and every one of
      them has a value. */
  lemma ResultKeys(sheets: seq<SheetData>, l: string, c: string, k: string)
    ensures EntryKeys(ProcessSheetData(sheets), l, c) == Dedup(WrittenKeys(sheets, l, c))
    ensures k in EntryKeys(ProcessSheetData(sheets), l, c) <==> exists i, j :: Assigns(sheets, i, j, l, c, k)
    ensures k in EntryKeys(ProcessSheetData(sheets), l, c) ==> k != "" && Trim(k) == k
    ensures k in EntryKeys(ProcessSheetData(sheets), l, c) <==> Lookup(ProcessSheetData(sheets), l, c, k).Some?
  {
    ProcessSheetsEntries([], sheets, l, c);
    WrittenKeysMembers(sheets, l, c, k);
    if k in EntryKeys(ProcessSheetData(sheets), l, c) {
      var i, j :| Assigns(sheets, i, j, l, c, k);
      TrimIdempotent(sheets[i].rows[j].key);
    }
  }

  /** The value left under `translations[l][c][k]` is the trimmed cell (or
      the empty string) of the last row that assigns it, sheets in order and
      rows in order; nothing is left when no row assigns it. */
  lemma LastWriteWins(sheets: seq<SheetData>, l: string, c: string, k: string, i0: nat, j0: nat)
    ensures Lookup(ProcessSheetData(sheets), l, c, k).None? <==> forall i, j :: !Assigns(sheets, i, j, l, c, k)
    ensures Lookup(ProcessSheetData(sheets), l, c, k).Some? ==>
      Trim(Lookup(ProcessSheetData(sheets), l, c, k).value) == Lookup(ProcessSheetData(sheets), l, c, k).value
    ensures Assigns(sheets, i0, j0, l, c, k)
            && (forall i, j :: Assigns(sheets, i, j, l, c, k) ==> i < i0 || (i == i0 && j <= j0))
            ==> Lookup(ProcessSheetData(sheets), l, c, k) == Some(Cell(sheets[i0].rows[j0], l))
  {
    ProcessSheetsLookup([], sheets, l, c, k);
    LastWriteIsLast(sheets, l, c, k);
  }

  /** The result has no repeated language, category or key. */
  lemma ResultWellFormed(sheets: seq<SheetData>)
    ensures WellFormedStore(ProcessSheetData(sheets))
  {
    var t := ProcessSheetData(sheets);
    ProcessSheetsKeys([], sheets);
    forall l ensures Distinct(CategoryNames(t, l)) {
      ProcessSheetsCategories([], sheets, l);
    }
    forall l, c ensures Distinct(EntryKeys(t, l, c)) {
      ProcessSheetsEntries([], sheets, l, c);
    }
  }
}
