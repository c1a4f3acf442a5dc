/** The three shapes the extension moves translations through: a
    spreadsheet row, a named sheet of rows, and the per-language store that
    mirrors the `locales/<language>/<category>.json` tree. */
module Types {
  import opened Wrappers
  import opened OrderedSet
  import opened Assoc

  /** The name of the mandatory row property. */
  const KeyField := "key"

  /** One row of a sheet: the `key` property and one property per language.
      Every row the extension builds assigns `key` first, so `key` is the
      first property of the object; `fields` holds the others in order. */
  datatype TranslationRow = TranslationRow(key: string, fields: Assoc<string>)

  /** A sheet (tab) of the spreadsheet: its name and its data rows. */
  datatype SheetData = SheetData(sheetName: string, rows: seq<TranslationRow>)

  /** One `<category>.json` file: translation key to translated string. */
  type KeyMap = Assoc<string>

  /** One `locales/<language>` directory: category to its keys. */
  type CategoryMap = Assoc<KeyMap>

  /** The whole locale tree: language to its categories. */
  type TranslationsByLanguage = Assoc<CategoryMap>

  /** The row is a JavaScript object: no repeated property, and `key` is
      held in its own slot rather than among the language fields. */
  predicate ValidRow(row: TranslationRow) {
    WellFormed(row.fields) && KeyField !in Keys(row.fields)
  }

  /** `Object.keys(row)`. */
  function FieldNames(row: TranslationRow): seq<string> {
    [KeyField] + Keys(row.fields)
  }

  /** `row[name]`, `None` standing for `undefined`. */
  function GetField(row: TranslationRow, name: string): Option<string> {
    if name == KeyField then Some(row.key) else Get(row.fields, name)
  }

  /** `row[name] = value`: a property called `key` replaces the key. */
  function SetField(row: TranslationRow, name: string, value: string): (r: TranslationRow)
    ensures GetField(r, name) == Some(value)
    ensures forall n :: n != name ==> GetField(r, n) == GetField(row, n)
    ensures Keys(r.fields) == if name == KeyField then Keys(row.fields) else Add(Keys(row.fields), name)
    ensures ValidRow(row) ==> ValidRow(r)
  {
    if name == KeyField then row.(key := value) else row.(fields := Put(row.fields, name, value))
  }

  /** `names.filter(n => n !== 'key')`. */
  function WithoutKey(names: seq<string>): seq<string>
    decreases |names|
  {
    if |names| == 0 then []
    else
      var p := WithoutKey(names[..|names| - 1]);
      var n := names[|names| - 1];
      if n == KeyField then p else p + [n]
  }

  /** The filter keeps exactly the names other than `key`, keeps them
      distinct, and changes nothing when `key` is absent. */
  lemma {:induction false} WithoutKeyFilters(names: seq<string>)
    ensures forall n :: n in WithoutKey(names) <==> n in names && n != KeyField
    ensures Distinct(names) ==> Distinct(WithoutKey(names))
    ensures KeyField !in names ==> WithoutKey(names) == names
    decreases |names|
  {
    if |names| != 0 {
      var n := names[|names| - 1];
      assert names == names[..|names| - 1] + [n];
      DistinctLast(names);
      WithoutKeyFilters(names[..|names| - 1]);
    }
  }

  /** Filtering and deduplicating one more name adds it unless it is `key`. */
  lemma DedupWithoutKeySnoc(names: seq<string>, h: string)
    ensures Dedup(WithoutKey(names + [h])) ==
      if h == KeyField then Dedup(WithoutKey(names)) else Add(Dedup(WithoutKey(names)), h)
  {
    var all := names + [h];
    assert all[..|all| - 1] == names;
    if h != KeyField {
      AddAllConcat([], WithoutKey(names), [h]);
      assert [h][..0] == [];
    }
  }

  /** Filtering `key` off a list headed by `key` leaves the filtered tail. */
  lemma {:induction false} WithoutKeyHead(names: seq<string>)
    ensures WithoutKey([KeyField] + names) == WithoutKey(names)
    decreases |names|
  {
    if |names| == 0 {
      assert [KeyField] + names == [KeyField];
      assert WithoutKey([KeyField]) == WithoutKey([KeyField][..0]);
    } else {
      var all := [KeyField] + names;
      assert all[..|all| - 1] == [KeyField] + names[..|names| - 1];
      WithoutKeyHead(names[..|names| - 1]);
    }
  }

  /** `translations[language] ?? {}`. */
  function Categories(t: TranslationsByLanguage, language: string): CategoryMap {
    Get(t, language).GetOr([])
  }

  /** `translations[language]?.[category] ?? {}`. */
  function Entries(t: TranslationsByLanguage, language: string, category: string): KeyMap {
    Get(Categories(t, language), category).GetOr([])
  }

  /** `translations[language]?.[category]?.[key]`. */
  function Lookup(t: TranslationsByLanguage, language: string, category: string, key: string): Option<string> {
    Get(Entries(t, language, category), key)
  }

  /** The categories of a language, in order (none for an absent language). */
  function CategoryNames(t: TranslationsByLanguage, language: string): seq<string> {
    Keys(Categories(t, language))
  }

  /** The keys of a category of a language, in order. */
  function EntryKeys(t: TranslationsByLanguage, language: string, category: string): seq<string> {
    Keys(Entries(t, language, category))
  }

  /** No object of the tree repeats a property name. */
  ghost predicate WellFormedStore(t: TranslationsByLanguage) {
    && WellFormed(t)
    && (forall l :: Distinct(CategoryNames(t, l)))
    && (forall l, c :: Distinct(EntryKeys(t, l, c)))
  }

  /** Two well-formed trees with the same property order at every level and
      the same translations are equal. */
  lemma StoreExtensionality(a: TranslationsByLanguage, b: TranslationsByLanguage)
    requires WellFormedStore(a)
    requires Keys(a) == Keys(b)
    requires forall l :: CategoryNames(a, l) == CategoryNames(b, l)
    requires forall l, c :: EntryKeys(a, l, c) == EntryKeys(b, l, c)
    requires forall l, c, k :: Lookup(a, l, c, k) == Lookup(b, l, c, k)
    ensures a == b
  {
    forall l | l in Keys(a) ensures Get(a, l) == Get(b, l) {
      var x, y := Categories(a, l), Categories(b, l);
      assert CategoryNames(a, l) == Keys(x) && CategoryNames(b, l) == Keys(y);
      forall c | c in Keys(x) ensures Get(x, c) == Get(y, c) {
        var ex, ey := Entries(a, l, c), Entries(b, l, c);
        assert EntryKeys(a, l, c) == Keys(ex) && EntryKeys(b, l, c) == Keys(ey);
        forall k | k in Keys(ex) ensures Get(ex, k) == Get(ey, k) {
          assert Lookup(a, l, c, k) == Lookup(b, l, c, k);
        }
        Extensionality(ex, ey);
      }
      Extensionality(x, y);
    }
    Extensionality(a, b);
  }
}
