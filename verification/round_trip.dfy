/** Pushing the locale tree to sheets and pulling it back: what
    `processSheetData(convertToSheetData(t))` is, and that doing it twice
    is doing it once. */
module RoundTrip {
  import opened Wrappers
  import opened OrderedSet
  import opened Assoc
  import opened Text
  import opened Types
  import opened TranslationProcessor
  import opened ReverseTranslationProcessor

  /** A tree the round trip can reproduce: proper objects, no language
      called `key`, keys trimmed and non-empty, translations trimmed. */
  ghost predicate Admissible(t: TranslationsByLanguage) {
    && WellFormedStore(t)
    && KeyField !in Keys(t)
    && KeysTrimmed(t)
    && ValuesTrimmed(t)
  }

  /** Every key of the tree is trimmed and non-empty. */
  ghost predicate KeysTrimmed(t: TranslationsByLanguage) {
    forall l, c, k :: k in EntryKeys(t, l, c) ==> k != "" && Trim(k) == k
  }

  /** Every translation of the tree is trimmed. */
  ghost predicate ValuesTrimmed(t: TranslationsByLanguage) {
    forall l, c, k :: Lookup(t, l, c, k).Some? ==> Trim(Lookup(t, l, c, k).value) == Lookup(t, l, c, k).value
  }

  /** Sheets out, tree back in. */
  function RoundTrip(t: TranslationsByLanguage): TranslationsByLanguage {
    ProcessSheetData(ConvertToSheetData(t))
  }

  /** The categories of `cs` in which some language holds a key, in order. */
  function NonEmpty(t: TranslationsByLanguage, cs: seq<string>): seq<string>
    decreases |cs|
  {
    if |cs| == 0 then []
    else
      var c := cs[|cs| - 1];
      NonEmpty(t, cs[..|cs| - 1]) + (if CollectKeys(t, Keys(t), c) != [] then [c] else [])
  }

  /** The categories of the tree in which some language holds a key. */
  function NonEmptyPages(t: TranslationsByLanguage): seq<string> {
    NonEmpty(t, Pages(t))
  }

  /** The keys of the rows, in order. */
  function RowKeys(rows: seq<TranslationRow>): (ks: seq<string>)
    ensures |ks| == |rows|
  {
    seq(|rows|, j requires 0 <= j < |rows| => rows[j].key)
  }

  // ---------------------------------------------------------------------
  // Helpers about the folds.
  // ---------------------------------------------------------------------

  /** Rows whose keys are already trimmed and non-empty are all kept. */
  lemma {:induction false} KeptKeysOfTrimmed(rows: seq<TranslationRow>)
    requires forall j :: 0 <= j < |rows| ==> rows[j].key != "" && Trim(rows[j].key) == rows[j].key
    ensures KeptKeys(rows) == RowKeys(rows)
    decreases |rows|
  {
    if |rows| != 0 {
      var p := rows[..|rows| - 1];
      KeptKeysOfTrimmed(p);
      assert RowKeys(rows) == RowKeys(p) + [rows[|rows| - 1].key];
    }
  }

  /** Filtering keeps exactly the members that pass. */
  lemma {:induction false} NonEmptyMembers(t: TranslationsByLanguage, cs: seq<string>, c: string)
    ensures c in NonEmpty(t, cs) <==> c in cs && CollectKeys(t, Keys(t), c) != []
    decreases |cs|
  {
    if |cs| != 0 {
      assert cs == cs[..|cs| - 1] + [cs[|cs| - 1]];
      NonEmptyMembers(t, cs[..|cs| - 1], c);
    }
  }

  /** Filtering keeps the members distinct. */
  lemma {:induction false} NonEmptyDistinct(t: TranslationsByLanguage, cs: seq<string>)
    requires Distinct(cs)
    ensures Distinct(NonEmpty(t, cs))
    decreases |cs|
  {
    if |cs| != 0 {
      var p := cs[..|cs| - 1];
      var x := cs[|cs| - 1];
      DistinctLast(cs);
      NonEmptyDistinct(t, p);
      NonEmptyMembers(t, p, x);
    }
  }

  /** Filtering changes nothing when every member passes. */
  lemma {:induction false} NonEmptyAll(t: TranslationsByLanguage, cs: seq<string>)
    requires forall i :: 0 <= i < |cs| ==> CollectKeys(t, Keys(t), cs[i]) != []
    ensures NonEmpty(t, cs) == cs
    decreases |cs|
  {
    if |cs| != 0 {
      var p := cs[..|cs| - 1];
      assert forall i :: 0 <= i < |p| ==> p[i] == cs[i];
      NonEmptyAll(t, p);
    }
  }

  /** When every language holds the same categories `b`, the pages are `b`. */
  lemma {:induction false} CollectPagesUniform(t: TranslationsByLanguage, langs: seq<string>, b: seq<string>)
    requires |langs| > 0 && Distinct(b)
    requires forall i :: 0 <= i < |langs| ==> CategoryNames(t, langs[i]) == b
    ensures CollectPages(t, langs) == b
    decreases |langs|
  {
    var p := langs[..|langs| - 1];
    if |p| == 0 {
      DedupDistinct(b);
    } else {
      CollectPagesUniform(t, p, b);
      AddAllPresent(b, b);
    }
  }

  /** When every language holds category `page` with the same keys `b`,
      the keys of the page are `b`; when none holds it, there are none. */
  lemma {:induction false} CollectKeysUniform(t: TranslationsByLanguage, langs: seq<string>, page: string, b: seq<string>)
    requires Distinct(b)
    requires (forall i :: 0 <= i < |langs| ==> Get(Categories(t, langs[i]), page).Some? && EntryKeys(t, langs[i], page) == b)
          || (forall i :: 0 <= i < |langs| ==> Get(Categories(t, langs[i]), page).None?)
    ensures CollectKeys(t, langs, page) == if |langs| > 0 && Get(Categories(t, langs[0]), page).Some? then b else []
    decreases |langs|
  {
    if |langs| != 0 {
      var p := langs[..|langs| - 1];
      CollectKeysUniform(t, p, page, b);
      if |p| == 0 {
        DedupDistinct(b);
      } else {
        assert p[0] == langs[0];
        AddAllPresent(b, b);
      }
    }
  }

  // ---------------------------------------------------------------------
  // The sheets of an admissible tree.
  // ---------------------------------------------------------------------

  /** The keys of a page of an admissible tree are trimmed and non-empty. */
  lemma PageKeysTrimmed(t: TranslationsByLanguage, page: string, k: string)
    requires Admissible(t)
    ensures k in CollectKeys(t, Keys(t), page) ==> k != "" && Trim(k) == k
  {
    ConvertedRowKeys(t, page, k);
  }

  /** The sheet of a page of an admissible tree keeps every row, and reads
      every language of the tree when it has rows. */
  lemma ConvertedSheet(t: TranslationsByLanguage, page: string, l: string)
    requires Admissible(t)
    ensures KeptKeys(PageSheet(t, Keys(t), page).rows) == CollectKeys(t, Keys(t), page)
    ensures Languages(PageSheet(t, Keys(t), page)) == if CollectKeys(t, Keys(t), page) == [] then [] else Keys(t)
    ensures HasLanguage(PageSheet(t, Keys(t), page), l) <==> CollectKeys(t, Keys(t), page) != [] && l in Keys(t)
  {
    var keys := CollectKeys(t, Keys(t), page);
    var rows := PageSheet(t, Keys(t), page).rows;
    forall j | 0 <= j < |rows| ensures rows[j].key == keys[j] {
      ConvertedRow(t, page, j, KeyField);
    }
    forall j | 0 <= j < |rows| ensures rows[j].key != "" && Trim(rows[j].key) == rows[j].key {
      PageKeysTrimmed(t, page, keys[j]);
    }
    KeptKeysOfTrimmed(rows);
    assert RowKeys(rows) == keys;
    if |rows| > 0 {
      ConvertedRow(t, page, 0, KeyField);
      WithoutKeyFilters(Keys(t));
      LanguagesOfSheet(PageSheet(t, Keys(t), page), l);
    }
  }

  /** A category with keys is a page. */
  lemma KeysMakePage(t: TranslationsByLanguage, c: string)
    ensures CollectKeys(t, Keys(t), c) != [] ==> c in Pages(t)
  {
    var keys := CollectKeys(t, Keys(t), c);
    if keys != [] {
      ConvertedRowKeys(t, c, keys[0]);
      var l :| l in Keys(t) && keys[0] in EntryKeys(t, l, c);
      ConvertedSheetNames(t, c);
    }
  }

  /** The sheets of a non-empty tree are the pages' sheets. */
  lemma ConvertedSheets(t: TranslationsByLanguage, i: int)
    requires |t| > 0 && 0 <= i < |Pages(t)|
    ensures |ConvertToSheetData(t)| == |Pages(t)|
    ensures ConvertToSheetData(t)[i] == PageSheet(t, Keys(t), Pages(t)[i])
  {
  }

  /** Sheets that read no language read none together. */
  lemma {:induction false} AllLanguagesNone(sheets: seq<SheetData>)
    requires forall i :: 0 <= i < |sheets| ==> Languages(sheets[i]) == []
    ensures AllLanguages(sheets) == []
    decreases |sheets|
  {
    if |sheets| != 0 {
      var p := sheets[..|sheets| - 1];
      assert forall i :: 0 <= i < |p| ==> p[i] == sheets[i];
      AllLanguagesNone(p);
    }
  }

  /** Sheets that each read no language or the languages `ls` read,
      together, none or `ls`. */
  lemma {:induction false} AllLanguagesEither(sheets: seq<SheetData>, ls: seq<string>)
    requires Distinct(ls)
    requires forall i :: 0 <= i < |sheets| ==> Languages(sheets[i]) == [] || Languages(sheets[i]) == ls
    ensures Dedup(AllLanguages(sheets)) == [] || Dedup(AllLanguages(sheets)) == ls
    decreases |sheets|
  {
    if |sheets| != 0 {
      var p := sheets[..|sheets| - 1];
      var y := Languages(sheets[|sheets| - 1]);
      var a := AllLanguages(p);
      assert forall i :: 0 <= i < |p| ==> p[i] == sheets[i];
      AllLanguagesEither(p, ls);
      assert AllLanguages(sheets) == a + y;
      AddAllConcat([], a, y);
      AddAllUniform(Dedup(a), y, ls);
    }
  }

  /** ... and `ls` once sheet `i0` reads `ls`. */
  lemma {:induction false} AllLanguagesSome(sheets: seq<SheetData>, ls: seq<string>, i0: int)
    requires Distinct(ls)
    requires forall i :: 0 <= i < |sheets| ==> Languages(sheets[i]) == [] || Languages(sheets[i]) == ls
    requires 0 <= i0 < |sheets| && Languages(sheets[i0]) == ls
    ensures Dedup(AllLanguages(sheets)) == ls
    decreases |sheets|
  {
    var p := sheets[..|sheets| - 1];
    var y := Languages(sheets[|sheets| - 1]);
    var a := AllLanguages(p);
    assert forall i :: 0 <= i < |p| ==> p[i] == sheets[i];
    if i0 < |p| {
      AllLanguagesSome(p, ls, i0);
    } else {
      AllLanguagesEither(p, ls);
    }
    assert AllLanguages(sheets) == a + y;
    AddAllConcat([], a, y);
    AddAllUniform(Dedup(a), y, ls);
  }

  /** Sheets that each read either no language or the same languages `ls`
      read `ls`, unless none reads any. */
  lemma AllLanguagesUniform(sheets: seq<SheetData>, ls: seq<string>)
    requires Distinct(ls)
    requires forall i :: 0 <= i < |sheets| ==> Languages(sheets[i]) == [] || Languages(sheets[i]) == ls
    ensures Dedup(AllLanguages(sheets)) ==
      if forall i :: 0 <= i < |sheets| ==> Languages(sheets[i]) == [] then [] else ls
  {
    if forall i :: 0 <= i < |sheets| ==> Languages(sheets[i]) == [] {
      AllLanguagesNone(sheets);
    } else {
      var i0 :| 0 <= i0 < |sheets| && Languages(sheets[i0]) != [];
      AllLanguagesSome(sheets, ls, i0);
    }
  }

  /** Adding `[]` or `ls` to `[]` or `ls` gives `[]` only from two `[]`s. */
  lemma AddAllUniform(d: seq<string>, y: seq<string>, ls: seq<string>)
    requires Distinct(ls) && (d == [] || d == ls) && (y == [] || y == ls)
    ensures AddAll(d, y) == if d == [] && y == [] then [] else ls
  {
    if d == [] {
      DedupDistinct(y);
    } else {
      AddAllPresent(ls, y);
    }
  }

  /** Sheet `i` of an admissible tree: named after page `i`, keeping every
      row, reading every language of the tree when it has rows. */
  lemma ConvertedSheetAt(t: TranslationsByLanguage, i: int, l: string)
    requires Admissible(t) && |t| > 0 && 0 <= i < |Pages(t)|
    ensures |ConvertToSheetData(t)| == |Pages(t)|
    ensures ConvertToSheetData(t)[i].sheetName == Pages(t)[i]
    ensures KeptKeys(ConvertToSheetData(t)[i].rows) == CollectKeys(t, Keys(t), Pages(t)[i])
    ensures Languages(ConvertToSheetData(t)[i]) == if CollectKeys(t, Keys(t), Pages(t)[i]) == [] then [] else Keys(t)
    ensures HasLanguage(ConvertToSheetData(t)[i], l) <==> CollectKeys(t, Keys(t), Pages(t)[i]) != [] && l in Keys(t)
  {
    ConvertedSheets(t, i);
    ConvertedSheet(t, Pages(t)[i], l);
  }

  /** No sheet of an admissible tree reads a language exactly when no page
      has a key. */
  lemma NoLanguagesConverted(t: TranslationsByLanguage)
    requires Admissible(t) && |t| > 0
    ensures |ConvertToSheetData(t)| == |Pages(t)|
    ensures (forall i :: 0 <= i < |ConvertToSheetData(t)| ==> Languages(ConvertToSheetData(t)[i]) == []) <==>
      NonEmptyPages(t) == []
  {
    var sheets := ConvertToSheetData(t);
    var pages := Pages(t);
    ConvertedSheetNames(t, "");
    if NonEmptyPages(t) == [] {
      forall i | 0 <= i < |sheets| ensures Languages(sheets[i]) == [] {
        NonEmptyMembers(t, pages, pages[i]);
        ConvertedSheetAt(t, i, "");
      }
    } else {
      var c := NonEmptyPages(t)[0];
      NonEmptyMembers(t, pages, c);
      var i :| 0 <= i < |pages| && pages[i] == c;
      ConvertedSheetAt(t, i, "");
    }
  }

  /** The languages read from the sheets of an admissible tree: all of the
      tree's once some page has a key, none otherwise. */
  lemma AllLanguagesConverted(t: TranslationsByLanguage)
    requires Admissible(t) && |t| > 0
    ensures Dedup(AllLanguages(ConvertToSheetData(t))) == if NonEmptyPages(t) == [] then [] else Keys(t)
  {
    var sheets := ConvertToSheetData(t);
    NoLanguagesConverted(t);
    forall i | 0 <= i < |sheets| ensures Languages(sheets[i]) == [] || Languages(sheets[i]) == Keys(t) {
      ConvertedSheetAt(t, i, "");
    }
    AllLanguagesUniform(sheets, Keys(t));
  }

  /** One more sheet adds its name when it reads `l` and keeps a row. */
  lemma WrittenCategoriesStep(sheets: seq<SheetData>, l: string, m: int)
    requires 0 < m <= |sheets|
    ensures WrittenCategories(sheets[..m], l) == WrittenCategories(sheets[..m - 1], l) +
      (if HasLanguage(sheets[m - 1], l) && KeptKeys(sheets[m - 1].rows) != [] then [sheets[m - 1].sheetName] else [])
  {
    assert sheets[..m][..m - 1] == sheets[..m - 1];
  }

  /** The categories the first `m` sheets write for language `l`: the
      non-empty pages among the first `m`, for a language of the tree. */
  lemma {:induction false} WrittenCategoriesConverted(t: TranslationsByLanguage, l: string, m: nat)
    requires Admissible(t) && |t| > 0 && m <= |Pages(t)|
    ensures WrittenCategories(ConvertToSheetData(t)[..m], l) ==
      if l in Keys(t) then NonEmpty(t, Pages(t)[..m]) else []
    decreases m
  {
    var sheets := ConvertToSheetData(t);
    var pages := Pages(t);
    if m == 0 {
      assert sheets[..m] == [] && pages[..m] == [];
    } else {
      WrittenCategoriesConverted(t, l, m - 1);
      WrittenCategoriesStep(sheets, l, m);
      NonEmptyStep(t, pages, m);
      ConvertedSheetAt(t, m - 1, l);
      var before := WrittenCategories(sheets[..m - 1], l);
      if l in Keys(t) && CollectKeys(t, Keys(t), pages[m - 1]) != [] {
        assert WrittenCategories(sheets[..m], l) == before + [pages[m - 1]];
      } else {
        assert WrittenCategories(sheets[..m], l) == before;
      }
    }
  }

  /** Filtering one more category. */
  lemma NonEmptyStep(t: TranslationsByLanguage, cs: seq<string>, m: int)
    requires 0 < m <= |cs|
    ensures NonEmpty(t, cs[..m]) ==
      NonEmpty(t, cs[..m - 1]) + (if CollectKeys(t, Keys(t), cs[m - 1]) != [] then [cs[m - 1]] else [])
  {
    assert cs[..m][..m - 1] == cs[..m - 1];
  }

  /** Growing a prefix of a list without repeats by one member. */
  lemma PrefixStep(xs: seq<string>, c: string, m: int)
    requires Distinct(xs) && 0 < m <= |xs|
    ensures c in xs[..m] <==> c in xs[..m - 1] || xs[m - 1] == c
    ensures xs[m - 1] == c ==> c !in xs[..m - 1]
  {
    assert xs[..m] == xs[..m - 1] + [xs[m - 1]];
  }

  /** One more sheet adds its kept keys when it reads `l` and is named `c`. */
  lemma WrittenKeysStep(sheets: seq<SheetData>, l: string, c: string, m: int)
    requires 0 < m <= |sheets|
    ensures WrittenKeys(sheets[..m], l, c) == WrittenKeys(sheets[..m - 1], l, c) +
      (if HasLanguage(sheets[m - 1], l) && sheets[m - 1].sheetName == c then KeptKeys(sheets[m - 1].rows) else [])
  {
    assert sheets[..m][..m - 1] == sheets[..m - 1];
  }

  /** The keys the first `m` sheets write for language `l` in category
      `c`: all keys of the page, once it is among the first `m`. */
  lemma {:induction false} WrittenKeysConverted(t: TranslationsByLanguage, l: string, c: string, m: nat)
    requires Admissible(t) && |t| > 0 && m <= |Pages(t)|
    ensures WrittenKeys(ConvertToSheetData(t)[..m], l, c) ==
      if l in Keys(t) && c in Pages(t)[..m] then CollectKeys(t, Keys(t), c) else []
    decreases m
  {
    var sheets := ConvertToSheetData(t);
    var pages := Pages(t);
    if m == 0 {
      assert sheets[..m] == [] && pages[..m] == [];
    } else {
      WrittenKeysConverted(t, l, c, m - 1);
      WrittenKeysStep(sheets, l, c, m);
      ConvertedSheetAt(t, m - 1, l);
      ConvertedSheetNames(t, c);
      PrefixStep(pages, c, m);
      var before := WrittenKeys(sheets[..m - 1], l, c);
      var keys := CollectKeys(t, Keys(t), c);
      if pages[m - 1] == c {
        assert before == [];
        if l in Keys(t) && keys != [] {
          assert WrittenKeys(sheets[..m], l, c) == keys;
        } else {
          assert WrittenKeys(sheets[..m], l, c) == before;
        }
      } else {
        assert WrittenKeys(sheets[..m], l, c) == before;
      }
    }
  }

  // ---------------------------------------------------------------------
  // The shape of the round trip.
  // ---------------------------------------------------------------------

  /** The round trip keeps every language of the tree, in order, as soon
      as some category holds a key; a tree without keys comes back empty. */
  lemma RoundTripLanguages(t: TranslationsByLanguage)
    requires Admissible(t)
    ensures Keys(RoundTrip(t)) == if NonEmptyPages(t) == [] then [] else Keys(t)
  {
    ResultLanguages(ConvertToSheetData(t), "");
    if |t| > 0 {
      AllLanguagesConverted(t);
    } else {
      assert Keys(t) == [] && Pages(t) == [];
    }
  }

  /** The categories all the sheets of a non-empty admissible tree write
      for a language. */
  lemma WrittenCategoriesAll(t: TranslationsByLanguage, l: string)
    requires Admissible(t) && |t| > 0
    ensures WrittenCategories(ConvertToSheetData(t), l) == if l in Keys(t) then NonEmptyPages(t) else []
  {
    var sheets := ConvertToSheetData(t);
    var pages := Pages(t);
    WrittenCategoriesConverted(t, l, |pages|);
    assert sheets[..|pages|] == sheets;
    assert pages[..|pages|] == pages;
  }

  /** The categories the sheets of a non-empty admissible tree give a
      language. */
  lemma CategoriesConverted(t: TranslationsByLanguage, l: string)
    requires Admissible(t) && |t| > 0
    ensures Dedup(WrittenCategories(ConvertToSheetData(t), l)) == if l in Keys(t) then NonEmptyPages(t) else []
  {
    WrittenCategoriesAll(t, l);
    NonEmptyDistinct(t, Pages(t));
    DedupDistinct(NonEmptyPages(t));
  }

  /** Every language of the tree comes back with the categories that hold
      a key, in their first-seen order; the empty categories are lost. */
  lemma RoundTripCategories(t: TranslationsByLanguage, l: string)
    requires Admissible(t)
    ensures CategoryNames(RoundTrip(t), l) == if l in Keys(t) then NonEmptyPages(t) else []
  {
    var sheets := ConvertToSheetData(t);
    ProcessSheetsCategories([], sheets, l);
    assert CategoryNames([], l) == [];
    if |t| > 0 {
      CategoriesConverted(t, l);
    } else {
      assert Keys(t) == [] && sheets == [];
    }
  }

  /** The keys all the sheets of a non-empty admissible tree write for a
      language in a category. */
  lemma WrittenKeysAll(t: TranslationsByLanguage, l: string, c: string)
    requires Admissible(t) && |t| > 0
    ensures WrittenKeys(ConvertToSheetData(t), l, c) == if l in Keys(t) then CollectKeys(t, Keys(t), c) else []
  {
    var sheets := ConvertToSheetData(t);
    var pages := Pages(t);
    KeysMakePage(t, c);
    WrittenKeysConverted(t, l, c, |pages|);
    assert sheets[..|pages|] == sheets;
    assert pages[..|pages|] == pages;
  }

  /** The keys the sheets of a non-empty admissible tree give a language in
      a category. */
  lemma EntriesConverted(t: TranslationsByLanguage, l: string, c: string)
    requires Admissible(t) && |t| > 0
    ensures Dedup(WrittenKeys(ConvertToSheetData(t), l, c)) == if l in Keys(t) then CollectKeys(t, Keys(t), c) else []
  {
    WrittenKeysAll(t, l, c);
    DedupDistinct(CollectKeys(t, Keys(t), c));
  }

  /** Every category of every language of the tree comes back with the keys
      any language holds there, in their first-seen order. */
  lemma RoundTripEntries(t: TranslationsByLanguage, l: string, c: string)
    requires Admissible(t)
    ensures EntryKeys(RoundTrip(t), l, c) == if l in Keys(t) then CollectKeys(t, Keys(t), c) else []
  {
    var sheets := ConvertToSheetData(t);
    ProcessSheetsEntries([], sheets, l, c);
    assert EntryKeys([], l, c) == [];
    if |t| > 0 {
      EntriesConverted(t, l, c);
    } else {
      assert Keys(t) == [] && sheets == [];
    }
  }

  /** Row `j0` of sheet `i0` assigns key `k` of page `c` for every language
      of the tree, with that language's translation or the empty string. */
  lemma ConvertedAssigns(t: TranslationsByLanguage, l: string, c: string, k: string, i0: int, j0: int)
    requires Admissible(t) && |t| > 0 && l in Keys(t)
    requires 0 <= i0 < |Pages(t)| && Pages(t)[i0] == c
    requires 0 <= j0 < |CollectKeys(t, Keys(t), c)| && CollectKeys(t, Keys(t), c)[j0] == k
    ensures Assigns(ConvertToSheetData(t), i0, j0, l, c, k)
    ensures Cell(ConvertToSheetData(t)[i0].rows[j0], l) == Lookup(t, l, c, k).GetOr("")
  {
    ConvertedSheetAt(t, i0, l);
    ConvertedSheets(t, i0);
    ConvertedRowKeys(t, c, k);
    ConvertedRow(t, c, j0, l);
    PageKeysTrimmed(t, c, k);
  }

  /** Only row `j0` of sheet `i0` assigns key `k` of page `c`. */
  lemma ConvertedAssignsUnique(t: TranslationsByLanguage, l: string, c: string, k: string, i0: int, j0: int)
    requires Admissible(t) && |t| > 0
    requires 0 <= i0 < |Pages(t)| && Pages(t)[i0] == c
    requires 0 <= j0 < |CollectKeys(t, Keys(t), c)| && CollectKeys(t, Keys(t), c)[j0] == k
    ensures forall i, j :: Assigns(ConvertToSheetData(t), i, j, l, c, k) ==> i == i0 && j == j0
  {
    var sheets := ConvertToSheetData(t);
    var keys := CollectKeys(t, Keys(t), c);
    ConvertedSheetNames(t, c);
    forall i, j | Assigns(sheets, i, j, l, c, k) ensures i == i0 && j == j0 {
      assert i == i0;
      ConvertedSheets(t, i);
      ConvertedRowKeys(t, c, k);
      ConvertedRow(t, c, j, KeyField);
      PageKeysTrimmed(t, c, keys[j]);
    }
  }

  /** Every key any language holds in a category comes back under every
      language of the tree: with that language's translation, or with the
      empty string where it had none. */
  lemma RoundTripLookup(t: TranslationsByLanguage, l: string, c: string, k: string)
    requires Admissible(t)
    ensures Lookup(RoundTrip(t), l, c, k) ==
      if l in Keys(t) && k in CollectKeys(t, Keys(t), c) then Some(Lookup(t, l, c, k).GetOr("")) else None
  {
    var sheets := ConvertToSheetData(t);
    var keys := CollectKeys(t, Keys(t), c);
    RoundTripEntries(t, l, c);
    ResultKeys(sheets, l, c, k);
    if l in Keys(t) && k in keys {
      KeysMakePage(t, c);
      var pages := Pages(t);
      var i0 :| 0 <= i0 < |pages| && pages[i0] == c;
      var j0 :| 0 <= j0 < |keys| && keys[j0] == k;
      ConvertedAssigns(t, l, c, k, i0, j0);
      ConvertedAssignsUnique(t, l, c, k, i0, j0);
      LastWriteWins(sheets, l, c, k, i0, j0);
    }
  }

  // ---------------------------------------------------------------------
  // Doing it twice.
  // ---------------------------------------------------------------------

  /** Whatever the sheets, what `processSheetData` builds is a tree the
      round trip can reproduce. */
  lemma ProcessedAdmissible(sheets: seq<SheetData>)
    ensures Admissible(ProcessSheetData(sheets))
  {
    var r := ProcessSheetData(sheets);
    ResultWellFormed(sheets);
    ResultLanguages(sheets, KeyField);
    ProcessedKeysTrimmed(sheets);
    ProcessedValuesTrimmed(sheets);
  }

  /** The processed sheets hold only trimmed, non-empty keys. */
  lemma ProcessedKeysTrimmed(sheets: seq<SheetData>)
    ensures KeysTrimmed(ProcessSheetData(sheets))
  {
    var r := ProcessSheetData(sheets);
    forall l, c, k | k in EntryKeys(r, l, c) ensures k != "" {
      ProcessedKeyTrimmed(sheets, l, c, k);
    }
    forall l, c, k | k in EntryKeys(r, l, c) ensures Trim(k) == k {
      ProcessedKeyTrimmed(sheets, l, c, k);
    }
  }

  lemma ProcessedKeyTrimmed(sheets: seq<SheetData>, l: string, c: string, k: string)
    requires k in EntryKeys(ProcessSheetData(sheets), l, c)
    ensures k != "" && Trim(k) == k
  {
    ResultKeys(sheets, l, c, k);
  }

  /** The processed sheets hold only trimmed translations. */
  lemma ProcessedValuesTrimmed(sheets: seq<SheetData>)
    ensures ValuesTrimmed(ProcessSheetData(sheets))
  {
    forall l, c, k | Lookup(ProcessSheetData(sheets), l, c, k).Some?
      ensures Trim(Lookup(ProcessSheetData(sheets), l, c, k).value) == Lookup(ProcessSheetData(sheets), l, c, k).value
    {
      LastWriteWins(sheets, l, c, k, 0, 0);
    }
  }

  /** A tree without keys comes back empty. */
  lemma RoundTripOfKeyless(t: TranslationsByLanguage)
    requires Admissible(t) && NonEmptyPages(t) == []
    ensures RoundTrip(t) == []
  {
    RoundTripLanguages(t);
    assert |Keys(RoundTrip(t))| == |RoundTrip(t)|;
  }

  /** After one round trip, a category holds the same keys under every
      language, the keys it held in the tree. */
  lemma RoundTripCollectKeys(t: TranslationsByLanguage, c: string)
    requires Admissible(t)
    ensures CollectKeys(RoundTrip(t), Keys(RoundTrip(t)), c) == CollectKeys(t, Keys(t), c)
  {
    var r := RoundTrip(t);
    var keys := CollectKeys(t, Keys(t), c);
    RoundTripLanguages(t);
    KeysMakePage(t, c);
    NonEmptyMembers(t, Pages(t), c);
    if NonEmptyPages(t) == [] {
      RoundTripOfKeyless(t);
      assert Keys(r) == [];
    } else if c in NonEmptyPages(t) {
      forall i | 0 <= i < |Keys(t)|
        ensures Get(Categories(r, Keys(t)[i]), c).Some? && EntryKeys(r, Keys(t)[i], c) == keys
      {
        RoundTripCategories(t, Keys(t)[i]);
        RoundTripEntries(t, Keys(t)[i], c);
      }
      CollectKeysUniform(r, Keys(t), c, keys);
    } else {
      forall i | 0 <= i < |Keys(t)| ensures Get(Categories(r, Keys(t)[i]), c).None? {
        RoundTripCategories(t, Keys(t)[i]);
      }
      CollectKeysUniform(r, Keys(t), c, keys);
    }
  }

  /** After one round trip, the pages and the pages with keys are the
      categories of the tree that held a key. */
  lemma RoundTripPages(t: TranslationsByLanguage)
    requires Admissible(t)
    ensures Pages(RoundTrip(t)) == NonEmptyPages(t)
    ensures NonEmptyPages(RoundTrip(t)) == NonEmptyPages(t)
  {
    var r := RoundTrip(t);
    var b := NonEmptyPages(t);
    if b == [] {
      RoundTripOfKeyless(t);
      assert Keys(r) == [];
    } else {
      RoundTripLanguages(t);
      forall i | 0 <= i < |Keys(t)| ensures CategoryNames(r, Keys(t)[i]) == b {
        RoundTripCategories(t, Keys(t)[i]);
      }
      ConvertedSheetNames(t, "");
      NonEmptyDistinct(t, Pages(t));
      CollectPagesUniform(r, Keys(t), b);
      forall i | 0 <= i < |b| ensures CollectKeys(r, Keys(r), b[i]) != [] {
        RoundTripCollectKeys(t, b[i]);
        NonEmptyMembers(t, Pages(t), b[i]);
      }
      NonEmptyAll(r, b);
    }
  }

  /** The second round trip gives each language, category and key what
      the first did. */
  lemma RoundTripTwiceAgrees(t: TranslationsByLanguage, l: string, c: string, k: string)
    requires Admissible(t) && NonEmptyPages(t) != []
    ensures Keys(RoundTrip(RoundTrip(t))) == Keys(RoundTrip(t))
    ensures CategoryNames(RoundTrip(RoundTrip(t)), l) == CategoryNames(RoundTrip(t), l)
    ensures EntryKeys(RoundTrip(RoundTrip(t)), l, c) == EntryKeys(RoundTrip(t), l, c)
    ensures Lookup(RoundTrip(RoundTrip(t)), l, c, k) == Lookup(RoundTrip(t), l, c, k)
  {
    var r := RoundTrip(t);
    ProcessedAdmissible(ConvertToSheetData(t));
    RoundTripLanguages(t);
    RoundTripPages(t);
    RoundTripCollectKeys(t, c);
    RoundTripLanguages(r);
    RoundTripCategories(t, l);
    RoundTripCategories(r, l);
    RoundTripEntries(t, l, c);
    RoundTripEntries(r, l, c);
    RoundTripLookup(t, l, c, k);
    RoundTripLookup(r, l, c, k);
  }

  /** Pulling back what was pushed and pulled changes nothing: the round
      trip is idempotent. */
  lemma RoundTripIdempotent(t: TranslationsByLanguage)
    requires Admissible(t)
    ensures RoundTrip(RoundTrip(t)) == RoundTrip(t)
  {
    var r := RoundTrip(t);
    if NonEmptyPages(t) == [] {
      RoundTripOfKeyless(t);
      assert RoundTrip([]) == [];
    } else {
      var rr := RoundTrip(r);
      ResultWellFormed(ConvertToSheetData(r));
      RoundTripTwiceAgrees(t, "", "", "");
      forall l ensures CategoryNames(rr, l) == CategoryNames(r, l) {
        RoundTripTwiceAgrees(t, l, "", "");
      }
      forall l, c ensures EntryKeys(rr, l, c) == EntryKeys(r, l, c) {
        RoundTripTwiceAgrees(t, l, c, "");
      }
      forall l, c, k ensures Lookup(rr, l, c, k) == Lookup(r, l, c, k) {
        RoundTripTwiceAgrees(t, l, c, k);
      }
      StoreExtensionality(rr, r);
    }
  }
}
