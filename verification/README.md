# Google Sheet i18n sync — a Dafny model of the translation core

The extension keeps a `locales/<language>/<category>.json` tree in step with
a Google spreadsheet. Each spreadsheet tab is one category. Its first line
holds `key` and the language codes, and every later line holds a
translation key and its translations. This project models the part of the
extension that moves data between the two shapes, all of it pure:

- `TranslationProcessor.processSheetData` turns the sheets into the locale
  tree. Module `TranslationProcessor` (translation_processor.dfy).
- `ReverseTranslationProcessor.convertToSheetData` turns the tree back into
  one sheet per category. `convertToSpreadsheetRows` turns a sheet into
  the header line and cell grid written to the spreadsheet. Module
  `ReverseTranslationProcessor` (reverse_translation_processor.dfy).
- The grid-to-rows part of `GoogleSheetService.getSheetData` turns the
  cells the Sheets API returns into a sheet. Module `SheetParser`
  (sheet_parser.dfy).
- The round trips are proved in two modules. `RoundTrip`
  (round_trip.dfy) covers tree → sheets → tree. `SheetRoundTrip`
  (sheet_round_trip.dfy) covers sheet → grid → sheet.

JavaScript objects are ordered association lists (module `Assoc`). Reading
a property takes the first match. Assigning one replaces it in place, or
appends it when it is new, which keeps JavaScript's insertion order. A
JavaScript `Set` is a duplicate-free sequence in insertion order (module
`OrderedSet`). A row is its `key` plus the other properties in order
(module `Types`). Every row the extension builds assigns `key` first.
Assigning a property named `key` replaces the key, and the model keeps
that behaviour:

- A language named `key` overwrites the key in `convertToSheetData`.
- A second column headed exactly `key` overwrites the key cell in
  `getSheetData`.

`String.prototype.trim` and the case-insensitive test for the `key` header
are in module `Text`. Module `Wrappers` holds `Option` and `Result`.

Each operation has a reference definition of what it should produce: the
rows that survive, the last assignment, the first key header, and so on.
A lemma relates the operation to that definition in both directions. On
top of this:

- Take a tree with no repeated names, no language called `key`, trimmed
  non-empty keys and trimmed translations (an "admissible" tree).
  Processing its own sheets gives back the tree, with four changes:
  - categories without keys are lost;
  - a language comes back only when some category holds a key;
  - missing translations are filled in as `''`;
  - every language comes back with the same order of categories and keys.
    Categories take the order in which they are first met across all
    languages, and a category's keys take the order in which they are
    first met across all languages. For example, `{en: {c: {x: '1', y:
    '2'}}, vi: {c: {y: '3', x: '4'}}}` brings `vi` back as `{c: {x: '4',
    y: '3'}}`.
- For admissible trees that round trip is idempotent.
- Whatever the sheets, `processSheetData` always builds an admissible
  tree.
- Take a sheet with at least one row, every row carrying the first row's
  properties in the same order, and no property called `''` (`key` is
  never a property besides the key itself). Parsing the grid written for
  it gives back the same sheet. A sheet without rows is written as the
  single line `['key']`, and parsing that fails with the "no data" error.

## Model

| member | source | states |
|---|---|---|
| Types.SetField | src/types.ts:1-4 | Assigning a row property sets it and leaves every other property as it was. A new language name goes last in the property order. The name `key` sets the key itself. |
| Types.StoreExtensionality | src/types.ts:11-17 | Two duplicate-free trees with the same order of languages, categories and keys, and the same translations, are the same tree. |
| Text.TrimStops | src/services/translationProcessor.ts:24 | A trimmed string neither starts nor ends with a white-space or line-terminator character. |
| Text.TrimRemovesOnlySpace | src/services/translationProcessor.ts:24 | Trimming keeps one contiguous part of the string. Everything it removes before and after that part is white space or a line terminator. |
| Text.TrimIdempotent | src/services/translationProcessor.ts:34 | Trimming a trimmed key or cell changes nothing. |
| Text.KeyHeaderSpellings | src/services/googleSheetService.ts:127 | A header counts as the key column exactly when it is `key` in any mix of upper and lower case. |
| TranslationProcessor.LanguagesOfSheet | src/services/translationProcessor.ts:13 | A sheet's languages are the first row's properties other than `key`, in order. A sheet without rows has none. Properties that only later rows carry are not languages. |
| TranslationProcessor.Cell | src/services/translationProcessor.ts:34 | The stored translation is the row's cell for the language, trimmed. It is `''` when the row lacks the language. |
| TranslationProcessor.KeptKeysMembers | src/services/translationProcessor.ts:24-27 | A key is kept exactly when it is non-empty after trimming and some row's key trims to it. |
| TranslationProcessor.LastRowIndexIsLast | src/services/translationProcessor.ts:23-35 | Within a sheet, the row that decides a key's value is the last row whose trimmed key is that key. There is none for the empty key. |
| TranslationProcessor.ProcessSheetsConcat | src/services/translationProcessor.ts:7 | Processing sheets `a` and then sheets `b` is the same as processing `a + b`, because one tree is carried across all the sheets. |
| TranslationProcessor.EmptySheetIgnored | src/services/translationProcessor.ts:10 | A sheet without rows changes nothing, wherever it stands in the list. |
| TranslationProcessor.AllLanguagesMembers | src/services/translationProcessor.ts:13-20 | A name is among the collected languages exactly when some sheet has it as a language. |
| TranslationProcessor.ResultLanguages | src/services/translationProcessor.ts:16-20 | The tree's languages are those of all the sheets, each once, in first-seen order. A language is there even when none of its rows survived. |
| TranslationProcessor.WrittenCategoriesMembers | src/services/translationProcessor.ts:30-33 | A language receives a category exactly when a sheet of that name has the language and keeps a row. |
| TranslationProcessor.ResultCategories | src/services/translationProcessor.ts:31-33 | A language's categories are the names of the sheets that gave it a key, each once, in first-seen order. A category exists exactly when it holds a key, and only under an existing language. |
| TranslationProcessor.WrittenKeysMembers | src/services/translationProcessor.ts:23-35 | A key is written for a language and category exactly when some row of some sheet assigns it. |
| TranslationProcessor.ResultKeys | src/services/translationProcessor.ts:24-27 | A category holds the trimmed, non-empty keys of the rows that assign it, each once, in first-seen order. Exactly those keys have a value. |
| TranslationProcessor.LastWriteIsLast | src/services/translationProcessor.ts:7-35 | The decisive assignment is found exactly when some row assigns the entry. No assignment comes after it, in sheet order and then row order. |
| TranslationProcessor.LastWriteWins | src/services/translationProcessor.ts:34-35 | An entry holds the trimmed cell, or `''`, of the last row that assigns it. It is absent when no row assigns it. |
| TranslationProcessor.ResultWellFormed | src/services/translationProcessor.ts:4-41 | No language, category or key is repeated in the result. |
| ReverseTranslationProcessor.CollectPagesMembers | src/services/reverseTranslationProcessor.ts:16-19 | A name is in the pages set exactly when some language has a category of that name. |
| ReverseTranslationProcessor.CollectKeysMembers | src/services/reverseTranslationProcessor.ts:28-32 | A key is in `allKeys` exactly when some language holds it in the page's category. |
| ReverseTranslationProcessor.ConvertEmpty | src/services/reverseTranslationProcessor.ts:5-24 | No sheets come out exactly when no language holds a category. This covers the empty tree and also trees such as `{en: {}}`. |
| ReverseTranslationProcessor.ConvertedSheetNames | src/services/reverseTranslationProcessor.ts:10-24 | There is one sheet per category of the tree, each once, in first-seen order. A category becomes a sheet exactly when some language holds it. |
| ReverseTranslationProcessor.ConvertedRowKeys | src/services/reverseTranslationProcessor.ts:26-35 | A sheet has one row per key that any language holds in its category, each once, in first-seen order. |
| ReverseTranslationProcessor.ValueIsLookup | src/services/reverseTranslationProcessor.ts:40-44 | A language's cell is its stored translation, or `''` when it has none. The truthiness tests lose nothing. |
| ReverseTranslationProcessor.BuildRowFields | src/services/reverseTranslationProcessor.ts:36-45 | The row has a property for every language, in language order, holding that language's value. A language called `key` takes the place of the key. |
| ReverseTranslationProcessor.ConvertedRow | src/services/reverseTranslationProcessor.ts:35-48 | The `j`-th row of a page holds every language's translation of the `j`-th key, or `''`. Its key is that key unless a language is named `key`. |
| ReverseTranslationProcessor.ConvertToSpreadsheetRows | src/services/reverseTranslationProcessor.ts:59-80 | An empty sheet writes only `['key']`. Otherwise there is one cell line per row, each as wide as the header line. |
| ReverseTranslationProcessor.HeadersOfSheet | src/services/reverseTranslationProcessor.ts:68-69 | The header line is `key` followed by the first row's other properties, in order, with no second `key`. For a proper row it has no repeated header. |
| ReverseTranslationProcessor.ExportedCell | src/services/reverseTranslationProcessor.ts:35-80 | Take a tree with no language called `key`. The grid written for a page has the header line `key` followed by the tree's languages, and one line per key of the page. Line `i` holds the `i`-th key and then each language's translation of it, in language order, with `''` where a language has none. |
| SheetParser.FindKeyColumnIsFirst | src/services/googleSheetService.ts:127-131 | The key column is the first header that reads `key` in any case. There is none exactly when no header does. |
| SheetParser.ParseSheet | src/services/googleSheetService.ts:120-149 | No values, or fewer than two lines, fail with the sheet's "no data" error, and nothing else does. A success keeps the sheet name and gives one row per data line. |
| SheetParser.ParseSheetRows | src/services/googleSheetService.ts:127-135 | The "no key column" error occurs exactly when no header is a key header. Otherwise data line `i` is parsed against the first key header. |
| SheetParser.LastColumnIsLast | src/services/googleSheetService.ts:137-141 | The column found for a name is a copied column with that header, and no later copied column has it. There is none exactly when no copied column has it. |
| SheetParser.ParseRowGet | src/services/googleSheetService.ts:135-141 | A parsed property holds the cell of the last copied column with that header. Failing that, `key` holds the key cell, and any other name is absent. Short lines give `''`. |
| SheetParser.ParseRowKeys | src/services/googleSheetService.ts:137-141 | A parsed row's language properties are the copied headers other than `key`, each once, in first-seen order. |
| SheetParser.ParseRowValid | src/services/googleSheetService.ts:135-141 | Every parsed row is a proper object with no repeated property. |
| SheetParser.ParseRowKey | src/services/googleSheetService.ts:135-141 | The key is the key column's cell unless another column is headed exactly `key`. In that case the last such column's cell wins. |
| SheetParser.ParseRowField | src/services/googleSheetService.ts:137-141 | A name other than `key` is a property of the parsed row exactly when some non-key column has it as a non-empty header. The empty header never becomes a property. |
| RoundTrip.ProcessedAdmissible | src/services/translationProcessor.ts:4-41 | Whatever the sheets, the tree built has no repeated names, no language called `key`, and only trimmed, non-empty keys and trimmed values. |
| RoundTrip.RoundTripLanguages | src/services/reverseTranslationProcessor.ts:35-48 | Pushing a tree to sheets and processing them back keeps every language, in order, as long as some category holds a key. Otherwise nothing comes back. |
| RoundTrip.RoundTripCategories | src/services/reverseTranslationProcessor.ts:24-53 | Each language comes back with exactly the categories in which some language holds a key, in first-seen order. Empty categories are lost. |
| RoundTrip.RoundTripEntries | src/services/reverseTranslationProcessor.ts:26-32 | Each category of each language comes back with the keys any language holds there, in first-seen order. |
| RoundTrip.RoundTripLookup | src/services/reverseTranslationProcessor.ts:39-45 | Each key comes back under every language with that language's translation, or `''` where it had none. |
| RoundTrip.RoundTripOfKeyless | src/services/translationProcessor.ts:10 | A tree that holds no key comes back empty. |
| RoundTrip.RoundTripCollectKeys | src/services/reverseTranslationProcessor.ts:26-32 | After one round trip, the keys collected for a page across all languages are the same as those collected from the tree, in the same order. (That each language holds all of them is `RoundTrip.RoundTripEntries`.) |
| RoundTrip.RoundTripPages | src/services/reverseTranslationProcessor.ts:10-19 | After one round trip, the pages are exactly the categories of the tree that held a key. |
| RoundTrip.RoundTripIdempotent | src/services/reverseTranslationProcessor.ts:4-57 | A second round trip returns the result of the first unchanged. |
| SheetRoundTrip.KeyColumnFirst | src/services/googleSheetService.ts:127 | The key column of a written header line is found at position 0. This is a step of `SheetRoundTrip.ParseFlattened`. |
| SheetRoundTrip.ParseFlattenedRow | src/services/googleSheetService.ts:134-141 | Take a proper row with no property called `''`, flattened under the header line `key` followed by its properties. It is parsed back to the same row. |
| SheetRoundTrip.ParsedRowAt | src/services/googleSheetService.ts:134-144 | Data line `i` of a written sheet is parsed back to row `i`. This holds under the same conditions as `ParseFlattened`. |
| SheetRoundTrip.ParseFlattened | src/services/reverseTranslationProcessor.ts:59-80 | Parsing the grid written for a sheet gives the same name and rows. This requires at least one row, every row with the same properties in the same order, and no property named by the empty string. |
| SheetRoundTrip.ParseFlattenedEmpty | src/services/reverseTranslationProcessor.ts:63-65 | A sheet without rows writes only `['key']`, and reading it back fails with the sheet's "no data" error. |
| SheetRoundTrip.PageSheetReadsBack | src/services/reverseTranslationProcessor.ts:50-53 | Take a page with keys, from a tree with no language named `key`. Its sheet is written under `key` and the tree's languages. If no language is named by the empty string either, parsing the written grid gives the sheet back unchanged. |

## Left out

- The Sheets API requests are not modelled: `getSheetNames`, `sheetExists`, `createSheet`, `updateSheetData`, and the request in `getSheetData`. Neither are the OAuth flow (`getAuthUrl`, `getToken`, `startAuthFlow`, `authorize`, `setToken`) and the local auth server. A sheet's cells enter the model as the `values` parameter of `SheetParser.ParseSheet`. The catch-and-rethrow with `console.error` is not modelled.
- Reading, writing and cleaning the locale files are not modelled (`readTranslationFiles`, `writeTranslationFiles`, `cleanLocalesDirectory`, `ensureLocalesDirectory`). Neither are the `setup`, `syncToJson` and `syncToSheet` commands, which only sequence the modelled operations with I/O. The tree enters and leaves the model as a value.
- Cells are strings. Cell values of other JavaScript types are not modelled.
- Integer-like property names are not modelled. JavaScript lists names such as `"10"` before the other properties, in numeric order. The model keeps every name in insertion order.
- Property names that clash with `Object.prototype` are not modelled: `constructor`, `toString`, `__proto__` and the like make `translations[language]` or `translations[language][page][key]` truthy before any assignment.
- Text.IsKeyHeader: lower-cases ASCII letters only. Unicode case mapping is not modelled. For example, `toLowerCase` maps `'\u212Aey'` (Kelvin sign, then `ey`) to `'key'`, but the model does not recognise that header as the key column.
- Text.Trim: removes the code points of ECMAScript's WhiteSpace and LineTerminator sets as listed in `SpaceCodes`. A character that a later Unicode version adds to the space separators is not covered.
- RoundTrip.RoundTripIdempotent: stated for trees with no repeated names, no language called `key`, and trimmed, non-empty keys and trimmed values. `RoundTrip.ProcessedAdmissible` shows that every tree `processSheetData` builds meets these conditions.
- SheetRoundTrip.ParseFlattened: stated for sheets with at least one row, whose rows all carry the first row's properties in the same order, and with no property called `''`. It relates the grid written to the grid parsed. What the Sheets API does in between is not modelled: `values.get` leaves out trailing empty lines and trailing empty cells. Short lines parse as `''`, so the missing cells do no harm. A trailing line whose cells are all `''` is lost. Outside these conditions the write and read do not match:
  - A sheet whose later rows carry other properties loses them when written, because the header line comes from the first row alone.
  - A sheet whose later rows carry the same properties in another order comes back with them in the first row's order.
  - A column headed `''` is not read back.
  - A sheet without rows does not read back at all: `SheetRoundTrip.ParseFlattenedEmpty` shows the "no data" error. The sync command fetches every sheet inside one `Promise.all` (src/extension.ts:179-186), so one such sheet makes the whole sync from the spreadsheet fail, not just its own category. Fetching and the command are not modelled.
- RoundTrip.RoundTripLanguages, RoundTrip.RoundTripCategories, RoundTrip.RoundTripEntries, RoundTrip.RoundTripLookup: stated only for admissible trees, the same conditions as `RoundTrip.RoundTripIdempotent`. Other trees can lose more, for example:
  - `{en: {}}` comes back as `{}`.
  - A language called `key` overwrites the keys of the rows.
  - Untrimmed keys and translations come back trimmed.
