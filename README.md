# gas-sheet-driver in Dafny

This project models the core of gas-sheet-driver, a local emulator of Google
Apps Script's spreadsheet API. The model has five parts:

- **A1 notation** (`a1_parser.dfy`, module `A1Parser`):
  - converts column letters to 1-based column numbers and back, in bijective base 26;
  - parses range texts such as `A1`, `A1:B2`, `B:B` and `1:1` into a `ParsedRange`.
  
  The two converters are loops, so they are methods, each proved against a
  recursive specification function. The regular expression becomes the grammar
  it denotes (`InGrammar`), and the parser is proved to fail exactly outside it.
- **The SQLite driver** (`sheet_store.dfy`, module `SheetStore`):
  - `SqliteDriver` is a class whose two fields are its two tables:
    - `sheets`: a sequence of distinct names;
    - `cells`: a map from (sheet, row, column) to a value.
  - Each driver method is one query or one transaction on those fields.
  - `getValues` is the source's pre-fill-then-overwrite loop.
  - `setValues` is the source's nested upsert loop.
  - `getLastRow`/`getLastColumn` scan for the maximum and fall back to 0.
  - Each is proved against a specification function: `Block`, `Upsert`, `ClearRect`, `WithoutSheet`, `MaxOf`.
- **The facade** (`gas_sheet_client.dfy`, module `SheetClient`):
  - `Range`, `Sheet` and `GasSheetClient` are classes whose constructor arguments are `const` fields.
  - Every change they make is a change to the driver they share.
- **`MockPropertiesService`** (`mock_properties_service.dfy`):
  - a string-to-string map owned by the service;
  - changed in place through the accessor object that `getScriptProperties` returns.
- **`MockUtilities.formatDate`** (`mock_utilities.dfy`):
  - `padStart` plus six first-occurrence `replace` calls;
  - the `Date` is given as its six integer components, with the month counted from 0.

The `*_tests.dfy` files restate, over the model, the repository's unit tests
of the parser, the driver and the mocks, and both integration scenarios of
tests/integration/GasSheetClient.test.ts, as lemmas and as methods with
postconditions. `wrappers.dfy` holds
`Option`, `Result` and `Outcome`, which stand for `null`/`undefined` and for
thrown errors. `text.dfy` holds three things: character classes, ASCII
`toUpperCase`, and the decimal text of integers (`String(n)`, `parseInt`).

## Model

| member | source | states |
|---|---|---|
| Text.Upper | src/utils/a1-parser.ts:48 | `toUpperCase` keeps the length and upper-cases each ASCII letter, leaving every other character alone |
| Text.DecimalOfNatToString | src/utils/a1-parser.ts:49 | `parseInt` of `String(n)` is `n` for every `n >= 0` |
| Text.NatToString | src/mocks/MockUtilities.ts:6-10 | `String(n)` for n >= 0 is a non-empty run of digits, one digit exactly when n < 10, with no leading zero otherwise |
| Text.IntToString | src/mocks/MockUtilities.ts:5-10 | `String(n)` is non-empty, starts with '-' exactly when n < 0, and is digits after the sign |
| Text.DecimalOfIntToString | src/mocks/MockUtilities.ts:5-10 | the digits of `String(n)` read back as n, or as -n after the minus sign |
| A1Parser.ColumnIndex | src/utils/a1-parser.ts:4-10 | the left fold `index * 26 + (code - 64)` is at least 1 on non-empty upper-case letters and at least 0 on all upper-case strings |
| A1Parser.ColumnLetterToIndex | src/utils/a1-parser.ts:4-10 | the loop computes exactly the fold `ColumnIndex` |
| A1Parser.ColumnLetter | src/utils/a1-parser.ts:15-23 | the letters are all in 'A'..'Z' and are empty exactly when index <= 0 |
| A1Parser.IndexToColumnLetter | src/utils/a1-parser.ts:15-23 | the prepend loop computes exactly `ColumnLetter`: upper-case letters, empty iff index <= 0 |
| A1Parser.IndexRoundTrip | src/utils/a1-parser.ts:4-23 | `columnLetterToIndex(indexToColumnLetter(n)) == n` for all n >= 0 |
| A1Parser.LetterRoundTrip | src/utils/a1-parser.ts:4-23 | `indexToColumnLetter(columnLetterToIndex(s)) == s` for every string over 'A'..'Z' |
| A1Parser.MatchSegment | src/utils/a1-parser.ts:39 | one side of the colon matches `([A-Z]*)([0-9]*)` (case-insensitive) iff it is letters then digits, and the groups are that split |
| A1Parser.GrammarAtColon | src/utils/a1-parser.ts:39 | a text is in the regex's language iff the part before its first colon, and the part after it when there is one, each match `([A-Z]*)([0-9]*)` |
| A1Parser.MatchSides | src/utils/a1-parser.ts:39-44 | `a1.match(rangeRegex)` succeeds exactly on the regex's language, and its four groups are letters, digits, letters, digits |
| A1Parser.ParseOfSplit | src/utils/a1-parser.ts:38-46 | a text `left:right` whose sides both match parses to the record built from their groups |
| A1Parser.ParseA1Notation | src/utils/a1-parser.ts:38-44 | fails exactly on texts outside `letters* digits* (':' letters* digits*)?`, carrying the text in the error |
| A1Parser.Build | src/utils/a1-parser.ts:46-69 | an empty second side gives size 1 x 1 and no end; otherwise an end is absent exactly when neither side wrote it, sizes are present exactly with ends, and each size is end - start + 1 |
| A1Parser.BuildStart | src/utils/a1-parser.ts:48-49 | the start column is at least 1 and the start row at least 0 |
| A1Parser.ParseCell | src/utils/a1-parser.ts:46-53 | without a colon, the start cell comes from the groups, defaulting to 1, and the size is 1 x 1 with no end |
| A1Parser.ParseSpan | src/utils/a1-parser.ts:46-67 | with a colon, an empty right side gives 1 x 1; an end falls back to the start only when that start was written; sizes are end - start + 1 and are present iff the end is |
| A1Parser.CaseInsensitive | src/utils/a1-parser.ts:39-55 | a text and its upper-case form are accepted together and give the same range |
| A1Parser.BuildIgnoresCase | src/utils/a1-parser.ts:48-55 | upper-casing the letter groups does not change the record built from them |
| A1ParserTests.ColumnExamples | tests/utils/a1-parser.test.ts:7-19 | A=1, Z=26, AA=27, AZ=52 and back |
| A1ParserTests.ParseExampleCell | tests/utils/a1-parser.test.ts:24-31 | "A1" is the 1 x 1 range at (1, 1) |
| A1ParserTests.ParseExampleSpan | tests/utils/a1-parser.test.ts:33-42 | "A1:B2" is 2 x 2 with end (2, 2) |
| A1ParserTests.ParseExampleColumnBand | tests/utils/a1-parser.test.ts:44-49 | "B:B" is column 2 to 2, one column, rows left open |
| A1ParserTests.ParseExampleInvalid | tests/utils/a1-parser.test.ts:51-53 | "!!!" is rejected |
| SheetStore.Block | src/drivers/sqlite/SqliteDriver.ts:20-45 | the read has max(0, numRows) rows of max(0, numCols) entries; entry (i, j) is the stored value at (startRow+i, startCol+j), or '' |
| SheetStore.BlockReadsOnlyRect | src/drivers/sqlite/SqliteDriver.ts:20-25 | only cells in the half-open rectangle decide what a read returns |
| SheetStore.Upsert | src/drivers/sqlite/SqliteDriver.ts:56-72 | the table after a block write has exactly the old keys plus the keys of the written entries (ragged rows allowed) |
| SheetStore.SqliteDriver.GetValues | src/drivers/sqlite/SqliteDriver.ts:13-46 | the pre-fill-and-overwrite loop over the selected rows returns exactly `Block` of the table |
| SheetStore.UpsertLookup | src/drivers/sqlite/SqliteDriver.ts:56-72 | after a block write, each written key (ragged rows allowed) holds its value and every other key is unchanged |
| SheetStore.SqliteDriver.SetValues | src/drivers/sqlite/SqliteDriver.ts:48-73 | the nested upsert loop leaves exactly `Upsert` of the old table, adds the sheet name, and keeps the invariant that every cell's sheet is listed |
| SheetStore.UpsertKeepsSheets | src/drivers/sqlite/SqliteDriver.ts:54 | writing to a listed sheet keeps every cell's sheet listed |
| SheetStore.ReadBack | tests/sqlite/SqliteDriver.test.ts:20-32 | writing a rectangular block and reading the same rectangle returns the block |
| SheetStore.SubGrid | tests/integration/GasSheetClient.test.ts:57-63 | the n x m part of a grid at offset (di, dj): entry (i, j) is entry (di + i, dj + j) of the grid |
| SheetStore.ReadBackPart | tests/integration/GasSheetClient.test.ts:50-63 | after a rectangular write, any sub-rectangle of it reads back as that part of the block |
| SheetStore.UpsertOtherSheet | tests/sqlite/SqliteDriver.test.ts:42-54 | a write to one sheet leaves every cell of another sheet reading as before |
| SheetStore.UpsertOtherSheetBlock | tests/sqlite/SqliteDriver.test.ts:42-54 | a write to one sheet leaves every rectangle of another sheet reading as before |
| SheetStore.ClearRect | src/drivers/sqlite/SqliteDriver.ts:108-114 | the table after the DELETE keeps exactly the cells outside the sheet's half-open rectangle, with their values |
| SheetStore.ClearReadsBlank | src/drivers/sqlite/SqliteDriver.ts:108-114 | after a clear, the rectangle reads as blanks |
| SheetStore.SqliteDriver.Clear | src/drivers/sqlite/SqliteDriver.ts:108-114 | exactly the sheet's cells in the half-open rectangle are deleted; the sheet list is untouched |
| SheetStore.MaxOf | src/drivers/sqlite/SqliteDriver.ts:75-85 | `MAX(...) ?? 0` is the largest element, or 0 for none |
| SheetStore.MaxOrZero | src/drivers/sqlite/SqliteDriver.ts:75-85 | the aggregate scan with NULL until a row is seen returns `MaxOf` |
| SheetStore.SqliteDriver.GetLastRow | src/drivers/sqlite/SqliteDriver.ts:75-79 | the largest row of the sheet's cells, or 0 for an empty or unknown sheet |
| SheetStore.SqliteDriver.GetLastColumn | src/drivers/sqlite/SqliteDriver.ts:81-85 | the largest column of the sheet's cells, or 0 for an empty or unknown sheet |
| SheetStore.UpsertRows | src/drivers/sqlite/SqliteDriver.ts:62-69 | a block write adds to the sheet's rows exactly the rows of its non-empty value rows |
| SheetStore.UpsertColumns | src/drivers/sqlite/SqliteDriver.ts:62-69 | a block write adds to the sheet's columns exactly the columns its rows reach |
| SheetStore.AddName | src/drivers/sqlite/SqliteDriver.ts:87-90 | `INSERT OR IGNORE` adds the name, keeps names distinct, and is the identity when the name exists (idempotent) |
| SheetStore.SqliteDriver.AddSheet | src/drivers/sqlite/SqliteDriver.ts:87-90 | the sheet list becomes `AddName` of the old one; cells are unchanged |
| SheetStore.RemoveName | src/drivers/sqlite/SqliteDriver.ts:92-100 | removes exactly that name, keeps the others distinct, and is the identity when the name is absent |
| SheetStore.WithoutSheet | src/drivers/sqlite/SqliteDriver.ts:92-99 | the table after the sheet's DELETE keeps exactly the cells of other sheets, with their values |
| SheetStore.SqliteDriver.DeleteSheet | src/drivers/sqlite/SqliteDriver.ts:92-100 | the sheet's cells and then its name are removed, nothing else changes, and no cell is orphaned |
| SheetStore.WithoutSheetBounds | tests/sqlite/SqliteDriver.test.ts:56-63 | after deleting a sheet's cells, its last row and last column are 0 |
| SheetStore.SqliteDriver.GetSheetNames | src/drivers/sqlite/SqliteDriver.ts:102-106 | exactly the names of the `sheets` table, each once, in an order the model does not fix |
| SheetStore.SqliteDriver.EnsureSheetExists | src/drivers/sqlite/SqliteDriver.ts:116-118 | the same effect as `addSheet` |
| SheetStore.SqliteDriver.constructor | src/drivers/sqlite/SqliteDriver.ts:8-11 | a new database has no sheets and no cells |
| SheetStoreTests.SetThenGet | tests/sqlite/SqliteDriver.test.ts:20-32 | the 3 x 2 block written at (1, 1) reads back unchanged |
| SheetStoreTests.LastRowAndColumn | tests/sqlite/SqliteDriver.test.ts:34-40 | one cell at (5, 3) makes the last row 5 and the last column 3 |
| SheetStoreTests.MultipleSheets | tests/sqlite/SqliteDriver.test.ts:42-54 | both sheets are listed, and each reads its own value |
| SheetStoreTests.DeleteSheetScenario | tests/sqlite/SqliteDriver.test.ts:56-63 | a deleted sheet is no longer listed, and its last row is 0 |
| SheetClient.Range.constructor | src/GasSheetClient.ts:5-12 | the range keeps its driver, sheet, origin and size |
| SheetClient.Range.GetValues | src/GasSheetClient.ts:14-22 | the driver's read of exactly the range's own rectangle |
| SheetClient.Range.SetValues | src/GasSheetClient.ts:24-30 | fails, changing nothing, iff the row count differs or a first row exists with the wrong length; otherwise writes the block at the origin |
| SheetClient.Range.Clear | src/GasSheetClient.ts:32-34 | deletes exactly the range's rectangle |
| SheetClient.Range.GetRow | src/GasSheetClient.ts:36-38 | on a non-empty range, the first row inside it: the row above is outside |
| SheetClient.Range.GetColumn | src/GasSheetClient.ts:40-42 | on a non-empty range, the first column inside it: the column to the left is outside |
| SheetClient.Range.GetLastRow | src/GasSheetClient.ts:44-46 | on a non-empty range, the last row inside it: the row below is outside; on any range, it is `numRows - 1` rows below `getRow` |
| SheetClient.Range.GetLastColumn | src/GasSheetClient.ts:48-50 | on a non-empty range, the last column inside it: the column to the right is outside; on any range, it is `numCols - 1` columns right of `getColumn` |
| SheetClient.Range.BoundsDelimitRect | src/GasSheetClient.ts:36-50 | getRow..getLastRow and getColumn..getLastColumn are the inclusive bounds of the half-open rectangle, spanning numRows and numCols |
| SheetClient.Sheet.constructor | src/GasSheetClient.ts:54 | the sheet keeps the driver and the name it is made with |
| SheetClient.Sheet.GetName | src/GasSheetClient.ts:56-58 | the name the sheet was made with |
| SheetClient.Sheet.GetRangeByNotation | src/GasSheetClient.ts:64-68 | parse errors pass through; given sizes are kept and omitted ones run to the last row or column; both are clamped to >= 0 |
| SheetClient.OpenExtentEndsAtLast | src/GasSheetClient.ts:66-67 | an open axis is empty when the last used position lies before the start, and otherwise ends exactly at it |
| SheetClient.OpenRowsCoverSheet | src/GasSheetClient.ts:66 | an open band of rows takes in every stored row of the sheet at or after its start |
| SheetClient.OpenColumnsCoverSheet | src/GasSheetClient.ts:67 | an open band of columns takes in every stored column of the sheet at or after its start |
| SheetClient.Sheet.GetRange | src/GasSheetClient.ts:69-75 | the numeric overloads: the given origin, with sizes defaulting to 1 |
| SheetClient.Sheet.GetLastRow | src/GasSheetClient.ts:78-80 | the driver's last row of this sheet |
| SheetClient.Sheet.GetLastColumn | src/GasSheetClient.ts:82-84 | the driver's last column of this sheet |
| SheetClient.Sheet.AppendRow | src/GasSheetClient.ts:86-89 | writes the row as a one-row block at (lastRow + 1, 1) |
| SheetClient.AppendRaisesLastRow | src/GasSheetClient.ts:86-89 | appending a non-empty row raises the last row by exactly 1, and the row reads back |
| SheetClient.Sheet.Clear | src/GasSheetClient.ts:91-97 | deletes (1, 1)..(lastRow, lastCol) when both are > 0, and otherwise changes nothing |
| SheetClient.ClearedSheetIsEmpty | src/GasSheetClient.ts:91-97 | when all of a sheet's cells lie at row and column >= 1, clearing it leaves it no cells and leaves other sheets alone |
| SheetClient.GasSheetClient.constructor | src/GasSheetClient.ts:101 | the client keeps the driver it is made with |
| SheetClient.GasSheetClient.GetSheetByName | src/GasSheetClient.ts:103-109 | a sheet with that name iff the driver lists it, else none |
| SheetClient.GasSheetClient.GetSheets | src/GasSheetClient.ts:111-113 | one sheet per listed name, on the shared driver, no name twice |
| SheetClient.GasSheetClient.InsertSheet | src/GasSheetClient.ts:115-118 | adds the name (idempotently), leaves cells alone, and returns a sheet of that name |
| SheetClient.GasSheetClient.DeleteSheet | src/GasSheetClient.ts:120-122 | the driver's delete of the sheet's name |
| SheetClientTests.InputBounds | tests/integration/GasSheetClient.test.ts:32-36 | the 2 x 2 write at (1, 1) makes the last row and column 2 |
| SheetClientTests.OpenA1B2 | tests/integration/GasSheetClient.test.ts:27 | "A1:B2" on a sheet is the 2 x 2 range at (1, 1) |
| SheetClientTests.AppendKeepsInput | tests/integration/GasSheetClient.test.ts:43-45 | appending below the input leaves cell (2, 2) reading "Alice" |
| SheetClientTests.AppendReadsBack | tests/integration/GasSheetClient.test.ts:39-41 | after the append, the row read at (3, 1) over 1 x 2 is `[2, 'Bob']` |
| SheetClientTests.ParseExampleRow3 | tests/integration/GasSheetClient.test.ts:41 | "A3:B3" is the 1 x 2 range at (3, 1) |
| SheetClientTests.Integration | tests/integration/GasSheetClient.test.ts:23-46 | write and read back through "A1:B2", bounds 2 and 2, last row 3 after the append, "A3:B3" reads `[[2, 'Bob']]`, and `getRange(2, 2)` reads "Alice" |
| SheetClientTests.ParseExampleB2C3 | tests/integration/GasSheetClient.test.ts:57 | "B2:C3" is the 2 x 2 range at (2, 2) with end (3, 3) |
| SheetClientTests.LabelReads | tests/integration/GasSheetClient.test.ts:50-63 | in the 5 x 5 block of labels written at (1, 1), "B2:C3" reads 2-2, 2-3, 3-2, 3-3 and "A1" reads 1-1 |
| SheetClientTests.A1NotationScenario | tests/integration/GasSheetClient.test.ts:48-64 | through the facade: write the labels with `getRange(1, 1, 5, 5)`, then "B2:C3" and "A1" read their parts |
| MockProperties.MockPropertiesService.constructor | src/mocks/MockPropertiesService.ts:4-6 | the service's map is a copy of the initial one |
| MockProperties.MockPropertiesService.Empty | src/mocks/MockPropertiesService.ts:4 | the default argument gives an empty map |
| MockProperties.MockPropertiesService.GetScriptProperties | src/mocks/MockPropertiesService.ts:8-17 | a fresh accessor over this service's map |
| MockProperties.ScriptProperties.GetProperty | src/mocks/MockPropertiesService.ts:10 | the stored value, or null exactly when the key is absent |
| MockProperties.ScriptProperties.GetProperties | src/mocks/MockPropertiesService.ts:11 | a copy of the whole map |
| MockProperties.ScriptProperties.SetProperty | src/mocks/MockPropertiesService.ts:12 | the map updated at one key |
| MockProperties.ScriptProperties.SetProperties | src/mocks/MockPropertiesService.ts:13 | `Object.assign`: the map merged with the argument, which wins |
| MockProperties.ScriptProperties.DeleteAllProperties | src/mocks/MockPropertiesService.ts:14 | the map becomes empty |
| MockProperties.ScriptProperties.DeleteProperty | src/mocks/MockPropertiesService.ts:15 | the map without that key |
| MockProperties.SetThenGet | src/mocks/MockPropertiesService.ts:10-12 | after `setProperty` through one accessor, `getProperty` through another reads the new value, and any other key reads as before |
| MockProperties.AssignThenGet | src/mocks/MockPropertiesService.ts:10-13 | after `setProperties` through one accessor, a given key reads its given value through another, and a key not given reads as before |
| MockProperties.DeleteThenGet | src/mocks/MockPropertiesService.ts:10-15 | after `deleteProperty` through one accessor, the key reads null through another, and any other key reads as before |
| MockProperties.SharedDictionary | src/mocks/MockPropertiesService.ts:8-17 | two accessors of one service see each other's writes, and an earlier snapshot does not change |
| MockProperties.StoreAndRetrieve | tests/mocks.test.ts:5-12 | the initial key reads back, a set key reads back, and a deleted key reads null |
| MockUtilities.IndexFrom | src/mocks/MockUtilities.ts:12-18 | the search from a start position returns, when it returns a position, one at or after the start where the pattern occurs |
| MockUtilities.IndexOf | src/mocks/MockUtilities.ts:12-18 | `indexOf` returns a position where the pattern occurs |
| MockUtilities.IndexFromFirst | src/mocks/MockUtilities.ts:12-18 | the occurrence found from a start is the first at or after it, and none is found only when none exists |
| MockUtilities.IndexOfFirst | src/mocks/MockUtilities.ts:12-18 | `indexOf` finds the first occurrence, and finds none exactly when the pattern occurs nowhere |
| MockUtilities.ReplaceFirst | src/mocks/MockUtilities.ts:12-18 | `replace` returns the text when the pattern occurs nowhere, and otherwise splices the replacement in place of the first occurrence, keeping the text before and after it |
| MockUtilities.ReplaceAbsent | src/mocks/MockUtilities.ts:12-18 | `replace` with an absent pattern returns the text unchanged |
| MockUtilities.ReplaceAfter | src/mocks/MockUtilities.ts:12-18 | `replace` rewrites the first occurrence and only that one |
| MockUtilities.ReplaceNext | src/mocks/MockUtilities.ts:12-18 | in a left-to-right rewrite, a token whose first letter is absent from the text before it is replaced where it stands |
| MockUtilities.FirstCharAbsent | src/mocks/MockUtilities.ts:12-18 | a pattern whose first character is missing from the text does not occur in it; so no token occurs in inserted digits |
| MockUtilities.TwoDigits | src/mocks/MockUtilities.ts:6-10 | a component from 0 to 99 is padded to two digits that read back as the component |
| MockUtilities.PadStart2 | src/mocks/MockUtilities.ts:6-10 | `padStart(2, '0')` leaves text of two or more characters alone, puts one zero before one character, and turns empty text into "00" |
| MockUtilities.PlainFields | src/mocks/MockUtilities.ts:5-10 | every field formatDate inserts, padded or not, holds no letter that starts a token |
| MockUtilities.FieldsInPlace | src/mocks/MockUtilities.ts:2-19 | formatDate fills "yyyy/MM/dd HH:mm:ss" in place, for all components: the year unpadded, the other five padded to two places, separators kept |
| MockUtilities.NoTokensUnchanged | src/mocks/MockUtilities.ts:12-18 | a format holding none of the six tokens is returned unchanged |
| MockUtilities.TimeZoneIgnored | src/mocks/MockUtilities.ts:2-3 | the time zone has no effect on the result |
| MockUtilities.MonthIsOneBased | src/mocks/MockUtilities.ts:6 | "MM" gives two digits reading `month0 + 1` for every month 0..11 |
| MockUtilitiesTests.YearText | src/mocks/MockUtilities.ts:5 | the year 2023 is emitted unpadded as "2023" |
| MockUtilitiesTests.PaddedFields | src/mocks/MockUtilities.ts:6-10 | month 0 pads to "01"; 15, 12, 30 and 45 keep their two digits |
| MockUtilitiesTests.ExampleJoin | tests/mocks.test.ts:21-23 | the test's fields joined by the format's separators are "2023/01/15 12:30:45" |
| MockUtilitiesTests.FormatExample | tests/mocks.test.ts:19-24 | 2023-01-15 12:30:45 with "yyyy/MM/dd HH:mm:ss" gives "2023/01/15 12:30:45" |
| MockUtilitiesTests.OnlyFirstOccurrence | src/mocks/MockUtilities.ts:12-18 | for all components, only the first occurrence of a token is replaced: "dd-dd" gives the padded day then "-dd" |
| MockUtilitiesTests.OnlyFirstExample | src/mocks/MockUtilities.ts:12-18 | with the test's date, "dd-dd" gives "15-dd" |

## Left out

- JSON: the SQLite driver stores `JSON.stringify` text and parses it on read, with a raw-text fallback. The model stores `Value`s as they are, so JSON is out of scope.
- The SQL engine: prepared statements, transactions and `close()` are not modelled. Each driver method is one atomic step in this sequential model.
- The `ON DELETE CASCADE` in the schema is not modelled. `deleteSheet` removes the cells itself.
- Opening an existing database file is not modelled. The constructor takes no path and starts from empty tables.
- SheetStore.SqliteDriver.GetSheetNames: the order of the names is not stated. SQL without `ORDER BY` does not promise one, and SQLite may read the names from the primary-key index in sorted order.
- The `ISheetDriver` interface is not modelled as an abstraction. `Range`, `Sheet` and `GasSheetClient` hold the `SqliteDriver` model directly, so the Apps Script driver (`GasDriver`) is not part of this model.
- Numbers: JavaScript numbers are modelled as unbounded integers. Fractional row, column and size arguments, `NaN`, and precision loss above 2^53 are not modelled.
- Not modelled in `Range` and `Sheet` because GasSheetClient.ts does not have them: `setValue`, cosmetic setters, `getDataRange`, `sheetCount`, an insert position for `insertSheet`.
- MockProperties.ScriptProperties.GetProperty: keys the object inherits from `Object.prototype` (such as `toString`) are not modelled. In the source they read as functions rather than null.
- MockUtilities.FormatDate: the time-zone argument and the `Date` object are replaced by six integer components. Deriving them from a time stamp and a local zone is host behaviour.
- MockUtilities.ReplaceFirst: `$` substitution patterns in the replacement are not modelled. Every replacement formatDate passes is digits and possibly a minus sign.
- A1Parser.ColumnLetterToIndex: strings are sequences of Unicode scalar values, not the UTF-16 code units that `charCodeAt` reads, so a text with characters outside the Basic Multilingual Plane folds to a different number. The parser passes only ASCII letters to the converter, so parsing is unaffected.
- Text.Upper: only ASCII letters are upper-cased. Only letters and digits pass the grammar's check, so no other character reaches the column conversion.
- Out of scope: the development server plugin, the browser bridge (`browser.ts`, `GasBridge.ts`), `MockSession`, the configuration files and the example script.
