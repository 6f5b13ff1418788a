/** The Apps-Script-shaped facade of src/GasSheetClient.ts: `Range`, `Sheet`
    and `GasSheetClient` are views over one driver. Their fields never change
    after construction, so they are `const`; every change they make is a
    change to the driver's tables. */
module SheetClient {
  import opened Wrappers
  import opened A1Parser
  import opened SheetStore

  /** The message `Range.setValues` throws when the data does not fit. */
  const DimensionMismatch := "The number of rows or columns in the data does not match the range."

  /** The check `Range.setValues` makes before writing: the row count must
      equal `numRows` and, when there is a first row, its length must equal
      `numCols`. Later rows are not checked. */
  predicate DimensionsMatch(values: Grid, numRows: int, numCols: int)
  {
    |values| == numRows && (|values| > 0 ==> |values[0]| == numCols)
  }

  /** The size `getRange(a1Notation)` settles on along one axis: the parsed
      size when the text gave one, otherwise up to the sheet's last used
      row (or column), never below 0. */
  function ResolvedExtent(given: Option<int>, start: int, last: int): nat
  {
    match given
    case Some(n) => Extent(n)
    case None => Extent(last - start + 1)
  }

  /** An open-ended axis reaches exactly the last used row or column: it is
      empty when that lies before `start`, and otherwise its last position is
      `last`. */
  lemma OpenExtentEndsAtLast(start: int, last: int)
    ensures last < start ==> ResolvedExtent(None, start, last) == 0
    ensures last >= start ==> start + ResolvedExtent(None, start, last) - 1 == last
  {
  }

  /** So an open-ended band of rows starting at `start` takes in every stored
      row of the sheet at or after `start`. */
  lemma OpenRowsCoverSheet(cells: Cells, sheet: string, start: int, row: int)
    requires row in Rows(cells, sheet) && start <= row
    ensures start <= row < start + ResolvedExtent(None, start, LastRowOf(cells, sheet))
  {
    var last := LastRowOf(cells, sheet);
    assert IsMaxOrZero(Rows(cells, sheet), last);
    assert row <= last;
  }

  /** The same for an open-ended band of columns. */
  lemma OpenColumnsCoverSheet(cells: Cells, sheet: string, start: int, col: int)
    requires col in Columns(cells, sheet) && start <= col
    ensures start <= col < start + ResolvedExtent(None, start, LastColumnOf(cells, sheet))
  {
    var last := LastColumnOf(cells, sheet);
    assert IsMaxOrZero(Columns(cells, sheet), last);
    assert col <= last;
  }

  /** The cell table after `Sheet.clear`: the block (1, 1)..(lastRow, lastCol)
      is deleted when both bounds are positive, and nothing otherwise. */
  ghost function ClearedSheet(cells: Cells, sheet: string): Cells
  {
    var lastRow := LastRowOf(cells, sheet);
    var lastCol := LastColumnOf(cells, sheet);
    if lastRow > 0 && lastCol > 0 then ClearRect(cells, sheet, 1, 1, lastRow, lastCol) else cells
  }

  /** When every cell of the sheet sits at row and column 1 or more (as the
      facade writes them), `Sheet.clear` leaves the sheet with no cells, and
      it never touches another sheet. */
  lemma ClearedSheetIsEmpty(cells: Cells, sheet: string)
    requires forall k :: k in cells && k.sheet == sheet ==> k.row >= 1 && k.col >= 1
    ensures forall k :: k in ClearedSheet(cells, sheet) ==> k.sheet != sheet
    ensures forall k :: k in cells && k.sheet != sheet ==>
              k in ClearedSheet(cells, sheet) && ClearedSheet(cells, sheet)[k] == cells[k]
  {
    var lastRow := LastRowOf(cells, sheet);
    var lastCol := LastColumnOf(cells, sheet);
    assert IsMaxOrZero(Rows(cells, sheet), lastRow);
    assert IsMaxOrZero(Columns(cells, sheet), lastCol);
    forall k | k in cells && k.sheet == sheet
      ensures 1 <= k.row <= lastRow && 1 <= k.col <= lastCol
    {
      assert k.row in Rows(cells, sheet);
      assert k.col in Columns(cells, sheet);
    }
  }

  /** The first row `appendRow` writes to. */
  ghost function AppendRowAt(cells: Cells, sheet: string): int { LastRowOf(cells, sheet) + 1 }

  /** Appending a non-empty row raises the sheet's last row by exactly one,
      and the row reads back from (lastRow + 1, 1). */
  lemma AppendRaisesLastRow(cells: Cells, sheet: string, row: seq<Value>)
    requires |row| > 0
    ensures var after := Upsert(cells, sheet, AppendRowAt(cells, sheet), 1, [row]);
      && LastRowOf(after, sheet) == LastRowOf(cells, sheet) + 1
      && Block(after, sheet, AppendRowAt(cells, sheet), 1, 1, |row|) == [row]
  {
    var at := AppendRowAt(cells, sheet);
    var after := Upsert(cells, sheet, at, 1, [row]);
    var before := Rows(cells, sheet);
    var rows := Rows(after, sheet);
    assert IsMaxOrZero(before, at - 1);
    forall r ensures r in rows <==> r in before || r == at {
      UpsertRows(cells, sheet, at, 1, [row], r);
    }
    assert rows == before + {at};
    assert IsMaxOrZero(rows, at);
    MaxOrZeroUnique(rows, at, LastRowOf(after, sheet));
    ReadBack(cells, sheet, at, 1, [row], |row|);
  }

  /** A rectangular view of one sheet. */
  class Range {
    const driver: SqliteDriver
    const sheetName: string
    const startRow: int
    const startCol: int
    const numRows: int
    const numCols: int

    constructor (driver: SqliteDriver, sheetName: string, startRow: int, startCol: int, numRows: int, numCols: int)
      ensures this.driver == driver && this.sheetName == sheetName
      ensures this.startRow == startRow && this.startCol == startCol
      ensures this.numRows == numRows && this.numCols == numCols
    {
      this.driver := driver;
      this.sheetName := sheetName;
      this.startRow := startRow;
      this.startCol := startCol;
      this.numRows := numRows;
      this.numCols := numCols;
    }

    /** getValues: the driver's read of exactly this rectangle. */
    method GetValues() returns (values: Grid)
      ensures |values| == Extent(numRows)
      ensures forall i :: 0 <= i < |values| ==> |values[i]| == Extent(numCols)
      ensures values == Block(driver.cells, sheetName, startRow, startCol, numRows, numCols)
    {
      values := driver.GetValues(sheetName, startRow, startCol, numRows, numCols);
    }

    /** setValues: refuses data whose shape does not fit, otherwise writes it
        at the range's origin. */
    method SetValues(values: Grid) returns (outcome: Outcome<string>)
      requires driver.Valid()
      modifies driver
      ensures driver.Valid()
      ensures outcome.Fail? <==> !DimensionsMatch(values, numRows, numCols)
      ensures outcome.Fail? ==>
        outcome.error == DimensionMismatch
        && driver.cells == old(driver.cells) && driver.sheets == old(driver.sheets)
      ensures outcome.Pass? ==>
        driver.cells == Upsert(old(driver.cells), sheetName, startRow, startCol, values)
        && driver.sheets == AddName(old(driver.sheets), sheetName)
    {
      if |values| != numRows || (|values| > 0 && |values[0]| != numCols) {
        return Fail(DimensionMismatch);
      }
      driver.SetValues(sheetName, startRow, startCol, values);
      outcome := Pass;
    }

    /** clear: the driver's delete of exactly this rectangle. */
    method Clear()
      requires driver.Valid()
      modifies driver
      ensures driver.Valid()
      ensures driver.cells == ClearRect(old(driver.cells), sheetName, startRow, startCol, numRows, numCols)
      ensures driver.sheets == old(driver.sheets)
    {
      driver.Clear(sheetName, startRow, startCol, numRows, numCols);
    }

    /** getRow: the first row of the range; on a non-empty range it is
        inside and the row above is not. */
    function GetRow(): (row: int)
      ensures numRows > 0 && numCols > 0 ==>
        && InRect(CellKey(sheetName, row, startCol), sheetName, startRow, startCol, numRows, numCols)
        && !InRect(CellKey(sheetName, row - 1, startCol), sheetName, startRow, startCol, numRows, numCols)
    {
      startRow
    }

    /** getColumn: the first column of the range. */
    function GetColumn(): (col: int)
      ensures numRows > 0 && numCols > 0 ==>
        && InRect(CellKey(sheetName, startRow, col), sheetName, startRow, startCol, numRows, numCols)
        && !InRect(CellKey(sheetName, startRow, col - 1), sheetName, startRow, startCol, numRows, numCols)
    {
      startCol
    }

    /** getLastRow: the last row of the range; on a non-empty range it is
        inside and the row below is not. */
    function GetLastRow(): (row: int)
      ensures numRows > 0 && numCols > 0 ==>
        && InRect(CellKey(sheetName, row, startCol), sheetName, startRow, startCol, numRows, numCols)
        && !InRect(CellKey(sheetName, row + 1, startCol), sheetName, startRow, startCol, numRows, numCols)
      ensures row - GetRow() + 1 == numRows
    {
      startRow + numRows - 1
    }

    /** getLastColumn: the last column of the range. */
    function GetLastColumn(): (col: int)
      ensures numRows > 0 && numCols > 0 ==>
        && InRect(CellKey(sheetName, startRow, col), sheetName, startRow, startCol, numRows, numCols)
        && !InRect(CellKey(sheetName, startRow, col + 1), sheetName, startRow, startCol, numRows, numCols)
      ensures col - GetColumn() + 1 == numCols
    {
      startCol + numCols - 1
    }

    /** The inclusive bounds the getters report delimit exactly the half-open
        rectangle the driver reads and clears, and they span `numRows` rows
        and `numCols` columns. */
    lemma BoundsDelimitRect(k: CellKey)
      ensures InRect(k, sheetName, startRow, startCol, numRows, numCols)
              <==> k.sheet == sheetName && GetRow() <= k.row <= GetLastRow()
                   && GetColumn() <= k.col <= GetLastColumn()
      ensures GetLastRow() - GetRow() + 1 == numRows
      ensures GetLastColumn() - GetColumn() + 1 == numCols
    {
    }
  }

  /** One named sheet of the driver. */
  class Sheet {
    const driver: SqliteDriver
    const name: string

    constructor (driver: SqliteDriver, name: string)
      ensures this.driver == driver && this.name == name
    {
      this.driver := driver;
      this.name := name;
    }

    function GetName(): (n: string)
      ensures n == name
    {
      name
    }

    /** getRange(a1Notation): parse the text; an axis the text leaves open
        runs to the sheet's last used row or column. The driver is asked for
        a bound only when the text leaves that axis open. */
    method GetRangeByNotation(a1Notation: string) returns (r: Result<Range, ParseError>)
      ensures r.Failure? <==> ParseA1Notation(a1Notation).Failure?
      ensures r.Failure? ==> r.error == ParseA1Notation(a1Notation).error
      ensures r.Success? ==>
        var p := ParseA1Notation(a1Notation).value;
        && r.value.driver == driver && r.value.sheetName == name
        && r.value.startRow == p.startRow && r.value.startCol == p.startCol
        && r.value.numRows == ResolvedExtent(p.numRows, p.startRow, LastRowOf(driver.cells, name))
        && r.value.numCols == ResolvedExtent(p.numCols, p.startCol, LastColumnOf(driver.cells, name))
    {
      var parsed := ParseA1Notation(a1Notation);
      if parsed.Failure? {
        return Failure(parsed.error);
      }
      var p := parsed.value;
      var numRows: int;
      if p.numRows.Some? {
        numRows := p.numRows.value;
      } else {
        var lastRow := driver.GetLastRow(name);
        numRows := lastRow - p.startRow + 1;
      }
      var numCols: int;
      if p.numCols.Some? {
        numCols := p.numCols.value;
      } else {
        var lastCol := driver.GetLastColumn(name);
        numCols := lastCol - p.startCol + 1;
      }
      var range := new Range(driver, name, p.startRow, p.startCol, Extent(numRows), Extent(numCols));
      r := Success(range);
    }

    /** getRange(row, col[, numRows, numCols]): sizes not given are 1; the
        numbers are taken as they are. */
    method GetRange(row: int, col: int, numRows: Option<int>, numCols: Option<int>) returns (r: Range)
      ensures r.driver == driver && r.sheetName == name
      ensures r.startRow == row && r.startCol == col
      ensures numRows.None? ==> r.numRows == 1
      ensures numCols.None? ==> r.numCols == 1
      ensures numRows.Some? ==> r.numRows == numRows.value
      ensures numCols.Some? ==> r.numCols == numCols.value
    {
      r := new Range(driver, name, row, col, numRows.GetOr(1), numCols.GetOr(1));
    }

    /** getLastRow: the driver's last used row of this sheet, 0 when empty. */
    method GetLastRow() returns (lastRow: int)
      ensures lastRow == LastRowOf(driver.cells, name)
      ensures IsMaxOrZero(Rows(driver.cells, name), lastRow)
    {
      lastRow := driver.GetLastRow(name);
    }

    /** getLastColumn: the driver's last used column of this sheet, 0 when empty. */
    method GetLastColumn() returns (lastCol: int)
      ensures lastCol == LastColumnOf(driver.cells, name)
      ensures IsMaxOrZero(Columns(driver.cells, name), lastCol)
    {
      lastCol := driver.GetLastColumn(name);
    }

    /** appendRow: write the row as a one-row block at (lastRow + 1, 1). */
    method AppendRow(rowContents: seq<Value>)
      requires driver.Valid()
      modifies driver
      ensures driver.Valid()
      ensures driver.cells == Upsert(old(driver.cells), name, AppendRowAt(old(driver.cells), name), 1, [rowContents])
      ensures driver.sheets == AddName(old(driver.sheets), name)
    {
      var lastRow := GetLastRow();
      assert lastRow + 1 == AppendRowAt(old(driver.cells), name);
      driver.SetValues(name, lastRow + 1, 1, [rowContents]);
    }

    /** clear: delete (1, 1)..(lastRow, lastCol) when the sheet has content. */
    method Clear()
      requires driver.Valid()
      modifies driver
      ensures driver.Valid()
      ensures driver.cells == ClearedSheet(old(driver.cells), name)
      ensures driver.sheets == old(driver.sheets)
    {
      var lastRow := GetLastRow();
      var lastCol := GetLastColumn();
      if lastRow > 0 && lastCol > 0 {
        driver.Clear(name, 1, 1, lastRow, lastCol);
      }
    }
  }

  /** The spreadsheet: sheets looked up, listed, created and deleted by name. */
  class GasSheetClient {
    const driver: SqliteDriver

    constructor (driver: SqliteDriver)
      ensures this.driver == driver
    {
      this.driver := driver;
    }

    /** getSheetByName: a sheet with that name exactly when the driver lists it. */
    method GetSheetByName(name: string) returns (sheet: Option<Sheet>)
      requires driver.Valid()
      ensures sheet.Some? <==> name in driver.sheets
      ensures sheet.Some? ==> sheet.value.name == name && sheet.value.driver == driver
    {
      var names := driver.GetSheetNames();
      if name in names {
        var s := new Sheet(driver, name);
        return Some(s);
      }
      return None;
    }

    /** getSheets: one sheet per listed name. */
    method GetSheets() returns (sheets: seq<Sheet>)
      requires driver.Valid()
      ensures |sheets| == |driver.sheets|
      ensures forall i :: 0 <= i < |sheets| ==> sheets[i].name in driver.sheets && sheets[i].driver == driver
      ensures forall i, j :: 0 <= i < j < |sheets| ==> sheets[i].name != sheets[j].name
    {
      var names := driver.GetSheetNames();
      sheets := [];
      for i := 0 to |names|
        invariant |sheets| == i
        invariant forall j :: 0 <= j < i ==> sheets[j].name == names[j] && sheets[j].driver == driver
      {
        var s := new Sheet(driver, names[i]);
        sheets := sheets + [s];
      }
    }

    /** insertSheet: add the name (a no-op when it exists) and return its sheet. */
    method InsertSheet(name: string) returns (sheet: Sheet)
      requires driver.Valid()
      modifies driver
      ensures driver.Valid()
      ensures driver.sheets == AddName(old(driver.sheets), name) && driver.cells == old(driver.cells)
      ensures sheet.name == name && sheet.driver == driver
    {
      driver.AddSheet(name);
      sheet := new Sheet(driver, name);
    }

    /** deleteSheet: delete, on this client's driver, the sheet of that name. */
    method DeleteSheet(sheet: Sheet)
      requires driver.Valid()
      modifies driver
      ensures driver.Valid()
      ensures driver.cells == WithoutSheet(old(driver.cells), sheet.name)
      ensures driver.sheets == RemoveName(old(driver.sheets), sheet.name)
    {
      driver.DeleteSheet(sheet.GetName());
    }
  }
}
