/** The driver's own scenarios, stated over the model: each method drives a
    fresh driver and its postcondition states what the scenario observes. */
module SheetStoreTests {
  import opened SheetStore

  /** A block written at (1, 1) reads back unchanged. */
  method SetThenGet() returns (result: Grid)
    ensures result == [[Str("Name"), Str("Age")], [Str("Alice"), Num(30)], [Str("Bob"), Num(25)]]
  {
    var values := [[Str("Name"), Str("Age")], [Str("Alice"), Num(30)], [Str("Bob"), Num(25)]];
    var driver := new SqliteDriver();
    driver.SetValues("Sheet1", 1, 1, values);
    ReadBack(map[], "Sheet1", 1, 1, values, 2);
    result := driver.GetValues("Sheet1", 1, 1, 3, 2);
  }

  /** One cell written at (5, 3) makes row 5 and column 3 the last used ones. */
  method LastRowAndColumn() returns (lastRow: int, lastCol: int)
    ensures lastRow == 5 && lastCol == 3
  {
    var values := [[Str("Data")]];
    var driver := new SqliteDriver();
    driver.SetValues("Sheet1", 5, 3, values);
    forall r ensures r in Rows(driver.cells, "Sheet1") ==> r == 5 {
      UpsertRows(map[], "Sheet1", 5, 3, values, r);
    }
    forall c ensures c in Columns(driver.cells, "Sheet1") ==> c == 3 {
      UpsertColumns(map[], "Sheet1", 5, 3, values, c);
    }
    lastRow := driver.GetLastRow("Sheet1");
    lastCol := driver.GetLastColumn("Sheet1");
    UpsertRows(map[], "Sheet1", 5, 3, values, 5);
    UpsertColumns(map[], "Sheet1", 5, 3, values, 3);
    assert 5 in Rows(driver.cells, "Sheet1") && 3 in Columns(driver.cells, "Sheet1");
  }

  /** Two sheets hold their own values. */
  method MultipleSheets() returns (names: seq<string>, first: Grid, second: Grid)
    ensures "Sheet1" in names && "Sheet2" in names
    ensures first == [[Str("S1")]] && second == [[Str("S2")]]
  {
    var driver := new SqliteDriver();
    driver.AddSheet("Sheet1");
    driver.AddSheet("Sheet2");
    names := driver.GetSheetNames();
    ghost var empty := driver.cells;
    driver.SetValues("Sheet1", 1, 1, [[Str("S1")]]);
    ghost var afterFirst := driver.cells;
    driver.SetValues("Sheet2", 1, 1, [[Str("S2")]]);
    ReadBack(empty, "Sheet1", 1, 1, [[Str("S1")]], 1);
    ReadBack(afterFirst, "Sheet2", 1, 1, [[Str("S2")]], 1);
    UpsertOtherSheetBlock(afterFirst, "Sheet2", 1, 1, [[Str("S2")]], "Sheet1", 1, 1, 1, 1);
    first := driver.GetValues("Sheet1", 1, 1, 1, 1);
    second := driver.GetValues("Sheet2", 1, 1, 1, 1);
  }

  /** Deleting a sheet removes its name, and its last row reads 0. */
  method DeleteSheetScenario() returns (names: seq<string>, lastRow: int)
    ensures "Sheet1" !in names
    ensures lastRow == 0
  {
    var driver := new SqliteDriver();
    driver.AddSheet("Sheet1");
    driver.SetValues("Sheet1", 1, 1, [[Str("Data")]]);
    ghost var before := driver.cells;
    driver.DeleteSheet("Sheet1");
    WithoutSheetBounds(before, "Sheet1");
    names := driver.GetSheetNames();
    lastRow := driver.GetLastRow("Sheet1");
  }
}
