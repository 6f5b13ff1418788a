/** The facade's two integration scenarios, stated over the model. */
module SheetClientTests {
  import opened Wrappers
  import opened Text
  import opened A1Parser
  import opened A1ParserTests
  import opened SheetStore
  import opened SheetClient

  function Input(): Grid { [[Str("ID"), Str("Name")], [Num(1), Str("Alice")]] }

  /** Writing the 2 x 2 input at (1, 1) of an empty table makes row 2 and
      column 2 the last used ones. */
  lemma InputBounds()
    ensures LastRowOf(Upsert(map[], "TestSheet", 1, 1, Input()), "TestSheet") == 2
    ensures LastColumnOf(Upsert(map[], "TestSheet", 1, 1, Input()), "TestSheet") == 2
  {
    var cells := Upsert(map[], "TestSheet", 1, 1, Input());
    forall r ensures r in Rows(cells, "TestSheet") <==> r == 1 || r == 2 {
      UpsertRows(map[], "TestSheet", 1, 1, Input(), r);
    }
    forall c ensures c in Columns(cells, "TestSheet") <==> c == 1 || c == 2 {
      UpsertColumns(map[], "TestSheet", 1, 1, Input(), c);
      assert 0 <= c - 1 < |Input()[0]| ==> 0 <= 0 < |Input()| && 0 <= c - 1 < |Input()[0]|;
    }
    assert 2 in Rows(cells, "TestSheet") && 2 in Columns(cells, "TestSheet");
    assert IsMaxOrZero(Rows(cells, "TestSheet"), 2);
    assert IsMaxOrZero(Columns(cells, "TestSheet"), 2);
    MaxOrZeroUnique(Rows(cells, "TestSheet"), 2, LastRowOf(cells, "TestSheet"));
    MaxOrZeroUnique(Columns(cells, "TestSheet"), 2, LastColumnOf(cells, "TestSheet"));
  }

  /** Appending below the input leaves its cell (2, 2) in place. */
  lemma AppendKeepsInput(row: seq<Value>)
    ensures var written := Upsert(map[], "TestSheet", 1, 1, Input());
      Block(Upsert(written, "TestSheet", AppendRowAt(written, "TestSheet"), 1, [row]), "TestSheet", 2, 2, 1, 1)
        == [[Str("Alice")]]
  {
    var written := Upsert(map[], "TestSheet", 1, 1, Input());
    InputBounds();
    assert AppendRowAt(written, "TestSheet") == 3;
    var k := CellKey("TestSheet", 2, 2);
    UpsertLookup(map[], "TestSheet", 1, 1, Input(), k);
    assert InBlock(Input(), "TestSheet", 1, 1, k);
    assert k in written && written[k] == Str("Alice");
    UpsertLookup(written, "TestSheet", 3, 1, [row], k);
    assert !InBlock([row], "TestSheet", 3, 1, k);
    var appended := Upsert(written, "TestSheet", 3, 1, [row]);
    assert CellAt(appended, "TestSheet", 2, 2) == Str("Alice");
    var g := Block(appended, "TestSheet", 2, 2, 1, 1);
    assert |g| == 1 && |g[0]| == 1 && g[0][0] == Str("Alice");
    assert g[0] == [Str("Alice")];
    assert g == [[Str("Alice")]];
  }

  /** The appended row reads back from "A3:B3". */
  lemma AppendReadsBack(row: seq<Value>)
    requires |row| == 2
    ensures var written := Upsert(map[], "TestSheet", 1, 1, Input());
      Block(Upsert(written, "TestSheet", AppendRowAt(written, "TestSheet"), 1, [row]), "TestSheet", 3, 1, 1, 2)
        == [row]
  {
    var written := Upsert(map[], "TestSheet", 1, 1, Input());
    InputBounds();
    assert AppendRowAt(written, "TestSheet") == 3;
    AppendRaisesLastRow(written, "TestSheet", row);
  }

  /** A span of two cells parses as the record built from their groups. */
  lemma ParseTwoCells(col1: char, row1: char, col2: char, row2: char)
    requires IsLetter(col1) && IsDigit(row1) && IsLetter(col2) && IsDigit(row2)
    ensures ParseA1Notation([col1, row1, ':', col2, row2])
              == Success(Build(Segment([col1], [row1]), Segment([col2], [row2])))
  {
    var left, right := [col1, row1], [col2, row2];
    MatchSegmentOf([col1], [row1]);
    assert [col1] + [row1] == left;
    MatchSegmentOf([col2], [row2]);
    assert [col2] + [row2] == right;
    assert [col1, row1, ':', col2, row2] == left + ":" + right;
    ParseOfSplit(left, right);
  }

  /** "A3:B3" is the one-row, two-column range at (3, 1). */
  lemma ParseExampleRow3()
    ensures ParseA1Notation("A3:B3") == Success(ParsedRange(3, 1, Some(3), Some(2), Some(1), Some(2)))
  {
    ParseTwoCells('A', '3', 'B', '3');
    BuildRow3();
  }

  lemma BuildRow3()
    ensures Build(Segment("A", "3"), Segment("B", "3")) == ParsedRange(3, 1, Some(3), Some(2), Some(1), Some(2))
  {
    assert Upper("A") == "A" && Upper("B") == "B";
    assert DecimalValue("3") == 3;
  }

  /** "B2:C3" is the 2 x 2 range at (2, 2). */
  lemma ParseExampleB2C3()
    ensures ParseA1Notation("B2:C3") == Success(ParsedRange(2, 2, Some(3), Some(3), Some(2), Some(2)))
  {
    ParseTwoCells('B', '2', 'C', '3');
    BuildB2C3();
  }

  lemma BuildB2C3()
    ensures Build(Segment("B", "2"), Segment("C", "3")) == ParsedRange(2, 2, Some(3), Some(3), Some(2), Some(2))
  {
    assert Upper("B") == "B" && Upper("C") == "C";
    assert DecimalValue("2") == 2 && DecimalValue("3") == 3;
  }

  /** "A3:B3" read after the append. */
  method OpenA3B3(sheet: Sheet) returns (range: Range)
    ensures range.driver == sheet.driver && range.sheetName == sheet.name
    ensures range.startRow == 3 && range.startCol == 1 && range.numRows == 1 && range.numCols == 2
  {
    ParseExampleRow3();
    var r := sheet.GetRangeByNotation("A3:B3");
    range := r.value;
  }

  /** "A1:B2" on a fresh sheet is the 2 x 2 range at (1, 1). */
  method OpenA1B2(sheet: Sheet) returns (range: Range)
    ensures range.driver == sheet.driver && range.sheetName == sheet.name
    ensures range.startRow == 1 && range.startCol == 1 && range.numRows == 2 && range.numCols == 2
  {
    ParseExampleSpan();
    var r := sheet.GetRangeByNotation("A1:B2");
    range := r.value;
  }

  /** The first half of the scenario: insert a sheet, write through "A1:B2",
      read it back and take the bounds. */
  method WriteThroughA1B2() returns (sheet: Sheet, read: Grid, lastRow: int, lastCol: int)
    ensures fresh(sheet.driver) && sheet.driver.Valid() && sheet.name == "TestSheet"
    ensures sheet.driver.cells == Upsert(map[], "TestSheet", 1, 1, Input())
    ensures read == Input() && lastRow == 2 && lastCol == 2
  {
    var driver := new SqliteDriver();
    var client := new GasSheetClient(driver);
    sheet := client.InsertSheet("TestSheet");
    var range := OpenA1B2(sheet);
    var outcome := range.SetValues(Input());
    ReadBack(map[], "TestSheet", 1, 1, Input(), 2);
    read := range.GetValues();
    InputBounds();
    lastRow := sheet.GetLastRow();
    lastCol := sheet.GetLastColumn();
  }

  /** Insert a sheet, write through an A1 range, read it back, check the
      bounds, append a row, read the appended row through "A3:B3", and read
      one cell by number. */
  method Integration() returns (read: Grid, lastRow: int, lastCol: int, lastAfterAppend: int, appended: Grid,
                                cell: Grid)
    ensures read == Input()
    ensures lastRow == 2 && lastCol == 2
    ensures lastAfterAppend == 3
    ensures appended == [[Num(2), Str("Bob")]]
    ensures cell == [[Str("Alice")]]
  {
    var sheet;
    sheet, read, lastRow, lastCol := WriteThroughA1B2();
    ghost var written := Upsert(map[], "TestSheet", 1, 1, Input());
    InputBounds();
    assert LastRowOf(written, "TestSheet") == 2;
    var row := [Num(2), Str("Bob")];
    sheet.AppendRow(row);
    AppendRaisesLastRow(written, "TestSheet", row);
    assert LastRowOf(sheet.driver.cells, "TestSheet") == 3;
    lastAfterAppend := sheet.GetLastRow();
    AppendReadsBack(row);
    var band := OpenA3B3(sheet);
    appended := band.GetValues();
    AppendKeepsInput(row);
    var single := sheet.GetRange(2, 2, None, None);
    cell := single.GetValues();
  }

  /** The entry `${i+1}-${j+1}` the second scenario writes at row r, column c. */
  function Label(r: nat, c: nat): Value { Str(NatToString(r) + "-" + NatToString(c)) }

  /** The 5 x 5 block of labels. */
  function Labels(): Grid
  {
    seq(5, i requires 0 <= i < 5 => seq(5, j requires 0 <= j < 5 => Label(i + 1, j + 1)))
  }

  lemma LabelTexts()
    ensures Label(1, 1) == Str("1-1") && Label(2, 2) == Str("2-2") && Label(2, 3) == Str("2-3")
    ensures Label(3, 2) == Str("3-2") && Label(3, 3) == Str("3-3")
  {
    assert NatToString(1) == "1" && NatToString(2) == "2" && NatToString(3) == "3";
  }

  /** The parts of the labels that "B2:C3" and "A1" select. */
  lemma LabelParts()
    ensures SubGrid(Labels(), 1, 1, 2, 2) == [[Str("2-2"), Str("2-3")], [Str("3-2"), Str("3-3")]]
    ensures SubGrid(Labels(), 0, 0, 1, 1) == [[Str("1-1")]]
  {
    LabelTexts();
    var middle := SubGrid(Labels(), 1, 1, 2, 2);
    assert middle[0] == [Str("2-2"), Str("2-3")];
    assert middle[1] == [Str("3-2"), Str("3-3")];
    var corner := SubGrid(Labels(), 0, 0, 1, 1);
    assert corner[0] == [Str("1-1")];
  }

  /** Reading "B2:C3" and "A1" of the written labels. */
  lemma LabelReads()
    ensures |Labels()| == 5 && |Labels()[0]| == 5
    ensures Block(Upsert(map[], "A1Test", 1, 1, Labels()), "A1Test", 2, 2, 2, 2)
              == [[Str("2-2"), Str("2-3")], [Str("3-2"), Str("3-3")]]
    ensures Block(Upsert(map[], "A1Test", 1, 1, Labels()), "A1Test", 1, 1, 1, 1) == [[Str("1-1")]]
  {
    ReadBackPart(map[], "A1Test", 1, 1, Labels(), 5, 1, 1, 2, 2);
    ReadBackPart(map[], "A1Test", 1, 1, Labels(), 5, 0, 0, 1, 1);
    LabelParts();
  }

  /** Write 5 x 5 labels through `getRange(1, 1, 5, 5)`, then read "B2:C3"
      and "A1". */
  method A1NotationScenario() returns (middle: Grid, corner: Grid)
    ensures middle == [[Str("2-2"), Str("2-3")], [Str("3-2"), Str("3-3")]]
    ensures corner == [[Str("1-1")]]
  {
    var driver := new SqliteDriver();
    var client := new GasSheetClient(driver);
    var sheet := client.InsertSheet("A1Test");
    var range := sheet.GetRange(1, 1, Some(5), Some(5));
    LabelReads();
    var outcome := range.SetValues(Labels());
    ParseExampleB2C3();
    var inner := sheet.GetRangeByNotation("B2:C3");
    middle := inner.value.GetValues();
    ParseExampleCell();
    var single := sheet.GetRangeByNotation("A1");
    corner := single.value.GetValues();
  }
}
