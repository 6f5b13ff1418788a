/** The sparse cell store of src/drivers/sqlite/SqliteDriver.ts. The two
    tables of the database become the driver's state: the `sheets` table a
    sequence of distinct names (in the order rows were inserted), the `cells`
    table a finite map from (sheet, row, column) to a value. Every method of
    the driver is one query or one transaction, so each is one step here. */
module SheetStore {
  import opened Wrappers

  /** A cell value. The source stores JSON text and decodes it on read; the
      model stores the decoded value as it is. */
  datatype Value = Str(s: string) | Num(n: int) | Bool(b: bool) | Null

  /** What a read returns for a cell with no row in the table. */
  const Blank: Value := Str("")

  /** The primary key of the `cells` table. */
  datatype CellKey = CellKey(sheet: string, row: int, col: int)

  type Cells = map<CellKey, Value>

  /** A two-dimensional array of values, rows possibly of different lengths. */
  type Grid = seq<seq<Value>>

  /* ---------- the rectangle queries ---------- */

  /** The WHERE clause of the range queries: the sheet matches and the key
      lies in [startRow, startRow + numRows) x [startCol, startCol + numCols). */
  predicate InRect(k: CellKey, sheet: string, startRow: int, startCol: int, numRows: int, numCols: int)
  {
    k.sheet == sheet && startRow <= k.row < startRow + numRows && startCol <= k.col < startCol + numCols
  }

  /** The value a read reports for one cell: the stored one, or Blank. */
  function CellAt(cells: Cells, sheet: string, row: int, col: int): Value
  {
    var k := CellKey(sheet, row, col);
    if k in cells then cells[k] else Blank
  }

  /** The length `Array.from({ length: n })` gives: negative lengths become 0. */
  function Extent(n: int): nat { if n < 0 then 0 else n }

  /** The grid getValues returns: Extent(numRows) rows of Extent(numCols)
      entries, entry (i, j) being the cell at (startRow + i, startCol + j). */
  function Block(cells: Cells, sheet: string, startRow: int, startCol: int, numRows: int, numCols: int): (g: Grid)
    ensures |g| == Extent(numRows)
    ensures forall i :: 0 <= i < |g| ==> |g[i]| == Extent(numCols)
    ensures forall i, j :: 0 <= i < |g| && 0 <= j < |g[i]| ==> g[i][j] == CellAt(cells, sheet, startRow + i, startCol + j)
  {
    seq(Extent(numRows), i =>
      seq(Extent(numCols), j => CellAt(cells, sheet, startRow + i, startCol + j)))
  }

  /** Only the cells in the rectangle decide what a read returns. */
  lemma BlockReadsOnlyRect(a: Cells, b: Cells, sheet: string, startRow: int, startCol: int, numRows: int, numCols: int)
    requires forall k :: InRect(k, sheet, startRow, startCol, numRows, numCols) ==>
               (k in a <==> k in b) && (k in a ==> a[k] == b[k])
    ensures Block(a, sheet, startRow, startCol, numRows, numCols)
              == Block(b, sheet, startRow, startCol, numRows, numCols)
  {
    var ga := Block(a, sheet, startRow, startCol, numRows, numCols);
    var gb := Block(b, sheet, startRow, startCol, numRows, numCols);
    forall i | 0 <= i < |ga| ensures ga[i] == gb[i] {
      forall j | 0 <= j < |ga[i]| ensures ga[i][j] == gb[i][j] {
        assert InRect(CellKey(sheet, startRow + i, startCol + j), sheet, startRow, startCol, numRows, numCols);
      }
    }
  }

  /* ---------- writes ---------- */

  /** Key k is written by a block write of `values` at (startRow, startCol):
      it is in row i = k.row - startRow and column j = k.col - startCol with
      j below the length of row i (rows may be ragged). */
  predicate InBlock(values: Grid, sheet: string, startRow: int, startCol: int, k: CellKey)
  {
    k.sheet == sheet && 0 <= k.row - startRow < |values|
    && 0 <= k.col - startCol < |values[k.row - startRow]|
  }

  function BlockKeys(values: Grid, sheet: string, startRow: int, startCol: int): (ks: set<CellKey>)
    ensures forall k :: k in ks ==> InBlock(values, sheet, startRow, startCol, k)
  {
    set r, c | startRow <= r < startRow + |values| && startCol <= c < startCol + |values[r - startRow]|
      :: CellKey(sheet, r, c)
  }

  /** The table after `INSERT OR REPLACE` of every entry of `values`. */
  function Upsert(cells: Cells, sheet: string, startRow: int, startCol: int, values: Grid): (r: Cells)
    ensures r.Keys == cells.Keys + BlockKeys(values, sheet, startRow, startCol)
  {
    map k | k in cells.Keys + BlockKeys(values, sheet, startRow, startCol) ::
      if InBlock(values, sheet, startRow, startCol, k)
      then values[k.row - startRow][k.col - startCol]
      else cells[k]
  }

  /** A block write stores values[i][j] at (startRow + i, startCol + j) for
      every entry, overwriting, and leaves every other key as it was. */
  lemma UpsertLookup(cells: Cells, sheet: string, startRow: int, startCol: int, values: Grid, k: CellKey)
    ensures var u := Upsert(cells, sheet, startRow, startCol, values);
      && (k in u <==> k in cells || InBlock(values, sheet, startRow, startCol, k))
      && (InBlock(values, sheet, startRow, startCol, k) ==> u[k] == values[k.row - startRow][k.col - startCol])
      && (!InBlock(values, sheet, startRow, startCol, k) && k in cells ==> u[k] == cells[k])
  {
    if InBlock(values, sheet, startRow, startCol, k) {
      assert k == CellKey(sheet, k.row, k.col);
      assert k in BlockKeys(values, sheet, startRow, startCol);
    }
  }

  /** One more cell at the end of the last row: the step of the nested loop. */
  lemma UpsertStep(cells: Cells, sheet: string, startRow: int, startCol: int, rows: Grid, row: seq<Value>, v: Value)
    ensures Upsert(cells, sheet, startRow, startCol, rows + [row])
                [CellKey(sheet, startRow + |rows|, startCol + |row|) := v]
            == Upsert(cells, sheet, startRow, startCol, rows + [row + [v]])
  {
    var nk := CellKey(sheet, startRow + |rows|, startCol + |row|);
    var a := Upsert(cells, sheet, startRow, startCol, rows + [row])[nk := v];
    var b := Upsert(cells, sheet, startRow, startCol, rows + [row + [v]]);
    forall k ensures (k in a <==> k in b) && (k in a ==> a[k] == b[k]) {
      UpsertLookup(cells, sheet, startRow, startCol, rows + [row], k);
      UpsertLookup(cells, sheet, startRow, startCol, rows + [row + [v]], k);
      if k != nk && InBlock(rows + [row + [v]], sheet, startRow, startCol, k) {
        var i := k.row - startRow;
        if i < |rows| {
          assert (rows + [row])[i] == (rows + [row + [v]])[i] == rows[i];
        } else {
          assert (rows + [row])[i] == row;
          assert (row + [v])[k.col - startCol] == row[k.col - startCol];
        }
      }
    }
  }

  /** An empty last row writes nothing. */
  lemma UpsertEmptyRow(cells: Cells, sheet: string, startRow: int, startCol: int, rows: Grid)
    ensures Upsert(cells, sheet, startRow, startCol, rows + [[]])
            == Upsert(cells, sheet, startRow, startCol, rows)
  {
    var a := Upsert(cells, sheet, startRow, startCol, rows + [[]]);
    var b := Upsert(cells, sheet, startRow, startCol, rows);
    forall k ensures (k in a <==> k in b) && (k in a ==> a[k] == b[k]) {
      UpsertLookup(cells, sheet, startRow, startCol, rows + [[]], k);
      UpsertLookup(cells, sheet, startRow, startCol, rows, k);
      if InBlock(rows, sheet, startRow, startCol, k) {
        assert (rows + [[]])[k.row - startRow] == rows[k.row - startRow];
      }
    }
  }

  /** The inner loop of setValues starts row i with nothing of it written. */
  lemma UpsertRowStart(cells: Cells, sheet: string, startRow: int, startCol: int, values: Grid, i: int)
    requires 0 <= i < |values|
    ensures Upsert(cells, sheet, startRow, startCol, values[..i] + [values[i][..0]])
            == Upsert(cells, sheet, startRow, startCol, values[..i])
  {
    assert values[i][..0] == [];
    UpsertEmptyRow(cells, sheet, startRow, startCol, values[..i]);
  }

  /** One step of the inner loop of setValues writes entry (i, j). */
  lemma UpsertCellStep(cells: Cells, sheet: string, startRow: int, startCol: int, values: Grid, i: int, j: int)
    requires 0 <= i < |values| && 0 <= j < |values[i]|
    ensures Upsert(cells, sheet, startRow, startCol, values[..i] + [values[i][..j]])
                [CellKey(sheet, startRow + i, startCol + j) := values[i][j]]
            == Upsert(cells, sheet, startRow, startCol, values[..i] + [values[i][..j + 1]])
  {
    UpsertStep(cells, sheet, startRow, startCol, values[..i], values[i][..j], values[i][j]);
    assert values[i][..j + 1] == values[i][..j] + [values[i][j]];
  }

  /** The inner loop of setValues ends with all of row i written. */
  lemma UpsertRowEnd(cells: Cells, sheet: string, startRow: int, startCol: int, values: Grid, i: int)
    requires 0 <= i < |values|
    ensures Upsert(cells, sheet, startRow, startCol, values[..i] + [values[i][..|values[i]|]])
            == Upsert(cells, sheet, startRow, startCol, values[..i + 1])
  {
    assert values[i][..|values[i]|] == values[i];
    assert values[..i] + [values[i]] == values[..i + 1];
  }

  /** Writing a rectangular block and reading the same rectangle gives the block back. */
  lemma ReadBack(cells: Cells, sheet: string, startRow: int, startCol: int, values: Grid, width: nat)
    requires forall i :: 0 <= i < |values| ==> |values[i]| == width
    ensures Block(Upsert(cells, sheet, startRow, startCol, values), sheet, startRow, startCol, |values|, width)
              == values
  {
    var g := Block(Upsert(cells, sheet, startRow, startCol, values), sheet, startRow, startCol, |values|, width);
    forall i | 0 <= i < |values| ensures g[i] == values[i] {
      forall j | 0 <= j < width ensures g[i][j] == values[i][j] {
        UpsertLookup(cells, sheet, startRow, startCol, values, CellKey(sheet, startRow + i, startCol + j));
      }
    }
  }

  /** The `n` x `m` part of `values` whose corner is entry (di, dj). */
  function SubGrid(values: Grid, di: nat, dj: nat, n: nat, m: nat): (g: Grid)
    requires di + n <= |values|
    requires forall i :: di <= i < di + n ==> dj + m <= |values[i]|
    ensures |g| == n && forall i :: 0 <= i < n ==> |g[i]| == m
    ensures forall i, j :: 0 <= i < n && 0 <= j < m ==> g[i][j] == values[di + i][dj + j]
  {
    seq(n, i requires 0 <= i < n => values[di + i][dj..dj + m])
  }

  /** Reading any rectangle inside a rectangular block just written gives
      that part of the block. */
  lemma ReadBackPart(cells: Cells, sheet: string, startRow: int, startCol: int, values: Grid, width: nat,
                     di: nat, dj: nat, n: nat, m: nat)
    requires forall i :: 0 <= i < |values| ==> |values[i]| == width
    requires di + n <= |values| && dj + m <= width
    ensures Block(Upsert(cells, sheet, startRow, startCol, values), sheet, startRow + di, startCol + dj, n, m)
              == SubGrid(values, di, dj, n, m)
  {
    var g := Block(Upsert(cells, sheet, startRow, startCol, values), sheet, startRow + di, startCol + dj, n, m);
    var expected := SubGrid(values, di, dj, n, m);
    forall i | 0 <= i < n ensures g[i] == expected[i] {
      forall j | 0 <= j < m ensures g[i][j] == expected[i][j] {
        UpsertLookup(cells, sheet, startRow, startCol, values, CellKey(sheet, startRow + di + i, startCol + dj + j));
      }
    }
  }

  /** A block write only adds keys of its own sheet, so when that sheet is
      listed every key of the result belongs to a listed sheet. */
  lemma UpsertKeepsSheets(cells: Cells, names: seq<string>, sheet: string, startRow: int, startCol: int, values: Grid)
    requires forall k :: k in cells ==> k.sheet in names
    requires sheet in names
    ensures forall k :: k in Upsert(cells, sheet, startRow, startCol, values) ==> k.sheet in names
  {
    forall k | k in Upsert(cells, sheet, startRow, startCol, values) ensures k.sheet in names {
      UpsertLookup(cells, sheet, startRow, startCol, values, k);
    }
  }

  /** A write to one sheet does not change what any other sheet reads. */
  lemma UpsertOtherSheet(cells: Cells, sheet: string, startRow: int, startCol: int, values: Grid,
                         other: string, row: int, col: int)
    requires other != sheet
    ensures CellAt(Upsert(cells, sheet, startRow, startCol, values), other, row, col)
              == CellAt(cells, other, row, col)
  {
    UpsertLookup(cells, sheet, startRow, startCol, values, CellKey(other, row, col));
  }

  /** So any rectangle of another sheet reads the same before and after. */
  lemma UpsertOtherSheetBlock(cells: Cells, sheet: string, startRow: int, startCol: int, values: Grid,
                              other: string, row: int, col: int, numRows: int, numCols: int)
    requires other != sheet
    ensures Block(Upsert(cells, sheet, startRow, startCol, values), other, row, col, numRows, numCols)
              == Block(cells, other, row, col, numRows, numCols)
  {
    var a := Block(Upsert(cells, sheet, startRow, startCol, values), other, row, col, numRows, numCols);
    var b := Block(cells, other, row, col, numRows, numCols);
    forall i | 0 <= i < |a| ensures a[i] == b[i] {
      forall j | 0 <= j < |a[i]| ensures a[i][j] == b[i][j] {
        UpsertOtherSheet(cells, sheet, startRow, startCol, values, other, row + i, col + j);
      }
    }
  }

  /* ---------- deletes ---------- */

  /** The table after `DELETE ... WHERE` the rectangle predicate. */
  function ClearRect(cells: Cells, sheet: string, startRow: int, startCol: int, numRows: int, numCols: int): (r: Cells)
    ensures r.Keys <= cells.Keys
    ensures forall k :: k in r ==> !InRect(k, sheet, startRow, startCol, numRows, numCols) && r[k] == cells[k]
    ensures forall k :: k in cells && !InRect(k, sheet, startRow, startCol, numRows, numCols) ==> k in r
  {
    map k | k in cells && !InRect(k, sheet, startRow, startCol, numRows, numCols) :: cells[k]
  }

  /** After a clear the rectangle reads as blanks. */
  lemma ClearReadsBlank(cells: Cells, sheet: string, startRow: int, startCol: int, numRows: int, numCols: int)
    ensures var g := Block(ClearRect(cells, sheet, startRow, startCol, numRows, numCols),
                           sheet, startRow, startCol, numRows, numCols);
      forall i, j :: 0 <= i < |g| && 0 <= j < |g[i]| ==> g[i][j] == Blank
  {
  }

  /** The table after `DELETE FROM cells WHERE sheet_name = ?`. */
  function WithoutSheet(cells: Cells, sheet: string): (r: Cells)
    ensures forall k :: k in r <==> k in cells && k.sheet != sheet
    ensures forall k :: k in r ==> r[k] == cells[k]
  {
    map k | k in cells && k.sheet != sheet :: cells[k]
  }

  /* ---------- bounds ---------- */

  /** The rows holding a cell of `sheet`. */
  function Rows(cells: Cells, sheet: string): set<int>
  {
    set k | k in cells && k.sheet == sheet :: k.row
  }

  /** The columns holding a cell of `sheet`. */
  function Columns(cells: Cells, sheet: string): set<int>
  {
    set k | k in cells && k.sheet == sheet :: k.col
  }

  /** `MAX(x) ... ?? 0`: the largest element, or 0 for the empty set. */
  ghost predicate IsMaxOrZero(xs: set<int>, m: int)
  {
    if xs == {} then m == 0 else m in xs && forall x :: x in xs ==> x <= m
  }

  /** A set of numbers that is not empty has a member. */
  lemma NonEmptyHasMember(xs: set<int>)
    requires xs != {}
    ensures exists x :: x in xs
  {
    assert (forall x :: x !in xs) ==> xs == {};
  }

  /** A set of cell keys that is not empty has a member. */
  lemma NonEmptyHasKey(ks: set<CellKey>)
    requires ks != {}
    ensures exists k :: k in ks
  {
    assert (forall k :: k !in ks) ==> ks == {};
  }

  /** There is at most one largest element. */
  lemma MaxOrZeroUnique(xs: set<int>, a: int, b: int)
    requires IsMaxOrZero(xs, a) && IsMaxOrZero(xs, b)
    ensures a == b
  {
  }

  ghost function MaxOf(xs: set<int>): (m: int)
    ensures IsMaxOrZero(xs, m)
    decreases xs
  {
    if xs == {} then 0
    else
      NonEmptyHasMember(xs);
      var x :| x in xs;
      var rest := xs - {x};
      if rest == {} then
        assert xs == {x};
        x
      else
        var r := MaxOf(rest);
        assert forall y :: y in xs ==> y == x || y in rest;
        if x > r then x else r
  }

  /** What getLastRow reports for `sheet`. */
  ghost function LastRowOf(cells: Cells, sheet: string): int { MaxOf(Rows(cells, sheet)) }

  /** What getLastColumn reports for `sheet`. */
  ghost function LastColumnOf(cells: Cells, sheet: string): int { MaxOf(Columns(cells, sheet)) }

  /** The aggregate `MAX` scan, with None standing for SQL NULL until a row is
      seen and `?? 0` applied at the end. */
  method MaxOrZero(xs: set<int>) returns (m: int)
    ensures m == MaxOf(xs)
  {
    var best: Option<int> := None;
    var pending := xs;
    while pending != {}
      invariant pending <= xs
      invariant best.None? <==> pending == xs
      invariant best.Some? ==> best.value in xs && forall x :: x in xs - pending ==> x <= best.value
      decreases |pending|
    {
      NonEmptyHasMember(pending);
      var x :| x in pending;
      if best.None? || x > best.value {
        best := Some(x);
      }
      assert forall y :: y in xs - (pending - {x}) ==> y in xs - pending || y == x;
      pending := pending - {x};
    }
    m := best.GetOr(0);
    assert xs - pending == xs;
    MaxOrZeroUnique(xs, m, MaxOf(xs));
  }

  /** A block write adds to a sheet's rows exactly the rows of its non-empty
      value rows. */
  lemma UpsertRows(cells: Cells, sheet: string, startRow: int, startCol: int, values: Grid, r: int)
    ensures r in Rows(Upsert(cells, sheet, startRow, startCol, values), sheet)
            <==> r in Rows(cells, sheet)
                 || (0 <= r - startRow < |values| && |values[r - startRow]| > 0)
  {
    var u := Upsert(cells, sheet, startRow, startCol, values);
    if r in Rows(u, sheet) {
      var k :| k in u && k.sheet == sheet && k.row == r;
      UpsertLookup(cells, sheet, startRow, startCol, values, k);
    }
    if r in Rows(cells, sheet) {
      var k :| k in cells && k.sheet == sheet && k.row == r;
      UpsertLookup(cells, sheet, startRow, startCol, values, k);
    }
    if 0 <= r - startRow < |values| && |values[r - startRow]| > 0 {
      var k := CellKey(sheet, r, startCol);
      UpsertLookup(cells, sheet, startRow, startCol, values, k);
    }
  }

  /** A block write adds to a sheet's columns exactly the columns its rows reach. */
  lemma UpsertColumns(cells: Cells, sheet: string, startRow: int, startCol: int, values: Grid, c: int)
    ensures c in Columns(Upsert(cells, sheet, startRow, startCol, values), sheet)
            <==> c in Columns(cells, sheet)
                 || (exists i :: 0 <= i < |values| && 0 <= c - startCol < |values[i]|)
  {
    var u := Upsert(cells, sheet, startRow, startCol, values);
    if c in Columns(u, sheet) {
      var k :| k in u && k.sheet == sheet && k.col == c;
      UpsertLookup(cells, sheet, startRow, startCol, values, k);
    }
    if c in Columns(cells, sheet) {
      var k :| k in cells && k.sheet == sheet && k.col == c;
      UpsertLookup(cells, sheet, startRow, startCol, values, k);
    }
    if i :| 0 <= i < |values| && 0 <= c - startCol < |values[i]| {
      var k := CellKey(sheet, startRow + i, c);
      UpsertLookup(cells, sheet, startRow, startCol, values, k);
    }
  }

  /** Deleting a sheet's cells leaves it no rows and no columns, so both
      bounds read 0. */
  lemma WithoutSheetBounds(cells: Cells, sheet: string)
    ensures Rows(WithoutSheet(cells, sheet), sheet) == {}
    ensures Columns(WithoutSheet(cells, sheet), sheet) == {}
    ensures LastRowOf(WithoutSheet(cells, sheet), sheet) == 0
    ensures LastColumnOf(WithoutSheet(cells, sheet), sheet) == 0
  {
  }

  /* ---------- sheet names ---------- */

  predicate NoDuplicates(names: seq<string>)
  {
    forall i, j :: 0 <= i < j < |names| ==> names[i] != names[j]
  }

  /** The `sheets` table after `INSERT OR IGNORE`. */
  function AddName(names: seq<string>, name: string): (r: seq<string>)
    ensures name in r && forall x :: x in r <==> x in names || x == name
    ensures NoDuplicates(names) ==> NoDuplicates(r)
    ensures name in names ==> r == names
  {
    if name in names then names else names + [name]
  }

  /** The `sheets` table after `DELETE ... WHERE name = ?`: the other names stay, each once. */
  function RemoveName(names: seq<string>, name: string): (r: seq<string>)
    ensures forall x :: x in r <==> x in names && x != name
    ensures NoDuplicates(names) ==> NoDuplicates(r)
    ensures |r| <= |names|
    ensures name !in names ==> r == names
  {
    if names == [] then []
    else
      var rest := RemoveName(names[1..], name);
      assert names == [names[0]] + names[1..];
      assert NoDuplicates(names) ==> names[0] !in names[1..];
      (if names[0] == name then [] else [names[0]]) + rest
  }

  /* ---------- the driver ---------- */

  /** The SQLite-backed driver: its two tables as fields. */
  class SqliteDriver {
    var sheets: seq<string>
    var cells: Cells

    /** Sheet names are unique (the primary key) and no cell belongs to a
        sheet missing from the `sheets` table. */
    ghost predicate Valid()
      reads this
    {
      NoDuplicates(sheets) && forall k :: k in cells ==> k.sheet in sheets
    }

    /** Opens a new, empty database. */
    constructor ()
      ensures Valid() && sheets == [] && cells == map[]
    {
      sheets := [];
      cells := map[];
    }

    /** getValues: the pre-filled grid, then one assignment per row the range
        query returns. */
    method GetValues(sheetName: string, startRow: int, startCol: int, numRows: int, numCols: int)
      returns (values: Grid)
      ensures values == Block(cells, sheetName, startRow, startCol, numRows, numCols)
    {
      var hits := set k | k in cells && InRect(k, sheetName, startRow, startCol, numRows, numCols);
      values := seq(Extent(numRows), i => seq(Extent(numCols), j => Blank));
      var pending := hits;
      while pending != {}
        invariant pending <= hits
        invariant |values| == Extent(numRows)
        invariant forall i :: 0 <= i < |values| ==> |values[i]| == Extent(numCols)
        invariant forall i, j :: 0 <= i < |values| && 0 <= j < |values[i]| ==>
          values[i][j] == (var k := CellKey(sheetName, startRow + i, startCol + j);
                           if k in hits - pending then cells[k] else Blank)
        decreases |pending|
      {
        NonEmptyHasKey(pending);
        var r :| r in pending;
        var rowIndex := r.row - startRow;
        var colIndex := r.col - startCol;
        values := values[rowIndex := values[rowIndex][colIndex := cells[r]]];
        pending := pending - {r};
      }
      ghost var expected := Block(cells, sheetName, startRow, startCol, numRows, numCols);
      forall i | 0 <= i < |values| ensures values[i] == expected[i] {
        forall j | 0 <= j < |values[i]| ensures values[i][j] == expected[i][j] {
          var k := CellKey(sheetName, startRow + i, startCol + j);
          assert InRect(k, sheetName, startRow, startCol, numRows, numCols);
        }
      }
    }

    /** setValues: make sure the sheet exists, then upsert every entry. */
    method SetValues(sheetName: string, startRow: int, startCol: int, values: Grid)
      requires Valid()
      modifies this
      ensures Valid()
      ensures sheets == AddName(old(sheets), sheetName)
      ensures cells == Upsert(old(cells), sheetName, startRow, startCol, values)
    {
      EnsureSheetExists(sheetName);
      ghost var before := cells;
      for i := 0 to |values|
        invariant sheets == AddName(old(sheets), sheetName)
        invariant cells == Upsert(before, sheetName, startRow, startCol, values[..i])
      {
        UpsertRowStart(before, sheetName, startRow, startCol, values, i);
        for j := 0 to |values[i]|
          invariant sheets == AddName(old(sheets), sheetName)
          invariant cells == Upsert(before, sheetName, startRow, startCol, values[..i] + [values[i][..j]])
        {
          UpsertCellStep(before, sheetName, startRow, startCol, values, i, j);
          cells := cells[CellKey(sheetName, startRow + i, startCol + j) := values[i][j]];
        }
        UpsertRowEnd(before, sheetName, startRow, startCol, values, i);
      }
      assert values[..|values|] == values;
      UpsertKeepsSheets(before, sheets, sheetName, startRow, startCol, values);
    }

    /** getLastRow: `SELECT MAX(row) ... WHERE sheet_name = ?`, or 0. */
    method GetLastRow(sheetName: string) returns (lastRow: int)
      ensures lastRow == LastRowOf(cells, sheetName)
      ensures IsMaxOrZero(Rows(cells, sheetName), lastRow)
    {
      lastRow := MaxOrZero(Rows(cells, sheetName));
    }

    /** getLastColumn: `SELECT MAX(col) ... WHERE sheet_name = ?`, or 0. */
    method GetLastColumn(sheetName: string) returns (lastCol: int)
      ensures lastCol == LastColumnOf(cells, sheetName)
      ensures IsMaxOrZero(Columns(cells, sheetName), lastCol)
    {
      lastCol := MaxOrZero(Columns(cells, sheetName));
    }

    /** addSheet: `INSERT OR IGNORE INTO sheets`. */
    method AddSheet(sheetName: string)
      requires Valid()
      modifies this
      ensures Valid()
      ensures sheets == AddName(old(sheets), sheetName) && cells == old(cells)
    {
      if sheetName !in sheets {
        sheets := sheets + [sheetName];
      }
    }

    /** deleteSheet: in one transaction, the sheet's cells, then its name. */
    method DeleteSheet(sheetName: string)
      requires Valid()
      modifies this
      ensures Valid()
      ensures cells == WithoutSheet(old(cells), sheetName)
      ensures sheets == RemoveName(old(sheets), sheetName)
    {
      cells := WithoutSheet(cells, sheetName);
      sheets := RemoveName(sheets, sheetName);
    }

    /** getSheetNames: the names of the `sheets` table, each once. The query
        has no `ORDER BY`, so no order is promised. */
    method GetSheetNames() returns (names: seq<string>)
      requires Valid()
      ensures |names| == |sheets| && NoDuplicates(names)
      ensures forall x :: x in names <==> x in sheets
    {
      names := sheets;
    }

    /** clear: `DELETE FROM cells WHERE` the rectangle predicate. */
    method Clear(sheetName: string, startRow: int, startCol: int, numRows: int, numCols: int)
      requires Valid()
      modifies this
      ensures Valid()
      ensures cells == ClearRect(old(cells), sheetName, startRow, startCol, numRows, numCols)
      ensures sheets == old(sheets)
    {
      cells := ClearRect(cells, sheetName, startRow, startCol, numRows, numCols);
    }

    /** ensureSheetExists: addSheet under another name. */
    method EnsureSheetExists(sheetName: string)
      requires Valid()
      modifies this
      ensures Valid()
      ensures sheets == AddName(old(sheets), sheetName) && cells == old(cells)
    {
      AddSheet(sheetName);
    }
  }
}
