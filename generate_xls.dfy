/**
 The converter: reads the rows of a decoded JSON document, refuses an empty
 table, writes every cell's text into a fresh sheet "Sheet1" at its zero-based
 (row index, column index) in row-major order, saves the workbook and reports
 the number of rows.
 */
module GenerateXls {
  import opened Cells
  import opened Workbooks

  type Row = seq<Cell>

  /** The JSON value stored under the "rows" key: null, or an array of rows. */
  datatype RowsValue = JsonNull | Array(rows: seq<Row>)

  /** The decoded document; only its "rows" key is read (None: the key is absent). */
  datatype Document = Document(rows: Option<RowsValue>)

  /** NoRows is the "no rows in input data" failure; Generated carries the reported row count. */
  datatype Outcome = NoRows | Generated(rowCount: nat)

  /**
   The rows value, with an absent key read as an empty array: the table is
   empty exactly when the key is absent or its own value is empty.
   */
  function RowsOf(doc: Document): (v: RowsValue)
    ensures IsEmpty(v) <==> doc.rows.None? || IsEmpty(doc.rows.value)
    ensures doc.rows.Some? ==> v == doc.rows.value
  {
    match doc.rows
    case None => Array([])
    case Some(v) => v
  }

  /** Python's `not rows`: null and the empty array are both false. */
  predicate IsEmpty(v: RowsValue)
    ensures !IsEmpty(v) ==> v.Array? && |v.rows| > 0
  {
    v.JsonNull? || v.rows == []
  }

  /** The cells row `r` contributes to the sheet. */
  function RowGrid(r: nat, row: Row): map<Coord, string>
    decreases |row|
  {
    if row == [] then map[]
    else RowGrid(r, row[..|row| - 1])[(r, |row| - 1) := Normalise(row[|row| - 1])]
  }

  /** The sheet a table of rows should produce. */
  function Grid(rows: seq<Row>): map<Coord, string>
    decreases |rows|
  {
    if rows == [] then map[]
    else Grid(rows[..|rows| - 1]) + RowGrid(|rows| - 1, rows[|rows| - 1])
  }

  /** The positions (r, 0), ..., (r, n - 1) in order. */
  function RowCoords(r: nat, n: nat): seq<Coord> {
    if n == 0 then [] else RowCoords(r, n - 1) + [(r, n - 1)]
  }

  /** The positions of a table in the order the nested loops visit them. */
  function Coords(rows: seq<Row>): seq<Coord>
    decreases |rows|
  {
    if rows == [] then []
    else Coords(rows[..|rows| - 1]) + RowCoords(|rows| - 1, |rows[|rows| - 1]|)
  }

  /** Row-major order on positions. */
  predicate Before(p: Coord, q: Coord) {
    p.0 < q.0 || (p.0 == q.0 && p.1 < q.1)
  }

  /** A row fills exactly its own positions, each with its cell's text. */
  lemma {:induction false} RowGridAt(r: nat, row: Row, p: Coord)
    ensures p in RowGrid(r, row) <==> p.0 == r && p.1 < |row|
    ensures p in RowGrid(r, row) ==> RowGrid(r, row)[p] == Normalise(row[p.1])
    decreases |row|
  {
    if row != [] {
      var init := row[..|row| - 1];
      RowGridAt(r, init, p);
      if p.1 < |init| {
        assert row[p.1] == init[p.1];
      }
    }
  }

  /**
   The sheet holds a cell exactly at the positions the table has (ragged rows
   are not padded), and each holds the normalised text of its input cell.
   */
  lemma {:induction false} GridAt(rows: seq<Row>, p: Coord)
    ensures p in Grid(rows) <==> p.0 < |rows| && p.1 < |rows[p.0]|
    ensures p in Grid(rows) ==> Grid(rows)[p] == Normalise(rows[p.0][p.1])
    decreases |rows|
  {
    if rows != [] {
      var init := rows[..|rows| - 1];
      GridAt(init, p);
      RowGridAt(|rows| - 1, rows[|rows| - 1], p);
      if p.0 < |init| {
        assert rows[p.0] == init[p.0];
      }
    }
  }

  lemma {:induction false} RowCoordsAt(r: nat, n: nat)
    ensures |RowCoords(r, n)| == n
    ensures forall k | 0 <= k < n :: RowCoords(r, n)[k] == (r, k)
  {
    if n > 0 {
      RowCoordsAt(r, n - 1);
    }
  }

  /** The loops visit exactly the positions the table has. */
  lemma {:induction false} CoordsAt(rows: seq<Row>, p: Coord)
    ensures p in Coords(rows) <==> p.0 < |rows| && p.1 < |rows[p.0]|
    decreases |rows|
  {
    if rows != [] {
      var init := rows[..|rows| - 1];
      var last := |rows| - 1;
      CoordsAt(init, p);
      RowCoordsAt(last, |rows[last]|);
      if p.0 == last && p.1 < |rows[last]| {
        assert RowCoords(last, |rows[last]|)[p.1] == p;
      }
      if p.0 < |init| {
        assert rows[p.0] == init[p.0];
      }
    }
  }

  /** The loops visit positions in strictly increasing row-major order. */
  lemma {:induction false} CoordsRowMajor(rows: seq<Row>)
    ensures forall i, j | 0 <= i < j < |Coords(rows)| :: Before(Coords(rows)[i], Coords(rows)[j])
    decreases |rows|
  {
    if rows != [] {
      var init := rows[..|rows| - 1];
      var last := |rows| - 1;
      var front := Coords(init);
      var back := RowCoords(last, |rows[last]|);
      CoordsRowMajor(init);
      RowCoordsAt(last, |rows[last]|);
      assert Coords(rows) == front + back;
      forall i | 0 <= i < |front|
        ensures front[i].0 < last
      {
        CoordsAt(init, front[i]);
      }
    }
  }

  /** No position is visited twice. */
  lemma CoordsNoDuplicates(rows: seq<Row>)
    ensures NoDuplicates(Coords(rows))
  {
    CoordsRowMajor(rows);
  }

  /** The number of cells in a table, summed row by row. */
  function CellCount(rows: seq<Row>): nat
    decreases |rows|
  {
    if rows == [] then 0 else CellCount(rows[..|rows| - 1]) + |rows[|rows| - 1]|
  }

  /** The loops make one write per input cell. */
  lemma {:induction false} CoordsLength(rows: seq<Row>)
    ensures |Coords(rows)| == CellCount(rows)
    decreases |rows|
  {
    if rows != [] {
      CoordsLength(rows[..|rows| - 1]);
      RowCoordsAt(|rows| - 1, |rows[|rows| - 1]|);
    }
  }

  /**
   Writing cell c of row r onto a sheet that holds earlier rows and the first
   c cells of row r: the position is still empty, and the write extends the
   row's cells by exactly that position.
   */
  lemma RowGridStep(r: nat, row: Row, c: nat, base: map<Coord, string>, cells: map<Coord, string>)
    requires c < |row|
    requires forall p | p in base :: p.0 < r
    requires cells == base + RowGrid(r, row[..c])
    ensures (r, c) !in cells
    ensures base + RowGrid(r, row[..c + 1]) == cells[(r, c) := Normalise(row[c])]
  {
    RowGridAt(r, row[..c], (r, c));
    assert row[..c + 1][..c] == row[..c];
  }

  /** One more row extends the table's cells and positions by that row's. */
  lemma GridStep(rows: seq<Row>, r: nat)
    requires r < |rows|
    ensures Grid(rows[..r + 1]) == Grid(rows[..r]) + RowGrid(r, rows[r])
    ensures Coords(rows[..r + 1]) == Coords(rows[..r]) + RowCoords(r, |rows[r]|)
  {
    assert rows[..r + 1][..r] == rows[..r];
  }

  /**
   The inner loop: writes every cell of row `r`, left to right, at (r, column
   index). The sheet must hold nothing of row `r` yet, so no write is refused.
   */
  method WriteRow(sheet: Sheet, r: nat, row: Row)
    requires sheet.Valid()
    requires forall p | p in sheet.cells :: p.0 < r
    modifies sheet
    ensures sheet.Valid()
    ensures sheet.cells == old(sheet.cells) + RowGrid(r, row)
    ensures sheet.written == old(sheet.written) + RowCoords(r, |row|)
  {
    ghost var cells0, written0 := sheet.cells, sheet.written;
    for c := 0 to |row|
      invariant sheet.Valid()
      invariant sheet.cells == cells0 + RowGrid(r, row[..c])
      invariant sheet.written == written0 + RowCoords(r, c)
    {
      RowGridStep(r, row, c, cells0, sheet.cells);
      var ok := sheet.Write(r, c, Normalise(row[c]));
      assert ok;
      assert written0 + RowCoords(r, c + 1) == (written0 + RowCoords(r, c)) + [(r, c)];
    }
    assert row[..|row|] == row;
  }

  /**
   Converts a decoded document. A missing, null or empty "rows" value fails
   with NoRows and creates no workbook. Otherwise every cell is written once,
   in row-major order, into a fresh sheet "Sheet1", the workbook is saved after
   the last write, and the number of rows is reported.
   */
  method Generate(doc: Document) returns (outcome: Outcome, workbook: Workbook?)
    // A missing "rows" key is the same failure as an empty one; the next
    // clause implies this, which is stated here on its own on purpose.
    ensures doc.rows.None? ==> outcome == NoRows && workbook == null
    ensures IsEmpty(RowsOf(doc)) ==> outcome == NoRows && workbook == null
    ensures !IsEmpty(RowsOf(doc)) ==> outcome == Generated(|RowsOf(doc).rows|)
    ensures !IsEmpty(RowsOf(doc)) ==>
      && workbook != null && fresh(workbook)
      && |workbook.sheets| == 1 && fresh(workbook.sheets[0])
      && workbook.sheets[0].Valid()
      && workbook.sheets[0].name == "Sheet1"
      && workbook.sheets[0].cells == Grid(RowsOf(doc).rows)
      && workbook.sheets[0].written == Coords(RowsOf(doc).rows)
      && workbook.saved == Some([("Sheet1", Grid(RowsOf(doc).rows))])
  {
    var value := RowsOf(doc);
    if IsEmpty(value) {
      return NoRows, null;
    }
    var rows := value.rows;
    workbook := new Workbook();
    var sheet := workbook.AddSheet("Sheet1");
    for r := 0 to |rows|
      invariant workbook.sheets == [sheet] && workbook.saved == None
      invariant sheet.Valid() && sheet.name == "Sheet1"
      invariant sheet.cells == Grid(rows[..r])
      invariant sheet.written == Coords(rows[..r])
    {
      forall p | p in sheet.cells
        ensures p.0 < r
      {
        GridAt(rows[..r], p);
      }
      WriteRow(sheet, r, rows[r]);
      GridStep(rows, r);
    }
    assert rows[..|rows|] == rows;
    workbook.Save();
    assert workbook.Snapshot() == [(sheet.name, sheet.cells)];
    outcome := Generated(|rows|);
  }
}
