/** The fixed 10x20 grid: collision test, merge, line clearing and the row a
    bomb removes. */
module Board {
  import opened Shapes

  const COLS: int := 10
  const ROWS: int := 20

  /** A grid cell is empty or holds the kind of the piece that filled it. */
  datatype Cell = Empty | Block(kind: Kind)

  type Row = seq<Cell>
  type Grid = seq<Row>

  /** The grid has ROWS rows of COLS cells each; row 0 is the top. */
  predicate WellFormed(g: Grid) {
    |g| == ROWS && forall y | 0 <= y < |g| :: |g[y]| == COLS
  }

  /** Every row has COLS cells (the row count is left free). */
  predicate RowsWellFormed(rows: Grid) {
    forall y | 0 <= y < |rows| :: |rows[y]| == COLS
  }

  function EmptyRow(): (row: Row)
    ensures |row| == COLS
    ensures forall x | 0 <= x < |row| :: row[x] == Empty
  {
    seq(COLS, _ => Empty)
  }

  function EmptyRows(n: nat): (rows: Grid)
    ensures |rows| == n
    ensures forall y | 0 <= y < n :: rows[y] == EmptyRow()
  {
    seq(n, _ => EmptyRow())
  }

  /** The grid every game starts from: ROWS x COLS empty cells. */
  function CreateMatrix(): (g: Grid)
    ensures WellFormed(g)
    ensures forall y, x | 0 <= y < ROWS && 0 <= x < COLS :: g[y][x] == Empty
    ensures NoFullRow(g)
  {
    EmptyRowNotFull();
    EmptyRows(ROWS)
  }

  // ---------------------------------------------------------------------------
  // Collision

  /** Whether a piece cell at grid position (gx, gy) is stopped: it is off either
      side, at or below the floor, or on a filled cell. Rows above the top
      are open as long as the column is in range. */
  predicate Blocked(g: Grid, gx: int, gy: int)
    requires WellFormed(g)
  {
    gx < 0 || gx >= COLS || gy >= ROWS || (gy >= 0 && g[gy][gx] != Empty)
  }

  /** Local cell (dy, dx) of the piece is occupied and stopped. */
  predicate Hits(p: Piece, g: Grid, dy: int, dx: int)
    requires WellFormed(g)
  {
    Occupied(p, dy, dx) && Blocked(g, p.x + dx, p.y + dy)
  }

  /** The inner loop of the collision scan: columns dx..3 of box row dy. */
  function CollidesRow(p: Piece, g: Grid, dy: int, dx: nat): (r: bool)
    requires WellFormed(g)
    requires dx <= 4
    decreases 4 - dx
    ensures r <==> exists c :: dx <= c && Hits(p, g, dy, c)
  {
    if dx == 4 then false
    else if Occupied(p, dy, dx) && Blocked(g, p.x + dx, p.y + dy) then
      assert Hits(p, g, dy, dx);
      true
    else CollidesRow(p, g, dy, dx + 1)
  }

  /** The outer loop of the collision scan: box rows dy..3. */
  function CollidesFrom(p: Piece, g: Grid, dy: nat): (r: bool)
    requires WellFormed(g)
    requires dy <= 4
    decreases 4 - dy
    ensures r <==> exists r', c :: dy <= r' && Hits(p, g, r', c)
  {
    if dy == 4 then false
    else CollidesRow(p, g, dy, 0) || CollidesFrom(p, g, dy + 1)
  }

  /** Whether the piece overlaps a wall, the floor or a filled cell: some
      occupied cell of its box is blocked. */
  predicate Collides(p: Piece, g: Grid)
    requires WellFormed(g)
  {
    exists dy, dx | 0 <= dy < 4 && 0 <= dx < 4 :: Hits(p, g, dy, dx)
  }

  /** The collision scan as written: box rows 0..3, columns 0..3, returning on
      the first occupied cell that is off either side, at or below the floor,
      or on a filled cell. It answers exactly Collides. */
  function CollidesScan(p: Piece, g: Grid): (r: bool)
    requires WellFormed(g)
    ensures r == Collides(p, g)
  {
    ScanFindsHit(p, g);
    CollidesFrom(p, g, 0)
  }

  lemma ScanFindsHit(p: Piece, g: Grid)
    requires WellFormed(g)
    ensures CollidesFrom(p, g, 0) == Collides(p, g)
  {
    if CollidesFrom(p, g, 0) {
      var dy, dx :| 0 <= dy && Hits(p, g, dy, dx);
      assert Occupied(p, dy, dx);
      assert 0 <= dy < 4 && 0 <= dx < 4;
    }
  }

  /** A cell above the top never collides by itself: a piece cell landing on an
      in-range column and a negative row is not stopped, whatever the grid. */
  lemma AboveTopIsFree(p: Piece, g: Grid, dy: int, dx: int)
    requires WellFormed(g)
    requires 0 <= p.x + dx < COLS && p.y + dy < 0
    ensures !Hits(p, g, dy, dx)
  {
  }

  /** A piece whose box starts at or below the floor always collides. */
  lemma FloorCollides(p: Piece, g: Grid)
    requires WellFormed(g)
    ensures p.y >= ROWS ==> Collides(p, g)
  {
    if p.y >= ROWS {
      var dy, dx := HasCell(p);
      assert Hits(p, g, dy, dx);
    }
  }

  // ---------------------------------------------------------------------------
  // Merge

  /** The piece covers grid position (gx, gy). */
  predicate Covers(p: Piece, gx: int, gy: int) {
    Occupied(p, gy - p.y, gx - p.x)
  }

  /** Grid g with cell (gx, gy) set to v. */
  function Write(g: Grid, gx: int, gy: int, v: Cell): (r: Grid)
    requires WellFormed(g)
    requires 0 <= gy < ROWS && 0 <= gx < COLS
    ensures WellFormed(r)
    ensures forall y, x | 0 <= y < ROWS && 0 <= x < COLS ::
      r[y][x] == if y == gy && x == gx then v else g[y][x]
  {
    g[gy := g[gy][gx := v]]
  }

  /** The inner loop of the merge: columns dx..3 of box row dy. */
  function MergeRow(p: Piece, g: Grid, dy: int, dx: nat): (r: Grid)
    requires WellFormed(g)
    requires dx <= 4
    decreases 4 - dx
    ensures WellFormed(r)
    ensures forall gy, gx | 0 <= gy < ROWS && 0 <= gx < COLS ::
      r[gy][gx] == if gy - p.y == dy && dx <= gx - p.x && Covers(p, gx, gy) then Block(p.kind) else g[gy][gx]
  {
    if dx == 4 then g
    else
      var gx, gy := p.x + dx, p.y + dy;
      var g' := if Occupied(p, dy, dx) && 0 <= gy < ROWS && 0 <= gx < COLS
        then Write(g, gx, gy, Block(p.kind)) else g;
      var r := MergeRow(p, g', dy, dx + 1);
      MergeRowStep(p, g, g', r, dy, dx);
      r
  }

  /** One column of the inner loop: the cell (dx, dy) written into g' and the
      rest of the row written into r add up to columns dx..3 written into g. */
  lemma MergeRowStep(p: Piece, g: Grid, g': Grid, r: Grid, dy: int, dx: nat)
    requires WellFormed(g) && WellFormed(g') && WellFormed(r)
    requires dx < 4
    requires forall y, x | 0 <= y < ROWS && 0 <= x < COLS ::
      g'[y][x] == if y == p.y + dy && x == p.x + dx && Occupied(p, dy, dx) then Block(p.kind) else g[y][x]
    requires forall y, x | 0 <= y < ROWS && 0 <= x < COLS ::
      r[y][x] == if y - p.y == dy && dx + 1 <= x - p.x && Covers(p, x, y) then Block(p.kind) else g'[y][x]
    ensures forall y, x | 0 <= y < ROWS && 0 <= x < COLS ::
      r[y][x] == if y - p.y == dy && dx <= x - p.x && Covers(p, x, y) then Block(p.kind) else g[y][x]
  {
  }

  /** The outer loop of the merge: box rows dy..3. */
  function MergeFrom(p: Piece, g: Grid, dy: nat): (r: Grid)
    requires WellFormed(g)
    requires dy <= 4
    decreases 4 - dy
    ensures WellFormed(r)
    ensures forall gy, gx | 0 <= gy < ROWS && 0 <= gx < COLS ::
      r[gy][gx] == if dy <= gy - p.y && Covers(p, gx, gy) then Block(p.kind) else g[gy][gx]
  {
    if dy == 4 then g
    else MergeFrom(p, MergeRow(p, g, dy, 0), dy + 1)
  }

  /** The grid with the piece's kind written into every in-grid cell it
      covers; covered cells above the top are dropped. */
  function Merge(p: Piece, g: Grid): (r: Grid)
    requires WellFormed(g)
    ensures WellFormed(r)
  {
    seq(ROWS, gy requires 0 <= gy < ROWS =>
      seq(COLS, gx requires 0 <= gx < COLS =>
        if Covers(p, gx, gy) then Block(p.kind) else g[gy][gx]))
  }

  /** The merge as written: box rows 0..3, columns 0..3, writing the kind into
      each occupied cell that lies inside the grid. Exactly the covered cells
      change, and they take the piece's kind. */
  function MergeScan(p: Piece, g: Grid): (r: Grid)
    requires WellFormed(g)
    ensures WellFormed(r)
    ensures forall gy, gx | 0 <= gy < ROWS && 0 <= gx < COLS ::
      r[gy][gx] == if Covers(p, gx, gy) then Block(p.kind) else g[gy][gx]
    ensures r == Merge(p, g)
  {
    var r := MergeFrom(p, g, 0);
    MergeExtensional(p, g, r);
    r
  }

  /** A well-formed grid agreeing with the merge cell by cell is the merge. */
  lemma MergeExtensional(p: Piece, g: Grid, r: Grid)
    requires WellFormed(g) && WellFormed(r)
    requires forall gy, gx | 0 <= gy < ROWS && 0 <= gx < COLS ::
      r[gy][gx] == if Covers(p, gx, gy) then Block(p.kind) else g[gy][gx]
    ensures r == Merge(p, g)
  {
    var m := Merge(p, g);
    forall gy | 0 <= gy < ROWS
      ensures r[gy] == m[gy]
    {
      assert forall gx | 0 <= gx < COLS :: r[gy][gx] == m[gy][gx];
    }
  }

  /** After a merge the piece can no longer be placed where it was, as long as
      one of its cells landed inside the grid. */
  lemma MergedPieceCollides(p: Piece, g: Grid, dy: int, dx: int)
    requires WellFormed(g)
    requires Occupied(p, dy, dx)
    requires 0 <= p.y + dy < ROWS && 0 <= p.x + dx < COLS
    ensures Collides(p, Merge(p, g))
  {
    var m := Merge(p, g);
    assert Covers(p, p.x + dx, p.y + dy);
    assert Hits(p, m, dy, dx);
  }

  // ---------------------------------------------------------------------------
  // Line clearing

  /** Every cell of the row is filled. */
  predicate IsFull(row: Row) {
    forall x | 0 <= x < |row| :: row[x] != Empty
  }

  predicate NoFullRow(rows: Grid) {
    forall y | 0 <= y < |rows| :: !IsFull(rows[y])
  }

  /** Number of full rows. */
  function FullCount(rows: Grid): nat {
    if |rows| == 0 then 0
    else (if IsFull(rows[0]) then 1 else 0) + FullCount(rows[1..])
  }

  /** The rows that are not full, in their original order. */
  function Survivors(rows: Grid): Grid {
    if |rows| == 0 then []
    else (if IsFull(rows[0]) then [] else [rows[0]]) + Survivors(rows[1..])
  }

  lemma {:induction false} FullCountAppend(a: Grid, b: Grid)
    ensures FullCount(a + b) == FullCount(a) + FullCount(b)
  {
    if |a| == 0 {
      assert a + b == b;
    } else {
      assert (a + b)[1..] == a[1..] + b;
      FullCountAppend(a[1..], b);
    }
  }

  lemma {:induction false} SurvivorsAppend(a: Grid, b: Grid)
    ensures Survivors(a + b) == Survivors(a) + Survivors(b)
  {
    if |a| == 0 {
      assert a + b == b;
    } else {
      var ab := a + b;
      assert ab[0] == a[0] && ab[1..] == a[1..] + b;
      var head := if IsFull(a[0]) then [] else [a[0]];
      assert Survivors(ab) == head + Survivors(a[1..] + b);
      assert Survivors(a) == head + Survivors(a[1..]);
      SurvivorsAppend(a[1..], b);
    }
  }

  /** Survivors keeps exactly the rows FullCount does not count, none of them
      full and all of them taken from the input. */
  lemma {:induction false} SurvivorsShape(rows: Grid)
    ensures |Survivors(rows)| + FullCount(rows) == |rows|
    ensures NoFullRow(Survivors(rows))
    ensures RowsWellFormed(rows) ==> RowsWellFormed(Survivors(rows))
  {
    if |rows| > 0 {
      SurvivorsShape(rows[1..]);
    }
  }

  /** A grid without full rows is its own list of survivors. */
  lemma {:induction false} SurvivorsOfNoFull(rows: Grid)
    requires NoFullRow(rows)
    ensures Survivors(rows) == rows
    ensures FullCount(rows) == 0
  {
    if |rows| > 0 {
      assert !IsFull(rows[0]);
      SurvivorsOfNoFull(rows[1..]);
    }
  }

  lemma EmptyRowNotFull()
    ensures !IsFull(EmptyRow())
  {
    assert EmptyRow()[0] == Empty;
  }

  /** The grid and the number of rows removed by a line clear. */
  datatype Cleared = Cleared(grid: Grid, count: nat)

  /** One step of the bottom-up scan at row y: what it does to the not yet
      scanned rows 0..y. */
  lemma ScanStep(g: Grid, y: int)
    requires 0 <= y < |g|
    ensures FullCount(g[..y+1]) == FullCount(g[..y]) + (if IsFull(g[y]) then 1 else 0)
    ensures Survivors(g[..y+1]) == Survivors(g[..y]) + (if IsFull(g[y]) then [] else [g[y]])
    ensures FullCount([EmptyRow()] + g[..y]) == FullCount(g[..y])
    ensures Survivors([EmptyRow()] + g[..y]) == [EmptyRow()] + Survivors(g[..y])
  {
    assert g[..y+1] == g[..y] + [g[y]];
    FullCountAppend(g[..y], [g[y]]);
    SurvivorsAppend(g[..y], [g[y]]);
    assert [g[y]][1..] == [];
    EmptyRowNotFull();
    assert ([EmptyRow()] + g[..y])[1..] == g[..y];
  }

  /** A full row at y is spliced out and an empty row put on top: the rows
      still to scan lose one full row, and once they are cleared the result
      is what clearing the original rows 0..y gives. */
  lemma SpliceStep(g: Grid, y: int, n: nat)
    requires 0 <= y < |g| && IsFull(g[y])
    ensures var g' := [EmptyRow()] + g[..y] + g[y+1..];
      && |g'| == |g|
      && FullCount(g'[..y+1]) + 1 == FullCount(g[..y+1])
      && EmptyRows(n) + Survivors(g'[..y+1]) + g'[y+1..]
         == EmptyRows(n + 1) + Survivors(g[..y+1]) + g[y+1..]
  {
    var g' := [EmptyRow()] + g[..y] + g[y+1..];
    assert g'[..y+1] == [EmptyRow()] + g[..y];
    assert g'[y+1..] == g[y+1..];
    ScanStep(g, y);
    assert EmptyRows(n) + [EmptyRow()] == EmptyRows(n + 1);
  }

  /** A row at y that is not full stays where it is and the scan moves up. */
  lemma KeepStep(g: Grid, y: int, n: nat)
    requires 0 <= y < |g| && !IsFull(g[y])
    ensures FullCount(g[..y]) == FullCount(g[..y+1])
    ensures EmptyRows(n) + Survivors(g[..y]) + g[y..]
         == EmptyRows(n) + Survivors(g[..y+1]) + g[y+1..]
  {
    ScanStep(g, y);
    assert g[y..] == [g[y]] + g[y+1..];
  }

  /** The scan as written: from row y upwards, a full row is spliced out, an
      empty row is put on top and the same index is examined again; any other
      row moves the scan one row up. Rows below y are already final. */
  function ClearScan(g: Grid, y: int): (c: Cleared)
    requires -1 <= y < |g|
    decreases y + 1, FullCount(g[..y+1])
    ensures c.count == FullCount(g[..y+1])
    ensures c.grid == EmptyRows(c.count) + Survivors(g[..y+1]) + g[y+1..]
  {
    if y < 0 then
      Cleared(g, 0)
    else if IsFull(g[y]) then
      var g' := [EmptyRow()] + g[..y] + g[y+1..];
      SpliceStep(g, y, FullCount(g'[..y+1]));
      var c := ClearScan(g', y);
      Cleared(c.grid, c.count + 1)
    else
      KeepStep(g, y, FullCount(g[..y]));
      ClearScan(g, y - 1)
  }

  /** Removes every full row and reports how many there were: the grid keeps
      its size and is left without a full row. */
  function ClearLines(g: Grid): (c: Cleared)
    requires WellFormed(g)
    ensures c.count == FullCount(g)
    ensures WellFormed(c.grid)
    ensures NoFullRow(c.grid)
  {
    SurvivorsShape(g);
    EmptyRowNotFull();
    var n := FullCount(g);
    Cleared(EmptyRows(n) + Survivors(g), n)
  }

  /** The scan as written, from the bottom row with nothing cleared yet: it
      computes ClearLines, that is the rows that are not full keep their
      order at the bottom, under one empty row per full row removed. */
  function ClearLinesScan(g: Grid): (c: Cleared)
    requires WellFormed(g)
    ensures c.grid == EmptyRows(FullCount(g)) + Survivors(g)
    ensures c == ClearLines(g)
  {
    assert g[..ROWS] == g;
    assert g[ROWS..] == [];
    ClearScan(g, ROWS - 1)
  }

  /** Clearing a grid without full rows changes nothing, so clearing twice is
      the same as clearing once. */
  lemma ClearLinesIdempotent(g: Grid)
    requires WellFormed(g)
    ensures NoFullRow(g) ==> ClearLines(g) == Cleared(g, 0)
    ensures ClearLines(ClearLines(g).grid) == Cleared(ClearLines(g).grid, 0)
  {
    if NoFullRow(g) {
      SurvivorsOfNoFull(g);
    }
    SurvivorsOfNoFull(ClearLines(g).grid);
  }

  // ---------------------------------------------------------------------------
  // The bomb's row

  /** Number of filled cells in a row. */
  function FilledCount(row: Row): nat {
    if |row| == 0 then 0
    else (if row[0] != Empty then 1 else 0) + FilledCount(row[1..])
  }

  /** b is the row with the most filled cells, the topmost one among equals. */
  predicate IsFullestRow(g: Grid, b: int) {
    && 0 <= b < |g|
    && (forall i | 0 <= i < |g| :: FilledCount(g[i]) <= FilledCount(g[b]))
    && (forall i | 0 <= i < b :: FilledCount(g[i]) < FilledCount(g[b]))
  }

  /** The scan as written: rows y.. remain, best and bestCount are the running
      choice (bestCount starts below every count, so row 0 is taken first),
      and a row replaces the choice only with a strictly larger count. */
  function FullestFrom(g: Grid, y: nat, best: nat, bestCount: int): (b: nat)
    requires y <= |g|
    requires y == 0 ==> best == 0 && bestCount == -1
    requires y > 0 ==> best < y && bestCount == FilledCount(g[best])
    requires forall i | 0 <= i < y :: FilledCount(g[i]) <= bestCount
    requires forall i | 0 <= i < best :: FilledCount(g[i]) < bestCount
    decreases |g| - y
    ensures |g| > 0 ==> IsFullestRow(g, b)
  {
    if y == |g| then best
    else
      var count := FilledCount(g[y]);
      if count > bestCount then FullestFrom(g, y + 1, y, count)
      else FullestFrom(g, y + 1, best, bestCount)
  }

  /** The row a bomb removes. */
  function FullestRow(g: Grid): (b: nat)
    requires WellFormed(g)
    ensures IsFullestRow(g, b)
  {
    FullestFrom(g, 0, 0, -1)
  }

  /** Only one row satisfies the tie-breaking rule, so the scan's answer is
      the one and only fullest row. */
  lemma FullestRowUnique(g: Grid, b: int)
    requires WellFormed(g)
    ensures IsFullestRow(g, b) <==> b == FullestRow(g)
  {
  }

  /** Splices out row b and puts an empty row on top. */
  function RemoveRow(g: Grid, b: int): (r: Grid)
    requires WellFormed(g)
    requires 0 <= b < ROWS
    ensures WellFormed(r)
    ensures r[0] == EmptyRow()
    ensures forall i | 0 <= i < b :: r[i + 1] == g[i]
    ensures forall i | b < i < ROWS :: r[i] == g[i]
  {
    [EmptyRow()] + g[..b] + g[b+1..]
  }

  /** Total number of filled cells. */
  function TotalFilled(rows: Grid): nat {
    if |rows| == 0 then 0 else FilledCount(rows[0]) + TotalFilled(rows[1..])
  }

  lemma {:induction false} TotalFilledAppend(a: Grid, b: Grid)
    ensures TotalFilled(a + b) == TotalFilled(a) + TotalFilled(b)
  {
    if |a| == 0 {
      assert a + b == b;
    } else {
      assert (a + b)[1..] == a[1..] + b;
      TotalFilledAppend(a[1..], b);
    }
  }

  lemma {:induction false} EmptyRowFilledCount(row: Row)
    requires forall x | 0 <= x < |row| :: row[x] == Empty
    ensures FilledCount(row) == 0
  {
    if |row| > 0 {
      EmptyRowFilledCount(row[1..]);
    }
  }

  /** The filled cells of a + [row] + c, counted part by part. */
  lemma TotalFilledAround(a: Grid, row: Row, c: Grid)
    ensures TotalFilled(a + [row] + c) == TotalFilled(a) + FilledCount(row) + TotalFilled(c)
  {
    TotalFilledAppend(a + [row], c);
    TotalFilledAppend(a, [row]);
    assert [row][1..] == [];
  }

  /** Taking row b out and putting an empty row on top takes away exactly
      row b's filled cells. */
  lemma TotalFilledRemoved(g: Grid, b: nat)
    requires b < |g|
    ensures TotalFilled([EmptyRow()] + g[..b] + g[b+1..]) == TotalFilled(g) - FilledCount(g[b])
  {
    var a, c := g[..b], g[b+1..];
    assert g == a + [g[b]] + c;
    TotalFilledAround(a, g[b], c);
    var e := [EmptyRow()];
    TotalFilledAppend(e + a, c);
    TotalFilledAppend(e, a);
    assert e[1..] == [];
    EmptyRowFilledCount(EmptyRow());
  }

  /** Removing a row takes away exactly that row's filled cells. */
  lemma RemoveRowFilled(g: Grid, b: int)
    requires WellFormed(g)
    requires 0 <= b < ROWS
    ensures TotalFilled(RemoveRow(g, b)) == TotalFilled(g) - FilledCount(g[b])
  {
    TotalFilledRemoved(g, b);
  }
}
