/** The game state record and the commands that drive it: spawn, move,
    rotate with kicks, soft and hard drop, lock and score, bomb, one gravity
    step and restart. */
module Engine {
  import opened Shapes
  import opened Board
  import opened Bag
  import opened Scoring

  datatype Option<T> = None | Some(value: T)

  /** The whole game. `bag` is what remains of the randomiser's current bag;
      `nextType` is the kind the next spawn uses. */
  datatype State = State(
    grid: Grid,
    current: Piece,
    nextType: Kind,
    bag: seq<Kind>,
    score: nat,
    lines: nat,
    level: nat,
    energy: nat,
    bombs: nat,
    running: bool,
    dropCounter: int,
    dropInterval: nat)

  /** Spawn position: the box centred horizontally, one row above the top. */
  const SPAWN_X: int := (COLS - 4) / 2
  const SPAWN_Y: int := -1

  /** Horizontal offsets a rotation tries, in order. */
  const Kicks: seq<int> := [0, 1, -1, 2, -2]

  /** What every reachable state satisfies. */
  predicate Inv(s: State) {
    && WellFormed(s.grid)
    && NoFullRow(s.grid)
    && IsPartialBag(s.bag)
    && s.level == LevelFor(s.lines)
    && s.energy < ENERGY_PER_BOMB
    && s.bombs <= MAX_BOMBS
    && s.dropInterval == DropIntervalFor(s.level)
  }

  /** While the game runs, the active piece overlaps nothing. */
  predicate Fits(s: State)
    requires WellFormed(s.grid)
  {
    s.running ==> !Collides(s.current, s.grid)
  }

  /** The randomiser can produce a value: the bag is not empty, or the shuffled
      copy it would be refilled with is a permutation of the seven kinds. */
  predicate CanDraw(s: State, refill: seq<Kind>) {
    |s.bag| > 0 || IsFullBag(refill)
  }

  function SpawnPiece(s: State, refill: seq<Kind>): (r: State)
    requires WellFormed(s.grid)
    requires CanDraw(s, refill)
    ensures r.current == Piece(s.nextType, 0, SPAWN_X, SPAWN_Y)
    ensures (r.nextType, r.bag) == Draw(s.bag, refill)
    ensures r.running <==> s.running && !Collides(r.current, s.grid)
    ensures r == s.(current := r.current, nextType := r.nextType, bag := r.bag, running := r.running)
  {
    var d := Draw(s.bag, refill);
    var piece := Piece(s.nextType, 0, SPAWN_X, SPAWN_Y);
    var s' := s.(current := piece, nextType := d.0, bag := d.1);
    if Collides(piece, s.grid) then s'.(running := false) else s'
  }

  /** At the spawn position no wall or floor is in reach: the game ends on a
      spawn exactly when a cell of the new piece lands on a filled cell. */
  lemma SpawnEndsGameOnlyOnFilledCell(s: State, refill: seq<Kind>)
    requires WellFormed(s.grid)
    requires CanDraw(s, refill)
    requires s.running
    ensures var r := SpawnPiece(s, refill);
      !r.running <==> exists dy, dx :: (Occupied(r.current, dy, dx)
        && 0 <= SPAWN_Y + dy && s.grid[SPAWN_Y + dy][SPAWN_X + dx] != Empty)
  {
    var r := SpawnPiece(s, refill);
    var p := r.current;
    if !r.running {
      var dy, dx :| 0 <= dy < 4 && 0 <= dx < 4 && Hits(p, s.grid, dy, dx);
      assert Occupied(p, dy, dx) && Blocked(s.grid, p.x + dx, p.y + dy);
    }
    if exists dy, dx :: (Occupied(p, dy, dx)
        && 0 <= SPAWN_Y + dy && s.grid[SPAWN_Y + dy][SPAWN_X + dx] != Empty) {
      var dy, dx :| Occupied(p, dy, dx)
        && 0 <= SPAWN_Y + dy && s.grid[SPAWN_Y + dy][SPAWN_X + dx] != Empty;
      assert Hits(p, s.grid, dy, dx);
    }
  }

  // ---------------------------------------------------------------------------
  // Moving

  function Shift(p: Piece, dx: int, dy: int): Piece {
    p.(x := p.x + dx, y := p.y + dy)
  }

  /** The state after a move attempt and whether the move was made. */
  datatype Moved = Moved(state: State, ok: bool)

  /** Moves the piece by (dx, dy) when the game runs and the shifted piece
      overlaps nothing; otherwise nothing changes. */
  function TryMove(s: State, dx: int, dy: int): (m: Moved)
    requires WellFormed(s.grid)
    ensures m.ok <==> s.running && !Collides(Shift(s.current, dx, dy), s.grid)
    ensures m.ok ==> m.state == s.(current := Shift(s.current, dx, dy))
    ensures !m.ok ==> m.state == s
    ensures m.state.grid == s.grid && (Fits(s) ==> Fits(m.state))
  {
    if !s.running then Moved(s, false)
    else
      var p := Shift(s.current, dx, dy);
      if !Collides(p, s.grid) then Moved(s.(current := p), true)
      else Moved(s, false)
  }

  /** A move that was made can be undone by the opposite move. */
  lemma TryMoveUndo(s: State, dx: int, dy: int)
    requires WellFormed(s.grid)
    requires Fits(s)
    requires TryMove(s, dx, dy).ok
    ensures TryMove(TryMove(s, dx, dy).state, -dx, -dy) == Moved(s, true)
  {
    var t := TryMove(s, dx, dy).state;
    assert Shift(t.current, -dx, -dy) == s.current;
  }

  // ---------------------------------------------------------------------------
  // Rotating

  /** The piece turned one step: clockwise for dir >= 0, counter-clockwise
      (three clockwise steps) for dir < 0. */
  function Turned(p: Piece, dir: int): (q: Piece)
    ensures q == p.(rot := q.rot) && q.rot < 4
    ensures (q.rot + (if dir < 0 then 1 else 3)) % 4 == p.rot % 4
  {
    p.(rot := (p.rot + (if dir < 0 then 3 else 1)) % 4)
  }

  function Kicked(p: Piece, k: nat): Piece
    requires k < |Kicks|
  {
    p.(x := p.x + Kicks[k])
  }

  /** The index of the first kick from i on that leaves p free. */
  function FirstFit(p: Piece, g: Grid, i: nat): (r: Option<nat>)
    requires WellFormed(g)
    requires i <= |Kicks|
    decreases |Kicks| - i
    ensures r.Some? ==> && i <= r.value < |Kicks|
                        && !Collides(Kicked(p, r.value), g)
                        && forall t | i <= t < r.value :: Collides(Kicked(p, t), g)
    ensures r.None? <==> forall t | i <= t < |Kicks| :: Collides(Kicked(p, t), g)
  {
    if i == |Kicks| then None
    else if !Collides(Kicked(p, i), g) then Some(i)
    else FirstFit(p, g, i + 1)
  }

  /** Turns the piece and commits the first of the offsets 0, +1, -1, +2, -2
      that fits, with the row unchanged; when none fits, or the game is over,
      nothing changes. */
  function Rotate(s: State, dir: int): (r: State)
    requires WellFormed(s.grid)
    ensures var p := Turned(s.current, dir);
      if s.running && exists k | 0 <= k < |Kicks| :: !Collides(Kicked(p, k), s.grid) then
        exists k | 0 <= k < |Kicks| ::
          && r == s.(current := Kicked(p, k))
          && !Collides(Kicked(p, k), s.grid)
          && forall t | 0 <= t < k :: Collides(Kicked(p, t), s.grid)
      else
        r == s
    ensures r.grid == s.grid && (Fits(s) ==> Fits(r))
  {
    if !s.running then s
    else
      match FirstFit(Turned(s.current, dir), s.grid, 0)
      case Some(k) => s.(current := Kicked(Turned(s.current, dir), k))
      case None => s
  }

  /** A rotation that fits without a kick is undone by the opposite rotation. */
  lemma RotateUndo(s: State, dir: int)
    requires WellFormed(s.grid)
    requires Fits(s)
    requires s.running
    requires s.current.rot < 4
    requires !Collides(Turned(s.current, dir), s.grid)
    ensures Rotate(Rotate(s, dir), if dir < 0 then 1 else -1) == s
  {
    var p := Turned(s.current, dir);
    assert Kicked(p, 0) == p;
    var r := Rotate(s, dir);
    assert r == s.(current := p);
    var back := if dir < 0 then 1 else -1;
    assert Turned(p, back) == s.current;
    assert Kicked(Turned(p, back), 0) == s.current;
  }

  // ---------------------------------------------------------------------------
  // Dropping and locking

  /** The hard drop's loop: move down while the row below is free. The piece
      ends in its column, no higher than it started, with every row it
      passed through free and the next row down blocked. */
  function DropToFloor(p: Piece, g: Grid): (q: Piece)
    requires WellFormed(g)
    decreases ROWS - p.y
    ensures q == Piece(p.kind, p.rot, p.x, q.y) && q.y >= p.y
    ensures Collides(Shift(q, 0, 1), g)
    ensures forall y | p.y < y <= q.y :: !Collides(Piece(p.kind, p.rot, p.x, y), g)
  {
    var below := Shift(p, 0, 1);
    FloorCollides(below, g);
    if Collides(below, g) then p
    else
      assert below == Piece(p.kind, p.rot, p.x, p.y + 1);
      DropToFloor(below, g)
  }

  /** The bookkeeping of a clear of `c.count` rows leaving `c.grid`: with at
      least one row cleared, the score grows by the table's points times the
      level the clear happened at, the lines and the meter grow, and the level
      and gravity follow the new line total. A state whose level and interval
      agree with its lines keeps them agreeing, and neither goes backwards. */
  function ApplyClear(s: State, c: Cleared): (r: State)
    ensures r.grid == c.grid
    ensures r.score == s.score + ScoreForLines(c.count) * s.level >= s.score
    ensures r.lines == s.lines + c.count
    ensures r.energy == s.energy + ENERGY_PER_LINE * c.count
    ensures s.level == LevelFor(s.lines) ==> r.level == LevelFor(r.lines) && r.level >= s.level
    ensures s.dropInterval == DropIntervalFor(s.level) ==> r.dropInterval == DropIntervalFor(r.level)
    ensures s.level == LevelFor(s.lines) && s.dropInterval == DropIntervalFor(s.level) ==>
      r.dropInterval <= s.dropInterval
    ensures r == s.(grid := r.grid, score := r.score, lines := r.lines, energy := r.energy,
                    level := r.level, dropInterval := r.dropInterval)
  {
    if c.count > 0 then
      var lines := s.lines + c.count;
      var newLevel := LevelFor(lines);
      ClearSpeedsUp(s.level, s.lines, c.count);
      s.(grid := c.grid,
         score := s.score + ScoreForLines(c.count) * s.level,
         lines := lines,
         energy := s.energy + ENERGY_PER_LINE * c.count,
         level := newLevel,
         dropInterval := if newLevel != s.level then DropIntervalFor(newLevel) else s.dropInterval)
    else
      s.(grid := c.grid)
  }

  /** Clearing rows never lowers the level reached and never slows gravity. */
  lemma ClearSpeedsUp(level: nat, lines: nat, n: nat)
    ensures level == LevelFor(lines) ==>
      && LevelFor(lines + n) >= level
      && DropIntervalFor(LevelFor(lines + n)) <= DropIntervalFor(level)
  {
    if level == LevelFor(lines) {
      DropIntervalMonotone(level, LevelFor(lines + n));
    }
  }

  /** The lock's energy step: five points for the lock, then whole hundreds
      turn into bombs. The meter ends below a hundred, a capped stock stays
      capped, and no bomb is lost. */
  function FeedEnergy(s: State): (r: State)
    ensures r.energy < ENERGY_PER_BOMB
    ensures s.bombs <= MAX_BOMBS ==> s.bombs <= r.bombs <= MAX_BOMBS
    ensures r.energy + ENERGY_PER_BOMB * (r.bombs - s.bombs) <= s.energy + ENERGY_PER_LOCK
    ensures (r.energy, r.bombs) == ConvertEnergy(s.energy + ENERGY_PER_LOCK, s.bombs)
    ensures r == s.(energy := r.energy, bombs := r.bombs)
  {
    var e := s.energy + ENERGY_PER_LOCK;
    var converted := ConvertEnergy(e, s.bombs);
    assert converted.0 + ENERGY_PER_BOMB * (converted.1 - s.bombs) <= e by {
      var q := e / ENERGY_PER_BOMB;
      assert e == q * ENERGY_PER_BOMB + e % ENERGY_PER_BOMB;
      assert converted.1 - s.bombs <= q;
      assert ENERGY_PER_BOMB * (converted.1 - s.bombs) <= ENERGY_PER_BOMB * q;
    }
    s.(energy := converted.0, bombs := converted.1)
  }

  /** Merges the piece, clears full rows, scores the clear at the current
      level, feeds the energy meter and spawns the next piece. */
  function LockPiece(s: State, refill: seq<Kind>): (r: State)
    requires WellFormed(s.grid)
    requires CanDraw(s, refill)
    ensures WellFormed(r.grid) && NoFullRow(r.grid)
    ensures var n := FullCount(Merge(s.current, s.grid));
      && r.grid == EmptyRows(n) + Survivors(Merge(s.current, s.grid))
      && r.score == s.score + ScoreForLines(n) * s.level
      && r.lines == s.lines + n
    ensures r.current == Piece(s.nextType, 0, SPAWN_X, SPAWN_Y)
    ensures (r.nextType, r.bag) == Draw(s.bag, refill)
    ensures r.running <==> s.running && !Collides(r.current, r.grid)
    ensures r.dropCounter == s.dropCounter
  {
    var c := ClearLines(Merge(s.current, s.grid));
    var a := ApplyClear(s, c);
    var f := FeedEnergy(a);
    assert f.grid == c.grid && f.current == s.current && f.nextType == s.nextType;
    assert f.bag == s.bag && f.running == s.running && f.dropCounter == s.dropCounter;
    SpawnPiece(f, refill)
  }

  /** A lock adds twenty energy per cleared line and five for the lock, and
      converts whole hundreds into bombs up to the cap of three. */
  lemma LockPieceEnergy(s: State, refill: seq<Kind>)
    requires WellFormed(s.grid)
    requires CanDraw(s, refill)
    ensures var n := FullCount(Merge(s.current, s.grid));
      var e := s.energy + ENERGY_PER_LINE * n + ENERGY_PER_LOCK;
      var r := LockPiece(s, refill);
      && r.energy == e % ENERGY_PER_BOMB
      && r.bombs == if e < ENERGY_PER_BOMB then s.bombs
                    else Min(MAX_BOMBS, s.bombs + e / ENERGY_PER_BOMB)
  {
    var c := ClearLines(Merge(s.current, s.grid));
    var a := ApplyClear(s, c);
    var f := FeedEnergy(a);
    assert LockPiece(s, refill) == SpawnPiece(f, refill);
    var e := s.energy + ENERGY_PER_LINE * c.count + ENERGY_PER_LOCK;
    assert a.energy + ENERGY_PER_LOCK == e && a.bombs == s.bombs;
    assert (f.energy, f.bombs) == ConvertEnergy(e, s.bombs);
  }

  /** Drops the piece to the floor and locks it. */
  function HardDrop(s: State, refill: seq<Kind>): (r: State)
    requires WellFormed(s.grid)
    requires CanDraw(s, refill)
    ensures WellFormed(r.grid)
    ensures !s.running ==> r == s
  {
    if !s.running then s
    else LockPiece(s.(current := DropToFloor(s.current, s.grid)), refill)
  }

  /** Moves the piece one row down, or locks it at once when the row below is
      blocked. */
  function SoftDrop(s: State, refill: seq<Kind>): (r: State)
    requires WellFormed(s.grid)
    requires CanDraw(s, refill)
    ensures WellFormed(r.grid)
    ensures !s.running ==> r == s
    ensures s.running && !Collides(Shift(s.current, 0, 1), s.grid) ==>
      r == s.(current := Shift(s.current, 0, 1))
    ensures s.running && Collides(Shift(s.current, 0, 1), s.grid) ==> r == LockPiece(s, refill)
  {
    if !s.running then s
    else
      var m := TryMove(s, 0, 1);
      if m.ok then m.state else LockPiece(s, refill)
  }

  /** A hard drop is a run of soft drops: when the row below is blocked both
      lock the piece where it is, and otherwise a hard drop equals a hard drop
      from one row lower. */
  lemma HardDropIsRepeatedSoftDrop(s: State, refill: seq<Kind>)
    requires WellFormed(s.grid)
    requires CanDraw(s, refill)
    requires s.running
    ensures Collides(Shift(s.current, 0, 1), s.grid) ==>
      HardDrop(s, refill) == SoftDrop(s, refill) == LockPiece(s, refill)
    ensures !Collides(Shift(s.current, 0, 1), s.grid) ==>
      HardDrop(s, refill) == HardDrop(SoftDrop(s, refill), refill)
  {
    var below := Shift(s.current, 0, 1);
    FloorCollides(below, s.grid);
    if Collides(below, s.grid) {
      assert DropToFloor(s.current, s.grid) == s.current;
      assert s.(current := s.current) == s;
    } else {
      assert DropToFloor(s.current, s.grid) == DropToFloor(below, s.grid);
    }
  }

  // ---------------------------------------------------------------------------
  // Bomb

  /** With the game running and a bomb in stock, removes the row holding the
      most filled cells (the topmost of equals), puts an empty row on top and
      uses up one bomb; otherwise nothing changes. The active piece is left
      where it is. */
  function UseBomb(s: State): (r: State)
    requires WellFormed(s.grid)
    ensures WellFormed(r.grid)
    ensures !s.running || s.bombs == 0 ==> r == s
    ensures s.running && s.bombs > 0 ==>
      exists b :: && IsFullestRow(s.grid, b)
                  && r == s.(grid := RemoveRow(s.grid, b), bombs := s.bombs - 1)
  {
    if !s.running || s.bombs == 0 then s
    else
      var b := FullestRow(s.grid);
      s.(grid := RemoveRow(s.grid, b), bombs := s.bombs - 1)
  }

  /** A bomb takes exactly the fullest row's cells off the grid: no other row
      has more. */
  lemma UseBombRemovesMostCells(s: State)
    requires WellFormed(s.grid)
    requires s.running && s.bombs > 0
    ensures var removed := TotalFilled(s.grid) - TotalFilled(UseBomb(s).grid);
      && (forall y | 0 <= y < ROWS :: FilledCount(s.grid[y]) <= removed)
      && (exists y | 0 <= y < ROWS :: FilledCount(s.grid[y]) == removed)
  {
    var b := FullestRow(s.grid);
    RemoveRowFilled(s.grid, b);
  }

  // ---------------------------------------------------------------------------
  // Gravity, restart, start

  /** One frame of gravity: the counter accumulates the elapsed time; once it
      reaches the interval it is reset and the piece moves down one row, or
      locks when it cannot. */
  function Tick(s: State, delta: int, refill: seq<Kind>): (r: State)
    requires WellFormed(s.grid)
    requires CanDraw(s, refill)
    ensures WellFormed(r.grid)
    ensures !s.running ==> r == s
    ensures s.running && s.dropCounter + delta < s.dropInterval ==>
      r == s.(dropCounter := s.dropCounter + delta)
  {
    if !s.running then s
    else
      var counter := s.dropCounter + delta;
      if counter >= s.dropInterval then
        var reset := s.(dropCounter := 0);
        var m := TryMove(reset, 0, 1);
        if m.ok then m.state else LockPiece(reset, refill)
      else
        s.(dropCounter := counter)
  }

  /** A gravity step that fires is a soft drop with the counter reset. */
  lemma GravityIsSoftDrop(s: State, delta: int, refill: seq<Kind>)
    requires WellFormed(s.grid)
    requires CanDraw(s, refill)
    requires s.running && s.dropCounter + delta >= s.dropInterval
    ensures Tick(s, delta, refill) == SoftDrop(s.(dropCounter := 0), refill)
  {
  }

  /** The restart button: an empty grid, score, lines, energy and bombs at
      zero, level 1 at its speed, and a fresh spawn. The randomiser and the
      next kind carry over. */
  function Restart(s: State, refill: seq<Kind>): (r: State)
    requires CanDraw(s, refill)
    ensures r.running
    ensures r.grid == CreateMatrix()
    ensures !Collides(r.current, r.grid)
    ensures r.score == 0 && r.lines == 0 && r.level == 1
    ensures r.energy == 0 && r.bombs == 0 && r.dropCounter == 0
    ensures r.dropInterval == BASE_DROP_MS
    ensures r.current == Piece(s.nextType, 0, SPAWN_X, SPAWN_Y)
    ensures (r.nextType, r.bag) == Draw(s.bag, refill)
  {
    var cleared := s.(grid := CreateMatrix(), score := 0, lines := 0, level := 1,
                      energy := 0, bombs := 0);
    var r := SpawnPiece(cleared.(dropInterval := DropIntervalFor(cleared.level),
                                 running := true, dropCounter := 0), refill);
    AboveTopFreeOnEmptyGrid(r.current);
    r
  }

  /** On an empty grid the spawn position never collides. */
  lemma AboveTopFreeOnEmptyGrid(p: Piece)
    requires p.x == SPAWN_X && p.y == SPAWN_Y
    ensures !Collides(p, CreateMatrix())
  {
  }

  /** The state the page starts in: the first value of a fresh bag becomes the
      next kind, and the first piece is spawned from the same bag. */
  function Init(refill: seq<Kind>): (r: State)
    requires IsFullBag(refill)
    ensures Inv(r) && Fits(r) && r.running
    ensures r.score == 0 && r.lines == 0 && r.level == 1 && r.bombs == 0
    ensures r.grid == CreateMatrix() && r.energy == 0 && r.dropCounter == 0
    ensures r.current == Piece(refill[|refill| - 1], 0, SPAWN_X, SPAWN_Y)
    ensures |refill| == 7 && r.nextType == refill[5] && r.bag == refill[..5]
  {
    var first := Draw([], refill);
    FullBagSize(refill);
    var s := State(CreateMatrix(), Piece(first.0, 0, SPAWN_X, SPAWN_Y), first.0, first.1,
                   0, 0, 1, 0, 0, true, 0, BASE_DROP_MS);
    var s' := s.(dropInterval := DropIntervalFor(s.level));
    EmptyRowNotFull();
    DrawKeepsPartial([], refill);
    var r := SpawnPiece(s', refill);
    AboveTopFreeOnEmptyGrid(r.current);
    DrawKeepsPartial(s'.bag, refill);
    r
  }

  // ---------------------------------------------------------------------------
  // The command surface and its invariants

  /** The commands the controls issue. */
  datatype Command =
    | MoveLeft | MoveRight | RotateCW | RotateCCW
    | Soft | Hard | Bomb | Gravity(delta: int) | Reset

  function Step(s: State, cmd: Command, refill: seq<Kind>): (r: State)
    requires WellFormed(s.grid)
    requires CanDraw(s, refill)
    ensures WellFormed(r.grid)
  {
    match cmd
    case MoveLeft => TryMove(s, -1, 0).state
    case MoveRight => TryMove(s, 1, 0).state
    case RotateCW => Rotate(s, 1)
    case RotateCCW => Rotate(s, -1)
    case Soft => SoftDrop(s, refill)
    case Hard => HardDrop(s, refill)
    case Bomb => UseBomb(s)
    case Gravity(delta) => Tick(s, delta, refill)
    case Reset => Restart(s, refill)
  }

  /** Score, lines and level did not go down and gravity did not slow. */
  predicate Progress(s: State, r: State) {
    r.score >= s.score && r.lines >= s.lines && r.level >= s.level
    && r.dropInterval <= s.dropInterval
  }

  /** Locking leaves a well-formed grid without full rows, a partial bag and
      a spawned piece that fits whenever the game goes on. */
  lemma LockKeepsBoard(s: State, refill: seq<Kind>)
    requires Inv(s)
    requires CanDraw(s, refill)
    ensures var r := LockPiece(s, refill);
      && WellFormed(r.grid) && NoFullRow(r.grid) && IsPartialBag(r.bag) && Fits(r)
  {
    var f := FeedEnergy(ApplyClear(s, ClearLines(Merge(s.current, s.grid))));
    assert f.bag == s.bag;
    DrawKeepsPartial(s.bag, refill);
  }

  /** Locking keeps level, interval, meter and bomb stock consistent, never
      lowers score, lines or level and never slows gravity. */
  lemma LockKeepsCounters(s: State, refill: seq<Kind>)
    requires Inv(s)
    requires CanDraw(s, refill)
    ensures var r := LockPiece(s, refill);
      && r.level == LevelFor(r.lines)
      && r.energy < ENERGY_PER_BOMB
      && r.bombs <= MAX_BOMBS
      && r.dropInterval == DropIntervalFor(r.level)
      && r.score >= s.score && r.lines >= s.lines && r.level >= s.level
      && r.dropInterval <= s.dropInterval
  {
    var c := ClearLines(Merge(s.current, s.grid));
    var a := ApplyClear(s, c);
    var f := FeedEnergy(a);
    var r := SpawnPiece(f, refill);
    assert r == LockPiece(s, refill);
    assert r.score == a.score >= s.score;
    assert r.lines == a.lines >= s.lines;
    assert r.level == a.level >= s.level;
  }

  /** Locking keeps the invariant, never lowers score, lines or level and
      never slows gravity. */
  lemma LockPreservesInv(s: State, refill: seq<Kind>)
    requires Inv(s)
    requires CanDraw(s, refill)
    ensures var r := LockPiece(s, refill);
      Inv(r) && Fits(r) && Progress(s, r)
  {
    LockKeepsBoard(s, refill);
    LockKeepsCounters(s, refill);
  }

  lemma BombPreservesInv(s: State)
    requires Inv(s)
    ensures Inv(UseBomb(s))
  {
    if s.running && s.bombs > 0 {
      var b := FullestRow(s.grid);
      var g := RemoveRow(s.grid, b);
      EmptyRowNotFull();
      forall y | 0 <= y < ROWS
        ensures !IsFull(g[y])
      {
        if y == 0 {
        } else if y <= b {
          assert g[y] == s.grid[y - 1];
        } else {
          assert g[y] == s.grid[y];
        }
      }
    }
  }

  /** A soft drop keeps the invariant, leaves a running piece clear of
      everything and never loses progress. */
  lemma SoftDropPreservesInv(s: State, refill: seq<Kind>)
    requires Inv(s)
    requires CanDraw(s, refill)
    ensures var r := SoftDrop(s, refill);
      Inv(r) && (s.running ==> Fits(r)) && Progress(s, r)
  {
    if s.running && Collides(Shift(s.current, 0, 1), s.grid) {
      LockPreservesInv(s, refill);
    }
  }

  /** A hard drop keeps the invariant, leaves a running piece clear of
      everything and never loses progress. */
  lemma HardDropPreservesInv(s: State, refill: seq<Kind>)
    requires Inv(s)
    requires CanDraw(s, refill)
    ensures var r := HardDrop(s, refill);
      Inv(r) && (s.running ==> Fits(r)) && Progress(s, r)
  {
    if s.running {
      LockPreservesInv(s.(current := DropToFloor(s.current, s.grid)), refill);
    }
  }

  /** A gravity step keeps the invariant, leaves a piece that was clear still
      clear and never loses progress. */
  lemma TickPreservesInv(s: State, delta: int, refill: seq<Kind>)
    requires Inv(s)
    requires CanDraw(s, refill)
    ensures var r := Tick(s, delta, refill);
      Inv(r) && (Fits(s) ==> Fits(r)) && Progress(s, r)
  {
    if s.running && s.dropCounter + delta >= s.dropInterval {
      GravityIsSoftDrop(s, delta, refill);
      SoftDropPreservesInv(s.(dropCounter := 0), refill);
    }
  }

  lemma RestartPreservesInv(s: State, refill: seq<Kind>)
    requires Inv(s)
    requires CanDraw(s, refill)
    ensures Inv(Restart(s, refill)) && Fits(Restart(s, refill))
  {
    DrawKeepsPartial(s.bag, refill);
    assert LevelFor(0) == 1;
  }

  /** Every command keeps the invariant. */
  lemma StepPreservesInv(s: State, cmd: Command, refill: seq<Kind>)
    requires Inv(s)
    requires CanDraw(s, refill)
    ensures Inv(Step(s, cmd, refill))
  {
    match cmd
    case Soft => SoftDropPreservesInv(s, refill);
    case Hard => HardDropPreservesInv(s, refill);
    case Bomb => BombPreservesInv(s);
    case Gravity(delta) => TickPreservesInv(s, delta, refill);
    case Reset => RestartPreservesInv(s, refill);
    case _ =>
  }

  /** Every command except a bomb keeps the active piece clear of walls, floor
      and filled cells while the game runs. A bomb shifts the rows above the
      removed one down without checking the piece, so it can break this. */
  lemma StepKeepsFit(s: State, cmd: Command, refill: seq<Kind>)
    requires Inv(s)
    requires Fits(s)
    requires CanDraw(s, refill)
    requires cmd != Bomb
    ensures Fits(Step(s, cmd, refill))
  {
    match cmd
    case Soft => SoftDropPreservesInv(s, refill);
    case Hard => HardDropPreservesInv(s, refill);
    case Gravity(delta) => TickPreservesInv(s, delta, refill);
    case Reset => RestartPreservesInv(s, refill);
    case _ =>
  }

  /** Apart from a restart, score, lines and level never go down and gravity
      never slows. */
  lemma StepMonotone(s: State, cmd: Command, refill: seq<Kind>)
    requires Inv(s)
    requires CanDraw(s, refill)
    requires cmd != Reset
    ensures Progress(s, Step(s, cmd, refill))
  {
    match cmd
    case MoveLeft => assert TryMove(s, -1, 0).state.score == s.score;
    case MoveRight => assert TryMove(s, 1, 0).state.score == s.score;
    case RotateCW => assert Rotate(s, 1).score == s.score;
    case RotateCCW => assert Rotate(s, -1).score == s.score;
    case Soft => SoftDropPreservesInv(s, refill);
    case Hard => HardDropPreservesInv(s, refill);
    case Bomb => assert UseBomb(s).score == s.score;
    case Gravity(delta) => TickPreservesInv(s, delta, refill);
  }

  /** Once the game is over, only a restart changes anything. */
  lemma GameOverIsFinal(s: State, cmd: Command, refill: seq<Kind>)
    requires WellFormed(s.grid)
    requires CanDraw(s, refill)
    requires !s.running
    requires cmd != Reset
    ensures Step(s, cmd, refill) == s
  {
    match cmd
    case MoveLeft =>
    case MoveRight =>
    case RotateCW =>
    case RotateCCW =>
    case Soft =>
    case Hard =>
    case Bomb =>
    case Gravity(_) =>
  }
}
