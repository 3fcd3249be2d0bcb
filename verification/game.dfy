/** The game's state and the operations a player triggers: a move in one of the
    four directions, undo of the last move, and starting a new game. The state
    is a record; each operation returns the next state. Random draws are
    parameters, and the messages shown to the player are returned as a notice. */
module Game {
  import opened Line
  import opened Board

  /** The single-level undo snapshot: absent until the first move. */
  datatype Snapshot = NoSnapshot | Snapshot(grid: seq<int>, score: int)

  /** `grid`, `score`, `bestScore`, `previousGrid`, `canUndo` and `isAnimating`. */
  datatype GameState = GameState(
    grid: seq<int>,
    score: int,
    best: int,
    previous: Snapshot,
    canUndo: bool,
    animating: bool)

  /** The message a move ends with: the game-over panel, the win panel, or none. */
  datatype Notice = Quiet | GameOverShown | WinShown

  datatype MoveOutcome = MoveOutcome(state: GameState, notice: Notice)

  /** A well-formed state: sixteen cells, and undo is armed only when a snapshot
      of sixteen cells has been taken. */
  predicate Valid(s: GameState)
  {
    IsGrid(s.grid) &&
    (s.previous.Snapshot? ==> IsGrid(s.previous.grid)) &&
    (s.canUndo ==> s.previous.Snapshot?)
  }

  /** Every cell of the board and of the snapshot holds a tile value. */
  predicate Tiles(s: GameState)
  {
    AllTiles(s.grid) && (s.previous.Snapshot? ==> AllTiles(s.previous.grid))
  }

  /** `savePreviousState`: copy the board and the score, and arm undo. */
  function SavePreviousState(s: GameState): (r: GameState)
    requires Valid(s)
    ensures Valid(r) && r.canUndo
    ensures r.previous == Snapshot(s.grid, s.score)
    ensures r.grid == s.grid && r.score == s.score && r.best == s.best && r.animating == s.animating
  {
    s.(previous := Snapshot(s.grid, s.score), canUndo := true)
  }

  /** `undo`: when armed, put back the saved board and score and disarm;
      otherwise do nothing. The best score and the snapshot itself are kept. */
  function Undo(s: GameState): (r: GameState)
    requires Valid(s)
    ensures Valid(r) && !r.canUndo
    ensures !s.canUndo ==> r == s
    ensures s.canUndo ==> r.grid == s.previous.grid && r.score == s.previous.score
    ensures r.best == s.best && r.previous == s.previous && r.animating == s.animating
  {
    if !s.canUndo then s
    else s.(grid := s.previous.grid, score := s.previous.score, canUndo := false)
  }

  /** A second undo in a row changes nothing. */
  lemma UndoIdempotent(s: GameState)
    requires Valid(s)
    ensures Undo(Undo(s)) == Undo(s)
  {
  }

  /** Undo right after a save gives back the state as it was, with the snapshot
      taken and undo disarmed. */
  lemma UndoAfterSave(s: GameState)
    requires Valid(s)
    ensures Undo(SavePreviousState(s)) == s.(previous := Snapshot(s.grid, s.score), canUndo := false)
  {
  }

  /** The notice after a board-changing move: game over takes precedence over
      the win. */
  function NoticeFor(g: seq<int>): (n: Notice)
    requires IsGrid(g)
    ensures n == GameOverShown <==> IsGameOver(g)
    ensures n == WinShown <==> !IsGameOver(g) && HasWon(g)
  {
    if IsGameOver(g) then GameOverShown
    else if HasWon(g) then WinShown
    else Quiet
  }

  /** `move(direction)`, without the drawing: ignored while animating; otherwise
      the snapshot is taken first, the board is slid and the merge points added
      to the score; when some cell changed, a tile is placed, the best score is
      raised to the score if it is higher, and the game-over or win notice is
      chosen on the new board. */
  function Move(s: GameState, d: Direction, rb: ReverseBack, cellRoll: real, valueRoll: real): (r: MoveOutcome)
    requires Valid(s) && IsRoll(cellRoll) && IsRoll(valueRoll)
    ensures Valid(r.state)
    ensures s.animating ==> r == MoveOutcome(s, Quiet)
    ensures !s.animating ==> r.state.canUndo && r.state.previous == Snapshot(s.grid, s.score)
    ensures !s.animating ==> r.state.score == s.score + Slide(s.grid, d, rb).gain
    ensures r.state.best >= s.best
    ensures r.state.animating == s.animating
  {
    if s.animating then MoveOutcome(s, Quiet)
    else
      var saved := SavePreviousState(s);
      var slid := Slide(s.grid, d, rb);
      var played := saved.(grid := slid.grid, score := s.score + slid.gain);
      if !slid.moved then MoveOutcome(played, Quiet)
      else
        var spawned := played.(grid := AddNewTile(slid.grid, cellRoll, valueRoll));
        var best := if spawned.score > s.best then spawned.score else s.best;
        MoveOutcome(spawned.(best := best), NoticeFor(spawned.grid))
  }

  /** A move that changes no cell leaves the board and the score as they were
      and shows nothing, but it still replaces the snapshot and arms undo. */
  lemma NoOpMoveStillArmsUndo(s: GameState, d: Direction, rb: ReverseBack, cellRoll: real, valueRoll: real)
    requires Valid(s) && IsRoll(cellRoll) && IsRoll(valueRoll)
    requires !s.animating && !Slide(s.grid, d, rb).moved
    ensures Move(s, d, rb, cellRoll, valueRoll) ==
            MoveOutcome(s.(previous := Snapshot(s.grid, s.score), canUndo := true), Quiet)
  {
    SlideStillScoresNothing(s.grid, d, rb);
  }

  /** After a board-changing move, the best score is the larger of the old best
      and the new score, and the notice reflects the new board. */
  lemma MovedBestScore(s: GameState, d: Direction, rb: ReverseBack, cellRoll: real, valueRoll: real)
    requires Valid(s) && IsRoll(cellRoll) && IsRoll(valueRoll)
    requires !s.animating && Slide(s.grid, d, rb).moved
    ensures var r := Move(s, d, rb, cellRoll, valueRoll);
            r.state.best == (if r.state.score > s.best then r.state.score else s.best) &&
            r.state.grid == AddNewTile(Slide(s.grid, d, rb).grid, cellRoll, valueRoll) &&
            r.notice == NoticeFor(r.state.grid)
  {
  }

  /** Undo right after a move (that was not ignored) restores the board and the
      score from before the move. */
  lemma UndoAfterMove(s: GameState, d: Direction, rb: ReverseBack, cellRoll: real, valueRoll: real)
    requires Valid(s) && IsRoll(cellRoll) && IsRoll(valueRoll)
    requires !s.animating
    ensures Undo(Move(s, d, rb, cellRoll, valueRoll).state).grid == s.grid
    ensures Undo(Move(s, d, rb, cellRoll, valueRoll).state).score == s.score
  {
  }

  /** Moves keep every cell a tile value and never lower the score. */
  lemma MoveKeepsTiles(s: GameState, d: Direction, rb: ReverseBack, cellRoll: real, valueRoll: real)
    requires Valid(s) && Tiles(s) && IsRoll(cellRoll) && IsRoll(valueRoll)
    ensures Tiles(Move(s, d, rb, cellRoll, valueRoll).state)
    ensures Move(s, d, rb, cellRoll, valueRoll).state.score >= s.score
  {
    if !s.animating {
      var slid := Slide(s.grid, d, rb);
      SlideKeepsTiles(s.grid, d, rb);
      if slid.moved {
        AddNewTileKeepsTiles(slid.grid, cellRoll, valueRoll);
      }
    }
  }

  /** Once the game is over, a move of the intended game changes neither the
      board nor the score and shows nothing. */
  lemma StalemateMoveIsNoOp(s: GameState, d: Direction, cellRoll: real, valueRoll: real)
    requires Valid(s) && IsRoll(cellRoll) && IsRoll(valueRoll)
    requires IsGameOver(s.grid)
    ensures Move(s, d, Applied, cellRoll, valueRoll).state.grid == s.grid
    ensures Move(s, d, Applied, cellRoll, valueRoll).state.score == s.score
    ensures Move(s, d, Applied, cellRoll, valueRoll).notice == Quiet
  {
    StalemateFrozen(s.grid, d);
    SlideStillScoresNothing(s.grid, d, Applied);
  }

  /** Where the touch handler raises the debounce flag relative to its call of
      `move`: before it, as written, or after it, as the debounce intends. */
  datatype Debounce = RaisedBeforeMove | RaisedAfterMove

  /** The end of a recognised swipe: the debounce flag `isAnimating` is raised
      and the move in the swipe's direction is requested. Clearing the flag
      again is left to a timer, which is not modelled. */
  function Swipe(s: GameState, d: Direction, rb: ReverseBack, cellRoll: real, valueRoll: real, db: Debounce): (r: MoveOutcome)
    requires Valid(s) && IsRoll(cellRoll) && IsRoll(valueRoll)
    ensures Valid(r.state) && r.state.animating
    ensures r.state.best >= s.best
  {
    match db
    case RaisedBeforeMove => Move(s.(animating := true), d, rb, cellRoll, valueRoll)
    case RaisedAfterMove =>
      var m := Move(s, d, rb, cellRoll, valueRoll);
      MoveOutcome(m.state.(animating := true), m.notice)
  }

  /** As written, the flag is raised before `move` is called, and `move` returns
      at once when the flag is up: every swipe is dropped, whatever the board. */
  lemma SwipeDroppedAsWritten(s: GameState, d: Direction, rb: ReverseBack, cellRoll: real, valueRoll: real)
    requires Valid(s) && IsRoll(cellRoll) && IsRoll(valueRoll)
    ensures Swipe(s, d, rb, cellRoll, valueRoll, RaisedBeforeMove) == MoveOutcome(s.(animating := true), Quiet)
  {
  }

  /** With the flag raised after the move, a swipe on a settled game makes the
      move: undo is armed with the board and score from before it, the points of
      the slide are scored, and a board-changing slide gets its new tile. */
  lemma SwipeMovesWhenRaisedAfter(s: GameState, d: Direction, rb: ReverseBack, cellRoll: real, valueRoll: real)
    requires Valid(s) && IsRoll(cellRoll) && IsRoll(valueRoll) && !s.animating
    ensures var r := Swipe(s, d, rb, cellRoll, valueRoll, RaisedAfterMove);
            r.state.canUndo && r.state.previous == Snapshot(s.grid, s.score) &&
            r.state.score == s.score + Slide(s.grid, d, rb).gain &&
            (Slide(s.grid, d, rb).moved ==> r.state.grid == AddNewTile(Slide(s.grid, d, rb).grid, cellRoll, valueRoll))
  {
  }

  /** The board of zeros the game starts from. */
  function EmptyBoard(): (g: seq<int>)
    ensures IsGrid(g) && forall c :: 0 <= c < CellCount ==> g[c] == 0
  {
    seq(CellCount, _ => 0)
  }

  /** The two spawns of a new game on the empty board. */
  function OpeningBoard(cellRoll1: real, valueRoll1: real, cellRoll2: real, valueRoll2: real): (g: seq<int>)
    requires IsRoll(cellRoll1) && IsRoll(valueRoll1) && IsRoll(cellRoll2) && IsRoll(valueRoll2)
    ensures IsGrid(g)
  {
    AddNewTile(AddNewTile(EmptyBoard(), cellRoll1, valueRoll1), cellRoll2, valueRoll2)
  }

  /** `init`: empty the board, zero the score, forget the snapshot, disarm undo,
      and place two tiles. The best score is kept. */
  function Init(s: GameState, cellRoll1: real, valueRoll1: real, cellRoll2: real, valueRoll2: real): (r: GameState)
    requires IsRoll(cellRoll1) && IsRoll(valueRoll1) && IsRoll(cellRoll2) && IsRoll(valueRoll2)
    ensures Valid(r)
    ensures r.score == 0 && r.previous == NoSnapshot && !r.canUndo
    ensures r.best == s.best && r.animating == s.animating
  {
    s.(grid := OpeningBoard(cellRoll1, valueRoll1, cellRoll2, valueRoll2),
       score := 0, previous := NoSnapshot, canUndo := false)
  }

  /** The cell a spawn fills on a board with room. */
  lemma SpawnedCell(g: seq<int>, cellRoll: real, valueRoll: real) returns (c: int)
    requires IsGrid(g) && IsRoll(cellRoll) && IsRoll(valueRoll) && !ZeroFree(g)
    ensures 0 <= c < CellCount && g[c] == 0
    ensures AddNewTile(g, cellRoll, valueRoll)[c] == 2 || AddNewTile(g, cellRoll, valueRoll)[c] == 4
    ensures forall c' :: 0 <= c' < CellCount && c' != c ==> AddNewTile(g, cellRoll, valueRoll)[c'] == g[c']
  {
    var r := AddNewTile(g, cellRoll, valueRoll);
    c :| 0 <= c < CellCount && g[c] == 0 && (r[c] == 2 || r[c] == 4) &&
         forall c' :: 0 <= c' < CellCount && c' != c ==> r[c'] == g[c'];
  }

  /** Cells c1 and c2 are distinct and hold a 2 or a 4; every other cell is empty. */
  predicate TwoTilesAt(g: seq<int>, c1: int, c2: int)
    requires IsGrid(g)
  {
    0 <= c1 < CellCount && 0 <= c2 < CellCount && c1 != c2 &&
    (g[c1] == 2 || g[c1] == 4) && (g[c2] == 2 || g[c2] == 4) &&
    forall c :: 0 <= c < CellCount && c != c1 && c != c2 ==> g[c] == 0
  }

  /** The first spawn of a new game fills one cell of the empty board. */
  lemma FirstSpawn(empty: seq<int>, cellRoll: real, valueRoll: real) returns (c1: int)
    requires IsGrid(empty) && IsRoll(cellRoll) && IsRoll(valueRoll)
    requires forall c :: 0 <= c < CellCount ==> empty[c] == 0
    ensures 0 <= c1 < CellCount
    ensures AddNewTile(empty, cellRoll, valueRoll)[c1] == 2 || AddNewTile(empty, cellRoll, valueRoll)[c1] == 4
    ensures forall c :: 0 <= c < CellCount && c != c1 ==> AddNewTile(empty, cellRoll, valueRoll)[c] == 0
  {
    assert empty[0] == 0;
    c1 := SpawnedCell(empty, cellRoll, valueRoll);
  }

  /** The second spawn of a new game fills another cell, next to the first tile. */
  lemma SecondSpawn(first: seq<int>, c1: int, cellRoll: real, valueRoll: real) returns (c2: int)
    requires IsGrid(first) && IsRoll(cellRoll) && IsRoll(valueRoll) && 0 <= c1 < CellCount
    requires first[c1] == 2 || first[c1] == 4
    requires forall c :: 0 <= c < CellCount && c != c1 ==> first[c] == 0
    ensures TwoTilesAt(AddNewTile(first, cellRoll, valueRoll), c1, c2)
  {
    assert first[if c1 == 0 then 1 else 0] == 0;
    c2 := SpawnedCell(first, cellRoll, valueRoll);
  }

  /** A new game starts with exactly two tiles, each a 2 or a 4, in two different
      cells; every other cell is empty. */
  lemma InitPlacesTwoTiles(s: GameState, cellRoll1: real, valueRoll1: real, cellRoll2: real, valueRoll2: real)
    requires IsRoll(cellRoll1) && IsRoll(valueRoll1) && IsRoll(cellRoll2) && IsRoll(valueRoll2)
    ensures exists c1, c2 :: TwoTilesAt(Init(s, cellRoll1, valueRoll1, cellRoll2, valueRoll2).grid, c1, c2)
  {
    var empty := EmptyBoard();
    var c1 := FirstSpawn(empty, cellRoll1, valueRoll1);
    var c2 := SecondSpawn(AddNewTile(empty, cellRoll1, valueRoll1), c1, cellRoll2, valueRoll2);
    assert TwoTilesAt(Init(s, cellRoll1, valueRoll1, cellRoll2, valueRoll2).grid, c1, c2);
  }
}
