/** The 4 x 4 board as sixteen cells in row-major order (row i, column j at index
    i * 4 + j) and the board-wide operations of the game: reading a row or a
    column, sliding every line in one direction, placing a new tile, and the win
    and game-over tests. */
module Board {
  import opened Line

  const CellCount := 16
  const WinningTile := 2048

  predicate IsGrid(g: seq<int>)
  {
    |g| == CellCount
  }

  datatype Direction = Left | Right | Up | Down

  /** Rows are slid by Left and Right, columns by Up and Down. */
  datatype Axis = Rows | Columns

  /** Whether a line is handed to the merge as read, or reversed first. */
  datatype Orientation = Forward | Reversed

  /** Whether a line merged in reverse is reversed back before it is written.
      `Skipped` is the behaviour of the game as written; `Applied` is the move
      the game evidently means to make. */
  datatype ReverseBack = Skipped | Applied

  function AxisOf(d: Direction): Axis
  {
    match d
    case Left => Rows
    case Right => Rows
    case Up => Columns
    case Down => Columns
  }

  function OrientationOf(d: Direction): Orientation
  {
    match d
    case Left => Forward
    case Up => Forward
    case Right => Reversed
    case Down => Reversed
  }

  function Opposite(d: Direction): Direction
  {
    match d
    case Left => Right
    case Right => Left
    case Up => Down
    case Down => Up
  }

  /** The cell in row i, column j. */
  function At(g: seq<int>, i: int, j: int): int
    requires IsGrid(g) && 0 <= i < Width && 0 <= j < Width
  {
    g[i * 4 + j]
  }

  /** Index of line position p of line k along axis a. */
  function CellOf(a: Axis, k: int, p: int): (c: int)
    requires 0 <= k < Width && 0 <= p < Width
    ensures 0 <= c < CellCount
  {
    match a
    case Rows => k * 4 + p
    case Columns => p * 4 + k
  }

  /** The line (row or column) a cell belongs to. */
  function LineIndex(a: Axis, c: int): (k: int)
    requires 0 <= c < CellCount
    ensures 0 <= k < Width
  {
    match a
    case Rows => c / 4
    case Columns => c % 4
  }

  /** The position of a cell within its line. */
  function Position(a: Axis, c: int): (p: int)
    requires 0 <= c < CellCount
    ensures 0 <= p < Width
  {
    match a
    case Rows => c % 4
    case Columns => c / 4
  }

  /** Line index and position are the coordinates of a cell, along either axis. */
  lemma CellOfCoordinates(a: Axis, k: int, p: int)
    requires 0 <= k < Width && 0 <= p < Width
    ensures LineIndex(a, CellOf(a, k, p)) == k && Position(a, CellOf(a, k, p)) == p
  {
  }

  lemma CellCoordinates(a: Axis, c: int)
    requires 0 <= c < CellCount
    ensures CellOf(a, LineIndex(a, c), Position(a, c)) == c
  {
  }

  /** `getRow(i)`: the four cells of row i, left to right. */
  function Row(g: seq<int>, i: int): (r: seq<int>)
    requires IsGrid(g) && 0 <= i < Width
    ensures |r| == Width
  {
    g[i * 4..(i + 1) * 4]
  }

  /** `getColumn(j)`: the four cells of column j, top to bottom. */
  function Column(g: seq<int>, j: int): (r: seq<int>)
    requires IsGrid(g) && 0 <= j < Width
    ensures |r| == Width
  {
    [g[j], g[j + 4], g[j + 8], g[j + 12]]
  }

  /** Line k along axis a: a row or a column. */
  function LineOf(g: seq<int>, a: Axis, k: int): (r: seq<int>)
    requires IsGrid(g) && 0 <= k < Width
    ensures |r| == Width
  {
    match a
    case Rows => Row(g, k)
    case Columns => Column(g, k)
  }

  /** Position p of line k is the cell `CellOf(a, k, p)`. */
  lemma LineAt(g: seq<int>, a: Axis, k: int, p: int)
    requires IsGrid(g) && 0 <= k < Width && 0 <= p < Width
    ensures LineOf(g, a, k)[p] == g[CellOf(a, k, p)]
  {
    if a == Columns {
      assert p == 0 || p == 1 || p == 2 || p == 3;
    }
  }

  lemma LineCells(g: seq<int>, a: Axis, k: int)
    requires IsGrid(g) && 0 <= k < Width
    ensures forall p :: 0 <= p < Width ==> LineOf(g, a, k)[p] == g[CellOf(a, k, p)]
  {
    forall p | 0 <= p < Width
      ensures LineOf(g, a, k)[p] == g[CellOf(a, k, p)]
    {
      LineAt(g, a, k, p);
    }
  }

  function Reverse(s: seq<int>): (r: seq<int>)
    ensures |r| == |s|
    ensures forall i :: 0 <= i < |s| ==> r[i] == s[|s| - 1 - i]
  {
    seq(|s|, i requires 0 <= i < |s| => s[|s| - 1 - i])
  }

  lemma ReverseTwice(s: seq<int>)
    ensures Reverse(Reverse(s)) == s
  {
  }

  lemma ReverseSum(s: seq<int>)
    requires |s| == Width
    ensures Sum(Reverse(s)) == Sum(s)
  {
    Sum4(s);
    Sum4(Reverse(s));
  }

  lemma ReverseCount(s: seq<int>)
    ensures |Compress(Reverse(s))| == |Compress(s)|
  {
    ReverseMultiset(s);
    CompressMultiset(s);
    CompressMultiset(Reverse(s));
  }

  lemma {:induction false} ReverseMultiset(s: seq<int>)
    ensures multiset(Reverse(s)) == multiset(s)
    decreases |s|
  {
    if |s| > 0 {
      ReverseMultiset(s[1..]);
      assert Reverse(s) == Reverse(s[1..]) + [s[0]];
      assert s == [s[0]] + s[1..];
    }
  }

  lemma ReverseCells(s: seq<int>)
    ensures ZeroFree(Reverse(s)) <==> ZeroFree(s)
    ensures AllTiles(Reverse(s)) <==> AllTiles(s)
  {
    var r := Reverse(s);
    assert forall i :: 0 <= i < |s| ==> s[i] == r[|s| - 1 - i];
  }

  lemma ReverseNeighbours(s: seq<int>)
    requires |s| == Width
    ensures HasAdjacentEqual(Reverse(s)) <==> HasAdjacentEqual(s)
  {
    var r := Reverse(s);
    if HasAdjacentEqual(s) {
      var i :| 0 <= i < |s| - 1 && s[i] == s[i + 1];
      assert r[Width - 2 - i] == r[Width - 2 - i + 1];
    }
    if HasAdjacentEqual(r) {
      var i :| 0 <= i < |r| - 1 && r[i] == r[i + 1];
      assert s[Width - 2 - i] == s[Width - 2 - i + 1];
    }
  }

  /** The transform applied before merging: identity for Left and Up, reversal
      for Right and Down. */
  function Orient(o: Orientation, s: seq<int>): seq<int>
  {
    match o
    case Forward => s
    case Reversed => Reverse(s)
  }

  /** The cells written back for one line and the points it scores. */
  function ProcessLine(line: seq<int>, o: Orientation, rb: ReverseBack): (r: MergeResult)
    requires |line| == Width
    ensures |r.line| == Width
  {
    var m := Merge(Orient(o, line));
    if o == Reversed && rb == Applied then MergeResult(Reverse(m.line), m.gain) else m
  }

  /** A processed line keeps the line's total and scores what its merge scores. */
  lemma ProcessLineConserves(line: seq<int>, o: Orientation, rb: ReverseBack)
    requires |line| == Width
    ensures Sum(ProcessLine(line, o, rb).line) == Sum(line)
    ensures ProcessLine(line, o, rb).gain == Merge(Orient(o, line)).gain
  {
    if o == Forward {
      MergeConserves(line);
    } else {
      var m := Merge(Reverse(line));
      ReverseSum(line);
      MergeConserves(Reverse(line));
      if rb == Applied {
        ReverseSum(m.line);
      }
    }
  }

  /** A processed line is packed toward index 0, except that a line merged
      reversed and reversed back is packed toward its far end. */
  lemma ProcessLinePacked(line: seq<int>, o: Orientation, rb: ReverseBack)
    requires |line| == Width
    ensures o == Forward || rb == Skipped ==> Packed(ProcessLine(line, o, rb).line)
    ensures o == Reversed && rb == Applied ==> Packed(Reverse(ProcessLine(line, o, rb).line))
  {
    MergeConserves(Orient(o, line));
    if o == Reversed && rb == Applied {
      ReverseTwice(Merge(Reverse(line)).line);
    }
  }

  /** The four processed lines along an axis. */
  function Lines(g: seq<int>, a: Axis, o: Orientation, rb: ReverseBack): (ls: seq<MergeResult>)
    requires IsGrid(g)
    ensures |ls| == Width
    ensures forall k :: 0 <= k < Width ==> |ls[k].line| == Width
  {
    seq(Width, k requires 0 <= k < Width => ProcessLine(LineOf(g, a, k), o, rb))
  }

  /** Points scored by a sequence of processed lines. */
  function LinesGain(ls: seq<MergeResult>): int
  {
    if |ls| == 0 then 0 else LinesGain(ls[..|ls| - 1]) + ls[|ls| - 1].gain
  }

  /** Result of sliding the whole board: the new cells, the points scored, and
      whether any cell changed. */
  datatype SlideResult = SlideResult(grid: seq<int>, gain: int, moved: bool)

  /** Every line along the axis is processed and written back into its own cells;
      the move is reported when some cell differs from what it was. */
  function SlideLines(g: seq<int>, a: Axis, o: Orientation, rb: ReverseBack): (r: SlideResult)
    requires IsGrid(g)
    ensures IsGrid(r.grid)
  {
    var ls := Lines(g, a, o, rb);
    var grid := seq(CellCount, c requires 0 <= c < CellCount => ls[LineIndex(a, c)].line[Position(a, c)]);
    SlideResult(grid, LinesGain(ls), grid != g)
  }

  /** `moveLeft`, `moveRight`, `moveUp`, `moveDown`: Left and Up merge each line as
      read; Right and Down merge each line reversed. */
  function Slide(g: seq<int>, d: Direction, rb: ReverseBack): (r: SlideResult)
    requires IsGrid(g)
    ensures IsGrid(r.grid)
  {
    SlideLines(g, AxisOf(d), OrientationOf(d), rb)
  }

  /** Position p of line k of the slid board holds position p of the processed line k. */
  lemma SlideAt(g: seq<int>, a: Axis, o: Orientation, rb: ReverseBack, k: int, p: int)
    requires IsGrid(g) && 0 <= k < Width && 0 <= p < Width
    ensures SlideLines(g, a, o, rb).grid[CellOf(a, k, p)] == ProcessLine(LineOf(g, a, k), o, rb).line[p]
  {
    CellOfCoordinates(a, k, p);
  }

  /** Line k of the slid board is the processed line k. */
  lemma SlideLine(g: seq<int>, a: Axis, o: Orientation, rb: ReverseBack, k: int)
    requires IsGrid(g) && 0 <= k < Width
    ensures LineOf(SlideLines(g, a, o, rb).grid, a, k) == ProcessLine(LineOf(g, a, k), o, rb).line
  {
    var x := LineOf(SlideLines(g, a, o, rb).grid, a, k);
    var y := ProcessLine(LineOf(g, a, k), o, rb).line;
    forall p | 0 <= p < Width
      ensures x[p] == y[p]
    {
      LineAt(SlideLines(g, a, o, rb).grid, a, k, p);
      SlideAt(g, a, o, rb, k, p);
    }
  }

  /** Each line of the board is overwritten with its own processed line, and
      nothing else: cell (k, p) along the move's axis takes position p of the
      merged line k, so row i writes only cells 4i..4i+3 and column j only
      cells j, j+4, j+8, j+12. */
  lemma SlideWritesOwnLine(g: seq<int>, d: Direction, rb: ReverseBack)
    requires IsGrid(g)
    ensures forall k, p :: 0 <= k < Width && 0 <= p < Width ==>
              Slide(g, d, rb).grid[CellOf(AxisOf(d), k, p)] ==
              ProcessLine(LineOf(g, AxisOf(d), k), OrientationOf(d), rb).line[p]
  {
    forall k, p | 0 <= k < Width && 0 <= p < Width
      ensures Slide(g, d, rb).grid[CellOf(AxisOf(d), k, p)] ==
              ProcessLine(LineOf(g, AxisOf(d), k), OrientationOf(d), rb).line[p]
    {
      SlideAt(g, AxisOf(d), OrientationOf(d), rb, k, p);
    }
  }

  /** Left and Up pack every line toward index 0; so do Right and Down when the
      reversal is not undone. With the reversal undone, Right and Down pack every
      line toward its far end. */
  lemma SlidePacks(g: seq<int>, d: Direction, rb: ReverseBack, k: int)
    requires IsGrid(g) && 0 <= k < Width
    ensures OrientationOf(d) == Forward || rb == Skipped ==> Packed(LineOf(Slide(g, d, rb).grid, AxisOf(d), k))
    ensures OrientationOf(d) == Reversed && rb == Applied ==> Packed(Reverse(LineOf(Slide(g, d, rb).grid, AxisOf(d), k)))
  {
    SlideLine(g, AxisOf(d), OrientationOf(d), rb, k);
    ProcessLinePacked(LineOf(g, AxisOf(d), k), OrientationOf(d), rb);
  }

  /** Some line along the axis comes back different from how it was read. */
  predicate SomeLineChanges(g: seq<int>, a: Axis, o: Orientation, rb: ReverseBack)
    requires IsGrid(g)
  {
    exists k :: 0 <= k < Width && ProcessLine(LineOf(g, a, k), o, rb).line != LineOf(g, a, k)
  }

  /** A slide moves iff some line comes back different from how it was read:
      cells are compared one by one, so one changed cell marks the move. */
  lemma SlideMovedIffLineChanged(g: seq<int>, d: Direction, rb: ReverseBack)
    requires IsGrid(g)
    ensures Slide(g, d, rb).moved <==> SomeLineChanges(g, AxisOf(d), OrientationOf(d), rb)
  {
    var a := AxisOf(d);
    var o := OrientationOf(d);
    if !SlideLines(g, a, o, rb).moved {
      StillMeansUnchanged(g, a, o, rb);
    }
    if !SomeLineChanges(g, a, o, rb) {
      UnchangedMeansStill(g, a, o, rb);
    }
  }

  lemma StillMeansUnchanged(g: seq<int>, a: Axis, o: Orientation, rb: ReverseBack)
    requires IsGrid(g) && !SlideLines(g, a, o, rb).moved
    ensures !SomeLineChanges(g, a, o, rb)
  {
    forall k | 0 <= k < Width
      ensures ProcessLine(LineOf(g, a, k), o, rb).line == LineOf(g, a, k)
    {
      StillLine(g, a, o, rb, k);
    }
  }

  lemma UnchangedMeansStill(g: seq<int>, a: Axis, o: Orientation, rb: ReverseBack)
    requires IsGrid(g) && !SomeLineChanges(g, a, o, rb)
    ensures !SlideLines(g, a, o, rb).moved
  {
    SlideLine(g, a, o, rb, 0);
    SlideLine(g, a, o, rb, 1);
    SlideLine(g, a, o, rb, 2);
    SlideLine(g, a, o, rb, 3);
    SameLines(SlideLines(g, a, o, rb).grid, g, a);
  }

  lemma Sum16(g: seq<int>)
    requires IsGrid(g)
    ensures Sum(g) == Sum(Row(g, 0)) + Sum(Row(g, 1)) + Sum(Row(g, 2)) + Sum(Row(g, 3))
  {
    assert g == Row(g, 0) + Row(g, 1) + Row(g, 2) + Row(g, 3);
    SumConcat(Row(g, 0) + Row(g, 1) + Row(g, 2), Row(g, 3));
    SumConcat(Row(g, 0) + Row(g, 1), Row(g, 2));
    SumConcat(Row(g, 0), Row(g, 1));
  }

  /** The board's total is the sum of its four lines along either axis. */
  lemma SumByLines(g: seq<int>, a: Axis)
    requires IsGrid(g)
    ensures Sum(g) == Sum(LineOf(g, a, 0)) + Sum(LineOf(g, a, 1)) + Sum(LineOf(g, a, 2)) + Sum(LineOf(g, a, 3))
  {
    Sum16(g);
    Sum4(Row(g, 0));
    Sum4(Row(g, 1));
    Sum4(Row(g, 2));
    Sum4(Row(g, 3));
    if a == Columns {
      Sum4(Column(g, 0));
      Sum4(Column(g, 1));
      Sum4(Column(g, 2));
      Sum4(Column(g, 3));
    }
  }

  /** Sliding conserves the total face value of the board: tiles are only moved
      and combined in pairs, never created or lost. */
  lemma SlideConservesSum(g: seq<int>, d: Direction, rb: ReverseBack)
    requires IsGrid(g)
    ensures Sum(Slide(g, d, rb).grid) == Sum(g)
  {
    var a := AxisOf(d);
    var o := OrientationOf(d);
    SumByLines(g, a);
    SumByLines(Slide(g, d, rb).grid, a);
    SlideLineSum(g, a, o, rb, 0);
    SlideLineSum(g, a, o, rb, 1);
    SlideLineSum(g, a, o, rb, 2);
    SlideLineSum(g, a, o, rb, 3);
  }

  lemma SlideLineSum(g: seq<int>, a: Axis, o: Orientation, rb: ReverseBack, k: int)
    requires IsGrid(g) && 0 <= k < Width
    ensures Sum(LineOf(SlideLines(g, a, o, rb).grid, a, k)) == Sum(LineOf(g, a, k))
  {
    SlideLine(g, a, o, rb, k);
    ProcessLineConserves(LineOf(g, a, k), o, rb);
  }

  lemma LinesGain4(ls: seq<MergeResult>)
    requires |ls| == Width
    ensures LinesGain(ls) == ls[0].gain + ls[1].gain + ls[2].gain + ls[3].gain
  {
    var l3, l2, l1 := ls[..3], ls[..2], ls[..1];
    assert l3[..2] == l2 && l3[2] == ls[2];
    assert l2[..1] == l1 && l2[1] == ls[1];
    assert l1[..0] == [] && l1[0] == ls[0];
    assert LinesGain(ls) == LinesGain(l3) + ls[3].gain;
    assert LinesGain(l3) == LinesGain(l2) + ls[2].gain;
    assert LinesGain(l2) == LinesGain(l1) + ls[1].gain;
    assert LinesGain(l1) == ls[0].gain;
  }

  /** A processed line of tiles is a line of tiles and scores a non-negative amount. */
  lemma ProcessLineKeepsTiles(line: seq<int>, o: Orientation, rb: ReverseBack)
    requires |line| == Width && AllTiles(line)
    ensures AllTiles(ProcessLine(line, o, rb).line)
    ensures ProcessLine(line, o, rb).gain >= 0
  {
    if o == Forward {
      MergeKeepsTiles(line);
    } else {
      ReverseCells(line);
      MergeKeepsTiles(Reverse(line));
      ReverseCells(Merge(Reverse(line)).line);
    }
  }

  /** One cell of a slid board of tiles holds a tile. */
  lemma SlideCellKeepsTile(g: seq<int>, a: Axis, o: Orientation, rb: ReverseBack, c: int)
    requires IsGrid(g) && AllTiles(g) && 0 <= c < CellCount
    ensures IsTile(SlideLines(g, a, o, rb).grid[c])
  {
    var k, p := LineIndex(a, c), Position(a, c);
    CellCoordinates(a, c);
    SlideAt(g, a, o, rb, k, p);
    ProcessedLineTiles(g, a, o, rb, k);
  }

  lemma ProcessedLineTiles(g: seq<int>, a: Axis, o: Orientation, rb: ReverseBack, k: int)
    requires IsGrid(g) && AllTiles(g) && 0 <= k < Width
    ensures AllTiles(ProcessLine(LineOf(g, a, k), o, rb).line)
    ensures ProcessLine(LineOf(g, a, k), o, rb).gain >= 0
  {
    LineCells(g, a, k);
    ProcessLineKeepsTiles(LineOf(g, a, k), o, rb);
  }

  /** Every line of a board of tiles scores a non-negative amount. */
  lemma SlideGainNonNegative(g: seq<int>, a: Axis, o: Orientation, rb: ReverseBack)
    requires IsGrid(g) && AllTiles(g)
    ensures SlideLines(g, a, o, rb).gain >= 0
  {
    var ls := Lines(g, a, o, rb);
    forall k | 0 <= k < Width
      ensures ls[k].gain >= 0
    {
      LineCells(g, a, k);
      ProcessLineKeepsTiles(LineOf(g, a, k), o, rb);
    }
    LinesGain4(ls);
  }

  /** Sliding keeps every cell a tile value and never lowers the score. */
  lemma SlideKeepsTiles(g: seq<int>, d: Direction, rb: ReverseBack)
    requires IsGrid(g) && AllTiles(g)
    ensures AllTiles(Slide(g, d, rb).grid)
    ensures Slide(g, d, rb).gain >= 0
  {
    forall c | 0 <= c < CellCount
      ensures IsTile(Slide(g, d, rb).grid[c])
    {
      SlideCellKeepsTile(g, AxisOf(d), OrientationOf(d), rb, c);
    }
    SlideGainNonNegative(g, AxisOf(d), OrientationOf(d), rb);
  }

  /** A line that comes back unchanged scored nothing: every combination leaves
      the line with fewer tiles. */
  lemma UnchangedLineScoresNothing(line: seq<int>, o: Orientation, rb: ReverseBack)
    requires |line| == Width
    requires ProcessLine(line, o, rb).line == line
    ensures ProcessLine(line, o, rb).gain == 0
  {
    if o == Forward {
      MergeStable(line);
    } else {
      var m := Merge(Reverse(line));
      ReverseCount(line);
      MergeStable(Reverse(line));
      if rb == Applied {
        ReverseTwice(m.line);
      }
    }
  }

  /** When a slide moves nothing, every line comes back as it was read. */
  lemma StillLine(g: seq<int>, a: Axis, o: Orientation, rb: ReverseBack, k: int)
    requires IsGrid(g) && 0 <= k < Width
    requires !SlideLines(g, a, o, rb).moved
    ensures ProcessLine(LineOf(g, a, k), o, rb).line == LineOf(g, a, k)
  {
    SlideLine(g, a, o, rb, k);
  }

  /** When a slide moves nothing, no line scores. */
  lemma StillLineScoresNothing(g: seq<int>, a: Axis, o: Orientation, rb: ReverseBack, k: int)
    requires IsGrid(g) && 0 <= k < Width
    requires !SlideLines(g, a, o, rb).moved
    ensures Lines(g, a, o, rb)[k].gain == 0
  {
    StillLine(g, a, o, rb, k);
    UnchangedLineScoresNothing(LineOf(g, a, k), o, rb);
  }

  /** A slide that moves nothing scores nothing. */
  lemma SlideStillScoresNothing(g: seq<int>, d: Direction, rb: ReverseBack)
    requires IsGrid(g)
    requires !Slide(g, d, rb).moved
    ensures Slide(g, d, rb).gain == 0
  {
    var a := AxisOf(d);
    var o := OrientationOf(d);
    var ls := Lines(g, a, o, rb);
    StillLineScoresNothing(g, a, o, rb, 0);
    StillLineScoresNothing(g, a, o, rb, 1);
    StillLineScoresNothing(g, a, o, rb, 2);
    StillLineScoresNothing(g, a, o, rb, 3);
    LinesGain4(ls);
  }

  /** A full line is left alone by the merge iff it has no equal neighbours. */
  lemma FullLineStable(line: seq<int>)
    requires |line| == Width && ZeroFree(line)
    ensures Merge(line).line == line <==> !HasAdjacentEqual(line)
  {
    MergeStable(line);
  }

  /** `isGameOver`: no empty cell and no two equal neighbours in a row or a column. */
  function IsGameOver(g: seq<int>): (over: bool)
    requires IsGrid(g)
    ensures over <==> ZeroFree(g) && NoPairsAlong(g, Rows) && NoPairsAlong(g, Columns)
  {
    NeighbourPairs(g);
    !(0 in g) && NoEqualNeighbours(g)
  }

  /** No line along the axis has two equal neighbours. */
  predicate NoPairsAlong(g: seq<int>, a: Axis)
    requires IsGrid(g)
  {
    forall k :: 0 <= k < Width ==> !HasAdjacentEqual(LineOf(g, a, k))
  }

  /** The two nested loops of `isGameOver`: each cell differs from the cell to its
      right and the cell below it. */
  predicate NoEqualNeighbours(g: seq<int>)
    requires IsGrid(g)
  {
    forall i, j :: 0 <= i < Width && 0 <= j < Width ==> Settled(g, i, j)
  }

  /** Cell (i, j) differs from its right neighbour and from the cell below it. */
  predicate Settled(g: seq<int>, i: int, j: int)
    requires IsGrid(g) && 0 <= i < Width && 0 <= j < Width
  {
    (j < Width - 1 ==> At(g, i, j) != At(g, i, j + 1)) &&
    (i < Width - 1 ==> At(g, i, j) != At(g, i + 1, j))
  }

  lemma NeighbourPairs(g: seq<int>)
    requires IsGrid(g)
    ensures NoEqualNeighbours(g) <==>
              NoPairsAlong(g, Rows) && NoPairsAlong(g, Columns)
  {
    if NoEqualNeighbours(g) {
      forall k, p | 0 <= k < Width && 0 <= p < Width - 1
        ensures LineOf(g, Rows, k)[p] != LineOf(g, Rows, k)[p + 1]
        ensures LineOf(g, Columns, k)[p] != LineOf(g, Columns, k)[p + 1]
      {
        LineAt(g, Rows, k, p);
        LineAt(g, Rows, k, p + 1);
        LineAt(g, Columns, k, p);
        LineAt(g, Columns, k, p + 1);
        assert Settled(g, k, p) && Settled(g, p, k);
      }
    }
    if NoPairsAlong(g, Rows) && NoPairsAlong(g, Columns) {
      forall i, j | 0 <= i < Width && 0 <= j < Width
        ensures Settled(g, i, j)
      {
        if j < Width - 1 {
          LineAt(g, Rows, i, j);
          LineAt(g, Rows, i, j + 1);
          assert !HasAdjacentEqual(LineOf(g, Rows, i));
        }
        if i < Width - 1 {
          LineAt(g, Columns, j, i);
          LineAt(g, Columns, j, i + 1);
          assert !HasAdjacentEqual(LineOf(g, Columns, j));
        }
      }
    }
  }

  /** A line of a board with no empty cell has no empty cell. */
  lemma FullBoardLines(g: seq<int>, a: Axis, k: int)
    requires IsGrid(g) && ZeroFree(g) && 0 <= k < Width
    ensures ZeroFree(LineOf(g, a, k))
  {
    LineCells(g, a, k);
  }

  /** A full line read forward comes back unchanged iff it has no equal neighbours. */
  lemma FullLineStill(g: seq<int>, a: Axis, rb: ReverseBack, k: int)
    requires IsGrid(g) && ZeroFree(g) && 0 <= k < Width
    ensures ProcessLine(LineOf(g, a, k), Forward, rb).line == LineOf(g, a, k)
            <==> !HasAdjacentEqual(LineOf(g, a, k))
  {
    FullBoardLines(g, a, k);
    FullLineStable(LineOf(g, a, k));
  }

  /** Two boards that agree on every line along an axis are equal. */
  lemma SameLines(x: seq<int>, y: seq<int>, a: Axis)
    requires IsGrid(x) && IsGrid(y)
    requires LineOf(x, a, 0) == LineOf(y, a, 0) && LineOf(x, a, 1) == LineOf(y, a, 1)
    requires LineOf(x, a, 2) == LineOf(y, a, 2) && LineOf(x, a, 3) == LineOf(y, a, 3)
    ensures x == y
  {
    forall c | 0 <= c < CellCount
      ensures x[c] == y[c]
    {
      var k, p := LineIndex(a, c), Position(a, c);
      CellCoordinates(a, c);
      LineAt(x, a, k, p);
      LineAt(y, a, k, p);
    }
  }

  /** A full line with no equal neighbours is written back as it was. */
  lemma RestoredLine(g: seq<int>, a: Axis, rb: ReverseBack, k: int)
    requires IsGrid(g) && ZeroFree(g) && 0 <= k < Width
    requires !HasAdjacentEqual(LineOf(g, a, k))
    ensures LineOf(SlideLines(g, a, Forward, rb).grid, a, k) == LineOf(g, a, k)
  {
    FullLineStill(g, a, rb, k);
    SlideLine(g, a, Forward, rb, k);
  }

  /** On a full board, a forward slide along an axis moves nothing iff no line
      along that axis has two equal neighbours. */
  lemma FullBoardStuck(g: seq<int>, a: Axis, rb: ReverseBack)
    requires IsGrid(g) && ZeroFree(g)
    ensures !SlideLines(g, a, Forward, rb).moved <==>
              NoPairsAlong(g, a)
  {
    if !SlideLines(g, a, Forward, rb).moved {
      StuckHasNoPairs(g, a, rb);
    }
    if NoPairsAlong(g, a) {
      NoPairsStuck(g, a, rb);
    }
  }

  lemma NoPairsStuck(g: seq<int>, a: Axis, rb: ReverseBack)
    requires IsGrid(g) && ZeroFree(g)
    requires NoPairsAlong(g, a)
    ensures !SlideLines(g, a, Forward, rb).moved
  {
    var grid := SlideLines(g, a, Forward, rb).grid;
    RestoredLine(g, a, rb, 0);
    RestoredLine(g, a, rb, 1);
    RestoredLine(g, a, rb, 2);
    RestoredLine(g, a, rb, 3);
    SameLines(grid, g, a);
  }

  lemma StuckHasNoPairs(g: seq<int>, a: Axis, rb: ReverseBack)
    requires IsGrid(g) && ZeroFree(g)
    requires !SlideLines(g, a, Forward, rb).moved
    ensures NoPairsAlong(g, a)
  {
    forall k | 0 <= k < Width
      ensures !HasAdjacentEqual(LineOf(g, a, k))
    {
      StillLine(g, a, Forward, rb, k);
      FullLineStill(g, a, rb, k);
    }
  }

  /** The game is over iff the board is full and neither Left nor Up changes it;
      the characterisation holds whichever way reversed lines are written. */
  lemma GameOverIffStuck(g: seq<int>, rb: ReverseBack)
    requires IsGrid(g)
    ensures IsGameOver(g) <==> ZeroFree(g) && !Slide(g, Left, rb).moved && !Slide(g, Up, rb).moved
  {
    if ZeroFree(g) {
      FullBoardStuck(g, Rows, rb);
      FullBoardStuck(g, Columns, rb);
    }
  }

  /** On a finished board, a line along either axis is full and has no equal
      neighbours. */
  lemma StalemateLine(g: seq<int>, a: Axis, k: int)
    requires IsGrid(g) && IsGameOver(g) && 0 <= k < Width
    ensures ZeroFree(LineOf(g, a, k)) && !HasAdjacentEqual(LineOf(g, a, k))
  {
    FullBoardLines(g, a, k);
  }

  /** Once the game is over, no move of the intended game changes the board. */
  lemma StalemateFrozen(g: seq<int>, d: Direction)
    requires IsGrid(g) && IsGameOver(g)
    ensures !Slide(g, d, Applied).moved
  {
    var a, o := AxisOf(d), OrientationOf(d);
    forall k | 0 <= k < Width
      ensures ProcessLine(LineOf(g, a, k), o, Applied).line == LineOf(g, a, k)
    {
      FrozenLine(g, a, o, k);
    }
    UnchangedMeansStill(g, a, o, Applied);
  }

  /** On a finished board every line, read either way, merges back to itself. */
  lemma FrozenLine(g: seq<int>, a: Axis, o: Orientation, k: int)
    requires IsGrid(g) && IsGameOver(g) && 0 <= k < Width
    ensures ProcessLine(LineOf(g, a, k), o, Applied).line == LineOf(g, a, k)
  {
    var line := LineOf(g, a, k);
    StalemateLine(g, a, k);
    if o == Forward {
      FullLineStable(line);
      ProcessForward(line, Applied);
    } else {
      ReverseCells(line);
      ReverseNeighbours(line);
      FullLineStable(Reverse(line));
      ReverseTwice(line);
    }
  }

  /** As written, Right and Down still report a move on a finished board: each
      line is merged reversed and written back reversed, which changes it, since
      its two middle cells differ. */
  lemma StalemateStillMovesAsWritten(g: seq<int>, d: Direction)
    requires IsGrid(g) && IsGameOver(g)
    requires OrientationOf(d) == Reversed
    ensures Slide(g, d, Skipped).moved
  {
    var a := AxisOf(d);
    var line := LineOf(g, a, 0);
    StalemateLine(g, a, 0);
    ReverseCells(line);
    ReverseNeighbours(line);
    FullLineStable(Reverse(line));
    assert line[1] != line[2] by {
      assert !(line[1] == line[1 + 1]);
    }
    assert ProcessLine(line, Reversed, Skipped).line[1] != line[1];
    SlideMovedIffLineChanged(g, d, Skipped);
  }

  lemma MergeLoneTile()
    ensures Merge([2, 0, 0, 0]) == MergeResult([2, 0, 0, 0], 0)
  {
    assert Compress([2, 0, 0, 0]) == [2] by {
      CompressCons(0, []);
      CompressCons(0, [0]);
      CompressCons(0, [0, 0]);
      CompressCons(2, [0, 0, 0]);
    }
    MergeCharacterised([2, 0, 0, 0], [Single(2)]);
    assert Values([Single(2)]) == [2];
  }

  lemma ReverseLoneTile()
    ensures Reverse([0, 0, 0, 2]) == [2, 0, 0, 0]
    ensures Reverse([2, 0, 0, 0]) == [0, 0, 0, 2]
  {
  }

  /** As written, a lone tile at the right end of a row slid Right ends up at the
      left end (and a Down slide sends a bottom tile to the top). */
  lemma ReversedLineAsWritten()
    ensures ProcessLine([0, 0, 0, 2], Reversed, Skipped) == MergeResult([2, 0, 0, 0], 0)
  {
    ReverseLoneTile();
    MergeLoneTile();
  }

  /** With the reversal undone, the same tile stays where it is. */
  lemma ReversedLineApplied()
    ensures ProcessLine([0, 0, 0, 2], Reversed, Applied) == MergeResult([0, 0, 0, 2], 0)
  {
    ReverseLoneTile();
    MergeLoneTile();
  }

  /** The board mirrored along an axis: every line reversed in place. */
  function Flip(g: seq<int>, a: Axis): (f: seq<int>)
    requires IsGrid(g)
    ensures IsGrid(f)
  {
    seq(CellCount, c requires 0 <= c < CellCount => g[CellOf(a, LineIndex(a, c), Width - 1 - Position(a, c))])
  }

  lemma FlipLine(g: seq<int>, a: Axis, k: int)
    requires IsGrid(g) && 0 <= k < Width
    ensures LineOf(Flip(g, a), a, k) == Reverse(LineOf(g, a, k))
  {
    var x := LineOf(Flip(g, a), a, k);
    var y := Reverse(LineOf(g, a, k));
    forall p | 0 <= p < Width
      ensures x[p] == y[p]
    {
      LineAt(Flip(g, a), a, k, p);
      LineAt(g, a, k, Width - 1 - p);
      CellOfCoordinates(a, k, p);
    }
  }

  lemma ProcessReversedAt(line: seq<int>, p: int)
    requires |line| == Width && 0 <= p < Width
    ensures ProcessLine(line, Reversed, Applied).line[p] == Merge(Reverse(line)).line[Width - 1 - p]
  {
  }

  lemma ProcessForward(line: seq<int>, rb: ReverseBack)
    requires |line| == Width
    ensures ProcessLine(line, Forward, rb).line == Merge(line).line
  {
  }

  lemma FlipAt(s: seq<int>, a: Axis, c: int)
    requires IsGrid(s) && 0 <= c < CellCount
    ensures Flip(s, a)[c] == s[CellOf(a, LineIndex(a, c), Width - 1 - Position(a, c))]
  {
  }

  /** One cell of the mirror property of `ReversedSlideMirrors`. */
  lemma MirrorCell(g: seq<int>, a: Axis, c: int)
    requires IsGrid(g) && 0 <= c < CellCount
    ensures SlideLines(g, a, Reversed, Applied).grid[c] ==
            Flip(SlideLines(Flip(g, a), a, Forward, Applied).grid, a)[c]
  {
    var k, p := LineIndex(a, c), Position(a, c);
    CellCoordinates(a, c);
    SlideReversedAt(g, a, k, p);
    SlideFlippedAt(g, a, k, p);
  }

  lemma SlideReversedAt(g: seq<int>, a: Axis, k: int, p: int)
    requires IsGrid(g) && 0 <= k < Width && 0 <= p < Width
    ensures SlideLines(g, a, Reversed, Applied).grid[CellOf(a, k, p)] ==
            Merge(Reverse(LineOf(g, a, k))).line[Width - 1 - p]
  {
    SlideAt(g, a, Reversed, Applied, k, p);
    ProcessReversedAt(LineOf(g, a, k), p);
  }

  lemma SlideFlippedAt(g: seq<int>, a: Axis, k: int, p: int)
    requires IsGrid(g) && 0 <= k < Width && 0 <= p < Width
    ensures Flip(SlideLines(Flip(g, a), a, Forward, Applied).grid, a)[CellOf(a, k, p)] ==
            Merge(Reverse(LineOf(g, a, k))).line[Width - 1 - p]
  {
    var s := SlideLines(Flip(g, a), a, Forward, Applied).grid;
    CellOfCoordinates(a, k, p);
    FlipAt(s, a, CellOf(a, k, p));
    ForwardSlideOfFlipAt(g, a, k, Width - 1 - p);
  }

  lemma ForwardSlideOfFlipAt(g: seq<int>, a: Axis, k: int, q: int)
    requires IsGrid(g) && 0 <= k < Width && 0 <= q < Width
    ensures SlideLines(Flip(g, a), a, Forward, Applied).grid[CellOf(a, k, q)] ==
            Merge(Reverse(LineOf(g, a, k))).line[q]
  {
    var f := Flip(g, a);
    SlideAt(f, a, Forward, Applied, k, q);
    ProcessForward(LineOf(f, a, k), Applied);
    FlipLine(g, a, k);
  }

  /** The mirror property along one axis: the reversed slide is the forward
      slide of the flipped board, flipped back. */
  lemma SlideLinesMirror(g: seq<int>, a: Axis)
    requires IsGrid(g)
    ensures SlideLines(g, a, Reversed, Applied).grid == Flip(SlideLines(Flip(g, a), a, Forward, Applied).grid, a)
  {
    var x := SlideLines(g, a, Reversed, Applied).grid;
    var y := Flip(SlideLines(Flip(g, a), a, Forward, Applied).grid, a);
    forall c | 0 <= c < CellCount
      ensures x[c] == y[c]
    {
      MirrorCell(g, a, c);
    }
  }

  /** With the reversal undone, Right and Down are Left and Up on the mirrored
      board, mirrored back: a line is processed as if its positions were counted
      from the far end. */
  lemma ReversedSlideMirrors(g: seq<int>, d: Direction)
    requires IsGrid(g)
    requires OrientationOf(d) == Reversed
    ensures Slide(g, d, Applied).grid == Flip(Slide(Flip(g, AxisOf(d)), Opposite(d), Applied).grid, AxisOf(d))
  {
    assert AxisOf(Opposite(d)) == AxisOf(d) && OrientationOf(Opposite(d)) == Forward;
    SlideLinesMirror(g, AxisOf(d));
  }

  /** `hasWon`: some cell holds the winning tile. */
  function HasWon(g: seq<int>): (won: bool)
    ensures won <==> exists c :: 0 <= c < |g| && g[c] == WinningTile
  {
    WinningTile in g
  }

  /** The indices of the empty cells from index `from` on, in increasing order
      (the `reduce` that collects `emptyCells`). */
  function EmptyCellsFrom(g: seq<int>, from: nat): (e: seq<int>)
    requires from <= |g|
    ensures forall k :: k in e <==> from <= k < |g| && g[k] == 0
    ensures forall x, y :: 0 <= x < y < |e| ==> e[x] < e[y]
    decreases |g| - from
  {
    if from == |g| then []
    else
      var rest := EmptyCellsFrom(g, from + 1);
      assert forall y :: 0 <= y < |rest| ==> rest[y] in rest;
      if g[from] == 0 then [from] + rest else rest
  }

  function EmptyCells(g: seq<int>): (e: seq<int>)
    ensures forall k :: k in e <==> 0 <= k < |g| && g[k] == 0
  {
    EmptyCellsFrom(g, 0)
  }

  predicate IsRoll(x: real)
  {
    0.0 <= x < 1.0
  }

  /** `Math.floor(Math.random() * n)` for a draw `roll` in [0, 1). */
  function PickIndex(roll: real, n: int): (i: int)
    requires IsRoll(roll) && n > 0
    ensures 0 <= i < n
  {
    var m := n as real;
    var x := roll * m;
    assert 0.0 <= x < m by {
      assert 0.0 < (1.0 - roll) * m;
      assert (1.0 - roll) * m == m - x;
    }
    x.Floor
  }

  /** A 2 nine times in ten, otherwise a 4. */
  function NewTileValue(roll: real): (v: int)
    requires IsRoll(roll)
    ensures v == 2 || v == 4
  {
    if roll < 0.9 then 2 else 4
  }

  /** `addNewTile`, with the two `Math.random()` draws as parameters: one empty
      cell receives a 2 or a 4; a full board is left as it is. */
  function AddNewTile(g: seq<int>, cellRoll: real, valueRoll: real): (r: seq<int>)
    requires IsGrid(g) && IsRoll(cellRoll) && IsRoll(valueRoll)
    ensures IsGrid(r)
    ensures ZeroFree(g) ==> r == g
    ensures !ZeroFree(g) ==>
              exists c :: 0 <= c < CellCount && g[c] == 0 && (r[c] == 2 || r[c] == 4) &&
                forall c' :: 0 <= c' < CellCount && c' != c ==> r[c'] == g[c']
  {
    var empty := EmptyCells(g);
    if |empty| == 0 then
      g
    else
      var c := empty[PickIndex(cellRoll, |empty|)];
      assert c in empty;
      g[c := NewTileValue(valueRoll)]
  }

  /** The draw p / n picks index p of n. */
  lemma PickIndexHits(p: int, n: int)
    requires 0 <= p < n
    ensures IsRoll(p as real / n as real)
    ensures PickIndex(p as real / n as real, n) == p
  {
    var roll := p as real / n as real;
    assert roll * n as real == p as real;
    assert roll < 1.0 by {
      assert roll * n as real < 1.0 * n as real;
    }
  }

  /** Every outcome the game allows is reachable by some pair of draws: any empty
      cell, holding a 2 or a 4. */
  lemma AddNewTileReachesEveryCell(g: seq<int>, c: int, v: int)
    requires IsGrid(g) && 0 <= c < CellCount && g[c] == 0
    requires v == 2 || v == 4
    ensures exists cellRoll, valueRoll ::
              IsRoll(cellRoll) && IsRoll(valueRoll) && AddNewTile(g, cellRoll, valueRoll) == g[c := v]
  {
    var empty := EmptyCells(g);
    assert c in empty;
    var p :| 0 <= p < |empty| && empty[p] == c;
    var cellRoll := p as real / |empty| as real;
    PickIndexHits(p, |empty|);
    var valueRoll := if v == 2 then 0.0 else 0.95;
    assert NewTileValue(valueRoll) == v;
    assert IsRoll(valueRoll);
    assert AddNewTile(g, cellRoll, valueRoll) == g[c := v];
  }

  /** Placing a tile keeps every cell a tile value. */
  lemma AddNewTileKeepsTiles(g: seq<int>, cellRoll: real, valueRoll: real)
    requires IsGrid(g) && IsRoll(cellRoll) && IsRoll(valueRoll) && AllTiles(g)
    ensures AllTiles(AddNewTile(g, cellRoll, valueRoll))
  {
    var r := AddNewTile(g, cellRoll, valueRoll);
    if !ZeroFree(g) {
      var c :| 0 <= c < CellCount && g[c] == 0 && (r[c] == 2 || r[c] == 4) &&
                forall c' :: 0 <= c' < CellCount && c' != c ==> r[c'] == g[c'];
      assert PowerOfTwo(2) by { assert PowerOfTwo(1); }
      assert PowerOfTwo(4) by { assert PowerOfTwo(2) by { assert PowerOfTwo(1); } }
    }
  }
}
