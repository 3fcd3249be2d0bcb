/** The board-wide slide as the game performs it: line after line, each line is
    read from the board as it stands, merged, and written back cell by cell, a
    cell being written only when its value changes. The loops compute exactly the
    functional slide of the `Board` module. */
module Moves {
  import opened Line
  import opened Board

  /** Cell c is written by the time position p of line k is reached: its line
      comes earlier, or it is an earlier position of line k. */
  predicate Before(a: Axis, c: int, k: int, p: int)
    requires 0 <= c < CellCount
  {
    LineIndex(a, c) < k || (LineIndex(a, c) == k && Position(a, c) < p)
  }

  /** The board part-way through a slide: written cells hold the slid value, the
      others still hold their original value. */
  ghost predicate Written(grid: seq<int>, g: seq<int>, target: seq<int>, a: Axis, k: int, p: int)
  {
    IsGrid(grid) && IsGrid(g) && IsGrid(target) &&
    forall c :: 0 <= c < CellCount ==> grid[c] == (if Before(a, c, k, p) then target[c] else g[c])
  }

  /** Before line k is written, it reads as it did on the original board: a line
      writes only its own cells. */
  lemma ReadUntouchedLine(grid: seq<int>, g: seq<int>, target: seq<int>, a: Axis, k: int)
    requires 0 <= k < Width
    requires Written(grid, g, target, a, k, 0)
    ensures LineOf(grid, a, k) == LineOf(g, a, k)
  {
    forall p | 0 <= p < Width
      ensures LineOf(grid, a, k)[p] == LineOf(g, a, k)[p]
    {
      CellOfCoordinates(a, k, p);
      LineAt(grid, a, k, p);
      LineAt(g, a, k, p);
    }
  }

  /** Writing position p of line k with its slid value (or leaving it, when it
      already holds that value) advances the frontier by one cell. */
  lemma WriteCell(grid: seq<int>, g: seq<int>, target: seq<int>, a: Axis, k: int, p: int)
    requires 0 <= k < Width && 0 <= p < Width
    requires Written(grid, g, target, a, k, p)
    ensures grid[CellOf(a, k, p)] == g[CellOf(a, k, p)]
    ensures Written(grid[CellOf(a, k, p) := target[CellOf(a, k, p)]], g, target, a, k, p + 1)
  {
    CellOfCoordinates(a, k, p);
    var cell := CellOf(a, k, p);
    var next := grid[cell := target[cell]];
    forall c | 0 <= c < CellCount
      ensures next[c] == (if Before(a, c, k, p + 1) then target[c] else g[c])
    {
      if c != cell {
        CellCoordinates(a, c);
      }
    }
  }

  lemma NextLine(grid: seq<int>, g: seq<int>, target: seq<int>, a: Axis, k: int)
    requires Written(grid, g, target, a, k, Width)
    ensures Written(grid, g, target, a, k + 1, 0)
  {
  }

  lemma AllWritten(grid: seq<int>, g: seq<int>, target: seq<int>, a: Axis)
    requires Written(grid, g, target, a, Width, 0)
    ensures grid == target
  {
  }

  lemma LinesGainStep(ls: seq<MergeResult>, k: int)
    requires 0 <= k < |ls|
    ensures LinesGain(ls[..k + 1]) == LinesGain(ls[..k]) + ls[k].gain
  {
    assert ls[..k + 1][..k] == ls[..k];
  }

  /** The merge of one line, with the reversal written back when it is applied:
      `finalRow` / `finalCol` in js/game.js. */
  method ProcessLoop(line: seq<int>, o: Orientation, rb: ReverseBack) returns (final: seq<int>, gain: int)
    requires |line| == Width
    ensures final == ProcessLine(line, o, rb).line
    ensures gain == ProcessLine(line, o, rb).gain
  {
    var transformed := if o == Reversed then Reverse(line) else line;
    var merged;
    merged, gain := MergeLoop(transformed);
    final := if o == Reversed && rb == Applied then Reverse(merged) else merged;
  }

  /** The inner loop of `moveInRows` / `moveInColumns`: the cells of line k are
      compared one by one with the processed line and overwritten when they
      differ, setting `moved`. */
  method WriteLine(grid: seq<int>, moved: bool, ghost g: seq<int>, ghost target: seq<int>,
                   a: Axis, k: int, final: seq<int>)
    returns (grid': seq<int>, moved': bool)
    requires 0 <= k < Width && |final| == Width
    requires Written(grid, g, target, a, k, 0)
    requires forall p :: 0 <= p < Width ==> target[CellOf(a, k, p)] == final[p]
    requires moved <==> grid != g
    ensures Written(grid', g, target, a, k + 1, 0)
    ensures moved' <==> grid' != g
  {
    grid', moved' := grid, moved;
    var p := 0;
    while p < Width
      invariant 0 <= p <= Width
      invariant Written(grid', g, target, a, k, p)
      invariant moved' <==> grid' != g
    {
      var cell := CellOf(a, k, p);
      WriteCell(grid', g, target, a, k, p);
      if grid'[cell] != final[p] {
        moved' := true;
        grid' := grid'[cell := final[p]];
        assert grid'[cell] != g[cell];
      } else {
        assert grid'[cell := final[p]] == grid';
      }
      p := p + 1;
    }
    NextLine(grid', g, target, a, k);
  }

  /** `target` is the board with every line along the axis replaced by its
      processed line. */
  ghost predicate SlidTo(g: seq<int>, target: seq<int>, a: Axis, o: Orientation, rb: ReverseBack)
    requires IsGrid(g) && IsGrid(target)
  {
    forall k, p :: 0 <= k < Width && 0 <= p < Width ==>
      target[CellOf(a, k, p)] == ProcessLine(LineOf(g, a, k), o, rb).line[p]
  }

  lemma SlideLinesSlidTo(g: seq<int>, a: Axis, o: Orientation, rb: ReverseBack)
    requires IsGrid(g)
    ensures SlidTo(g, SlideLines(g, a, o, rb).grid, a, o, rb)
  {
    forall k, p | 0 <= k < Width && 0 <= p < Width
      ensures SlideLines(g, a, o, rb).grid[CellOf(a, k, p)] == ProcessLine(LineOf(g, a, k), o, rb).line[p]
    {
      SlideAt(g, a, o, rb, k, p);
    }
  }

  /** One turn of the outer loop of `moveInRows` / `moveInColumns`: line k is
      read, processed and written back, and its points are added. */
  method SweepLine(grid: seq<int>, gain: int, moved: bool, ghost g: seq<int>, a: Axis, o: Orientation,
                   rb: ReverseBack, ghost target: seq<int>, ghost ls: seq<MergeResult>, k: int)
    returns (grid': seq<int>, gain': int, moved': bool)
    requires 0 <= k < Width && |ls| == Width
    requires Written(grid, g, target, a, k, 0) && SlidTo(g, target, a, o, rb)
    requires ls[k] == ProcessLine(LineOf(g, a, k), o, rb)
    requires gain == LinesGain(ls[..k])
    requires moved <==> grid != g
    ensures Written(grid', g, target, a, k + 1, 0)
    ensures gain' == LinesGain(ls[..k + 1])
    ensures moved' <==> grid' != g
  {
    ReadUntouchedLine(grid, g, target, a, k);
    var final, lineGain := ProcessLoop(LineOf(grid, a, k), o, rb);
    LinesGainStep(ls, k);
    gain' := gain + lineGain;
    grid', moved' := WriteLine(grid, moved, g, target, a, k, final);
  }

  /** The loops of `moveInRows` / `moveInColumns` against any description of
      the slid board. */
  method Sweep(g: seq<int>, a: Axis, o: Orientation, rb: ReverseBack, ghost target: seq<int>, ghost ls: seq<MergeResult>)
    returns (grid: seq<int>, gain: int, moved: bool)
    requires IsGrid(g) && IsGrid(target) && SlidTo(g, target, a, o, rb)
    requires |ls| == Width && forall k :: 0 <= k < Width ==> ls[k] == ProcessLine(LineOf(g, a, k), o, rb)
    ensures grid == target
    ensures gain == LinesGain(ls)
    ensures moved <==> grid != g
  {
    grid, gain, moved := g, 0, false;
    var k := 0;
    while k < Width
      invariant 0 <= k <= Width
      invariant Written(grid, g, target, a, k, 0)
      invariant gain == LinesGain(ls[..k])
      invariant moved <==> grid != g
    {
      grid, gain, moved := SweepLine(grid, gain, moved, g, a, o, rb, target, ls, k);
      k := k + 1;
    }
    AllWritten(grid, g, target, a);
    assert ls[..Width] == ls;
  }

  /** `moveInRows` / `moveInColumns`: each line in turn is read from the current
      board, processed, and written back cell by cell; `moved` is set the first
      time a cell changes, and the merge points accumulate in `gain`. */
  method MoveInLines(g: seq<int>, a: Axis, o: Orientation, rb: ReverseBack)
    returns (grid: seq<int>, gain: int, moved: bool)
    requires IsGrid(g)
    ensures grid == SlideLines(g, a, o, rb).grid
    ensures gain == SlideLines(g, a, o, rb).gain
    ensures moved == SlideLines(g, a, o, rb).moved
  {
    SlideLinesSlidTo(g, a, o, rb);
    grid, gain, moved := Sweep(g, a, o, rb, SlideLines(g, a, o, rb).grid, Lines(g, a, o, rb));
  }

  /** `moveInRows`: the rows, top to bottom. */
  method MoveInRows(g: seq<int>, o: Orientation, rb: ReverseBack) returns (grid: seq<int>, gain: int, moved: bool)
    requires IsGrid(g)
    ensures grid == SlideLines(g, Rows, o, rb).grid
    ensures gain == SlideLines(g, Rows, o, rb).gain
    ensures moved <==> grid != g
  {
    grid, gain, moved := MoveInLines(g, Rows, o, rb);
  }

  /** `moveInColumns`: the columns, left to right. */
  method MoveInColumns(g: seq<int>, o: Orientation, rb: ReverseBack) returns (grid: seq<int>, gain: int, moved: bool)
    requires IsGrid(g)
    ensures grid == SlideLines(g, Columns, o, rb).grid
    ensures gain == SlideLines(g, Columns, o, rb).gain
    ensures moved <==> grid != g
  {
    grid, gain, moved := MoveInLines(g, Columns, o, rb);
  }

  /** `moveLeft`, `moveRight`, `moveUp`, `moveDown`: rows for Left and Right,
      columns for Up and Down, reversed for Right and Down. */
  method MoveDirection(g: seq<int>, d: Direction, rb: ReverseBack) returns (grid: seq<int>, gain: int, moved: bool)
    requires IsGrid(g)
    ensures SlideResult(grid, gain, moved) == Slide(g, d, rb)
  {
    match d
    case Left => grid, gain, moved := MoveInRows(g, Forward, rb);
    case Right => grid, gain, moved := MoveInRows(g, Reversed, rb);
    case Up => grid, gain, moved := MoveInColumns(g, Forward, rb);
    case Down => grid, gain, moved := MoveInColumns(g, Reversed, rb);
  }
}
