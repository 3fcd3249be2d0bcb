# 2048 grid engine, modelled in Dafny

This project models the game engine of the browser 2048 game in `js/game.js`
(class `Game2048`). It covers the 4×4 board and what happens to it when the
player moves, undoes or starts a new game. The board is sixteen integers in
row-major order: cell `i * 4 + j` is row `i`, column `j`, and 0 is an empty cell.
Everything is modelled as pure functions on immutable values. The loops of
`merge`, `moveInRows` and `moveInColumns` are mirrored by methods that are
proved to compute those functions; the other loops are stated as functions and
predicates only.

- `Line` (`line.dfy`) models `merge`. The zeros are filtered out. Then a greedy
  left-to-right scan merges each equal neighbouring pair once and adds the merged
  value to the points. The result is padded with zeros to four cells. The scan is
  characterised independently: the compressed line splits in exactly one way into
  single tiles and pairs of equal tiles, with every pair taken as early as
  possible (`Pairing` with `PairingUnique`).
- `Board` (`board.dfy`) models the rest of the board logic:
  - rows and columns (`getRow`, `getColumn`);
  - the four directions, which slide along rows or columns, forwards or reversed;
  - the game-over and win tests;
  - `addNewTile`. Its two `Math.random()` draws are parameters in [0, 1).
- `Moves` (`moves.dfy`) models `moveInRows` / `moveInColumns` as the game runs
  them. Each line is read from the board as it currently stands, merged, and
  written back cell by cell, and `moved` is set at the first cell that changes.
  These loops are proved to compute the slide defined in `Board`.
- `Game` (`game.dfy`) models the game state: board, score, best score, undo
  snapshot, undo flag and animation flag. It defines `savePreviousState`,
  `undo`, `move` and `init` over that state, and `Swipe`, the last step of the
  touch handler, which raises the animation flag and requests a move.

The moves that run towards higher indices (Right, Down) are meant to reverse
the line, merge it, and reverse the result back. The code decides whether to
reverse back by comparing the `transform` argument with a freshly written arrow
function (`js/game.js:147`, `js/game.js:186`). Two distinct function objects are
never identical, so that comparison is always false and the result is never
reversed back.

The model therefore takes a `ReverseBack` switch:

- `Skipped` is the code as written.
- `Applied` is the evident intent.

Both are proved about; see "## Findings".

`move` takes the undo snapshot before it knows whether anything will change. So
a move that changes nothing still replaces the snapshot and arms undo, and the
earlier snapshot is lost (`Game.NoOpMoveStillArmsUndo`). `undo` does not look at
the animation flag. The model follows the code in both respects.

## Model

| member | source | states |
|---|---|---|
| Line.Compress | js/game.js:232 | filtering out zeros leaves no zero, never lengthens the line, keeps the sum, and leaves a zero-free line as it is |
| Line.CompressMultiset | js/game.js:232 | filtering keeps every non-zero tile with its multiplicity and removes exactly the zeros |
| Line.CompressConcat | js/game.js:232 | filtering a concatenation is the concatenation of the filtered parts |
| Line.Pad | js/game.js:249-251 | padding keeps the prefix, reaches length n, and adds only zeros |
| Line.PadFacts | js/game.js:249-251 | a zero-free line padded with zeros is packed to the front, filters back to itself, and keeps its sum |
| Line.Pairing | js/game.js:236-247 | the groups of the scan flatten back to the filtered line and take every pair as early as possible |
| Line.PairingUnique | js/game.js:236-247 | any grouping into singles and pairs that is greedy is the scan's grouping: the scan is determined by that property alone |
| Line.PairingLength | js/game.js:236-247 | the scan never produces more tiles than it reads, and strictly fewer when two neighbours are equal |
| Line.PairingWithoutPairs | js/game.js:236-247 | without equal neighbours the scan copies the line and scores nothing |
| Line.PairingFacts | js/game.js:236-247 | merging keeps the sum of the tiles and produces no zero |
| Line.PairingKeepsTiles | js/game.js:238-239 | merging two equal powers of two gives a power of two |
| Line.PairingGain | js/game.js:240 | on positive tiles the points are never negative, and positive exactly when some pair merges |
| Line.Merge | js/game.js:231-254 | the merged line of a line of at most four cells has four cells |
| Line.MergeConserves | js/game.js:231-254 | the merged line is packed to the front, keeps the sum of the line, and has no more tiles than the line |
| Line.MergeCharacterised | js/game.js:231-254 | the merged line is the padded values of the greedy grouping and the points are the sum of its pairs |
| Line.MergeStable | js/game.js:231-254 | the line only slides (and scores nothing) exactly when no two remaining neighbours are equal; otherwise the tile count drops |
| Line.MergeKeepsTiles | js/game.js:231-254 | a line of tiles merges into a line of tiles with non-negative points |
| Line.MergeFourEqual | js/game.js:236-247 | four equal tiles make two merged tiles, never one |
| Line.MergeAcrossGaps | js/game.js:232-247 | equal tiles separated by empty cells still merge |
| Line.MergeNoNeighbours | js/game.js:236-247 | equal tiles separated by a different tile do not merge |
| Line.MergeNoChain | js/game.js:236-247 | a freshly merged tile does not merge again in the same move |
| Line.MergeLoop | js/game.js:231-254 | the filter, scan and pad loops compute the merged line and its points |
| Line.Scan | js/game.js:236-247 | the scan loop with its index and result list computes the greedy grouping's values and points |
| Board.CellCoordinates | js/game.js:151-154 | every cell is position p of line k, for rows and for columns alike |
| Board.Row | js/game.js:218-220 | `getRow` gives four cells; which cells they are is stated by Board.LineAt |
| Board.Column | js/game.js:222-229 | `getColumn` gives four cells; which cells they are is stated by Board.LineAt |
| Board.LineAt | js/game.js:218-229 | position p of row k is cell k*4+p and position p of column k is cell p*4+k |
| Board.Reverse | js/game.js:131 | the reversed line has the same length and position i holds the cell at the mirrored position |
| Board.ReverseTwice | js/game.js:131 | reversing a line twice gives it back |
| Board.ReverseMultiset | js/game.js:131 | reversing keeps the tiles of a line |
| Board.ReverseNeighbours | js/game.js:131 | a line has equal neighbours exactly when its reversal does |
| Board.ProcessLine | js/game.js:143-149 | the processed line has four cells; its sum and points are stated by Board.ProcessLineConserves and its packing by Board.ProcessLinePacked |
| Board.ProcessLineConserves | js/game.js:143-149 | processing a line keeps its sum, and its points are those of merging the oriented line |
| Board.ProcessLinePacked | js/game.js:143-149 | a processed line is packed to its front, or to its back when the reversal is applied |
| Board.SlideLines | js/game.js:140-216 | the slid board has sixteen cells; its lines are stated by Board.SlideLine and its `moved` flag by Board.SlideMovedIffLineChanged |
| Board.Slide | js/game.js:124-138 | each direction slides along its axis in its orientation and gives a sixteen-cell board; its properties are the Slide lemmas below |
| Board.SlideLine | js/game.js:140-177 | after a slide, line k holds the processed line k of the original board |
| Board.SlideWritesOwnLine | js/game.js:151-154 | every cell of the slid board is its own line's processed value |
| Board.SlidePacks | js/game.js:124-138 | Left and Up pack every line to its start; Right and Down pack to the end only when the reversal is applied |
| Board.SlideMovedIffLineChanged | js/game.js:152-154 | a slide reports a move exactly when some processed line differs from the line it came from |
| Board.SlideConservesSum | js/game.js:140-216 | sliding never changes the total of the board |
| Board.SlideKeepsTiles | js/game.js:140-216 | sliding a board of tiles gives a board of tiles and non-negative points |
| Board.SlideStillScoresNothing | js/game.js:140-216 | a slide that changes no cell scores no points |
| Board.FullLineStable | js/game.js:231-254 | a full line comes back unchanged exactly when no two neighbours are equal |
| Board.IsGameOver | js/game.js:260-275 | the game is over exactly when no cell is empty and no two horizontal or vertical neighbours are equal |
| Board.NoEqualNeighbours | js/game.js:263-272 | no cell equals its right or lower neighbour; Board.NeighbourPairs states it is the same as no equal neighbours along any row or column |
| Board.NeighbourPairs | js/game.js:263-272 | checking right and lower neighbours of every cell is the same as checking every row and every column |
| Board.FullBoardStuck | js/game.js:140-177 | on a full board a forward slide along an axis changes nothing exactly when no line along it has equal neighbours |
| Board.GameOverIffStuck | js/game.js:260-275 | the game is over exactly when the board is full and neither Left nor Up changes anything |
| Board.StalemateFrozen | js/game.js:260-275 | once the game is over, no move changes the board when the reversal is applied |
| Board.StalemateStillMovesAsWritten | js/game.js:186-188 | as written, Right and Down on a finished board still report a move |
| Board.ReversedLineAsWritten | js/game.js:147-149 | as written, Right on a row `0 0 0 2` puts the tile at the left end |
| Board.ReversedLineApplied | js/game.js:147-149 | with the reversal applied, Right on `0 0 0 2` leaves the tile at the right end |
| Board.FlipLine | js/game.js:129-138 | flipping the board along an axis reverses every line along it |
| Board.ReversedSlideMirrors | js/game.js:128-138 | with the reversal applied, Right and Down are Left and Up on the mirrored board, mirrored back |
| Board.HasWon | js/game.js:256-258 | the game is won exactly when some cell holds 2048 |
| Board.EmptyCells | js/game.js:53-56 | the empty-cell list holds exactly the indices of the empty cells |
| Board.EmptyCellsFrom | js/game.js:53-56 | the indices are collected in increasing order, each once |
| Board.PickIndex | js/game.js:59 | scaling a draw in [0, 1) by the list length and rounding down gives a valid index |
| Board.NewTileValue | js/game.js:60 | a new tile is a 2 or a 4 |
| Board.AddNewTile | js/game.js:52-67 | a full board is left alone; otherwise exactly one empty cell gets a 2 or a 4 and every other cell is unchanged |
| Board.AddNewTileReachesEveryCell | js/game.js:58-60 | every empty cell, with either value, is the outcome of some pair of draws |
| Board.AddNewTileKeepsTiles | js/game.js:52-67 | a board of tiles stays a board of tiles |
| Moves.ProcessLoop | js/game.js:143-149 | transforming, merging and optionally reversing back one line computes the processed line and its points |
| Moves.WriteLine | js/game.js:151-154 | the cell-by-cell write of a line installs the processed line and keeps `moved` equal to "some cell changed" |
| Moves.Sweep | js/game.js:140-177 | the outer loop writes every line, totals their points, and reports a move exactly when the board changed |
| Moves.MoveInRows | js/game.js:140-177 | the row loop computes the row slide, its points, and whether the board changed |
| Moves.MoveInColumns | js/game.js:179-216 | the column loop computes the column slide, its points, and whether the board changed |
| Moves.MoveDirection | js/game.js:124-138 | each direction runs the loop of its axis in its orientation and computes that slide |
| Game.SavePreviousState | js/game.js:35-41 | the snapshot holds the current board and score and undo is armed; nothing else changes |
| Game.Undo | js/game.js:43-50 | when armed, the board and score come back from the snapshot and undo is disarmed; otherwise nothing happens; the best score is never touched |
| Game.UndoIdempotent | js/game.js:43-50 | a second undo in a row does nothing |
| Game.UndoAfterSave | js/game.js:35-50 | undo right after a save gives back the saved board and score |
| Game.NoticeFor | js/game.js:116-120 | the game-over notice is shown exactly on a finished board, and the win notice only when the game is not over and 2048 is on the board |
| Game.Move | js/game.js:83-122 | while animating nothing happens; otherwise undo is armed with the board and score from before the move, the points of the slide are added, and the best score never drops |
| Game.NoOpMoveStillArmsUndo | js/game.js:83-103 | a move that changes nothing keeps the board and score and shows nothing, but replaces the snapshot and arms undo |
| Game.MovedBestScore | js/game.js:103-120 | after a changing move a tile is added, the best score becomes the larger of the old best and the new score, and the notice reflects the new board |
| Game.UndoAfterMove | js/game.js:43-50 | undo right after a move gives back the board and score from before the move |
| Game.MoveKeepsTiles | js/game.js:83-122 | a move keeps every cell a tile value and never lowers the score |
| Game.StalemateMoveIsNoOp | js/game.js:83-122 | with the reversal applied, a move on a finished board changes neither board nor score and shows nothing |
| Game.Swipe | js/game.js:393-410 | a recognised swipe leaves the debounce flag raised, keeps the state well formed, and never lowers the best score |
| Game.SwipeDroppedAsWritten | js/game.js:393-410 | as written, the flag is raised before `move`, which then returns at once: a swipe changes nothing but the flag |
| Game.SwipeMovesWhenRaisedAfter | js/game.js:83-122 | with the flag raised after the move, a swipe on a settled game arms undo, scores the slide, and spawns on a changed board |
| Game.Init | js/game.js:17-29 | a new game has score 0, no snapshot and undo disarmed, and keeps the best score |
| Game.OpeningBoard | js/game.js:26-27 | the two spawns on the empty board give a sixteen-cell board; its contents are stated by Game.InitPlacesTwoTiles |
| Game.InitPlacesTwoTiles | js/game.js:17-29 | a new game starts with exactly two tiles, each a 2 or a 4, in different cells |

## Left out

- Drawing is left out: `updateView`, the tile and merge animations, the score pop-ups and the game-over and win panels. A move returns the notice it asks for instead. That is not always what appears: `showWinMessage` shows nothing while any `.game-over` element is on the page (`js/game.js:289`), including an earlier win panel during its three seconds.
- Timers are left out. The touch handler raises `isAnimating` itself (`js/game.js:394`) and a 100 ms timer lowers it again (`js/game.js:395-397`). Game.Swipe models the raising; the timer that lowers it is not modelled, so the flag is a field of the state that only Game.Swipe sets.
- The keyboard and button wiring and the touch handler's gesture recognition (`js/game.js:342-391`) are left out; the handler's last step is Game.Swipe. The callers pass only the four arrow keys, so `move` takes a `Direction` and the unrecognised-key case of the `switch` never arises.
- `localStorage` is left out. The stored `bestScore` key is read at construction (`js/game.js:5`) and written when the best score rises (`js/game.js:109`). Here the best score is part of the state, and the storage write is left out.
- The saved `gameState` is left out. It is written when the page is hidden (`js/game.js:443-451`) and read back at construction (`js/game.js:466-480`), which assigns grid, score and best score from storage without any validation. A restored game therefore need not satisfy Game.Valid or Game.Tiles, and its best score can be lower than the one already loaded. No lemma here covers a restored state.
- The service worker and the page's HTML and CSS are not part of this model.
- Board.PickIndex: `Math.random()` is modelled as an exact real in [0, 1), not a binary64 float. Float rounding of `random * length` is not modelled.
- Board.NewTileValue: the 90 % / 10 % split is modelled only as the threshold 0.9 on the draw, with no probabilities.
- Game.Init: models `init()`, which both the constructor and the New Game button run (`js/game.js:12`, `js/game.js:482-484`). The rest of the constructor is left out: reading the best score from storage and restoring a saved game.
- Line.Merge: the score is returned as the line's points rather than added to a shared field inside the loop, and the move adds the sum of the lines' points. Each line's points are added in the same order as in `js/game.js`, so the totals agree.
- Integers are unbounded. Tile values double at most about sixteen times on a sixteen-cell board, far below the range where JavaScript numbers lose precision, so no overflow is modelled.

## Findings

| source | as written | input that shows it | evidently intended | confidence | as-written member | corrected member |
|---|---|---|---|---|---|---|
| js/game.js:147-149 | the reverse-back test compares `transform` with a new arrow function, which is never the same object, so Right merges the reversed row and writes it back unreversed | row `0 0 0 2` moved Right becomes `2 0 0 0` | Right reverses the merged row back, so `0 0 0 2` stays `0 0 0 2` and Right mirrors Left | not executed | Board.ReversedLineAsWritten | Board.ReversedSlideMirrors |
| js/game.js:186-188 | the same test in the column loop, so Down writes the reversed column; on a finished board the column changes and a move is reported | any full board with no equal neighbours, such as rows `2 4 2 4` and `4 2 4 2` alternating, moved Down | on a finished board no move changes anything, and a move neither spawns a tile nor changes the score | not executed | Board.StalemateStillMovesAsWritten | Board.StalemateFrozen |
| js/game.js:393-410 | the touch handler raises `isAnimating` and then calls `move`, which returns at once because the flag is up, so no swipe is ever played | any recognised swipe, for example Left on a board with a lone 2 in the top-right cell, which `move` would slide to the top-left cell | the flag guards against the next swipe, so the move is made first and the flag is raised after it | not executed | Game.SwipeDroppedAsWritten | Game.SwipeMovesWhenRaisedAfter |
