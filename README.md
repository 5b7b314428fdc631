# Minesweeper minefield engines, modelled in Dafny

The CS-31 Minesweeper repository holds about a dozen independently written
browser Minesweeper games. Under the page code each one has the same engine:
a rectangular grid of cells, each with a mine flag, a count of mined
neighbours and a closed / open / flagged state. The engine lays mines, numbers
the cells, opens cells with a cascade through cells showing 0, toggles flags
(with or without a cap at the mine count), sometimes "chords" around an open
number, and decides win or loss. The engines differ in exactly these choices,
and this project models each one as its own module on top of a shared core.

Shared core:

- `Grid`: positions, bounds, the eight neighbour offsets, counting over a grid.
- `Neighbours`: the neighbour list and the mined-neighbour count, with an
  order-free reference (the set of mined neighbours) the loops are proved against.
- `Cells`: cells and boards, the numbering pass, the flag toggle, the win tests
  and showing the mines after a loss.
- `Cascade`: the cascade as the closure "closed safe cells reachable through
  cells showing 0", and the stack flood fill proved to compute it.
- `Recursion`: the facts every recursive `openCell` relies on.
- `Placement`: mine placement by rejection over a supplied sequence of draws,
  by a set of flat indices, and at listed positions.
- `FlatGrid`, `FlatCascade`: the flat row-major grid and breadth-first queue of
  minesweeper/script.js.
- `TimeFormat`: the `MM:SS` and three-digit clocks.

One module per engine: `Anna` (AnnaRyzhko), `Hretskyi` (Hretskyi_Danylo_CS_31),
`Minesweeper` (minesweeper), `MaksymFirst` and `MaksymSecond` (the two halves of
Maksym-Maliutin/script.js), `Mykhailovska`, `Marharyta`, `SillerScript`
(Siller-Olena/script.js), `SillerActions` (Siller-Olena/actions.js),
`Khudaieva`, `Kovalov`, `BuchkaZhukov` (Buchka-Mykyta and Zhukov-Danylo, two
copies of one engine), `Subota`, `Uzenkova` and `Skrypniak`.

Each engine's mutable game object is a `class` whose board is a
`seq<seq<Cell>>` field. Each operation is a method on board values that loops
or recurses as the source does; its contract relates the new board to a
specification (`OpenCellSpec`, the cascade closure, the true neighbour counts).
The class method calls it and assigns the fields. Randomness is an input: the
placement loops read a supplied sequence of draws in place of `Math.random()`.

## Model

| member | source | states |
|---|---|---|
| Grid.CountCells | Maksym-Maliutin/script.js:248-256 | the row-major double loop that tallies cells passing a test returns exactly the number of such cells on the board (also the tallies of Buchka-Mykyta, Mykhailovska-Olena, Siller-Olena and minesweeper) |
| Neighbours.NeighbourListIsNeighbourhood | AnnaRyzhko/script.js:60-72 | the list of neighbours holds exactly the in-bounds cells adjacent to the cell, never the cell itself, at most eight of them |
| Neighbours.NeighbourMinesIsCardinality | Hretskyi_Danylo_CS_31/script.js:83-94 | the offset-ordered neighbour count equals the size of the order-free set of mined neighbours: every mined neighbour counted exactly once |
| Neighbours.BlockCountsNeighbours | Hretskyi_Danylo_CS_31/script.js:86-92 | looping over the whole 3x3 block and skipping the centre gives the same count as the eight-offset loop |
| Cells.CreateBoard | Hretskyi_Danylo_CS_31/script.js:50-58 | a rows x cols grid of fresh cells: no mine, number 0, closed |
| Cells.CountNeighbourMines | Hretskyi_Danylo_CS_31/script.js:83-94 | the loop over the offsets, skipping off-board cells, returns the number of mined in-bounds neighbours, at most 8 |
| Cells.ComputeAdj | Hretskyi_Danylo_CS_31/script.js:97-103 | the numbering pass moves no mine and opens nothing; every cell it numbers gets its true count of mined neighbours, and a mined cell it skips keeps its old number |
| Cells.ScanWin | Hretskyi_Danylo_CS_31/script.js:106-114 | the scan answers true exactly when every safe cell is open |
| Cells.WinTestsAgree | Maksym-Maliutin/script.js:248-256 | while no mine is open on a board holding `mines` mines, "open cells == cells - mines", "unopened cells == mines" and "every safe cell open" are the same condition |
| Cells.FlipFlagFacts | Subota-Andrii/main.js:117-125 | a second flip restores the board; a flip changes only the flagged/closed state of the clicked cell, never opens it, and moves the flag count by exactly one (none on an open cell) |
| Cells.ToggleCountedFacts | minesweeper/script.js:259-270 | the running flag counter stays the number of flagged cells; a toggle moves no mine, opens nothing, leaves the count of open safe cells alone, and a second toggle undoes the first |
| Cells.SafeCountWonMeaning | minesweeper/script.js:306-313 | on a board holding `mines` mines "open safe cells == cells - mines" holds exactly when every safe cell is open; with a negative mine count it never holds |
| Cells.CountFlags | Hretskyi_Danylo_CS_31/script.js:203-209 | returns the number of flagged cells on the board |
| Cells.ShowMinesFacts | AnnaRyzhko/script.js:240-252 | showing the mines moves nothing, leaves every safe cell as it was, opens every mine except a flagged one where flags are kept, keeps the count of open safe cells, and a second pass changes nothing |
| Cells.ShowMinesCounts | AnnaRyzhko/script.js:240-252 | showing the mines keeps the mine count and never raises the flag count |
| Cells.RevealMines | AnnaRyzhko/script.js:240-252 | the loop over the board yields the board with every mine shown as `ShowMines` describes |
| Cascade.StackFill | Hretskyi_Danylo_CS_31/script.js:141-165 | the stack flood fill from a safe closed cell opens exactly the cells reachable through cells showing 0, and changes nothing else |
| Cascade.FillComplete | Hretskyi_Danylo_CS_31/script.js:141-165 | once no cell showing 0 that was opened has a closed safe neighbour left, every reachable cell is open |
| Cascade.FilledSpares | Hretskyi_Danylo_CS_31/script.js:147-160 | a cascade never changes a flagged cell or a mine, so a board with no open mine keeps none |
| Recursion.AdjZeroSafe | Subota-Andrii/main.js:99-108 | once the numbers are correct, a safe cell showing 0 has no mined neighbour, so a cascade that does not test for mines never reaches one |
| Placement.FreshIsCardinality | Hretskyi_Danylo_CS_31/script.js:71-78 | the number of draws the rejection loop accepts is the number of distinct drawn cells outside the protected zone |
| Placement.PlaceByDraws | Hretskyi_Danylo_CS_31/script.js:71-78 | the rejection loop lays exactly `n` mines, each on a drawn cell outside the zone, and changes no number or state |
| Placement.GenerateCapped | Hretskyi_Danylo_CS_31/script.js:66-80 | the board is rows x cols, all closed with number 0, and holds exactly `min(mines, rows * cols)` mines (none for a count at or below 0), each on a drawn cell |
| Placement.CollectIndices | AnnaRyzhko/script.js:93-97 | the set of flat indices ends with exactly `mines` members (none for a count at or below 0), each one drawn |
| Placement.MarkIndices | AnnaRyzhko/script.js:99-107 | the row-major scan with a running index mines exactly the cells whose index `row * cols + col` was chosen, as many mines as chosen indices, and changes no number or state |
| Placement.OnBoardFreshExact | Maksym-Maliutin/script.js:327-333 | placing mines at listed positions lays one mine per position exactly when every position is on the board and none repeats |
| FlatGrid.IndexRoundTrip | minesweeper/script.js:108 | `row * width + col` and the `floor(i / width)`, `i % width` split are inverse: board cells and indices 0 .. width*height-1 correspond one to one |
| FlatGrid.NeighbourIndexMeaning | minesweeper/script.js:114-128 | `getNeighborIndices` lists exactly the indices of the in-bounds adjacent cells, never the cell itself, at most eight, each reading back as its cell |
| FlatGrid.RoomOutsideBlock | minesweeper/script.js:141-151 | the forbidden set of the first click lies on the board and leaves at least `width * height - 9` cells free for mines |
| FlatGrid.CornerClickRoom | minesweeper/script.js:141-151 | after a corner click on a board at least 2 x 2, no draws can supply more than `width * height - 4` mine cells |
| TimeFormat.DecimalValue | minesweeper/script.js:37 | reading back the decimal digits `String(n)` writes gives n |
| TimeFormat.PadValue | minesweeper/script.js:37 | zero-padding to a width keeps the string all digits and keeps its value |
| TimeFormat.FormatTimeRoundTrip | minesweeper/script.js:44-48 | "MM:SS" is at least 5 characters (exactly 5 below 6000 seconds), has ':' before two digits showing less than 60, and reads back as the seconds given (also AnnaRyzhko 260-264, Marharyta-Hetalo 228-232) |
| TimeFormat.MinutesSeconds | minesweeper/script.js:45-46 | the minute and second parts recombine to the seconds, the seconds part is below 60, and below 6000 seconds the minutes are below 100 |
| TimeFormat.Clock3Value | Buchka-Mykyta/script.js:26 | the three-digit clock is always exactly three digits and reads back as the seconds, stopping at 999 (also Zhukov-Danylo line 23) |
| Anna.GenerateBoard | AnnaRyzhko/script.js:83-118 | the board holds exactly `Laid(rows, cols, mines)` mines, each at a drawn index; with `mines >= rows * cols` it holds none; every cell is closed, every safe cell carries its true count of mined neighbours and a mine keeps 0 |
| Anna.Laid | AnnaRyzhko/script.js:83-118 | the number of mines laid never exceeds the number of cells |
| Anna.CountNeighbourMines | AnnaRyzhko/script.js:128-138 | 0 for a position off the board, otherwise the number of mined in-bounds neighbours, the cell itself excluded |
| Anna.CheckWinMeaning | AnnaRyzhko/script.js:232-237 | while no mine is open and the board holds `mineCount` mines, "open cells == cells - mines" holds exactly when every safe cell is open; a refused board (mines >= cells) is never won once a cell is open |
| Anna.OpenRec | AnnaRyzhko/script.js:147-202 | `OpenCellSpec`: a no-op unless in progress, in bounds and closed; a mine ends the game as Lose with every unflagged mine shown; a safe cell opens, only cells reachable through zeros open, the status is Win exactly when the count test passes, and a game still in progress has the whole cascade open |
| Anna.WinIsFilled | AnnaRyzhko/script.js:176-190 | a win reached part-way through the recursion on an honest board has already opened the whole cascade and every safe cell |
| Anna.OpenCellKeeps | AnnaRyzhko/script.js:147-202 | opening moves no mine or number and changes no flag; a finished game is untouched; a game still in progress keeps no open mine; a loss opens every unflagged mine; a win has opened the whole cascade and every safe cell |
| Anna.ToggleKeepsBudget | AnnaRyzhko/script.js:211-229 | after a toggle `flagsRemaining` is still `mineCount` minus the flags on the board and stays within `[0, mineCount]`; no mine moves and no cell opens |
| Anna.Game.constructor | AnnaRyzhko/script.js:42-53 | a game in progress with `flagsRemaining == mines`, no exploded cell, all cells closed, exactly `Laid` mines and true numbers on the safe cells |
| Anna.Game.OpenCell | AnnaRyzhko/script.js:147-202 | the board and status move as `OpenCellSpec` says, the flag budget is unchanged, and a losing click is recorded as the exploded cell (as `revealAllMines` marks it) |
| Anna.Game.ToggleFlag | AnnaRyzhko/script.js:211-229 | the board and `flagsRemaining` become `Toggle` of the old ones; status and exploded cell unchanged |
| Hretskyi.NumberedBoard | Hretskyi_Danylo_CS_31/script.js:246-255 | `newGame`'s board: exactly `min(mines, rows * cols)` mines (none for a count at or below 0), every cell covered, every cell's `adj` its true count of mined neighbours |
| Hretskyi.OpenAt | Hretskyi_Danylo_CS_31/script.js:119-172 | `OpenCellSpec`: ignored unless PLAYING, in bounds and COVERED; a mine uncovers only itself and loses; otherwise the stack fill uncovers exactly the cascade from the cell and the status is WIN exactly when every safe cell is uncovered |
| Hretskyi.OpenCellKeeps | Hretskyi_Danylo_CS_31/script.js:119-172 | opening moves no mine or number, never uncovers a flagged cell, leaves a finished game alone, and a game still PLAYING has no uncovered mine |
| Hretskyi.ToggleWithinBudget | Hretskyi_Danylo_CS_31/script.js:177-200 | from a board with at most `mines` flags a toggle keeps at most `mines` flags, moves no mine and uncovers nothing |
| Hretskyi.Game.constructor | Hretskyi_Danylo_CS_31/script.js:23-35 | the initial record: 9 x 9, 10 mines, PLAYING, no board yet, no exploded cell; it satisfies the class invariant through its no-board case |
| Hretskyi.Game.NewGame | Hretskyi_Danylo_CS_31/script.js:246-255 | from any record, a board is laid: the new size and count are stored, status PLAYING, no exploded cell, and the board is covered with `min(mines, cells)` mines and true numbers |
| Hretskyi.Game.OpenCell | Hretskyi_Danylo_CS_31/script.js:119-172 | the board and status move as `OpenCellSpec` says, and a losing click is recorded as `explodedCell` |
| Hretskyi.Game.ToggleFlag | Hretskyi_Danylo_CS_31/script.js:177-200 | the board becomes `Toggled` of the old one: a new flag only while `countFlags` is below the mine count, a flag always removable, nothing on an uncovered cell or a finished game |
| Minesweeper.Clamp | minesweeper/script.js:70 | the result never exceeds `max` and is the value itself, `min` or `max`; with `min <= max` it lies in `[min, max]` and equals the value whenever the value already does |
| Minesweeper.CustomSize | minesweeper/script.js:88-89 | a custom width always lands in `[5, 40]` and a custom height in `[5, 30]`, whatever the inputs read |
| Minesweeper.ApplyDifficultyAsWritten | minesweeper/script.js:73-94 | every setting has width in `[5, 40]`, height in `[5, 30]` and between 1 mine and every cell but one; a custom mine input of at least 1 is kept up to `w * h - 1` and capped there |
| Minesweeper.ApplyDifficulty | minesweeper/script.js:73-94 | the corrected cap: at most `w * h - 9` mines; it agrees with the code as written on the three presets and on any custom count that already fits |
| Minesweeper.NeighbourIndices | minesweeper/script.js:114-128 | the flat indices of exactly the in-bounds neighbours of the cell, in the order of the offset loops, the cell itself excluded |
| Minesweeper.FirstClickFits | minesweeper/script.js:141-151 | under the corrected settings the cells outside the first click and its neighbours number at least `mineCount`, so the rejection loop has room to finish |
| Minesweeper.CornerClickCannotPlace | minesweeper/script.js:91-92 | the settings as written accept a 5 x 5 board with 24 mines, and after a first click in the corner no sequence of draws yields 24 distinct allowed cells |
| Minesweeper.LayMines | minesweeper/script.js:141-151 | the board ends with exactly `mineCount` mines, each at a drawn index outside the forbidden set; numbers and visibility are untouched |
| Minesweeper.NumberCells | minesweeper/script.js:153-162 | mines and visibility are unchanged; a mine shows 0 and every other cell the number of its mined neighbours |
| Minesweeper.PlaceMines | minesweeper/script.js:141-163 | `Placed`: `mineCount` mines, none on the first click or its neighbours, each at a drawn index, every number true, nothing opened or unflagged |
| Minesweeper.VisitNeighbours | minesweeper/script.js:227-245 | after the `forEach` over one dequeued cell the breadth-first invariant holds with no neighbour left to look at, and either a cell was opened or the queue is as it was |
| Minesweeper.QueueFill | minesweeper/script.js:224-246 | the breadth-first fill opens exactly the cells a cascade from the clicked zero reaches (through cells showing 0, never a flagged cell or a mine) and changes nothing else |
| Minesweeper.NumberedKept | minesweeper/script.js:153-162 | numbers depend only on the layout of mines, so opening or flagging cells keeps every number true |
| Minesweeper.OpenCell | minesweeper/script.js:200-257 | `OpenSpec`: no change on an open or flagged cell or a finished game; the first open lays the mines away from the click; a mine is opened and ends the game; a safe cell opens its cascade and the game ends exactly when `checkWin` counts every safe cell open |
| Minesweeper.OpenedKeeps | minesweeper/script.js:200-257 | on a game under way only closed cells open, a finished game is untouched, the clicked cell is no longer closed, a game that ends has a mine open or every safe cell open, and a game that goes on has no open mine |
| Minesweeper.Chord | minesweeper/script.js:285-295 | `ChordSpec`: nothing unless the game goes on and the flags around the number equal it; otherwise only closed cells open, and only neighbours of the number or cells their cascades reach; every cascade started is run to its end, and while the game goes on no neighbour stays closed and every cell a neighbour's cascade reaches is open; a chord that opened something and leaves every safe cell counted open ends the game, and the game ends only so or with a mine open |
| Minesweeper.OpenOutcome | minesweeper/script.js:200-257 | at the level of the game: after an open the mines are laid, the first open never hits a mine, hitting a mine ends the game, and a safe open fills the cascade and ends the game exactly when every safe cell is open |
| Minesweeper.OpenedConsistent | minesweeper/script.js:200-257 | an open keeps `Consistent`: `placedFlags` counts the flags, an untouched board before the first click, `mineCount` mines with true numbers after it, no open mine while the game goes on |
| Minesweeper.ChordedConsistent | minesweeper/script.js:285-295 | a chord keeps `Consistent` |
| Minesweeper.LeftClickOn | minesweeper/script.js:272-283 | a click on an open safe number is a chord as `ChordSpec` says, its neighbours' cascades complete (only possible after the first click), any other click an open as `OpenSpec` says; `Consistent` is kept |
| Minesweeper.ToggledConsistent | minesweeper/script.js:259-270 | a flag toggle keeps `Consistent`: `placedFlags` moves by one exactly as a flag appears or disappears |
| Minesweeper.EmptyGrid | minesweeper/script.js:131-139 | every cell blank (no mine, closed, unflagged, 0), which is an untouched consistent board with no flags |
| Minesweeper.Game.constructor | minesweeper/script.js:394-396 | the settings are `ApplyDifficulty` of the inputs and the board is a fresh blank one with no first click, no game over and no flags |
| Minesweeper.Game.NewGame | minesweeper/script.js:365-380 | the size and mine count are kept, every cell is blank, flags and both game flags are reset, and the state is consistent |
| Minesweeper.Game.ChangeDifficulty | minesweeper/script.js:97-105 | the settings become `ApplyDifficulty` of the inputs and a new blank game starts |
| Minesweeper.Game.LeftClick | minesweeper/script.js:272-283 | the board and game flags move as `LeftClickOn` says: a chord on an open number (`ChordSpec`, cascades complete), an open elsewhere; size, mine count and `placedFlags` unchanged; the state stays consistent |
| Minesweeper.Game.ToggleFlag | minesweeper/script.js:259-270 | the board and `placedFlags` become `ToggleCounted` of the old ones: nothing on an open cell or a finished game, else the flag flips and the counter follows |
| MaksymFirst.GenerateField | Maksym-Maliutin/script.js:43-84 | every cell closed and unflagged, exactly `max(mineCount, 0)` mines each at a drawn position, and every cell (a mine too) numbered with its true count of mined neighbours |
| MaksymFirst.OpenRec | Maksym-Maliutin/script.js:87-112 | a cell not closed leaves the game alone; a closed mine is opened alone and loses; a closed safe cell opens exactly its cascade through zeros; `revealedCells` moves by exactly the number of cells opened |
| MaksymFirst.IsWin | Maksym-Maliutin/script.js:248-257 | true exactly when the cells not open number `mineCount`; with no open mine and `mineCount` mines laid, exactly when every safe cell is open |
| MaksymFirst.CappedToggleKeepsCap | Maksym-Maliutin/script.js:114-124 | the flags never outnumber the mines; a closed cell is flagged exactly when fewer than `mineCount` flags are down; a flag always comes off; no mine moves and no cell opens |
| MaksymFirst.MineClickConsistent | Maksym-Maliutin/script.js:87-96 | a click on a closed mine loses, `revealAllMines` opens every mine, and the game stays consistent with that mine counted in `revealedCells` |
| MaksymFirst.SafeClickConsistent | Maksym-Maliutin/script.js:234-246 | a click that opens only safe cells keeps the game consistent with `revealedCells` equal to the open safe cells, and a win it declares has every safe cell open |
| MaksymFirst.ToggleConsistent | Maksym-Maliutin/script.js:114-124 | a toggle keeps the game consistent: mines, open cells and counters unchanged, the cap still holds |
| MaksymFirst.Game.constructor | Maksym-Maliutin/script.js:43-58 | a "ready" game of the given size with `max(mineCount, 0)` mines, true numbers, every cell closed and both counters 0 |
| MaksymFirst.Game.Start | Maksym-Maliutin/script.js:143-156 | a fresh 10 x 10 game with 10 mines and true numbers, every cell closed, status "playing", counters 0 |
| MaksymFirst.Game.Click | Maksym-Maliutin/script.js:187-192 | the board and status move as `ClickSpec` says (ignored unless playing; `openCell`, then loss with every mine shown or the win test); the layout is unchanged, and a new win has every safe cell open |
| MaksymFirst.Game.RightClick | Maksym-Maliutin/script.js:194-199 | while playing the board becomes `CappedToggle` of the old one, otherwise it is unchanged; status and counters are unchanged |
| MaksymFirst.Game.FlagsLeft | Maksym-Maliutin/script.js:208-218 | `mineCount` minus the flags on the board, which the cap keeps within `[0, mineCount]` |
| MaksymSecond.CreateEmptyBoard | Maksym-Maliutin/script.js:309-318 | a rows x cols board of default cells (no mine, count 0, closed), so it holds no mine |
| MaksymSecond.ValidIsInBounds | Maksym-Maliutin/script.js:321-323 | on a rows x cols board `isValidPosition`, which reads the sizes off the board, holds exactly for the in-bounds positions |
| MaksymSecond.PlaceMinesAtPositions | Maksym-Maliutin/script.js:327-333 | a cell is mined afterwards exactly when it was before or is listed; counts and states are untouched; on an empty board the mines are the distinct on-board positions of the list |
| MaksymSecond.PlaceStep | Maksym-Maliutin/script.js:328-332 | one position of the loop: a valid one is in bounds and is mined, an invalid one is skipped, and either way the first k + 1 positions are placed |
| MaksymSecond.CountMinedNeighbours | Maksym-Maliutin/script.js:349-358 | the number of valid neighbours holding a mine, at most 8 |
| MaksymSecond.ComputeNeighborCounts | Maksym-Maliutin/script.js:336-363 | mines and states unchanged; a mine gets `null`, every other cell `Some` of its true number of mined neighbours, between 0 and 8 |
| MaksymSecond.GameState.constructor | Maksym-Maliutin/script.js:297-307 | the given size and mine count, status "playing", and an empty board of default cells |
| MaksymSecond.InitTestGame | Maksym-Maliutin/script.js:366-371 | a playing game whose `mineCount` is the length of the list, mines exactly at the listed on-board positions, true counts elsewhere; the recorded count equals the mines on the board exactly when the list holds distinct on-board positions, and is never smaller |
| Mykhailovska.GenerateField | Mykhailovska-Olena/Minesweeper-Game-Web/script.js:97-128 | every cell closed, exactly `max(mines, 0)` mines each at a drawn position and showing 0, every safe cell numbered with its true count of mined neighbours |
| Mykhailovska.OpenRec | Mykhailovska-Olena/Minesweeper-Game-Web/script.js:152-202 | `OpenCellSpec`: nothing off the board, on an open or flagged cell or after the game ends; a mine loses and shows every unflagged mine; a safe cell opens its cascade, or a nested call wins first, and the closed-or-flagged count decides a win, which shows the mines |
| Mykhailovska.Spread | Mykhailovska-Olena/Minesweeper-Game-Web/script.js:176-184 | the offset loop of a 0 either fills the whole cascade from the cell with the game still in progress, or ends in a win reached inside it that opened only reachable cells |
| Mykhailovska.OpenFinish | Mykhailovska-Olena/Minesweeper-Game-Web/script.js:186-198 | the closing `Count(closed or flagged) == mineCount` test turns a filled cascade, or an earlier win, into the outcome `OpenCellSpec` names |
| Mykhailovska.WinIsFilled | Mykhailovska-Olena/Minesweeper-Game-Web/script.js:186-198 | on a board holding `mineCount` mines with none open, a win, even one reached in a nested call, has opened the whole cascade and every safe cell |
| Mykhailovska.OpenCellKeeps | Mykhailovska-Olena/Minesweeper-Game-Web/script.js:152-202 | no mine or number moves, a finished game is untouched, a loss opens every unflagged mine, a game in progress keeps its flags and has no open mine, and a win on an honest board has every safe cell open and every unflagged mine shown |
| Mykhailovska.ToggleFacts | Mykhailovska-Olena/Minesweeper-Game-Web/script.js:204-218 | a toggle opens nothing and moves no mine, adds a flag on a closed cell, removes one on a flagged cell, and twice is no change |
| Mykhailovska.SweepStep | Mykhailovska-Olena/Minesweeper-Game-Web/script.js:380-383 | one `openCell` on a closed blank during the sweep opens it and keeps the sweep's invariant: only safe cells opened, every flag kept |
| Mykhailovska.RevealSafe | Mykhailovska-Olena/Minesweeper-Game-Web/script.js:376-388 | the sweep only opens cells and keeps every flag while the game stays in progress, and then every closed blank of the starting board is open; a finished game is untouched |
| Mykhailovska.Game.constructor | Mykhailovska-Olena/Minesweeper-Game-Web/script.js:316-330 | a game in progress of the given size and mine count, every cell closed, `max(mines, 0)` mines and true numbers on the safe cells |
| Mykhailovska.Game.OpenCell | Mykhailovska-Olena/Minesweeper-Game-Web/script.js:152-202 | the board and status move as `OpenCellSpec` says; size and mine count unchanged |
| Mykhailovska.Game.ToggleFlag | Mykhailovska-Olena/Minesweeper-Game-Web/script.js:204-218 | the board becomes `Toggled` of the old one (nothing off the board, on an open cell or after the game ends); status unchanged |
| Mykhailovska.Game.RevealSafeCells | Mykhailovska-Olena/Minesweeper-Game-Web/script.js:376-388 | the board and status move as `RevealSafe` says |
| Marharyta.OpenAt | Marharyta-Hetalo/minesweeper.js:131-185 | `OpenCellSpec`: ignored after the game ends and on an uncovered or flagged cell; a mine loses and uncovers every mine, flagged ones too; otherwise the stack fill uncovers exactly the cascade from the cell and `isWin` decides WIN exactly when every safe cell is uncovered |
| Marharyta.OpenCellKeeps | Marharyta-Hetalo/minesweeper.js:131-185 | no mine or number moves, a finished game is untouched, a loss shows every mine, and a game not lost keeps every flag and has no uncovered mine |
| Marharyta.ToggleUncapped | Marharyta-Hetalo/minesweeper.js:187-201 | a toggle uncovers nothing and moves no mine, a covered cell always takes a flag, and with every mine's worth of flags down the "mines left" figure goes below zero |
| Marharyta.Game.constructor | Marharyta-Hetalo/minesweeper.js:101-108 | a 10 x 10 game with 10 mines, PLAYING, every cell covered and every cell's number true |
| Marharyta.Game.NewGame | Marharyta-Hetalo/minesweeper.js:280-292 | status PLAYING and a fresh covered 10 x 10 field with 10 mines and true numbers |
| Marharyta.Game.OpenCell | Marharyta-Hetalo/minesweeper.js:131-185 | the board and status move as `OpenCellSpec` says |
| Marharyta.Game.ToggleFlag | Marharyta-Hetalo/minesweeper.js:187-201 | the board becomes `Toggled` of the old one (nothing after the game ends, off the board or on an uncovered cell); status unchanged |
| Marharyta.Game.MinesLeft | Marharyta-Hetalo/minesweeper.js:265-271 | the mine count less the flags on the board, never above the mine count |
| SillerScript.PlaceMines | Siller-Olena/script.js:19-29 | from a grid of zeros: exactly `max(mines, 0)` cells become 'M', each at a drawn position, every other cell stays 0 |
| SillerScript.CountNeighbourMines | Siller-Olena/script.js:49-71 | the number of in-bounds neighbours holding 'M', the cell itself excluded, at most 8 |
| SillerScript.SameMinesSameCount | Siller-Olena/script.js:31-38 | the count depends only on where the 'M's are, so numbering cells one by one never changes a later cell's count |
| SillerScript.NumberField | Siller-Olena/script.js:31-38 | the 'M's stay where they were and every other cell holds its count of 'M' neighbours |
| SillerScript.GenerateField | Siller-Olena/script.js:16-46 | exactly `max(mines, 0)` 'M's, each at a drawn position, and every other cell its count of 'M' neighbours |
| SillerScript.AllFalse | Siller-Olena/script.js:209-210 | a rows x cols grid of `false`, holding no set bit |
| SillerScript.AllRevealedIsWin | Siller-Olena/script.js:266-276 | the `checkWin` condition holds exactly when every safe cell is open in the combined view of field and revealed grid |
| SillerScript.CheckWin | Siller-Olena/script.js:266-276 | true exactly when no cell other than 'M' is unrevealed |
| SillerScript.OpenRec | Siller-Olena/script.js:74-121 | `OpenCellSpec`: nothing once the game is over or on a revealed cell; an 'M' is revealed and ends the game; any other cell reveals exactly its cascade and the game ends exactly when every cell other than 'M' is revealed |
| SillerScript.OpenCellKeeps | Siller-Olena/script.js:74-121 | revealed cells stay revealed, the clicked cell is revealed unless the game was over, an 'M' click ends the game, a game that goes on reveals no 'M', and a safe click ends the game exactly when every safe cell is revealed |
| SillerScript.FlipFacts | Siller-Olena/script.js:124-133 | the flip changes exactly that flag, twice is no change, and the recounted `totalFlags` moves by exactly one |
| SillerScript.OpenedConsistent | Siller-Olena/script.js:74-121 | an open keeps the game consistent: the field numbered, `totalFlags` the number of flags, no revealed 'M' while the game goes on |
| SillerScript.Game.constructor | Siller-Olena/script.js:204-215 | the given size and mine count, a generated field with `max(mines, 0)` 'M's, nothing revealed or flagged, the game not over, `totalFlags` 0 |
| SillerScript.Game.OpenCell | Siller-Olena/script.js:230-235 | `revealed` and `gameOver` move as `OpenCellSpec` says; field and flags unchanged |
| SillerScript.Game.ToggleFlag | Siller-Olena/script.js:124-143 | nothing once the game is over; otherwise the flag flips (revealed or not), `totalFlags` is recounted, and the game ends exactly when `checkWin` holds |
| SillerActions.StartBoard | Siller-Olena/actions.js:47-73 | every cell closed and unflagged, exactly `max(bombs, 0)` bombs each at a drawn position and showing 0, every other cell its true count of neighbouring bombs |
| SillerActions.RevealCell | Siller-Olena/actions.js:108-136 | `RevealSpec`: nothing once the game is over or on a revealed or flagged cell; a bomb is revealed and ends the game; a safe cell reveals its cascade (or the game is won inside it) and `checkWin` ends the game when every safe cell is counted revealed |
| SillerActions.RevealAdjacentCells | Siller-Olena/actions.js:139-152 | only cells reachable from the cell are revealed and the cell stays revealed; either the whole cascade from it is revealed, or a nested `checkWin` has ended the game with every safe cell counted |
| SillerActions.RevealKeeps | Siller-Olena/actions.js:108-152 | no bomb or number moves and every flag stays; a bomb click ends the game; a game that goes on reveals no bomb; on a board with `bombs` bombs, none revealed, a safe click fills its cascade and ends the game exactly when every safe cell is revealed |
| SillerActions.RevealedConsistent | Siller-Olena/actions.js:108-152 | a reveal keeps the game consistent: true numbers, `bombs` bombs laid, `flaggedCount` the flags on the board, no revealed bomb while the game goes on |
| SillerActions.ToggledConsistent | Siller-Olena/actions.js:155-179 | a toggle, with the `checkWin` after it, keeps the game consistent, `flaggedCount` moving with the flag |
| SillerActions.Game.constructor | Siller-Olena/actions.js:15-90 | the given sizes and bomb count, the game not over, `flaggedCount` 0, every cell closed, `max(bombs, 0)` bombs and true numbers on the safe cells |
| SillerActions.Game.Reveal | Siller-Olena/actions.js:108-136 | the board and `gameOver` move as `RevealSpec` says; sizes, bomb count and `flaggedCount` unchanged |
| SillerActions.Game.Flag | Siller-Olena/actions.js:155-179 | the board and `flaggedCount` become `ToggleCounted` of the old ones (nothing once over or on a revealed cell), and the game ends when it was over or the toggle happened and `checkWin` counts every safe cell revealed |
| Khudaieva.GenerateField | Khudaieva-Valeriia/script.js:45-66 | every cell closed, exactly `max(mines, 0)` mines each at a drawn position, and every cell (a mine too) numbered with its true count of mined neighbours |
| Khudaieva.CountNeighbourMines | Khudaieva-Valeriia/script.js:68-86 | the number of mined in-bounds neighbours, the centre excluded |
| Khudaieva.OpenRec | Khudaieva-Valeriia/script.js:88-113 | `OpenCellSpec`: only a closed cell changes; a mine is opened alone and loses; a safe cell opens exactly its cascade through zeros |
| Khudaieva.LeftClick | Khudaieva-Valeriia/script.js:217-241 | `LeftClickSpec`: ignored unless in progress or on a flagged cell; a mine loses and opens every mine, flagged ones too; then `checkWin` declares a win exactly when every safe cell is open |
| Khudaieva.ShowAfterOpen | Khudaieva-Valeriia/script.js:264-272 | showing every mine after the clicked mine was opened gives the same board as showing them straight away |
| Khudaieva.LeftClickKeeps | Khudaieva-Valeriia/script.js:217-241 | no mine or number moves; while the game goes on no mine is open and the flags stay; a win has every safe cell open; a mine click while a safe cell is still closed loses and opens every mine |
| Khudaieva.RightClickKeepsBudget | Khudaieva-Valeriia/script.js:243-262 | `flagsLeft` stays the mine count less the flags on the board and within `[0, mineCount]`; nothing opens and no mine moves |
| Khudaieva.LeftClickConsistent | Khudaieva-Valeriia/script.js:217-241 | a left click keeps the game consistent: true numbers, no open mine and `flagsLeft` in step while in progress |
| Khudaieva.RightClickConsistent | Khudaieva-Valeriia/script.js:243-262 | a right click keeps the game consistent |
| Khudaieva.Game.constructor | Khudaieva-Valeriia/script.js:34-43 | the script as loaded: 10 x 10 with 15 mines, in progress, every flag available, every cell closed, true numbers |
| Khudaieva.Game.Reset | Khudaieva-Valeriia/script.js:155-177 | in progress again with `flagsLeft == mineCount`, a fresh closed field of 15 mines with true numbers |
| Khudaieva.Game.HandleLeftClick | Khudaieva-Valeriia/script.js:217-241 | the board and status move as `LeftClickSpec` says; `flagsLeft` unchanged |
| Khudaieva.Game.HandleRightClick | Khudaieva-Valeriia/script.js:243-262 | the board and `flagsLeft` become `RightClick` of the old ones: a flag only while `flagsLeft > 0`, a flag always removable, nothing on an open cell or a finished game |
| Kovalov.PlaceMines | Kovalov-Andrii/script.js:31-50 | exactly `max(mineCount, 0)` mines, none in the 3x3 block of the first click, each at a drawn position; every safe cell gets its true number; visibility untouched |
| Kovalov.OpenRec | Kovalov-Andrii/script.js:68-95 | `OpenCellSpec`: nothing off the board or on an open or flagged cell; a mine opens, loses and opens every mine; a safe cell opens exactly its cascade and `checkWin` makes the status "win" exactly when every safe cell is open |
| Kovalov.KeepsWin | Kovalov-Andrii/script.js:90-94 | once every safe cell is open, opening more cells keeps it so, so a win reached in a nested call survives the outer calls |
| Kovalov.OpenCellKeeps | Kovalov-Andrii/script.js:68-95 | no mine or number moves; the flags stay unless the game is lost; a loss opens every mine; outside a loss no mine is open |
| Kovalov.RightClickAsWritten | Kovalov-Andrii/script.js:202-219 | the handler as written: the counter moves before `toggleFlag` looks at the cell |
| Kovalov.RightClickOnOpenCellDrifts | Kovalov-Andrii/script.js:202-219 | a right click on an open cell with flags left leaves the board as it was but lowers `flagsLeft`, which then no longer equals the mine count less the flags |
| Kovalov.RightClick | Kovalov-Andrii/script.js:202-219 | the handler with open cells ignored, as `toggleFlag` ignores them |
| Kovalov.RightClickKeepsBudget | Kovalov-Andrii/script.js:202-219 | with open cells ignored, `flagsLeft` stays the mine count less the flags and within `[0, mineCount]`; nothing opens and no mine moves |
| Kovalov.PlacedConsistent | Kovalov-Andrii/script.js:185-194 | placing the mines on the first click keeps the game consistent and leaves the clicked cell safe |
| Kovalov.OpenedConsistent | Kovalov-Andrii/script.js:196-199 | an open during play keeps the game consistent and the mine count |
| Kovalov.RightClickConsistent | Kovalov-Andrii/script.js:202-219 | a right click with open cells ignored keeps the game consistent |
| Kovalov.Game.constructor | Kovalov-Andrii/script.js:222-232 | a mine-free closed field of the given size, status "playing", every flag left, waiting for the first click |
| Kovalov.FirstOpen | Kovalov-Andrii/script.js:191-197 | the first click: some board laid as `PlaceMines` promises (`max(mineCount, 0)` mines outside the clicked 3x3 block, at drawn positions, true numbers, visibility kept) on which the cell then opens as `OpenCellSpec` says; the game is not lost and the state stays consistent |
| Kovalov.Game.Click | Kovalov-Andrii/script.js:185-200 | ignored once the game is over; on the first click the new field is `OpenCellSpec` of some board laid as `PlaceMines` promises around the cell, so it never loses; later clicks open the cell on the current field as `OpenCellSpec` says; `flagsLeft` unchanged |
| Kovalov.Game.RightClickCell | Kovalov-Andrii/script.js:202-219 | the field and `flagsLeft` become `RightClick` of the old ones; status and first-click flag unchanged |
| BuchkaZhukov.ClampMines | Buchka-Mykyta/script.js:29-35 | the mine count is at least 1, below the number of cells whenever there are two or more, kept when already in range, and pushed to 1 or to `rows * cols - 1` otherwise |
| BuchkaZhukov.ClampOverfillsZone | Buchka-Mykyta/script.js:32 | the clamp accepts 8 mines on a 3 x 3 board, yet after a click in the centre no sequence of draws holds 8 cells outside the protected block, so the placement loop cannot end |
| BuchkaZhukov.Counter | Buchka-Mykyta/script.js:129 | the counter is never negative; it shows the mines less the flags while the flags do not outnumber the mines, and 0 once they do |
| BuchkaZhukov.PlaceMines | Buchka-Mykyta/script.js:69-90 | exactly `max(mines, 0)` mines, none in the 3x3 block of the click, each at a drawn position; every cell, mines included, gets its true count of mined neighbours; flags stay |
| BuchkaZhukov.Reveal | Buchka-Mykyta/script.js:101-123 | `RevealSpec`: an uncovered or flagged cell is left alone; a mine is uncovered alone and turns the face to 😵; a safe cell uncovers exactly its cascade through zeros |
| BuchkaZhukov.CheckWinAsWritten | Buchka-Mykyta/script.js:175-183 | the face becomes 😎 exactly when the uncovered cells, an exploded mine included, number `rows * cols - mines` |
| BuchkaZhukov.ExplodedMineCountsAsWin | Zhukov-Danylo/script.js:142-150 | on a 1 x 5 board with true numbers and two mines, uncovering the mine at column 2 after the first cascade is a loss that the count as written calls a win, with a safe cell still covered |
| BuchkaZhukov.CheckWin | Buchka-Mykyta/script.js:175-183 | the corrected test counts only uncovered safe cells: on a board with `mines` mines the face is 😎 exactly when it already was or every safe cell is uncovered |
| BuchkaZhukov.ClickCell | Buchka-Mykyta/script.js:93-98 | `ClickSpec`: a flagged or uncovered cell is ignored; the first click lays the mines outside its 3x3 block, a later one moves none; then the cell is revealed on the laid board and the corrected `checkWin` (see Findings; the source also counts an exploded mine) shows 😎 exactly when every safe cell is uncovered |
| BuchkaZhukov.CollectAround | Buchka-Mykyta/script.js:139-145 | `f` is the number of flagged neighbours, and `covered` lists exactly the in-bounds neighbours neither flagged nor uncovered |
| BuchkaZhukov.RevealAll | Buchka-Mykyta/script.js:147 | after revealing every listed cell only closed cells were opened, each a neighbour or reached from one; no closed neighbour is left and every cell the cascade from a neighbour reaches is open (`ChordFilled`); the face changed only to 😵 and only with a mine uncovered |
| BuchkaZhukov.ChordCell | Buchka-Mykyta/script.js:136-150 | `ChordSpec`: nothing unless the cell is an uncovered number with as many flagged neighbours; then every closed neighbour is revealed with its whole cascade (`ChordFilled`), and only closed cells change, each a neighbour or a cell its cascade reaches; a won board shows 😎, a mine uncovered turns the face to 😵 otherwise, and with no mine among the covered neighbours none is uncovered |
| BuchkaZhukov.ChordCorrectFlagsSafe | Buchka-Mykyta/script.js:136-150 | with a correct number and every flag around it on a mine, a chord that fires uncovers no mine |
| BuchkaZhukov.ClickConsistent | Buchka-Mykyta/script.js:93-98 | a click keeps the engine consistent: true numbers and `mines` mines after the first click, `flags` and the counter in step, 🙂 only with no mine uncovered, 😎 only with every safe cell uncovered |
| BuchkaZhukov.ChordConsistent | Buchka-Mykyta/script.js:136-150 | a chord keeps the engine consistent |
| BuchkaZhukov.ToggleConsistent | Buchka-Mykyta/script.js:126-133 | a toggle on a covered cell keeps the engine consistent, `flags` moving by one and the counter following |
| BuchkaZhukov.LossViews | Buchka-Mykyta/script.js:153-173 | after a loss every mine is in view in both scripts; only Buchka-Mykyta's marks a wrong flag, and only Zhukov-Danylo's (lines 127-140) puts the bomb on a flagged mine; elsewhere they agree |
| BuchkaZhukov.StaleCounter | Buchka-Mykyta/script.js:29-40 | the counter a new game starts with is right only when the old game had no flags: after one flag on a 10-mine game it shows 9 |
| BuchkaZhukov.Game.constructor | Buchka-Mykyta/script.js:188-191 | the settings read and clamped, an untouched blank board, no flags, 🙂, the counter showing the mine count |
| BuchkaZhukov.Game.NewGame | Buchka-Mykyta/script.js:38-66 | the settings read and clamped, a blank board, first click pending, no flags, 🙂, the counter showing the mine count, and the state consistent |
| BuchkaZhukov.Game.Click | Buchka-Mykyta/script.js:93-98 | the board, first-click flag and face move as `ClickSpec` says; settings, flags and counter unchanged |
| BuchkaZhukov.Game.Chord | Buchka-Mykyta/script.js:136-150 | the board and face move as `ChordSpec` says, each neighbour's cascade complete; settings, flags, counter and first-click flag unchanged |
| BuchkaZhukov.Game.ToggleFlag | Buchka-Mykyta/script.js:126-133 | an uncovered cell is left alone; otherwise the flag flips, `flags` moves by one with no cap and the counter shows `max(0, mines - flags)`; the face is unchanged |
| Subota.GenerateField | Subota-Andrii/main.js:37-59 | every cell closed, exactly `max(mines, 0)` mines each at a drawn position, and every cell, mines included, numbered with its true count of mined neighbours |
| Subota.OpenRec | Subota-Andrii/main.js:83-114 | an open or flagged cell is left alone; a closed mine is opened alone and the game is lost; a closed safe cell opens exactly its cascade through zeros, status unchanged |
| Subota.Game.constructor | Subota-Andrii/main.js:26-34 | an in-progress game of the given size and mine count over a field of blank cells |
| Subota.Game.OpenCell | Subota-Andrii/main.js:83-114 | the field and status move as `OpenRec` says; size and mine count unchanged |
| Subota.Game.ToggleFlag | Subota-Andrii/main.js:117-125 | the field becomes `FlipFlag` of the old one: an open cell stays, otherwise the flag flips; status unchanged |
| Uzenkova.CreateCell | Uzenkova-Daria/script.js:16-22 | a closed cell showing 0 that is mined exactly when asked |
| Uzenkova.PlaceMines | Uzenkova-Daria/script.js:37-42 | a cell is mined afterwards exactly when it was before or is listed; numbers and states untouched; on a mine-free board the mines are the distinct on-board positions of the list |
| Uzenkova.ComputeAdjacentCounts | Uzenkova-Daria/script.js:45-68 | mines and states unchanged; a mine gets -1 and every other cell the number of its mined in-bounds neighbours |
| Uzenkova.CreateGame | Uzenkova-Daria/script.js:71-82 | an in-progress game whose `mines` is the list's length, with mines exactly at the listed on-board positions, -1 on a mine and true counts elsewhere; the mines on the board never outnumber `mines` and equal it exactly when the list holds distinct on-board positions |
| Uzenkova.BoardToPrintable | Uzenkova-Daria/script.js:94-98 | a table of the board's shape |
| Uzenkova.PrintableReadsBack | Uzenkova-Daria/script.js:94-98 | the table reads back: a mine prints as the bomb, which no number prints as, and any other cell prints digits denoting its number |
| Skrypniak.LayMines | Skrypniak-Taras/script.js:5-19 | a rows x cols grid of 0s and -1s with exactly `max(mines, 0)` cells at -1, each at a drawn position |
| Skrypniak.LayStep | Skrypniak-Taras/script.js:13-18 | one draw: a cell not yet -1 becomes -1 and counts one more, a cell already -1 is drawn again |
| Skrypniak.CountAroundCell | Skrypniak-Taras/script.js:33-37 | the number of in-bounds neighbours holding -1, at most 8 |
| Skrypniak.CountsKeepMines | Skrypniak-Taras/script.js:29-39 | writing counts, which are never -1, leaves every count as it was, so the pass sees the grid it started from |
| Skrypniak.NumberPass | Skrypniak-Taras/script.js:29-39 | a -1 stays -1 and every other cell becomes its number of mined neighbours on the starting grid, between 0 and 8 |
| Skrypniak.BuildGrid | Skrypniak-Taras/script.js:1-39 | the 10 x 10 grid holds exactly 10 cells at -1, each one drawn, and every other cell its count of mined neighbours, between 0 and 8 |

## Left out

- Page code: rendering, CSS classes, `textContent`, event listeners, long presses, keyboard focus, modals, alerts and dialogs. DOM events become (row, column) or index arguments of the game methods.
- Timers: `setInterval`, `clearInterval` and the elapsed-seconds counters are asynchronous clock callbacks. Only the clock formatting (`TimeFormat`) is modelled.
- `Math.random()`: each placement loop reads a supplied sequence of draws instead. The rejection loops end only with probability one, so each placement method asks for enough distinct usable draws as a precondition and does not prove termination. `ClampOverfillsZone` and `CornerClickCannotPlace` show settings the games accept for which no draws suffice.
- `localStorage`: best times and the saved theme are storage I/O.
- Buchka-Mykyta/audio-player.js and Buchka-Mykyta/music-add.py: audio playback and a file-system scan, with no game logic.
- script.js at the top level and Prohvatilov-Anton/script.js: stubs with no game logic.
- The cell-size slider of Mykhailovska-Olena and the theme and difficulty drop-downs: floating-point sizing and page controls.
- Console logging, `printBoardToConsole` and the `console.error` of AnnaRyzhko's refused placement: output only. The refusal itself is modelled.
- Default arguments (`constructor(rows = 10, …)`, `newGame(rows = ROWS, …)`, `positions = []` and the like): every member takes each argument explicitly, and the defaults are the constants each module declares.
- `parseInt` and `+input.value`: settings arrive as integers or as absent values (`Option`). A `NaN` from a non-numeric field is not modelled.
- The `exploded` and `disabled` display marks: only the exploded cell's position is kept, where the game object records it.
- Clicks outside the board in engines whose handlers do not test bounds (Marharyta-Hetalo's `openCell`, the recursive handlers that index `field[r][c]` directly): a precondition asks for an in-bounds cell, because the source would throw on an undefined row there.
- Boards with no rows: MaksymFirst.GenerateField, MaksymFirst.Game.constructor, MaksymSecond.ComputeNeighborCounts, MaksymSecond.InitTestGame, Uzenkova.ComputeAdjacentCounts and Uzenkova.CreateGame ask for at least one row, because each reads `board[0].length` (or the first row of a board it has just built) and the source throws a TypeError on an empty board; that failure is not modelled.
- Hretskyi.Game.OpenCell and Hretskyi.Game.ToggleFlag ask for a laid board (`HasBoard`): on the initial record, whose board is empty, the source would index an undefined row, and the page calls `newGame` before any click.
- The game-level members run the corrected half of each finding below, not the code as written: Minesweeper.Game.constructor, Minesweeper.Game.ChangeDifficulty and the `mineCount <= width * height - 9` part of Minesweeper.Game.Valid use `ApplyDifficulty`; Kovalov.Game.RightClickCell uses the corrected `RightClick`; BuchkaZhukov.ClickCell, BuchkaZhukov.ChordCell, BuchkaZhukov.Game.Click and BuchkaZhukov.Game.Chord use the corrected `CheckWin`; BuchkaZhukov.Game.NewGame resets the counter to the mine count. The as-written behaviour is stated by the as-written members named there.
- Maksym-Maliutin/script.js is two versions joined at a merge-conflict marker. They are modelled as two modules, `MaksymFirst` and `MaksymSecond`, and not reconciled.

## Findings

| source | as written | input that shows it | evidently intended | confidence | as-written member | corrected member |
|---|---|---|---|---|---|---|
| minesweeper/script.js:91-92 | custom settings allow up to `width * height - 1` mines, but the first click protects its cell and all its neighbours | custom 5 x 5 board with 24 mines and a first click in the corner: only 21 cells are left outside the protected block, so the placement loop never lays the 24th mine | a cap that leaves room for the protected 3 x 3 block, `width * height - 9` | not executed | Minesweeper.ApplyDifficultyAsWritten, Minesweeper.CornerClickCannotPlace | Minesweeper.ApplyDifficulty, Minesweeper.FirstClickFits |
| Kovalov-Andrii/script.js:202-219 | a right click on an open cell lowers `flagsLeft`, and then `toggleFlag` ignores the cell | a playing game with `flagsLeft > 0` and a right click on an open cell: the board is unchanged but `flagsLeft` drops by one | open cells ignored, so `flagsLeft` stays the mine count less the flags | not executed | Kovalov.RightClickAsWritten, Kovalov.RightClickOnOpenCellDrifts | Kovalov.RightClick, Kovalov.RightClickKeepsBudget |
| Buchka-Mykyta/script.js:175-183 | `checkWin` counts every uncovered cell, the exploded mine included (the same at Zhukov-Danylo/script.js:142-150) | a 1 x 5 row with mines in columns 2 and 4: after column 0 and 1 open, clicking the mine in column 2 makes three uncovered cells, so the lost game is called won | count only uncovered safe cells | not executed | BuchkaZhukov.CheckWinAsWritten, BuchkaZhukov.ExplodedMineCountsAsWin | BuchkaZhukov.CheckWin |
| Buchka-Mykyta/script.js:29-40 | `newGame` calls `setControls`, which writes `mines - flags` to the counter before `flags` is reset to 0 | a 10-mine game with one flag, then a new game: the counter shows 9 on a board with no flags | the new game's counter shows `mines` | not executed | BuchkaZhukov.NewGameCounterAsWritten, BuchkaZhukov.StaleCounter | BuchkaZhukov.Game.NewGame |
