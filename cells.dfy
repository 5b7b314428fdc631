/**
 * The cell record used by most engines: a mine bit, the neighbour number
 * (`adjacentMines`, `adj`, `neighborMines`, `adjacent`, `neighborCount`)
 * and one of three visibility states. Engines that keep two booleans
 * (`isOpen`/`hasFlag`, `uncovered`/`flagged`, `revealed`/`flagged`) never
 * set both, so the three states cover them.
 */
module Cells {
  import opened Grid
  import opened Neighbours

  datatype CellState = Closed | Open | Flagged

  datatype Cell = Cell(mine: bool, adj: int, state: CellState)

  type Board = seq<seq<Cell>>

  /** `createCell` / `makeCell`: closed, no mine, number 0. */
  const Blank: Cell := Cell(false, 0, Closed)

  function IsMine(c: Cell): bool { c.mine }
  function IsOpen(c: Cell): bool { c.state == Open }
  function IsClosed(c: Cell): bool { c.state == Closed }
  function IsFlagged(c: Cell): bool { c.state == Flagged }
  function NotOpen(c: Cell): bool { c.state != Open }
  function IsSafe(c: Cell): bool { !c.mine }
  function OpenSafe(c: Cell): bool { c.state == Open && !c.mine }
  function OpenMine(c: Cell): bool { c.state == Open && c.mine }
  function ClosedSafe(c: Cell): bool { c.state != Open && !c.mine }
  function AnyCell(c: Cell): bool { true }

  /** The mined in-bounds neighbours of p on a cell board. */
  function Around(b: Board, rows: int, cols: int, p: Pos): nat {
    NeighbourMines(b, IsMine, rows, cols, p)
  }

  /** Every safe cell carries its true neighbour number. */
  predicate SafeAdjCorrect(b: Board, rows: int, cols: int) {
    IsGrid(b, rows, cols) &&
    forall i, j :: 0 <= i < rows && 0 <= j < cols && !b[i][j].mine ==> b[i][j].adj == Around(b, rows, cols, Pos(i, j))
  }

  /** Every cell, mined or not, carries its true neighbour number. */
  predicate AllAdjCorrect(b: Board, rows: int, cols: int) {
    IsGrid(b, rows, cols) &&
    forall i, j :: 0 <= i < rows && 0 <= j < cols ==> b[i][j].adj == Around(b, rows, cols, Pos(i, j))
  }

  /** Same shape, same mines, same numbers: only visibility may differ. */
  predicate SameLayout(b0: Board, b1: Board, rows: int, cols: int) {
    IsGrid(b0, rows, cols) && IsGrid(b1, rows, cols) &&
    forall i, j :: 0 <= i < rows && 0 <= j < cols ==> b1[i][j].mine == b0[i][j].mine && b1[i][j].adj == b0[i][j].adj
  }

  /** No mine is open: true on every board while a game is still being played. */
  predicate NoOpenMine(b: Board) {
    forall i, j :: 0 <= i < |b| && 0 <= j < |b[i]| ==> !(b[i][j].mine && b[i][j].state == Open)
  }

  /** Every safe cell is open: the winning position. */
  predicate AllSafeOpen(b: Board) {
    forall i, j :: 0 <= i < |b| && 0 <= j < |b[i]| && !b[i][j].mine ==> b[i][j].state == Open
  }

  lemma MinesSameAround(b0: Board, b1: Board, rows: int, cols: int, p: Pos)
    requires IsGrid(b0, rows, cols) && IsGrid(b1, rows, cols)
    requires forall i, j :: 0 <= i < rows && 0 <= j < cols ==> b1[i][j].mine == b0[i][j].mine
    ensures Around(b1, rows, cols, p) == Around(b0, rows, cols, p)
  {
    NeighbourMinesFrame(b1, IsMine, b0, IsMine, rows, cols, p);
  }

  /**
   * The win tests the engines use agree while no mine is open and the board
   * holds `mines` mines: "open cells == cells - mines", "unopened cells ==
   * mines" and "every safe cell is open" are the same condition.
   */
  lemma {:induction false} WinTestsAgree(b: Board, rows: nat, cols: nat, mines: int)
    requires IsGrid(b, rows, cols) && NoOpenMine(b) && Count(b, IsMine) == mines
    ensures Count(b, IsOpen) == rows * cols - mines <==> AllSafeOpen(b)
    ensures Count(b, NotOpen) == mines <==> AllSafeOpen(b)
  {
    CountSplit(b, IsSafe, OpenSafe, ClosedSafe);
    CountSame(b, b, IsOpen, OpenSafe);
    CountSplit(b, AnyCell, IsMine, IsSafe);
    CountAll(b, rows, cols, AnyCell);
    CountSubset(b, OpenSafe, IsSafe);
    CountSplit(b, AnyCell, IsOpen, NotOpen);
    if AllSafeOpen(b) {
      CountNone(b, ClosedSafe);
    }
  }

  lemma {:induction false} AllSafeOpenWins(b: Board, rows: nat, cols: nat)
    requires IsGrid(b, rows, cols) && AllSafeOpen(b) && NoOpenMine(b)
    ensures Count(b, IsOpen) == rows * cols - Count(b, IsMine)
  {
    WinTestsAgree(b, rows, cols, Count(b, IsMine));
  }

  /** `createBoard` / `createMatrix` / `createEmptyBoard`: rows x cols fresh cells. */
  method CreateBoard(rows: nat, cols: nat) returns (b: Board)
    ensures IsGrid(b, rows, cols)
    ensures forall i, j :: 0 <= i < rows && 0 <= j < cols ==> b[i][j] == Blank
  {
    b := [];
    var r := 0;
    while r < rows
      invariant 0 <= r <= rows
      invariant IsGrid(b, r, cols)
      invariant forall i, j :: 0 <= i < r && 0 <= j < cols ==> b[i][j] == Blank
    {
      var row: seq<Cell> := [];
      var c := 0;
      while c < cols
        invariant 0 <= c <= cols && |row| == c
        invariant forall j :: 0 <= j < c ==> row[j] == Blank
      {
        row := row + [Blank];
        c := c + 1;
      }
      b := b + [row];
      r := r + 1;
    }
  }

  /**
   * `countNeighbourMines(field, row, col)`: the loop over the eight offsets,
   * skipping cells outside the grid.
   */
  method CountNeighbourMines(b: Board, rows: int, cols: int, p: Pos) returns (n: nat)
    requires IsGrid(b, rows, cols)
    ensures n == Around(b, rows, cols, p)
    ensures n <= 8
  {
    n := 0;
    var k := 0;
    while k < |Offsets|
      invariant 0 <= k <= |Offsets|
      invariant n == CountAround(b, IsMine, rows, cols, p, Offsets[..k])
    {
      var q := Shift(p, Offsets[k]);
      if InBounds(rows, cols, q) && b[q.r][q.c].mine {
        n := n + 1;
      }
      assert Offsets[..k + 1][..k] == Offsets[..k];
      k := k + 1;
    }
    assert Offsets[..k] == Offsets;
  }

  /**
   * The pass that fills in neighbour numbers (`computeAllAdj`,
   * `computeNeighborCounts`, the second half of `generateField`). With
   * `minesToo` false, mined cells keep their number, as in the engines that
   * skip them.
   */
  method ComputeAdj(b: Board, rows: int, cols: int, minesToo: bool) returns (b': Board)
    requires IsGrid(b, rows, cols)
    ensures IsGrid(b', rows, cols)
    ensures forall i, j :: 0 <= i < rows && 0 <= j < cols ==>
              b'[i][j].mine == b[i][j].mine && b'[i][j].state == b[i][j].state
    ensures forall i, j :: 0 <= i < rows && 0 <= j < cols ==>
              b'[i][j].adj == if minesToo || !b[i][j].mine then Around(b, rows, cols, Pos(i, j)) else b[i][j].adj
    ensures SafeAdjCorrect(b', rows, cols)
    ensures minesToo ==> AllAdjCorrect(b', rows, cols)
  {
    b' := b;
    var r := 0;
    while r < rows
      invariant 0 <= r <= rows
      invariant IsGrid(b', rows, cols)
      invariant forall i, j :: 0 <= i < rows && 0 <= j < cols ==>
                  b'[i][j].mine == b[i][j].mine && b'[i][j].state == b[i][j].state
      invariant forall i, j :: 0 <= i < rows && 0 <= j < cols ==>
                  b'[i][j].adj == if i < r && (minesToo || !b[i][j].mine) then Around(b, rows, cols, Pos(i, j)) else b[i][j].adj
    {
      var c := 0;
      assert |b'[r]| == cols;
      while c < cols
        invariant 0 <= c <= cols
        invariant IsGrid(b', rows, cols)
        invariant forall i, j :: 0 <= i < rows && 0 <= j < cols ==>
                    b'[i][j].mine == b[i][j].mine && b'[i][j].state == b[i][j].state
        invariant forall i, j :: 0 <= i < rows && 0 <= j < cols ==>
                    b'[i][j].adj == if (i < r || (i == r && j < c)) && (minesToo || !b[i][j].mine)
                                    then Around(b, rows, cols, Pos(i, j)) else b[i][j].adj
      {
        if minesToo || !b'[r][c].mine {
          var n := CountNeighbourMines(b', rows, cols, Pos(r, c));
          MinesSameAround(b, b', rows, cols, Pos(r, c));
          b' := Put(b', Pos(r, c), b'[r][c].(adj := n));
        }
        c := c + 1;
      }
      r := r + 1;
    }
    forall p: Pos ensures Around(b', rows, cols, p) == Around(b, rows, cols, p) {
      MinesSameAround(b, b', rows, cols, p);
    }
  }
  /**
   * The `isWin` scan of Hretskyi_Danylo_CS_31 and Marharyta-Hetalo: a
   * double loop that answers false at the first safe cell not open.
   */
  method ScanWin(b: Board, rows: int, cols: int) returns (w: bool)
    requires IsGrid(b, rows, cols)
    ensures w <==> AllSafeOpen(b)
  {
    var r := 0;
    while r < rows
      invariant 0 <= r <= rows
      invariant forall i, j :: 0 <= i < r && 0 <= j < cols && !b[i][j].mine ==> b[i][j].state == Open
    {
      var c := 0;
      assert |b[r]| == cols;
      while c < cols
        invariant 0 <= c <= cols
        invariant forall i, j :: 0 <= i < r && 0 <= j < cols && !b[i][j].mine ==> b[i][j].state == Open
        invariant forall j :: 0 <= j < c && !b[r][j].mine ==> b[r][j].state == Open
      {
        if !b[r][c].mine && b[r][c].state != Open {
          return false;
        }
        c := c + 1;
      }
      r := r + 1;
    }
    return true;
  }

  /** The usual `toggleFlag` step: an open cell is left alone, otherwise closed and flagged swap. */
  function FlipFlag(b: Board, p: Pos): Board
    requires Inside(b, p)
  {
    var cell := b[p.r][p.c];
    if cell.state == Open then b
    else Put(b, p, cell.(state := if cell.state == Flagged then Closed else Flagged))
  }

  /**
   * Flipping twice restores the board; a flip changes nothing but the
   * visibility of p, never opens it, and moves the flag count by exactly one.
   */
  lemma FlipFlagFacts(b: Board, rows: int, cols: int, p: Pos)
    requires IsGrid(b, rows, cols) && InBounds(rows, cols, p)
    ensures FlipFlag(FlipFlag(b, p), p) == b
    ensures SameLayout(b, FlipFlag(b, p), rows, cols)
    ensures forall i, j :: 0 <= i < rows && 0 <= j < cols && (i != p.r || j != p.c) ==> FlipFlag(b, p)[i][j] == b[i][j]
    ensures FlipFlag(b, p)[p.r][p.c].state == Open <==> b[p.r][p.c].state == Open
    ensures Count(FlipFlag(b, p), IsFlagged) ==
              Count(b, IsFlagged) + (match b[p.r][p.c].state case Closed => 1 case Flagged => -1 case Open => 0)
    ensures Count(FlipFlag(b, p), IsOpen) == Count(b, IsOpen)
  {
    var cell := b[p.r][p.c];
    if cell.state != Open {
      var b1 := FlipFlag(b, p);
      assert FlipFlag(b1, p) == Put(b1, p, cell);
      PutBack(b, p, b1[p.r][p.c]);
      CountUpdate(b, p, b1[p.r][p.c], IsFlagged);
      CountUpdate(b, p, b1[p.r][p.c], IsOpen);
    }
  }

  /**
   * A toggle with a running flag counter (`toggleFlag` of Siller-Olena/actions.js
   * and minesweeper/script.js): nothing once the game is over or on an open
   * cell; otherwise the flag flips and the counter moves by one to match.
   */
  function ToggleCounted(b: Board, rows: int, cols: int, over: bool, flagged: int, p: Pos): (Board, int)
    requires IsGrid(b, rows, cols) && InBounds(rows, cols, p)
  {
    if over || b[p.r][p.c].state == Open then (b, flagged)
    else if b[p.r][p.c].state == Closed then (FlipFlag(b, p), flagged + 1)
    else (FlipFlag(b, p), flagged - 1)
  }

  /**
   * The counter stays the number of flagged cells; a toggle never opens a
   * cell, moves no mine, leaves the count of open safe cells (so any win
   * test) alone, and a second toggle undoes the first.
   */
  lemma ToggleCountedFacts(b: Board, rows: int, cols: int, over: bool, flagged: int, p: Pos)
    requires IsGrid(b, rows, cols) && InBounds(rows, cols, p) && flagged == Count(b, IsFlagged)
    ensures ToggleCounted(b, rows, cols, over, flagged, p).1 == Count(ToggleCounted(b, rows, cols, over, flagged, p).0, IsFlagged)
    ensures SameLayout(b, ToggleCounted(b, rows, cols, over, flagged, p).0, rows, cols)
    ensures Count(ToggleCounted(b, rows, cols, over, flagged, p).0, OpenSafe) == Count(b, OpenSafe)
    ensures var (b1, f1) := ToggleCounted(b, rows, cols, over, flagged, p);
            ToggleCounted(b1, rows, cols, over, f1, p) == (b, flagged)
  {
    FlipFlagFacts(b, rows, cols, p);
    var b1 := FlipFlag(b, p);
    CountSame(b1, b, OpenSafe, OpenSafe);
  }

  /** The win test "open safe cells == rows * cols - mines" (Siller-Olena/actions.js, minesweeper/script.js). */
  predicate SafeCountWon(b: Board, rows: int, cols: int, mines: int) {
    Count(b, OpenSafe) == rows * cols - mines
  }

  /**
   * On a board holding `mines` mines the count test is the same as "every
   * safe cell open". With a negative mine count it never holds.
   */
  lemma SafeCountWonMeaning(b: Board, rows: nat, cols: nat, mines: int)
    requires IsGrid(b, rows, cols)
    ensures Count(b, IsMine) == mines ==> (SafeCountWon(b, rows, cols, mines) <==> AllSafeOpen(b))
    ensures mines < 0 ==> !SafeCountWon(b, rows, cols, mines)
  {
    CountSplit(b, AnyCell, IsMine, IsSafe);
    CountAll(b, rows, cols, AnyCell);
    CountSubset(b, OpenSafe, IsSafe);
    CountSplit(b, IsSafe, OpenSafe, ClosedSafe);
    if AllSafeOpen(b) {
      CountNone(b, ClosedSafe);
    }
  }

  /** Numbers depend only on where the mines are, so a board with the same layout keeps them correct. */
  lemma LayoutKeepsAdj(b0: Board, b1: Board, rows: int, cols: int)
    requires SameLayout(b0, b1, rows, cols)
    ensures SafeAdjCorrect(b0, rows, cols) ==> SafeAdjCorrect(b1, rows, cols)
    ensures AllAdjCorrect(b0, rows, cols) ==> AllAdjCorrect(b1, rows, cols)
  {
    forall p: Pos ensures Around(b1, rows, cols, p) == Around(b0, rows, cols, p) {
      MinesSameAround(b0, b1, rows, cols, p);
    }
  }
  /** `countFlags(board)`: the double loop counting flagged cells. */
  method CountFlags(b: Board, rows: int, cols: int) returns (n: nat)
    requires IsGrid(b, rows, cols)
    ensures n == Count(b, IsFlagged)
  {
    n := CountCells(b, rows, cols, IsFlagged);
  }

  /** A mine shown at the end of a lost game; with keepFlags a flagged mine keeps its flag. */
  function Shown(c: Cell, keepFlags: bool): Cell {
    if c.mine && !(keepFlags && c.state == Flagged) then c.(state := Open) else c
  }

  /** The board after every mine is shown (`revealAllMines` / `revealMines`). */
  function ShowMines(b: Board, keepFlags: bool): Board {
    seq(|b|, i requires 0 <= i < |b| => seq(|b[i]|, j requires 0 <= j < |b[i]| => Shown(b[i][j], keepFlags)))
  }

  /**
   * Showing the mines moves nothing, leaves every safe cell as it was, opens
   * every mine (but a kept flag), and a second pass changes nothing.
   */
  lemma ShowMinesFacts(b: Board, rows: int, cols: int, keepFlags: bool)
    requires IsGrid(b, rows, cols)
    ensures IsGrid(ShowMines(b, keepFlags), rows, cols)
    ensures SameLayout(b, ShowMines(b, keepFlags), rows, cols)
    ensures forall i, j :: 0 <= i < rows && 0 <= j < cols && !b[i][j].mine ==> ShowMines(b, keepFlags)[i][j] == b[i][j]
    ensures forall i, j :: 0 <= i < rows && 0 <= j < cols && b[i][j].mine ==>
              ShowMines(b, keepFlags)[i][j].state == if keepFlags && b[i][j].state == Flagged then Flagged else Open
    ensures ShowMines(ShowMines(b, keepFlags), keepFlags) == ShowMines(b, keepFlags)
    ensures Count(ShowMines(b, keepFlags), OpenSafe) == Count(b, OpenSafe)
    ensures keepFlags ==> Count(ShowMines(b, keepFlags), IsFlagged) == Count(b, IsFlagged)
  {
    var s := ShowMines(b, keepFlags);
    forall i | 0 <= i < |b| ensures ShowMines(s, keepFlags)[i] == s[i] {
      assert forall j :: 0 <= j < |b[i]| ==> Shown(s[i][j], keepFlags) == s[i][j];
    }
    CountSame(s, b, OpenSafe, OpenSafe);
    if keepFlags {
      CountSame(s, b, IsFlagged, IsFlagged);
    }
  }

  /** Showing the mines keeps the mine count and can only lower the flag count. */
  lemma ShowMinesCounts(b: Board, rows: int, cols: int, keepFlags: bool)
    requires IsGrid(b, rows, cols)
    ensures Count(ShowMines(b, keepFlags), IsMine) == Count(b, IsMine)
    ensures Count(ShowMines(b, keepFlags), IsFlagged) <= Count(b, IsFlagged)
  {
    var s := ShowMines(b, keepFlags);
    CountSame(s, b, IsMine, IsMine);
    CountLe(s, b, IsFlagged, IsFlagged);
  }

  /** The double loop over the board that uncovers each mine in place. */
  method RevealMines(b: Board, rows: int, cols: int, keepFlags: bool) returns (b': Board)
    requires IsGrid(b, rows, cols)
    ensures b' == ShowMines(b, keepFlags)
  {
    b' := b;
    var r := 0;
    while r < rows
      invariant 0 <= r <= rows && IsGrid(b', rows, cols)
      invariant forall i, j :: 0 <= i < rows && 0 <= j < cols ==>
                  b'[i][j] == if i < r then Shown(b[i][j], keepFlags) else b[i][j]
    {
      var c := 0;
      assert |b'[r]| == cols;
      while c < cols
        invariant 0 <= c <= cols && IsGrid(b', rows, cols)
        invariant forall i, j :: 0 <= i < rows && 0 <= j < cols ==>
                    b'[i][j] == if i < r || (i == r && j < c) then Shown(b[i][j], keepFlags) else b[i][j]
      {
        var cell := b'[r][c];
        if cell.mine && !(keepFlags && cell.state == Flagged) {
          b' := Put(b', Pos(r, c), cell.(state := Open));
        }
        c := c + 1;
      }
      r := r + 1;
    }
    assert forall i :: 0 <= i < rows ==> b'[i] == ShowMines(b, keepFlags)[i];
  }

  /** On a board without mines every cell's true number is 0. */
  lemma NoMinesNoNumbers(b: Board, rows: int, cols: int)
    requires IsGrid(b, rows, cols)
    requires forall i, j :: 0 <= i < rows && 0 <= j < cols ==> !b[i][j].mine
    ensures forall p :: Around(b, rows, cols, p) == 0
  {
    forall p ensures Around(b, rows, cols, p) == 0 {
      NeighbourMinesIsCardinality(b, IsMine, rows, cols, p);
      assert MinedNeighbours(b, IsMine, rows, cols, p) == {};
    }
  }
}
