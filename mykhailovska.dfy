/**
 * Mykhailovska-Olena/Minesweeper-Game-Web/script.js: `Cell` and `GameState`
 * objects in one global `game`, a recursive `openCell` that guards every
 * call (bounds, state, status) and tests for a win after its loop by
 * counting the cells still closed or flagged, and a "reveal safe" button
 * that opens every closed blank cell.
 */
module Mykhailovska {
  import opened Grid
  import opened Neighbours
  import opened Cells
  import opened Placement
  import opened Cascade
  import opened Recursion

  datatype Status = InProgress | Won | Lost

  /**
   * `generateField(rows, cols, mines)`: blank cells, `mines` mines drawn by
   * rejection (the loop runs until that many are down), then every safe
   * cell numbered; mines keep the number 0.
   */
  method GenerateField(rows: nat, cols: nat, mines: int, draws: seq<Pos>) returns (b: Board)
    requires forall k :: 0 <= k < |draws| ==> InBounds(rows, cols, draws[k])
    requires Fresh(draws, {}) >= mines
    ensures SafeAdjCorrect(b, rows, cols)
    ensures Count(b, IsMine) == if mines > 0 then mines else 0
    ensures forall i, j :: 0 <= i < rows && 0 <= j < cols ==>
              b[i][j].state == Closed && (b[i][j].mine ==> b[i][j].adj == 0 && Pos(i, j) in draws)
  {
    var blank := CreateBoard(rows, cols);
    var mined := PlaceByDraws(blank, rows, cols, if mines > 0 then mines else 0, draws, {});
    b := ComputeAdj(mined, rows, cols, false);
    CountSame(b, mined, IsMine, IsMine);
  }

  /** The win test after a cascade: the cells still closed or flagged number `mineCount`. */
  predicate WinTest(b: Board, mineCount: int) {
    Count(b, NotOpen) == mineCount
  }

  /**
   * A win reached from p: `atWin` is the board when the test first passed,
   * holding only cells reachable from p newly opened, and the result shows
   * every unflagged mine.
   */
  ghost predicate WonFrom(b: Board, b': Board, atWin: Board, rows: int, cols: int, mineCount: int, p: Pos) {
    IsGrid(atWin, rows, cols) && InBounds(rows, cols, p) &&
    OnlyOpensReach(b, atWin, rows, cols, p) && atWin[p.r][p.c].state == Open &&
    WinTest(atWin, mineCount) && b' == ShowMines(atWin, true)
  }

  /**
   * What `openCell(row, col)` does. `atWin` names the board at the moment
   * of a win, which may come in a nested call before the cascade is
   * complete; after a win every later call returns at once.
   */
  ghost predicate OpenCellSpec(b: Board, rows: int, cols: int, mineCount: int, st: Status, p: Pos,
                               b': Board, st': Status, atWin: Board)
    requires IsGrid(b, rows, cols)
  {
    if !InBounds(rows, cols, p) || b[p.r][p.c].state != Closed || st != InProgress then
      b' == b && st' == st
    else if b[p.r][p.c].mine then
      b' == ShowMines(b, true) && st' == Lost
    else
      (st' == InProgress && Filled(b, b', rows, cols, p) && !WinTest(b', mineCount)) ||
      (st' == Won && WonFrom(b, b', atWin, rows, cols, mineCount, p))
  }

  /**
   * `openCell`: out of bounds, on an open or flagged cell, or once the game
   * is over, nothing happens; a mine is opened, the game is lost and every
   * unflagged mine is shown; a 0 calls `openCell` on its eight offsets; then
   * the closed-or-flagged count decides a win, which also shows the mines.
   */
  method OpenRec(b: Board, rows: int, cols: int, mineCount: int, st: Status, p: Pos)
      returns (b': Board, st': Status, ghost atWin: Board)
    requires ZeroSafe(b, rows, cols)
    ensures IsGrid(b', rows, cols)
    ensures OpenCellSpec(b, rows, cols, mineCount, st, p, b', st', atWin)
    decreases Count(b, IsClosed), 1
  {
    atWin := b;
    if !InBounds(rows, cols, p) {
      return b, st, b;
    }
    var cell := b[p.r][p.c];
    if cell.state == Open || cell.state == Flagged || st != InProgress {
      return b, st, b;
    }
    if cell.mine {
      b' := Put(b, p, cell.(state := Open));
      b' := RevealMines(b', rows, cols, true);
      assert b' == ShowMines(b, true) by {
        forall i | 0 <= i < rows ensures b'[i] == ShowMines(b, true)[i] { }
      }
      return b', Lost, b;
    }
    b', st' := Put(b, p, cell.(state := Open)), InProgress;
    if cell.adj == 0 {
      OffsetsCover(rows, cols, p);
      FrameStart(b, rows, cols, p, ShiftAll(p, Offsets));
      b', st', atWin := Spread(b, b', rows, cols, mineCount, p);
    } else {
      OpenNumbered(b, rows, cols, p);
    }
    if st' == InProgress {
      atWin := b';
    }
    var closedOrFlagged := CountCells(b', rows, cols, NotOpen);
    OpenFinish(b, b', atWin, rows, cols, mineCount, p, st');
    if closedOrFlagged == mineCount {
      st' := Won;
      b' := RevealMines(b', rows, cols, true);
    }
  }

  /**
   * The loop of `openCell` over the eight offsets once p, showing 0, is
   * open: it fills the cascade from p, or a nested call wins the game.
   */
  method Spread(b: Board, b1: Board, rows: int, cols: int, mineCount: int, p: Pos)
      returns (b': Board, st': Status, ghost atWin: Board)
    requires FrameInv(b, b1, rows, cols, p, ShiftAll(p, Offsets), 0)
    ensures st' == InProgress || st' == Won
    ensures IsGrid(b', rows, cols)
    ensures st' == InProgress ==> Filled(b, b', rows, cols, p)
    ensures st' == Won ==> WonFrom(b, b', atWin, rows, cols, mineCount, p)
    decreases Count(b, IsClosed), 0
  {
    var cands := ShiftAll(p, Offsets);
    b', st', atWin := b1, InProgress, b;
    var k := 0;
    while k < |Offsets|
      invariant 0 <= k <= |Offsets| && SpreadInv(b, b', atWin, rows, cols, mineCount, p, cands, k, st')
    {
      // A call once the game is won, off the board or on a cell that is
      // not closed returns at once.
      var q := Shift(p, Offsets[k]);
      SpreadEnter(b, b', atWin, rows, cols, mineCount, p, cands, k, st');
      if st' == InProgress && InBounds(rows, cols, q) && b'[q.r][q.c].state == Closed {
        var b2, st2, w2 := OpenRec(b', rows, cols, mineCount, st', q);
        SpreadCall(b, b', atWin, rows, cols, mineCount, p, cands, k, b2, st2, w2);
        b', st', atWin := b2, st2, if st2 == InProgress then atWin else w2;
      }
      k := k + 1;
    }
    if st' == InProgress {
      FrameEnd(b, b', rows, cols, p, cands);
    }
  }

  /**
   * The closing win test of `openCell` on a safe closed cell: a filled
   * cascade, or a win inside it, becomes the outcome `OpenCellSpec` names.
   */
  lemma OpenFinish(b: Board, b1: Board, atWin: Board, rows: int, cols: int, mineCount: int, p: Pos, st1: Status)
    requires IsGrid(b, rows, cols) && Enterable(b, rows, cols, p) && IsGrid(b1, rows, cols)
    requires st1 == InProgress || st1 == Won
    requires st1 == InProgress ==> Filled(b, b1, rows, cols, p) && atWin == b1
    requires st1 == Won ==> WonFrom(b, b1, atWin, rows, cols, mineCount, p)
    ensures IsGrid(ShowMines(b1, true), rows, cols)
    ensures OpenCellSpec(b, rows, cols, mineCount, InProgress, p,
                         if WinTest(b1, mineCount) then ShowMines(b1, true) else b1,
                         if WinTest(b1, mineCount) then Won else st1, atWin)
  {
    ShowMinesFacts(b1, rows, cols, true);
    if st1 == InProgress {
      FilledSettled(b, b1, rows, cols, p);
    } else {
      ShowMinesFacts(atWin, rows, cols, true);
    }
  }

  /** The loop over the eight offsets after k of them: the frame goes on, or the game is won. */
  ghost predicate SpreadInv(b: Board, b': Board, atWin: Board, rows: int, cols: int, mineCount: int, p: Pos,
                            cands: seq<Pos>, k: int, st: Status)
  {
    IsGrid(b', rows, cols) && 0 <= k <= |cands| && (st == InProgress || st == Won) &&
    (st == InProgress ==> FrameInv(b, b', rows, cols, p, cands, k)) &&
    (st == Won ==> WonFrom(b, b', atWin, rows, cols, mineCount, p))
  }

  /**
   * Offset k: a neighbour that will be entered is adjacent, enterable, on a
   * board whose zeros are safe and with fewer closed cells than at the start;
   * any other offset keeps the invariant as it is.
   */
  lemma SpreadEnter(b: Board, b': Board, atWin: Board, rows: int, cols: int, mineCount: int, p: Pos,
                    cands: seq<Pos>, k: int, st: Status)
    requires cands == ShiftAll(p, Offsets) && k < |cands| && SpreadInv(b, b', atWin, rows, cols, mineCount, p, cands, k, st)
    ensures var q := cands[k];
            if st == InProgress && InBounds(rows, cols, q) && b'[q.r][q.c].state == Closed
            then Adjacent(p, q) && Enterable(b', rows, cols, q) && ZeroSafe(b', rows, cols) &&
                 Count(b', IsClosed) < Count(b, IsClosed)
            else SpreadInv(b, b', atWin, rows, cols, mineCount, p, cands, k + 1, st)
  {
    var q := cands[k];
    OffsetsAreAdjacent(p, k);
    if st == InProgress {
      if InBounds(rows, cols, q) && b'[q.r][q.c].state == Closed {
        FrameNext(b, b', rows, cols, p, cands, k);
        FrameFewer(b, b', rows, cols, p, cands, k);
      } else {
        FrameSkip(b, b', rows, cols, p, cands, k);
      }
    }
  }

  /** What the call of `openCell` on the k-th neighbour leaves for the rest of the loop. */
  lemma SpreadCall(b: Board, b': Board, atWin: Board, rows: int, cols: int, mineCount: int, p: Pos,
                   cands: seq<Pos>, k: int, b2: Board, st2: Status, w2: Board)
    requires k < |cands| && SpreadInv(b, b', atWin, rows, cols, mineCount, p, cands, k, InProgress)
    requires Adjacent(p, cands[k]) && Enterable(b', rows, cols, cands[k])
    requires IsGrid(b2, rows, cols) && OpenCellSpec(b', rows, cols, mineCount, InProgress, cands[k], b2, st2, w2)
    ensures SpreadInv(b, b2, if st2 == InProgress then atWin else w2, rows, cols, mineCount, p, cands, k + 1, st2)
  {
    if st2 == InProgress {
      FrameCall(b, b', b2, rows, cols, p, cands, k);
    } else {
      FrameStop(b, b', w2, rows, cols, p, cands, k);
    }
  }

  /**
   * On a board that holds `mineCount` mines, none of them open, a win,
   * even one reached inside a nested call, has opened the whole cascade
   * and every safe cell.
   */
  lemma WinIsFilled(b: Board, atWin: Board, rows: nat, cols: nat, mineCount: int, p: Pos)
    requires IsGrid(b, rows, cols) && OnlyOpensReach(b, atWin, rows, cols, p) && WinTest(atWin, mineCount)
    requires NoOpenMine(b) && Count(b, IsMine) == mineCount
    ensures Filled(b, atWin, rows, cols, p) && AllSafeOpen(atWin)
  {
    ReachNoMine(b, atWin, rows, cols, p);
    LayoutKept(b, atWin, rows, cols);
    WinTestsAgree(atWin, rows, cols, mineCount);
    WinFilled(b, atWin, rows, cols, p);
  }

  /**
   * Opening moves no mine or number and leaves a finished game alone; a
   * loss opens every unflagged mine; while in progress no mine is open and
   * the flags stay; on an honest board a win has opened every safe cell
   * and shows every unflagged mine.
   */
  lemma OpenCellKeeps(b: Board, rows: nat, cols: nat, mineCount: int, st: Status, p: Pos, b': Board, st': Status, atWin: Board)
    requires IsGrid(b, rows, cols) && OpenCellSpec(b, rows, cols, mineCount, st, p, b', st', atWin)
    ensures SameLayout(b, b', rows, cols)
    ensures st != InProgress ==> b' == b && st' == st
    ensures st' == Lost && st == InProgress ==>
              forall i, j :: 0 <= i < rows && 0 <= j < cols && b[i][j].mine && b[i][j].state != Flagged ==> b'[i][j].state == Open
    ensures st' == InProgress ==> Count(b', IsFlagged) == Count(b, IsFlagged)
    ensures st' == InProgress && NoOpenMine(b) ==> NoOpenMine(b')
    ensures st' == Won && st == InProgress && NoOpenMine(b) && Count(b, IsMine) == mineCount ==>
              AllSafeOpen(b') &&
              forall i, j :: 0 <= i < rows && 0 <= j < cols && b[i][j].mine ==>
                b'[i][j].state == if b[i][j].state == Flagged then Flagged else Open
  {
    if st == InProgress && InBounds(rows, cols, p) && b[p.r][p.c].state == Closed {
      if b[p.r][p.c].mine {
        ShowMinesFacts(b, rows, cols, true);
      } else if st' == InProgress {
        FilledSettled(b, b', rows, cols, p);
        ReachKeepsFlags(b, b', rows, cols, p);
        FilledSpares(b, b', rows, cols, p);
      } else {
        WonKeeps(b, b', atWin, rows, cols, mineCount, p);
      }
    }
  }

  /** The win half of `OpenCellKeeps`. */
  lemma WonKeeps(b: Board, b': Board, atWin: Board, rows: nat, cols: nat, mineCount: int, p: Pos)
    requires IsGrid(b, rows, cols) && WonFrom(b, b', atWin, rows, cols, mineCount, p)
    ensures SameLayout(b, b', rows, cols)
    ensures NoOpenMine(b) && Count(b, IsMine) == mineCount ==>
              AllSafeOpen(b') &&
              forall i, j :: 0 <= i < rows && 0 <= j < cols && b[i][j].mine ==>
                b'[i][j].state == if b[i][j].state == Flagged then Flagged else Open
  {
    ShowMinesFacts(atWin, rows, cols, true);
    if NoOpenMine(b) && Count(b, IsMine) == mineCount {
      WinIsFilled(b, atWin, rows, cols, mineCount, p);
      FilledSpares(b, atWin, rows, cols, p);
    }
  }

  /** `toggleFlag(row, col)`: guarded by bounds and status; an open cell stays; no cap. */
  function Toggled(b: Board, rows: int, cols: int, st: Status, p: Pos): Board
    requires IsGrid(b, rows, cols)
  {
    if !InBounds(rows, cols, p) || st != InProgress then b else FlipFlag(b, p)
  }

  /** A toggle opens nothing, moves no mine, and changes the flag count by one on a closed or flagged cell. */
  lemma ToggleFacts(b: Board, rows: int, cols: int, st: Status, p: Pos)
    requires IsGrid(b, rows, cols)
    ensures SameLayout(b, Toggled(b, rows, cols, st, p), rows, cols)
    ensures Count(Toggled(b, rows, cols, st, p), IsOpen) == Count(b, IsOpen)
    ensures st == InProgress && InBounds(rows, cols, p) && b[p.r][p.c].state == Closed ==>
              Count(Toggled(b, rows, cols, st, p), IsFlagged) == Count(b, IsFlagged) + 1
    ensures st == InProgress && InBounds(rows, cols, p) && b[p.r][p.c].state == Flagged ==>
              Count(Toggled(b, rows, cols, st, p), IsFlagged) == Count(b, IsFlagged) - 1
    ensures Toggled(Toggled(b, rows, cols, st, p), rows, cols, st, p) == b
  {
    if InBounds(rows, cols, p) {
      FlipFlagFacts(b, rows, cols, p);
    }
  }

  /** The cells before (r, c) in row-major order that were closed blanks at the start are open now. */
  ghost predicate SweptTo(b0: Board, b: Board, rows: int, cols: int, r: int, c: int)
    requires IsGrid(b0, rows, cols) && IsGrid(b, rows, cols)
  {
    forall i, j ::
      0 <= i < rows && 0 <= j < cols && (i < r || (i == r && j < c)) &&
      b0[i][j].state == Closed && !b0[i][j].mine && b0[i][j].adj == 0
      ==> b[i][j].state == Open
  }

  /** While the game is in progress the sweep has only opened safe cells and kept every flag. */
  ghost predicate SweepInv(b0: Board, b: Board, rows: int, cols: int, st0: Status, st: Status) {
    IsGrid(b, rows, cols) && SameLayout(b0, b, rows, cols) && ZeroSafe(b, rows, cols) &&
    (st0 != InProgress ==> b == b0 && st == st0) &&
    (st == InProgress || st == Won || b == b0) &&
    (st == InProgress ==>
       st0 == InProgress && OnlyOpens(b0, b, rows, cols) &&
       (NoOpenMine(b0) ==> NoOpenMine(b)) &&
       forall i, j :: 0 <= i < rows && 0 <= j < cols ==> (b[i][j].state == Flagged <==> b0[i][j].state == Flagged))
  }

  /** One `openCell` call of the sweep on a closed blank keeps the sweep's invariant and opens that cell. */
  lemma SweepStep(b0: Board, b: Board, b2: Board, rows: int, cols: int, mineCount: int, st0: Status, p: Pos, st2: Status, atWin: Board)
    requires SweepInv(b0, b, rows, cols, st0, InProgress) && InBounds(rows, cols, p)
    requires b[p.r][p.c].state == Closed && !b[p.r][p.c].mine
    requires IsGrid(b2, rows, cols) && OpenCellSpec(b, rows, cols, mineCount, InProgress, p, b2, st2, atWin)
    ensures SweepInv(b0, b2, rows, cols, st0, st2)
    ensures st2 == InProgress ==> b2[p.r][p.c].state == Open && OnlyOpens(b, b2, rows, cols)
  {
    OpenCellKeeps(b, rows, cols, mineCount, InProgress, p, b2, st2, atWin);
    LayoutKept(b, b2, rows, cols);
    if st2 == InProgress {
      FilledSettled(b, b2, rows, cols, p);
      ReachKeepsFlags(b, b2, rows, cols, p);
    }
  }

  /**
   * The "reveal safe" button: every cell that is closed, safe and shows 0
   * when the scan reaches it is opened with `openCell`. While the game stays
   * in progress, every closed blank of the starting board ends up open, no
   * flag moves and nothing but opening happens.
   */
  method RevealSafe(b: Board, rows: nat, cols: nat, mineCount: int, st: Status) returns (b': Board, st': Status)
    requires ZeroSafe(b, rows, cols)
    ensures SweepInv(b, b', rows, cols, st, st')
    ensures st' == InProgress ==> SweptTo(b, b', rows, cols, rows, 0)
  {
    b', st' := b, st;
    var r := 0;
    while r < rows
      invariant 0 <= r <= rows
      invariant SweepInv(b, b', rows, cols, st, st')
      invariant st' == InProgress ==> SweptTo(b, b', rows, cols, r, 0)
    {
      var c := 0;
      while c < cols
        invariant 0 <= c <= cols
        invariant SweepInv(b, b', rows, cols, st, st')
        invariant st' == InProgress ==> SweptTo(b, b', rows, cols, r, c)
      {
        var cell := b'[r][c];
        if st' == InProgress && cell.state == Closed && !cell.mine && cell.adj == 0 {
          var b2, st2, w := OpenRec(b', rows, cols, mineCount, st', Pos(r, c));
          SweepStep(b, b', b2, rows, cols, mineCount, st, Pos(r, c), st2, w);
          b', st' := b2, st2;
        }
        c := c + 1;
      }
      r := r + 1;
    }
  }

  class Game {
    var rows: nat
    var cols: nat
    var mineCount: int
    var status: Status
    var board: Board

    ghost predicate Valid()
      reads this
    {
      ZeroSafe(board, rows, cols) && (status == InProgress ==> NoOpenMine(board))
    }

    /** `initializeGame(rows, cols, mines)`, also what the restart button does. */
    constructor (rows: nat, cols: nat, mines: int, draws: seq<Pos>)
      requires forall k :: 0 <= k < |draws| ==> InBounds(rows, cols, draws[k])
      requires Fresh(draws, {}) >= mines
      ensures Valid()
      ensures this.rows == rows && this.cols == cols && mineCount == mines && status == InProgress
      ensures SafeAdjCorrect(board, rows, cols) && Count(board, IsMine) == if mines > 0 then mines else 0
      ensures forall i, j :: 0 <= i < rows && 0 <= j < cols ==> board[i][j].state == Closed
    {
      var b := GenerateField(rows, cols, mines, draws);
      AdjZeroSafe(b, rows, cols);
      this.rows, this.cols, mineCount := rows, cols, mines;
      status := InProgress;
      board := b;
    }

    /** `openCell(row, col)`; `atWin` is the board at the moment of a win. */
    method OpenCell(r: int, c: int) returns (ghost atWin: Board)
      requires Valid()
      modifies this
      ensures Valid() && rows == old(rows) && cols == old(cols) && mineCount == old(mineCount)
      ensures OpenCellSpec(old(board), rows, cols, mineCount, old(status), Pos(r, c), board, status, atWin)
    {
      var b, st, w := OpenRec(board, rows, cols, mineCount, status, Pos(r, c));
      OpenCellKeeps(board, rows, cols, mineCount, status, Pos(r, c), b, st, w);
      LayoutKept(board, b, rows, cols);
      board, status, atWin := b, st, w;
    }

    /** `toggleFlag(row, col)`. */
    method ToggleFlag(r: int, c: int)
      requires Valid()
      modifies this
      ensures Valid() && rows == old(rows) && cols == old(cols) && mineCount == old(mineCount)
      ensures status == old(status)
      ensures board == Toggled(old(board), rows, cols, status, Pos(r, c))
    {
      if r < 0 || r >= rows || c < 0 || c >= cols || status != InProgress {
        return;
      }
      var cell := board[r][c];
      if cell.state == Open {
        return;
      }
      var b := board;
      FlipFlagFacts(b, rows, cols, Pos(r, c));
      LayoutKept(b, FlipFlag(b, Pos(r, c)), rows, cols);
      board := Put(b, Pos(r, c), cell.(state := if cell.state == Flagged then Closed else Flagged));
    }

    /** The "reveal safe" button handler. */
    method RevealSafeCells()
      requires Valid()
      modifies this
      ensures Valid() && rows == old(rows) && cols == old(cols) && mineCount == old(mineCount)
      ensures SweepInv(old(board), board, rows, cols, old(status), status)
      ensures status == InProgress ==> SweptTo(old(board), board, rows, cols, rows, 0)
    {
      var b, st := RevealSafe(board, rows, cols, mineCount, status);
      board, status := b, st;
    }
  }
}
