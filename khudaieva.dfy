/**
 * Khudaieva-Valeriia/script.js: a fixed 10 x 10 board with 15 mines held in
 * one `board` array, a recursive `openCell` over the 3x3 block, click
 * handlers that own the status (`handleLeftClick` loses on a mine, shows
 * every mine and then runs `checkWin`) and a `flagsLeft` budget kept by
 * `handleRightClick`.
 */
module Khudaieva {
  import opened Grid
  import opened Neighbours
  import opened Cells
  import opened Placement
  import opened Cascade
  import opened Recursion

  datatype Status = InProgress | Win | Lose

  const Rows := 10
  const Cols := 10
  const Mines := 15

  /**
   * `generateField(rows, cols, mines)`: blank cells, `mines` mines drawn by
   * rejection, then every cell numbered, mines included.
   */
  method GenerateField(rows: nat, cols: nat, mines: int, draws: seq<Pos>) returns (b: Board)
    requires forall k :: 0 <= k < |draws| ==> InBounds(rows, cols, draws[k])
    requires Fresh(draws, {}) >= mines
    ensures AllAdjCorrect(b, rows, cols)
    ensures Count(b, IsMine) == if mines > 0 then mines else 0
    ensures forall i, j :: 0 <= i < rows && 0 <= j < cols ==> b[i][j].state == Closed && (b[i][j].mine ==> Pos(i, j) in draws)
  {
    var blank := CreateBoard(rows, cols);
    var mined := PlaceByDraws(blank, rows, cols, if mines > 0 then mines else 0, draws, {});
    b := ComputeAdj(mined, rows, cols, true);
    CountSame(b, mined, IsMine, IsMine);
  }

  /**
   * `countNeighbourMines(field, row, col)`: the nested loop over rows
   * `row - 1 .. row + 1` and columns `col - 1 .. col + 1` visits the nine
   * block offsets in this order, skipping the centre and every cell outside
   * `gameState.rows` x `gameState.cols`.
   */
  method CountNeighbourMines(b: Board, rows: int, cols: int, p: Pos) returns (n: nat)
    requires IsGrid(b, rows, cols)
    ensures n == Around(b, rows, cols, p)
    ensures n == |MinedNeighbours(b, IsMine, rows, cols, p)|
  {
    n := 0;
    var k := 0;
    while k < |Block|
      invariant 0 <= k <= |Block|
      invariant n == CountAround(b, IsMine, rows, cols, p, Block[..k])
    {
      var q := Shift(p, Block[k]);
      assert Block[..k + 1][..k] == Block[..k];
      if 0 <= q.r < rows && 0 <= q.c < cols && !(q.r == p.r && q.c == p.c) {
        if b[q.r][q.c].mine {
          n := n + 1;
        }
      }
      k := k + 1;
    }
    assert Block[..k] == Block;
    BlockCountsNeighbours(b, IsMine, rows, cols, p);
    NeighbourMinesIsCardinality(b, IsMine, rows, cols, p);
  }

  /** What `openCell(row, col)` does; its callers always name a cell of the board. */
  ghost predicate OpenCellSpec(b: Board, rows: int, cols: int, st: Status, p: Pos, b': Board, st': Status)
    requires IsGrid(b, rows, cols) && InBounds(rows, cols, p)
  {
    if b[p.r][p.c].state != Closed then
      b' == b && st' == st
    else if b[p.r][p.c].mine then
      b' == Put(b, p, b[p.r][p.c].(state := Open)) && st' == Lose
    else
      Filled(b, b', rows, cols, p) && st' == st
  }

  /**
   * `openCell`: only a closed cell is opened; a mine opens and loses; a 0
   * calls `openCell` on every in-bounds cell of its 3x3 block, itself
   * included, which is open by then.
   */
  method OpenRec(b: Board, rows: int, cols: int, st: Status, p: Pos) returns (b': Board, st': Status)
    requires ZeroSafe(b, rows, cols) && InBounds(rows, cols, p)
    ensures IsGrid(b', rows, cols)
    ensures OpenCellSpec(b, rows, cols, st, p, b', st')
    decreases Count(b, IsClosed)
  {
    var cell := b[p.r][p.c];
    if cell.state != Closed {
      return b, st;
    }
    if cell.mine {
      return Put(b, p, cell.(state := Open)), Lose;
    }
    b', st' := Put(b, p, cell.(state := Open)), st;
    if cell.adj == 0 {
      var cands := ShiftAll(p, Block);
      BlockCovers(rows, cols, p);
      FrameStart(b, rows, cols, p, cands);
      var k := 0;
      while k < |Block|
        invariant FrameInv(b, b', rows, cols, p, cands, k) && st' == st
      {
        var q := Shift(p, Block[k]);
        // A call on a cell that is not closed returns at once.
        if InBounds(rows, cols, q) && b'[q.r][q.c].state == Closed {
          BlockInZone(p, k);
          FrameNext(b, b', rows, cols, p, cands, k);
          FrameFewer(b, b', rows, cols, p, cands, k);
          var b2, st2 := OpenRec(b', rows, cols, st', q);
          FrameCall(b, b', b2, rows, cols, p, cands, k);
          b', st' := b2, st2;
        } else {
          FrameSkip(b, b', rows, cols, p, cands, k);
        }
        k := k + 1;
      }
      FrameEnd(b, b', rows, cols, p, cands);
    } else {
      OpenNumbered(b, rows, cols, p);
    }
  }

  /**
   * What `handleLeftClick(r, c)` does: ignored unless in progress or on a
   * flagged cell; `openCell`; a mine loses and opens every mine, flagged
   * ones too; then `checkWin` wins when every safe cell is open.
   */
  ghost predicate LeftClickSpec(b: Board, rows: int, cols: int, st: Status, p: Pos, b': Board, st': Status)
    requires IsGrid(b, rows, cols) && InBounds(rows, cols, p)
  {
    if st != InProgress || b[p.r][p.c].state == Flagged then
      b' == b && st' == st
    else if b[p.r][p.c].mine then
      b' == ShowMines(b, false) && st' == (if AllSafeOpen(b) then Win else Lose)
    else
      (if b[p.r][p.c].state == Closed then Filled(b, b', rows, cols, p) else b' == b) &&
      st' == (if AllSafeOpen(b') then Win else InProgress)
  }

  method LeftClick(b: Board, rows: int, cols: int, st: Status, p: Pos) returns (b': Board, st': Status)
    requires ZeroSafe(b, rows, cols) && InBounds(rows, cols, p)
    ensures IsGrid(b', rows, cols)
    ensures LeftClickSpec(b, rows, cols, st, p, b', st')
  {
    if st != InProgress {
      return b, st;
    }
    var cell := b[p.r][p.c];
    if cell.state == Flagged {
      return b, st;
    }
    b', st' := OpenRec(b, rows, cols, st, p);
    if cell.mine {
      st' := Lose;
      ShowAfterOpen(b, rows, cols, p, b');
      b' := RevealMines(b', rows, cols, false);
      ShowMinesFacts(b, rows, cols, false);
    }
    var won := ScanWin(b', rows, cols);
    if won {
      st' := Win;
    }
  }

  /** Opening a mine first does not change the board once every mine is shown. */
  lemma ShowAfterOpen(b: Board, rows: int, cols: int, p: Pos, b1: Board)
    requires IsGrid(b, rows, cols) && InBounds(rows, cols, p) && b[p.r][p.c].mine
    requires b1 == b || b1 == Put(b, p, b[p.r][p.c].(state := Open))
    ensures ShowMines(b1, false) == ShowMines(b, false)
  {
    forall i | 0 <= i < rows ensures ShowMines(b1, false)[i] == ShowMines(b, false)[i] { }
  }

  /**
   * A left click moves no mine or number; while the game goes on no mine
   * is open and every flag stays; a click on a mine while some safe cell is
   * still closed loses and shows every mine.
   */
  lemma LeftClickKeeps(b: Board, rows: int, cols: int, st: Status, p: Pos, b': Board, st': Status)
    requires IsGrid(b, rows, cols) && InBounds(rows, cols, p)
    requires LeftClickSpec(b, rows, cols, st, p, b', st')
    ensures SameLayout(b, b', rows, cols)
    ensures st' == InProgress ==> Count(b', IsFlagged) == Count(b, IsFlagged)
    ensures st' == InProgress && NoOpenMine(b) ==> NoOpenMine(b')
    ensures st' == Win && st == InProgress ==> AllSafeOpen(b')
    ensures st == InProgress && b[p.r][p.c].state == Closed && b[p.r][p.c].mine && !AllSafeOpen(b) ==>
              st' == Lose && forall i, j :: 0 <= i < rows && 0 <= j < cols && b[i][j].mine ==> b'[i][j].state == Open
  {
    if st == InProgress && b[p.r][p.c].state != Flagged {
      if b[p.r][p.c].mine {
        ShowMinesFacts(b, rows, cols, false);
        if AllSafeOpen(b) {
          assert AllSafeOpen(b') by {
            forall i, j | 0 <= i < |b'| && 0 <= j < |b'[i]| && !b'[i][j].mine ensures b'[i][j].state == Open {
            }
          }
        }
      } else if b[p.r][p.c].state == Closed {
        FilledSettled(b, b', rows, cols, p);
        ReachKeepsFlags(b, b', rows, cols, p);
        FilledSpares(b, b', rows, cols, p);
      }
    }
  }

  /** `handleRightClick` on the board and `flagsLeft`. */
  function RightClick(b: Board, rows: int, cols: int, st: Status, left: int, p: Pos): (Board, int)
    requires IsGrid(b, rows, cols) && InBounds(rows, cols, p)
  {
    if st != InProgress || b[p.r][p.c].state == Open then (b, left)
    else if b[p.r][p.c].state == Closed && left > 0 then (FlipFlag(b, p), left - 1)
    else if b[p.r][p.c].state == Flagged then (FlipFlag(b, p), left + 1)
    else (b, left)
  }

  /** `flagsLeft` stays the mine count less the flags and within `[0, mineCount]`; nothing opens or moves. */
  lemma RightClickKeepsBudget(b: Board, rows: int, cols: int, st: Status, mineCount: int, left: int, p: Pos)
    requires IsGrid(b, rows, cols) && InBounds(rows, cols, p)
    requires left == mineCount - Count(b, IsFlagged) && 0 <= left
    ensures RightClick(b, rows, cols, st, left, p).1 == mineCount - Count(RightClick(b, rows, cols, st, left, p).0, IsFlagged)
    ensures 0 <= RightClick(b, rows, cols, st, left, p).1 <= mineCount
    ensures SameLayout(b, RightClick(b, rows, cols, st, left, p).0, rows, cols)
    ensures Count(RightClick(b, rows, cols, st, left, p).0, IsOpen) == Count(b, IsOpen)
  {
    FlipFlagFacts(b, rows, cols, p);
  }

  /**
   * Between clicks: the size is the script's, numbers are right, and while
   * the game is in progress no mine is open and `flagsLeft` is the mine
   * count less the flags.
   */
  ghost predicate Consistent(b: Board, rows: int, cols: int, mineCount: int, st: Status, left: int) {
    rows == Rows && cols == Cols && mineCount == Mines &&
    ZeroSafe(b, rows, cols) && 0 <= left <= mineCount &&
    (st == InProgress ==> NoOpenMine(b) && left == mineCount - Count(b, IsFlagged))
  }

  lemma LeftClickConsistent(b: Board, rows: int, cols: int, mineCount: int, st: Status, left: int, p: Pos, b': Board, st': Status)
    requires Consistent(b, rows, cols, mineCount, st, left) && InBounds(rows, cols, p)
    requires LeftClickSpec(b, rows, cols, st, p, b', st')
    ensures Consistent(b', rows, cols, mineCount, st', left)
  {
    LeftClickKeeps(b, rows, cols, st, p, b', st');
    LayoutKept(b, b', rows, cols);
  }

  lemma RightClickConsistent(b: Board, rows: int, cols: int, mineCount: int, st: Status, left: int, p: Pos)
    requires Consistent(b, rows, cols, mineCount, st, left) && InBounds(rows, cols, p) && st == InProgress
    ensures Consistent(RightClick(b, rows, cols, st, left, p).0, rows, cols, mineCount, st, RightClick(b, rows, cols, st, left, p).1)
  {
    RightClickKeepsBudget(b, rows, cols, st, mineCount, left, p);
    FlipFlagFacts(b, rows, cols, p);
    LayoutKept(b, RightClick(b, rows, cols, st, left, p).0, rows, cols);
  }

  class Game {
    var rows: nat
    var cols: nat
    var mineCount: int
    var status: Status
    var board: Board
    var flagsLeft: int

    ghost predicate Valid()
      reads this
    {
      Consistent(board, rows, cols, mineCount, status, flagsLeft)
    }

    /** The script as loaded: the fixed game state, then `resetGame()`. */
    constructor (draws: seq<Pos>)
      requires forall k :: 0 <= k < |draws| ==> InBounds(Rows, Cols, draws[k])
      requires Fresh(draws, {}) >= Mines
      ensures Valid() && status == InProgress && flagsLeft == mineCount
      ensures AllAdjCorrect(board, rows, cols) && Count(board, IsMine) == Mines
      ensures forall i, j :: 0 <= i < rows && 0 <= j < cols ==> board[i][j].state == Closed
    {
      var b := GenerateField(Rows, Cols, Mines, draws);
      AdjZeroSafe(b, Rows, Cols);
      CountNone(b, IsFlagged);
      rows, cols, mineCount := Rows, Cols, Mines;
      status, flagsLeft := InProgress, Mines;
      board := b;
    }

    /** `resetGame`: in progress again, every flag back, a fresh field. */
    method Reset(draws: seq<Pos>)
      requires Valid()
      requires forall k :: 0 <= k < |draws| ==> InBounds(Rows, Cols, draws[k])
      requires Fresh(draws, {}) >= Mines
      modifies this
      ensures Valid() && status == InProgress && flagsLeft == mineCount
      ensures AllAdjCorrect(board, rows, cols) && Count(board, IsMine) == Mines
      ensures forall i, j :: 0 <= i < rows && 0 <= j < cols ==> board[i][j].state == Closed
    {
      var b := GenerateField(Rows, Cols, Mines, draws);
      AdjZeroSafe(b, Rows, Cols);
      CountNone(b, IsFlagged);
      status, flagsLeft := InProgress, mineCount;
      board := b;
    }

    /** `handleLeftClick(r, c)`. */
    method HandleLeftClick(r: int, c: int)
      requires Valid() && InBounds(rows, cols, Pos(r, c))
      modifies this
      ensures Valid() && flagsLeft == old(flagsLeft)
      ensures LeftClickSpec(old(board), rows, cols, old(status), Pos(r, c), board, status)
    {
      var b, st := LeftClick(board, rows, cols, status, Pos(r, c));
      LeftClickConsistent(board, rows, cols, mineCount, status, flagsLeft, Pos(r, c), b, st);
      board, status := b, st;
    }

    /** `handleRightClick(r, c)`. */
    method HandleRightClick(r: int, c: int)
      requires Valid() && InBounds(rows, cols, Pos(r, c))
      modifies this
      ensures Valid() && status == old(status)
      ensures (board, flagsLeft) == RightClick(old(board), rows, cols, status, old(flagsLeft), Pos(r, c))
    {
      if status != InProgress {
        return;
      }
      var cell := board[r][c];
      if cell.state == Open {
        return;
      }
      RightClickConsistent(board, rows, cols, mineCount, status, flagsLeft, Pos(r, c));
      var b, left := board, flagsLeft;
      if cell.state == Closed && left > 0 {
        b, left := FlipFlag(b, Pos(r, c)), left - 1;
      } else if cell.state == Flagged {
        b, left := FlipFlag(b, Pos(r, c)), left + 1;
      }
      board, flagsLeft := b, left;
    }
  }
}
