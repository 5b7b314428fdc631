/**
 * AnnaRyzhko/script.js: a game-state record (size, `mineCount`, status
 * in_progress / win / lose, board, `flagsRemaining`) created by
 * `generateField`, a recursive `openCell` that checks for a win after every
 * cell it opens, and a flag counter that never lets more flags down than
 * there are mines.
 */
module Anna {
  import opened Grid
  import opened Neighbours
  import opened Cells
  import opened Placement
  import opened Cascade
  import opened Recursion

  datatype Status = InProgress | Win | Lose

  const Rows := 10
  const Cols := 11
  const Mines := 15

  /**
   * The mines `generateField` lays: none when the count is not below the
   * number of cells (the call is refused) or not positive.
   */
  function Laid(rows: nat, cols: nat, mines: int): (n: nat)
    ensures n <= rows * cols
  {
    if mines >= rows * cols || mines <= 0 then 0 else mines
  }

  /**
   * The board `generateField` builds: distinct flat indices drawn into a
   * set, marked by a row-major scan, then every safe cell numbered; mines
   * keep the number 0.
   */
  method GenerateBoard(rows: nat, cols: nat, mines: int, draws: seq<int>) returns (b: Board)
    requires forall k :: 0 <= k < |draws| ==> 0 <= draws[k] < rows * cols
    requires Fresh(draws, {}) >= Laid(rows, cols, mines)
    ensures SafeAdjCorrect(b, rows, cols)
    ensures Count(b, IsMine) == Laid(rows, cols, mines)
    ensures mines >= rows * cols ==> forall i, j :: 0 <= i < rows && 0 <= j < cols ==> !b[i][j].mine
    ensures forall i, j :: 0 <= i < rows && 0 <= j < cols ==>
              b[i][j].state == Closed && (b[i][j].mine ==> b[i][j].adj == 0 && i * cols + j in draws)
  {
    b := CreateBoard(rows, cols);
    if mines >= rows * cols {
      CountNone(b, IsMine);
      NoMinesNoNumbers(b, rows, cols);
      return;
    }
    var chosen := CollectIndices(mines, draws);
    var marked := MarkIndices(b, rows, cols, chosen);
    b := ComputeAdj(marked, rows, cols, false);
    CountSame(b, marked, IsMine, IsMine);
  }

  /** `countNeighbourMines(gameState, row, col)`: 0 out of bounds, else the mines in the neighbour list. */
  method CountNeighbourMines(b: Board, rows: int, cols: int, p: Pos) returns (n: nat)
    requires IsGrid(b, rows, cols)
    ensures n == if InBounds(rows, cols, p) then Around(b, rows, cols, p) else 0
  {
    if !InBounds(rows, cols, p) {
      return 0;
    }
    var list := NeighbourList(rows, cols, p);
    NeighbourListIsNeighbourhood(rows, cols, p);
    n := 0;
    var k := 0;
    while k < |list|
      invariant 0 <= k <= |list|
      invariant n == MinedAmong(b, IsMine, rows, cols, list[..k])
    {
      var q := list[k];
      assert q in list;
      assert list[..k + 1][..k] == list[..k];
      if b[q.r][q.c].mine {
        n := n + 1;
      }
      k := k + 1;
    }
    assert list[..k] == list;
    ListCountsAround(b, IsMine, rows, cols, p, Offsets);
  }

  /** `checkWin`: the open cells number `rows * cols - mineCount`. */
  predicate CheckWin(b: Board, rows: int, cols: int, mineCount: int) {
    Count(b, IsOpen) == rows * cols - mineCount
  }

  /**
   * While no mine is open and the board holds `mineCount` mines, the count
   * test is the same as "every safe cell is open". A board refused by
   * `generateField` (mineCount at least the number of cells) is never won
   * once a cell is open.
   */
  lemma CheckWinMeaning(b: Board, rows: nat, cols: nat, mineCount: int)
    requires IsGrid(b, rows, cols)
    ensures NoOpenMine(b) && Count(b, IsMine) == mineCount ==> (CheckWin(b, rows, cols, mineCount) <==> AllSafeOpen(b))
    ensures mineCount >= rows * cols && Count(b, IsOpen) > 0 ==> !CheckWin(b, rows, cols, mineCount)
  {
    if NoOpenMine(b) && Count(b, IsMine) == mineCount {
      WinTestsAgree(b, rows, cols, mineCount);
    }
  }

  /** What `openCell(gameState, row, col)` does to the board and the status. */
  ghost predicate OpenCellSpec(b: Board, rows: int, cols: int, mineCount: int, st: Status, p: Pos, b': Board, st': Status)
    requires IsGrid(b, rows, cols)
  {
    if st != InProgress || !InBounds(rows, cols, p) || b[p.r][p.c].state != Closed then
      b' == b && st' == st
    else if b[p.r][p.c].mine then
      b' == ShowMines(b, true) && st' == Lose
    else
      OnlyOpensReach(b, b', rows, cols, p) && b'[p.r][p.c].state == Open &&
      st' == (if CheckWin(b', rows, cols, mineCount) then Win else InProgress) &&
      (st' == InProgress ==> Filled(b, b', rows, cols, p))
  }

  /**
   * `openCell`: ignored unless in progress, in bounds and closed; a mine
   * opens, loses and shows every unflagged mine; otherwise the cell opens,
   * `checkWin` may end the game at once, and a 0 calls `openCell` on each
   * closed cell of its neighbour list.
   */
  method OpenRec(b: Board, rows: int, cols: int, mineCount: int, st: Status, p: Pos) returns (b': Board, st': Status)
    requires ZeroSafe(b, rows, cols)
    ensures IsGrid(b', rows, cols)
    ensures OpenCellSpec(b, rows, cols, mineCount, st, p, b', st')
    decreases Count(b, IsClosed)
  {
    if st != InProgress || !InBounds(rows, cols, p) {
      return b, st;
    }
    var cell := b[p.r][p.c];
    if cell.state == Open || cell.state == Flagged {
      return b, st;
    }
    if cell.mine {
      b' := Put(b, p, cell.(state := Open));
      b' := RevealMines(b', rows, cols, true);
      assert b' == ShowMines(b, true) by {
        forall i | 0 <= i < rows ensures b'[i] == ShowMines(b, true)[i] { }
      }
      return b', Lose;
    }
    b' := Put(b, p, cell.(state := Open));
    OpenOne(b, rows, cols, p);
    if CheckWin(b', rows, cols, mineCount) {
      return b', Win;
    }
    st' := st;
    if cell.adj == 0 {
      var cands := NeighbourList(rows, cols, p);
      NeighbourListIsNeighbourhood(rows, cols, p);
      ListCovers(rows, cols, p);
      FrameStart(b, rows, cols, p, cands);
      var k := 0;
      while k < |cands|
        invariant 0 <= k <= |cands| && IsGrid(b', rows, cols)
        invariant st' == if CheckWin(b', rows, cols, mineCount) then Win else InProgress
        invariant st' == InProgress ==> FrameInv(b, b', rows, cols, p, cands, k)
        invariant st' == Win ==> OnlyOpensReach(b, b', rows, cols, p) && b'[p.r][p.c].state == Open &&
                                 Count(b', IsClosed) < Count(b, IsClosed)
      {
        var q := cands[k];
        assert q in cands;
        if b'[q.r][q.c].state == Closed {
          if st' == InProgress {
            FrameNext(b, b', rows, cols, p, cands, k);
            FrameFewer(b, b', rows, cols, p, cands, k);
          } else {
            LayoutKept(b, b', rows, cols);
          }
          var b2, st2 := OpenRec(b', rows, cols, mineCount, st', q);
          if st' == InProgress {
            if st2 == InProgress {
              FrameCall(b, b', b2, rows, cols, p, cands, k);
            } else {
              FrameStop(b, b', b2, rows, cols, p, cands, k);
            }
          }
          b', st' := b2, st2;
        } else if st' == InProgress {
          FrameSkip(b, b', rows, cols, p, cands, k);
        }
        k := k + 1;
      }
      if st' == InProgress {
        FrameEnd(b, b', rows, cols, p, cands);
      }
    } else {
      OpenNumbered(b, rows, cols, p);
    }
  }

  /** A win on an honest board, even one reached part-way through the recursion, is the whole cascade. */
  lemma WinIsFilled(b: Board, b': Board, rows: nat, cols: nat, mineCount: int, p: Pos)
    requires IsGrid(b, rows, cols) && OnlyOpensReach(b, b', rows, cols, p) && CheckWin(b', rows, cols, mineCount)
    requires NoOpenMine(b) && Count(b, IsMine) == mineCount
    ensures Filled(b, b', rows, cols, p) && AllSafeOpen(b')
  {
    ReachNoMine(b, b', rows, cols, p);
    LayoutKept(b, b', rows, cols);
    CheckWinMeaning(b', rows, cols, mineCount);
    WinFilled(b, b', rows, cols, p);
  }

  /**
   * Opening never moves a mine or a number, never changes a flag, and leaves
   * a finished game alone; a game still in progress has no open mine; a
   * loss shows every unflagged mine; and on an honest board a win reached
   * part-way through the recursion has still opened the whole cascade.
   */
  lemma OpenCellKeeps(b: Board, rows: nat, cols: nat, mineCount: int, st: Status, p: Pos, b': Board, st': Status)
    requires IsGrid(b, rows, cols) && OpenCellSpec(b, rows, cols, mineCount, st, p, b', st')
    ensures SameLayout(b, b', rows, cols)
    ensures Count(b', IsFlagged) == Count(b, IsFlagged)
    ensures st != InProgress ==> b' == b && st' == st
    ensures st' == InProgress && NoOpenMine(b) ==> NoOpenMine(b')
    ensures st' == Lose && st == InProgress ==>
              forall i, j :: 0 <= i < rows && 0 <= j < cols && b[i][j].mine && b[i][j].state != Flagged ==> b'[i][j].state == Open
    ensures st' == Win && st == InProgress && NoOpenMine(b) && Count(b, IsMine) == mineCount ==>
              Filled(b, b', rows, cols, p) && AllSafeOpen(b')
  {
    if st == InProgress && InBounds(rows, cols, p) && b[p.r][p.c].state == Closed {
      if b[p.r][p.c].mine {
        ShowMinesFacts(b, rows, cols, true);
      } else {
        ReachKeepsFlags(b, b', rows, cols, p);
        if NoOpenMine(b) {
          ReachNoMine(b, b', rows, cols, p);
          if st' == Win && Count(b, IsMine) == mineCount {
            WinIsFilled(b, b', rows, cols, mineCount, p);
          }
        }
      }
    }
  }

  /** `toggleFlag` on the board and `flagsRemaining`. */
  function Toggle(b: Board, rows: int, cols: int, st: Status, left: int, p: Pos): (Board, int)
    requires IsGrid(b, rows, cols)
  {
    if st != InProgress || !InBounds(rows, cols, p) || b[p.r][p.c].state == Open then (b, left)
    else if b[p.r][p.c].state == Closed && left > 0 then (FlipFlag(b, p), left - 1)
    else if b[p.r][p.c].state == Flagged then (FlipFlag(b, p), left + 1)
    else (b, left)
  }

  /**
   * The counter stays `mineCount` less the flags on the board, and within
   * `[0, mineCount]`; a toggle moves no mine and opens nothing.
   */
  lemma ToggleKeepsBudget(b: Board, rows: int, cols: int, st: Status, mineCount: int, left: int, p: Pos)
    requires IsGrid(b, rows, cols) && left == mineCount - Count(b, IsFlagged) && 0 <= left
    ensures Toggle(b, rows, cols, st, left, p).1 == mineCount - Count(Toggle(b, rows, cols, st, left, p).0, IsFlagged)
    ensures 0 <= Toggle(b, rows, cols, st, left, p).1 <= mineCount
    ensures SameLayout(b, Toggle(b, rows, cols, st, left, p).0, rows, cols)
    ensures Count(Toggle(b, rows, cols, st, left, p).0, IsOpen) == Count(b, IsOpen)
  {
    if InBounds(rows, cols, p) {
      FlipFlagFacts(b, rows, cols, p);
    }
  }

  class Game {
    var rows: nat
    var cols: nat
    var mineCount: int
    var status: Status
    var board: Board
    var flagsRemaining: int
    var exploded: Option<Pos>

    ghost predicate Valid()
      reads this
    {
      ZeroSafe(board, rows, cols) &&
      flagsRemaining == mineCount - Count(board, IsFlagged) &&
      (status == InProgress ==> NoOpenMine(board))
    }

    /** `generateField(rows, cols, mines)`, which creates the game state. */
    constructor (rows: nat, cols: nat, mines: int, draws: seq<int>)
      requires forall k :: 0 <= k < |draws| ==> 0 <= draws[k] < rows * cols
      requires Fresh(draws, {}) >= Laid(rows, cols, mines)
      ensures Valid()
      ensures this.rows == rows && this.cols == cols && mineCount == mines
      ensures status == InProgress && flagsRemaining == mines && exploded == None
      ensures SafeAdjCorrect(board, rows, cols) && Count(board, IsMine) == Laid(rows, cols, mines)
      ensures forall i, j :: 0 <= i < rows && 0 <= j < cols ==> board[i][j].state == Closed
    {
      var b := GenerateBoard(rows, cols, mines, draws);
      AdjZeroSafe(b, rows, cols);
      CountNone(b, IsFlagged);
      this.rows, this.cols, mineCount := rows, cols, mines;
      status, flagsRemaining, exploded := InProgress, mines, None;
      board := b;
    }

    /** `openCell(gameState, row, col)`; a lost click is marked `exploded`. */
    method OpenCell(r: int, c: int)
      requires Valid()
      modifies this
      ensures Valid() && rows == old(rows) && cols == old(cols) && mineCount == old(mineCount)
      ensures flagsRemaining == old(flagsRemaining)
      ensures OpenCellSpec(old(board), rows, cols, mineCount, old(status), Pos(r, c), board, status)
      ensures exploded == if status == Lose && old(status) == InProgress then Some(Pos(r, c)) else old(exploded)
    {
      var b, st := OpenRec(board, rows, cols, mineCount, status, Pos(r, c));
      OpenCellKeeps(board, rows, cols, mineCount, status, Pos(r, c), b, st);
      LayoutKept(board, b, rows, cols);
      if st == Lose && status == InProgress {
        exploded := Some(Pos(r, c));
      }
      board, status := b, st;
    }

    /** `toggleFlag(gameState, row, col)`. */
    method ToggleFlag(r: int, c: int)
      requires Valid()
      modifies this
      ensures Valid() && rows == old(rows) && cols == old(cols) && mineCount == old(mineCount)
      ensures status == old(status) && exploded == old(exploded)
      ensures (board, flagsRemaining) == Toggle(old(board), rows, cols, status, old(flagsRemaining), Pos(r, c))
    {
      if status != InProgress || !InBounds(rows, cols, Pos(r, c)) {
        return;
      }
      var cell := board[r][c];
      if cell.state == Open {
        return;
      }
      FlipFlagFacts(board, rows, cols, Pos(r, c));
      LayoutKept(board, FlipFlag(board, Pos(r, c)), rows, cols);
      if cell.state == Closed && flagsRemaining > 0 {
        board := Put(board, Pos(r, c), cell.(state := Flagged));
        flagsRemaining := flagsRemaining - 1;
      } else if cell.state == Flagged {
        board := Put(board, Pos(r, c), cell.(state := Closed));
        flagsRemaining := flagsRemaining + 1;
      }
    }
  }
}
