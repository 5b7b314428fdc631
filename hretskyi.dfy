/**
 * Hretskyi_Danylo_CS_31/script.js: one global `game` record (size, mine
 * count, status PLAYING / WIN / LOSE, board, `explodedCell`), cells
 * COVERED / UNCOVERED / FLAGGED, an explicit-stack flood fill, and a flag
 * budget checked by counting the flags already on the board.
 */
module Hretskyi {
  import opened Grid
  import opened Neighbours
  import opened Cells
  import opened Placement
  import opened Cascade
  import opened Recursion

  datatype Status = Playing | Win | Lose

  const Rows := 9
  const Cols := 9
  const Mines := 10

  /** `newGame`'s board: `placeMines` on an all-covered board, then `computeNeighborCounts`. */
  method NumberedBoard(rows: nat, cols: nat, mines: int, draws: seq<Pos>) returns (b: Board)
    requires forall k :: 0 <= k < |draws| ==> InBounds(rows, cols, draws[k])
    requires Fresh(draws, {}) >= ToPlace(mines, rows * cols)
    ensures AllAdjCorrect(b, rows, cols) && Count(b, IsMine) == ToPlace(mines, rows * cols)
    ensures forall i, j :: 0 <= i < rows && 0 <= j < cols ==> b[i][j].state == Closed
    ensures NoOpenMine(b)
  {
    var field := GenerateCapped(rows, cols, mines, draws);
    b := ComputeAdj(field, rows, cols, true);
    CountSame(b, field, IsMine, IsMine);
  }

  /** What `openCell(row, col)` does to the board and the status. */
  ghost predicate OpenCellSpec(b: Board, rows: int, cols: int, st: Status, p: Pos, b': Board, st': Status)
    requires IsGrid(b, rows, cols)
  {
    if st != Playing || !InBounds(rows, cols, p) || b[p.r][p.c].state != Closed then
      b' == b && st' == st
    else if b[p.r][p.c].mine then
      b' == Put(b, p, b[p.r][p.c].(state := Open)) && st' == Lose
    else
      Filled(b, b', rows, cols, p) && st' == (if AllSafeOpen(b') then Win else Playing)
  }

  /**
   * `openCell`: ignored unless the game is being played, the cell is in
   * bounds and covered; a mine uncovers only itself and loses; otherwise
   * the stack flood fill runs and `isWin` decides the status.
   */
  method OpenAt(b: Board, rows: int, cols: int, st: Status, p: Pos) returns (b': Board, st': Status)
    requires IsGrid(b, rows, cols)
    ensures IsGrid(b', rows, cols)
    ensures OpenCellSpec(b, rows, cols, st, p, b', st')
  {
    if st != Playing || !InBounds(rows, cols, p) {
      return b, st;
    }
    var cell := b[p.r][p.c];
    if cell.state == Open || cell.state == Flagged {
      return b, st;
    }
    if cell.mine {
      return Put(b, p, cell.(state := Open)), Lose;
    }
    b' := StackFill(b, rows, cols, p);
    var won := ScanWin(b', rows, cols);
    st' := if won then Win else st;
  }

  /**
   * Opening never moves a mine or a number, never uncovers a flagged cell,
   * and leaves a finished game alone; a game still being played has no
   * uncovered mine.
   */
  lemma OpenCellKeeps(b: Board, rows: int, cols: int, st: Status, p: Pos, b': Board, st': Status)
    requires IsGrid(b, rows, cols) && OpenCellSpec(b, rows, cols, st, p, b', st')
    ensures SameLayout(b, b', rows, cols)
    ensures forall i, j :: 0 <= i < rows && 0 <= j < cols && b[i][j].state == Flagged ==> b'[i][j].state == Flagged
    ensures st != Playing ==> b' == b && st' == st
    ensures st' == Playing && NoOpenMine(b) ==> NoOpenMine(b')
  {
    if st == Playing && InBounds(rows, cols, p) && b[p.r][p.c].state == Closed && !b[p.r][p.c].mine {
      FilledSpares(b, b', rows, cols, p);
    }
  }

  /**
   * `toggleFlag`: ignored when the game is over, out of bounds or on an
   * uncovered cell; a new flag is refused once `countFlags` reaches the
   * mine count; otherwise COVERED and FLAGGED swap.
   */
  function Toggled(b: Board, rows: int, cols: int, st: Status, mines: int, p: Pos): Board
    requires IsGrid(b, rows, cols)
  {
    if st != Playing || !InBounds(rows, cols, p) || b[p.r][p.c].state == Open then b
    else if b[p.r][p.c].state == Closed && Count(b, IsFlagged) >= mines then b
    else FlipFlag(b, p)
  }

  /** The flag budget: a toggle never takes the number of flags above the mine count. */
  lemma ToggleWithinBudget(b: Board, rows: int, cols: int, st: Status, mines: int, p: Pos)
    requires IsGrid(b, rows, cols) && Count(b, IsFlagged) <= mines
    ensures Count(Toggled(b, rows, cols, st, mines, p), IsFlagged) <= mines
    ensures SameLayout(b, Toggled(b, rows, cols, st, mines, p), rows, cols)
    ensures Count(Toggled(b, rows, cols, st, mines, p), IsOpen) == Count(b, IsOpen)
  {
    if InBounds(rows, cols, p) {
      FlipFlagFacts(b, rows, cols, p);
    }
  }

  class Game {
    var rows: int
    var cols: int
    var mines: int
    var status: Status
    var board: Board
    var exploded: Option<Pos>

    /** A board of the recorded size, with no uncovered mine while PLAYING. */
    ghost predicate HasBoard()
      reads this
    {
      IsGrid(board, rows, cols) && (status == Playing ==> NoOpenMine(board))
    }

    /** Either a board is laid, or this is the initial record, which has none yet. */
    ghost predicate Valid()
      reads this
    {
      HasBoard() || (board == [] && status == Playing && exploded == None)
    }

    /** The initial `game` record: 9 x 9 with 10 mines, no board yet. */
    constructor ()
      ensures Valid() && !HasBoard()
      ensures rows == Rows && cols == Cols && mines == Mines
      ensures status == Playing && board == [] && exploded == None
    {
      rows, cols, mines := Rows, Cols, Mines;
      status := Playing;
      board := [];
      exploded := None;
    }

    /** `newGame`: new size and mine count, status PLAYING, no exploded cell, a fresh numbered board. */
    method NewGame(rows: nat, cols: nat, mines: int, draws: seq<Pos>)
      requires forall k :: 0 <= k < |draws| ==> InBounds(rows, cols, draws[k])
      requires Fresh(draws, {}) >= ToPlace(mines, rows * cols)
      modifies this
      ensures HasBoard()
      ensures this.rows == rows && this.cols == cols && this.mines == mines
      ensures status == Playing && exploded == None
      ensures AllAdjCorrect(board, rows, cols) && Count(board, IsMine) == ToPlace(mines, rows * cols)
      ensures forall i, j :: 0 <= i < rows && 0 <= j < cols ==> board[i][j].state == Closed
    {
      var numbered := NumberedBoard(rows, cols, mines, draws);
      this.rows, this.cols, this.mines := rows, cols, mines;
      status, exploded := Playing, None;
      board := numbered;
    }

    /** `openCell(row, col)`; a mine also records `explodedCell`. */
    method OpenCell(r: int, c: int)
      requires HasBoard()
      modifies this
      ensures HasBoard() && rows == old(rows) && cols == old(cols) && mines == old(mines)
      ensures OpenCellSpec(old(board), rows, cols, old(status), Pos(r, c), board, status)
      ensures exploded == if status == Lose && old(status) == Playing then Some(Pos(r, c)) else old(exploded)
    {
      var b, st := OpenAt(board, rows, cols, status, Pos(r, c));
      OpenCellKeeps(board, rows, cols, status, Pos(r, c), b, st);
      if st == Lose && status == Playing {
        exploded := Some(Pos(r, c));
      }
      board, status := b, st;
    }

    /** `toggleFlag(row, col)`, counting the flags with `countFlags` before placing a new one. */
    method ToggleFlag(r: int, c: int)
      requires HasBoard()
      modifies this
      ensures HasBoard() && rows == old(rows) && cols == old(cols) && mines == old(mines)
      ensures status == old(status) && exploded == old(exploded)
      ensures board == Toggled(old(board), rows, cols, status, mines, Pos(r, c))
    {
      if status != Playing || !InBounds(rows, cols, Pos(r, c)) {
        return;
      }
      var cell := board[r][c];
      if cell.state == Open {
        return;
      }
      var wasFlagged := cell.state == Flagged;
      if !wasFlagged {
        var used := CountFlags(board, rows, cols);
        if used >= mines {
          return;
        }
      }
      FlipFlagFacts(board, rows, cols, Pos(r, c));
      board := Put(board, Pos(r, c), cell.(state := if wasFlagged then Closed else Flagged));
    }
  }
}
