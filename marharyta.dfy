/**
 * Marharyta-Hetalo/minesweeper.js: one global `game` record built when the
 * script loads (10 x 10, 10 mines, status GAME_PLAYING), cells COVERED /
 * UNCOVERED / FLAGGED, an explicit-stack flood fill, every mine uncovered on
 * a loss, and flags without a cap.
 */
module Marharyta {
  import opened Grid
  import opened Neighbours
  import opened Cells
  import opened Placement
  import opened Cascade

  datatype Status = Playing | Win | Lose

  const Rows := 10
  const Cols := 10
  const Mines := 10

  /**
   * What `openCell(row, col)` does. The source reads `board[row][col]`
   * without a bounds check, so a call during play must name a cell.
   */
  ghost predicate OpenCellSpec(b: Board, rows: int, cols: int, st: Status, p: Pos, b': Board, st': Status)
    requires IsGrid(b, rows, cols) && (st == Playing ==> InBounds(rows, cols, p))
  {
    if st != Playing || b[p.r][p.c].state != Closed then
      b' == b && st' == st
    else if b[p.r][p.c].mine then
      b' == ShowMines(b, false) && st' == Lose
    else
      Filled(b, b', rows, cols, p) && st' == (if AllSafeOpen(b') then Win else Playing)
  }

  /**
   * `openCell`: ignored after the game ends and on an uncovered or flagged
   * cell; a mine loses and uncovers every mine, flagged ones included;
   * otherwise the stack flood fill runs and `isWin` decides the status.
   */
  method OpenAt(b: Board, rows: int, cols: int, st: Status, p: Pos) returns (b': Board, st': Status)
    requires IsGrid(b, rows, cols) && (st == Playing ==> InBounds(rows, cols, p))
    ensures IsGrid(b', rows, cols)
    ensures OpenCellSpec(b, rows, cols, st, p, b', st')
  {
    if st != Playing {
      return b, st;
    }
    var cell := b[p.r][p.c];
    if cell.state == Open || cell.state == Flagged {
      return b, st;
    }
    if cell.mine {
      b' := Put(b, p, cell.(state := Open));
      b' := RevealMines(b', rows, cols, false);
      assert b' == ShowMines(b, false) by {
        forall i | 0 <= i < rows ensures b'[i] == ShowMines(b, false)[i] { }
      }
      ShowMinesFacts(b, rows, cols, false);
      return b', Lose;
    }
    b' := StackFill(b, rows, cols, p);
    var won := ScanWin(b', rows, cols);
    st' := if won then Win else st;
  }

  /**
   * Opening never moves a mine or a number and leaves a finished game
   * alone; a loss shows every mine; a safe open keeps every flag and keeps
   * the mines covered.
   */
  lemma OpenCellKeeps(b: Board, rows: int, cols: int, st: Status, p: Pos, b': Board, st': Status)
    requires IsGrid(b, rows, cols) && (st == Playing ==> InBounds(rows, cols, p))
    requires OpenCellSpec(b, rows, cols, st, p, b', st')
    ensures SameLayout(b, b', rows, cols)
    ensures st != Playing ==> b' == b && st' == st
    ensures st' == Lose && st == Playing ==>
              forall i, j :: 0 <= i < rows && 0 <= j < cols && b[i][j].mine ==> b'[i][j].state == Open
    ensures st' != Lose ==>
              forall i, j :: 0 <= i < rows && 0 <= j < cols && b[i][j].state == Flagged ==> b'[i][j].state == Flagged
    ensures st' != Lose && NoOpenMine(b) ==> NoOpenMine(b')
  {
    if st == Playing && b[p.r][p.c].state == Closed {
      if b[p.r][p.c].mine {
        ShowMinesFacts(b, rows, cols, false);
      } else {
        FilledSpares(b, b', rows, cols, p);
      }
    }
  }

  /**
   * `toggleFlag`: ignored after the game ends, out of bounds or on an
   * uncovered cell; otherwise COVERED and FLAGGED swap, with no cap.
   */
  function Toggled(b: Board, rows: int, cols: int, st: Status, p: Pos): Board
    requires IsGrid(b, rows, cols)
  {
    if st != Playing || !InBounds(rows, cols, p) then b else FlipFlag(b, p)
  }

  /**
   * No flag budget: a covered cell takes a flag whatever the mine count, so
   * the "mines left" display `mines - countFlags()` goes below zero once
   * every mine's worth of flags is down. A toggle never uncovers anything.
   */
  lemma ToggleUncapped(b: Board, rows: int, cols: int, st: Status, p: Pos, mines: int)
    requires IsGrid(b, rows, cols)
    ensures SameLayout(b, Toggled(b, rows, cols, st, p), rows, cols)
    ensures Count(Toggled(b, rows, cols, st, p), IsOpen) == Count(b, IsOpen)
    ensures st == Playing && InBounds(rows, cols, p) && b[p.r][p.c].state == Closed ==>
              Count(Toggled(b, rows, cols, st, p), IsFlagged) == Count(b, IsFlagged) + 1
    ensures st == Playing && InBounds(rows, cols, p) && b[p.r][p.c].state == Closed && Count(b, IsFlagged) >= mines ==>
              mines - Count(Toggled(b, rows, cols, st, p), IsFlagged) < 0
  {
    if InBounds(rows, cols, p) {
      FlipFlagFacts(b, rows, cols, p);
    }
  }

  class Game {
    var rows: int
    var cols: int
    var mines: int
    var status: Status
    var board: Board

    ghost predicate Valid()
      reads this
    {
      rows == Rows && cols == Cols && mines == Mines &&
      IsGrid(board, rows, cols) && (status == Playing ==> NoOpenMine(board))
    }

    /** The `game` record as the script builds it: a generated field with its numbers computed. */
    constructor (draws: seq<Pos>)
      requires forall k :: 0 <= k < |draws| ==> InBounds(Rows, Cols, draws[k])
      requires Fresh(draws, {}) >= Mines
      ensures Valid() && status == Playing
      ensures AllAdjCorrect(board, rows, cols) && Count(board, IsMine) == Mines
      ensures forall i, j :: 0 <= i < rows && 0 <= j < cols ==> board[i][j].state == Closed
    {
      var field := GenerateCapped(Rows, Cols, Mines, draws);
      var numbered := ComputeAdj(field, Rows, Cols, true);
      CountSame(numbered, field, IsMine, IsMine);
      rows, cols, mines := Rows, Cols, Mines;
      status := Playing;
      board := numbered;
    }

    /** `newGame`: status GAME_PLAYING and a fresh numbered 10 x 10 field. */
    method NewGame(draws: seq<Pos>)
      requires Valid()
      requires forall k :: 0 <= k < |draws| ==> InBounds(Rows, Cols, draws[k])
      requires Fresh(draws, {}) >= Mines
      modifies this
      ensures Valid() && status == Playing
      ensures AllAdjCorrect(board, rows, cols) && Count(board, IsMine) == Mines
      ensures forall i, j :: 0 <= i < rows && 0 <= j < cols ==> board[i][j].state == Closed
    {
      var field := GenerateCapped(Rows, Cols, Mines, draws);
      var numbered := ComputeAdj(field, Rows, Cols, true);
      CountSame(numbered, field, IsMine, IsMine);
      status := Playing;
      board := numbered;
    }

    /** `openCell(row, col)`. */
    method OpenCell(r: int, c: int)
      requires Valid() && (status == Playing ==> InBounds(rows, cols, Pos(r, c)))
      modifies this
      ensures Valid()
      ensures OpenCellSpec(old(board), rows, cols, old(status), Pos(r, c), board, status)
    {
      var b, st := OpenAt(board, rows, cols, status, Pos(r, c));
      OpenCellKeeps(board, rows, cols, status, Pos(r, c), b, st);
      board, status := b, st;
    }

    /** `toggleFlag(row, col)`. */
    method ToggleFlag(r: int, c: int)
      requires Valid()
      modifies this
      ensures Valid() && status == old(status)
      ensures board == Toggled(old(board), rows, cols, status, Pos(r, c))
    {
      if status != Playing || !InBounds(rows, cols, Pos(r, c)) {
        return;
      }
      var cell := board[r][c];
      if cell.state == Open {
        return;
      }
      FlipFlagFacts(board, rows, cols, Pos(r, c));
      board := Put(board, Pos(r, c), cell.(state := if cell.state == Flagged then Closed else Flagged));
    }

    /** `updateMinesDisplay`: the mine count less `countFlags()`, which may be negative. */
    method MinesLeft() returns (n: int)
      requires Valid()
      ensures n == mines - Count(board, IsFlagged)
      ensures n <= mines
    {
      var flags := CountFlags(board, rows, cols);
      n := mines - flags;
    }
  }
}
