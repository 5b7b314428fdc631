/**
 * Subota-Andrii/main.js: a game object holding a field of
 * `{hasMine, adjacentMines, state}` cells with states "closed", "open" and
 * "flag", and a status that only ever moves from "in_progress" to "lost".
 * `openCell` and `toggleFlag` take the game and mutate it in place.
 */
module Subota {
  import opened Grid
  import opened Neighbours
  import opened Cells
  import opened Placement
  import opened Cascade
  import opened Recursion

  datatype Status = InProgress | Lost

  /**
   * `generateField`: a fresh field, `mines` mines drawn by rejection (a
   * negative count places none), then every cell, mines included, gets its
   * neighbour number.
   */
  method GenerateField(rows: nat, cols: nat, mines: int, draws: seq<Pos>) returns (field: Board)
    requires forall k :: 0 <= k < |draws| ==> InBounds(rows, cols, draws[k])
    requires Fresh(draws, {}) >= mines
    ensures Count(field, IsMine) == if mines > 0 then mines else 0
    ensures AllAdjCorrect(field, rows, cols)
    ensures forall i, j :: 0 <= i < rows && 0 <= j < cols ==> field[i][j].state == Closed
    ensures forall i, j :: 0 <= i < rows && 0 <= j < cols && field[i][j].mine ==> Pos(i, j) in draws
  {
    var b := CreateBoard(rows, cols);
    b := PlaceByDraws(b, rows, cols, if mines > 0 then mines else 0, draws, {});
    field := ComputeAdj(b, rows, cols, true);
    CountSame(field, b, IsMine, IsMine);
  }

  /**
   * `openCell`: nothing on an open or flagged cell; a mine opens and the
   * game is lost; otherwise the cell opens and, when it shows 0, each
   * closed in-bounds neighbour is opened the same way. The result is the
   * closure of the cascade from p.
   */
  method OpenRec(b: Board, rows: int, cols: int, st: Status, p: Pos) returns (b': Board, st': Status)
    requires ZeroSafe(b, rows, cols) && InBounds(rows, cols, p)
    ensures IsGrid(b', rows, cols)
    ensures b[p.r][p.c].state != Closed ==> b' == b && st' == st
    ensures b[p.r][p.c].state == Closed && b[p.r][p.c].mine ==>
              b' == Put(b, p, b[p.r][p.c].(state := Open)) && st' == Lost
    ensures b[p.r][p.c].state == Closed && !b[p.r][p.c].mine ==>
              Filled(b, b', rows, cols, p) && st' == st
    decreases Count(b, IsClosed)
  {
    var cell := b[p.r][p.c];
    if cell.state == Open || cell.state == Flagged {
      return b, st;
    }
    if cell.mine {
      return Put(b, p, cell.(state := Open)), Lost;
    }
    b', st' := Put(b, p, cell.(state := Open)), st;
    if cell.adj == 0 {
      var cands := ShiftAll(p, Offsets);
      OffsetsCover(rows, cols, p);
      FrameStart(b, rows, cols, p, cands);
      var k := 0;
      while k < |Offsets|
        invariant FrameInv(b, b', rows, cols, p, cands, k) && st' == st
      {
        var q := Shift(p, Offsets[k]);
        if InBounds(rows, cols, q) && b'[q.r][q.c].state == Closed {
          OffsetsAreAdjacent(p, k);
          FrameNext(b, b', rows, cols, p, cands, k);
          FrameFewer(b, b', rows, cols, p, cands, k);
          var b2, st2 := OpenRec(b', rows, cols, st', q);
          FrameCall(b, b', b2, rows, cols, p, cands, k);
          b', st' := b2, st2;
        } else {
          FrameSkip(b, b', rows, cols, p, cands, k);
        }
        k := k + 1;
      }
      FrameEnd(b, b', rows, cols, p, cands);
    } else {
      OpenNumbered(b, rows, cols, p);
    }
  }

  class Game {
    var rows: nat
    var cols: nat
    var mines: int
    var status: Status
    var field: Board

    ghost predicate Valid()
      reads this
    {
      ZeroSafe(field, rows, cols)
    }

    /** `createGameState`: an in-progress game over a field of blank cells. */
    constructor (rows: nat, cols: nat, mines: int)
      ensures Valid()
      ensures this.rows == rows && this.cols == cols && this.mines == mines && status == InProgress
      ensures forall i, j :: 0 <= i < rows && 0 <= j < cols ==> field[i][j] == Blank
    {
      var f := CreateBoard(rows, cols);
      this.rows, this.cols, this.mines := rows, cols, mines;
      status := InProgress;
      field := f;
    }

    /** `openCell(game, row, col)`. */
    method OpenCell(r: int, c: int)
      requires Valid() && InBounds(rows, cols, Pos(r, c))
      modifies this
      ensures Valid() && rows == old(rows) && cols == old(cols) && mines == old(mines)
      ensures old(field[r][c].state) != Closed ==> field == old(field) && status == old(status)
      ensures old(field[r][c].state) == Closed && old(field[r][c].mine) ==>
                field == Put(old(field), Pos(r, c), old(field[r][c]).(state := Open)) && status == Lost
      ensures old(field[r][c].state) == Closed && !old(field[r][c].mine) ==>
                Filled(old(field), field, rows, cols, Pos(r, c)) && status == old(status)
    {
      var f, s := OpenRec(field, rows, cols, status, Pos(r, c));
      if f != field && !field[r][c].mine {
        FilledSettled(field, f, rows, cols, Pos(r, c));
      }
      LayoutKept(field, f, rows, cols);
      field, status := f, s;
    }

    /** `toggleFlag(game, row, col)`. */
    method ToggleFlag(r: int, c: int)
      requires Valid() && InBounds(rows, cols, Pos(r, c))
      modifies this
      ensures Valid() && rows == old(rows) && cols == old(cols) && mines == old(mines) && status == old(status)
      ensures field == FlipFlag(old(field), Pos(r, c))
    {
      FlipFlagFacts(field, rows, cols, Pos(r, c));
      LayoutKept(field, FlipFlag(field, Pos(r, c)), rows, cols);
      field := FlipFlag(field, Pos(r, c));
    }
  }
}
