/**
 * Maksym-Maliutin/script.js, first version (lines 1-276): a `GameState`
 * object (size, `mineCount`, board, `flags`, `revealedCells`, status
 * ready / playing / won / lost), a recursive `openCell` that counts every
 * cell it opens, a flag toggle capped at the mine count, and click handlers
 * that test for a loss or a win after every open.
 */
module MaksymFirst {
  import opened Grid
  import opened Neighbours
  import opened Cells
  import opened Placement
  import opened Cascade
  import opened Recursion

  datatype Status = Ready | Playing | Won | Lost

  const Rows: nat := 10
  const Cols: nat := 10
  const Mines: int := 10

  /**
   * `generateField(rows, cols, mineCount)`: fresh closed cells, mines drawn
   * by rejection until `mineCount` are down (none for a count below one),
   * then `computeNeighborCounts` numbers every cell, mines included. The
   * numbering reads the width off the first row, so there must be one.
   */
  method GenerateField(rows: nat, cols: nat, mineCount: int, draws: seq<Pos>) returns (b: Board)
    requires rows > 0
    requires forall k :: 0 <= k < |draws| ==> InBounds(rows, cols, draws[k])
    requires Fresh(draws, {}) >= mineCount
    ensures AllAdjCorrect(b, rows, cols) && ZeroSafe(b, rows, cols)
    ensures Count(b, IsMine) == MinesLaid(mineCount)
    ensures Count(b, IsFlagged) == 0 && Count(b, OpenSafe) == 0
    ensures forall i, j :: 0 <= i < rows && 0 <= j < cols ==>
              b[i][j].state == Closed && (b[i][j].mine ==> Pos(i, j) in draws)
  {
    var blank := CreateBoard(rows, cols);
    var mined := PlaceByDraws(blank, rows, cols, MinesLaid(mineCount), draws, {});
    b := ComputeAdj(mined, rows, cols, true);
    CountSame(b, mined, IsMine, IsMine);
    AdjZeroSafe(b, rows, cols);
    CountNone(b, IsFlagged);
    CountNone(b, OpenSafe);
  }

  /**
   * `openCell(game, r, c)`: a cell that is not closed is left alone;
   * otherwise it opens and `revealedCells` goes up by one; a mine loses
   * the game and stops there; a 0 calls `openCell` on every closed
   * in-bounds neighbour. The counter moves by exactly the number of cells
   * that became open.
   */
  method OpenRec(b: Board, rows: int, cols: int, revealed: int, st: Status, p: Pos)
      returns (b': Board, revealed': int, st': Status)
    requires ZeroSafe(b, rows, cols) && InBounds(rows, cols, p)
    ensures IsGrid(b', rows, cols)
    ensures revealed' == revealed + Count(b', IsOpen) - Count(b, IsOpen)
    ensures b[p.r][p.c].state != Closed ==> b' == b && st' == st
    ensures b[p.r][p.c].state == Closed && b[p.r][p.c].mine ==>
              b' == Put(b, p, b[p.r][p.c].(state := Open)) && st' == Lost
    ensures b[p.r][p.c].state == Closed && !b[p.r][p.c].mine ==>
              Filled(b, b', rows, cols, p) && st' == st
    decreases Count(b, IsClosed)
  {
    var cell := b[p.r][p.c];
    if cell.state != Closed {
      return b, revealed, st;
    }
    CountUpdate(b, p, cell.(state := Open), IsOpen);
    b', revealed' := Put(b, p, cell.(state := Open)), revealed + 1;
    if cell.mine {
      return b', revealed', Lost;
    }
    st' := st;
    if cell.adj == 0 {
      var cands := ShiftAll(p, Offsets);
      OffsetsCover(rows, cols, p);
      FrameStart(b, rows, cols, p, cands);
      var k := 0;
      while k < |Offsets|
        invariant FrameInv(b, b', rows, cols, p, cands, k) && st' == st
        invariant revealed' == revealed + Count(b', IsOpen) - Count(b, IsOpen)
      {
        var q := Shift(p, Offsets[k]);
        if InBounds(rows, cols, q) && b'[q.r][q.c].state == Closed {
          OffsetsAreAdjacent(p, k);
          FrameNext(b, b', rows, cols, p, cands, k);
          FrameFewer(b, b', rows, cols, p, cands, k);
          var b2, rev2, st2 := OpenRec(b', rows, cols, revealed', st', q);
          FrameCall(b, b', b2, rows, cols, p, cands, k);
          b', revealed', st' := b2, rev2, st2;
        } else {
          FrameSkip(b, b', rows, cols, p, cands, k);
        }
        k := k + 1;
      }
      FrameEnd(b, b', rows, cols, p, cands);
    } else {
      OpenNumbered(b, rows, cols, p);
    }
  }

  /** `isWin`'s test: the cells not open number `mineCount`. */
  predicate WinTest(b: Board, mineCount: int) {
    Count(b, NotOpen) == mineCount
  }

  /**
   * `isWin()`: the double loop counting cells that are not open. While no
   * mine is open on a board holding `mineCount` mines, it answers exactly
   * whether every safe cell is open.
   */
  method IsWin(b: Board, rows: nat, cols: nat, mineCount: int) returns (w: bool)
    requires IsGrid(b, rows, cols)
    ensures w <==> WinTest(b, mineCount)
    ensures NoOpenMine(b) && Count(b, IsMine) == mineCount ==> (w <==> AllSafeOpen(b))
  {
    var closedOrFlagged := CountCells(b, rows, cols, NotOpen);
    w := closedOrFlagged == mineCount;
    if NoOpenMine(b) && Count(b, IsMine) == mineCount {
      WinTestsAgree(b, rows, cols, mineCount);
    }
  }

  /**
   * `toggleFlag(game, r, c)`: a closed cell is flagged unless the flags on
   * the board already number `mineCount`; a flagged cell is unflagged; an
   * open cell is left alone.
   */
  function CappedToggle(b: Board, rows: int, cols: int, mineCount: int, p: Pos): (b': Board)
    requires IsGrid(b, rows, cols) && InBounds(rows, cols, p)
  {
    if b[p.r][p.c].state == Closed && Count(b, IsFlagged) >= mineCount then b
    else FlipFlag(b, p)
  }

  /**
   * The cap: starting within it, the flags never outnumber the mines to
   * lay; a new flag is refused exactly when the cap is reached, removing a
   * flag always works, and no toggle moves a mine or opens a cell.
   */
  lemma CappedToggleKeepsCap(b: Board, rows: int, cols: int, mineCount: int, p: Pos)
    requires IsGrid(b, rows, cols) && InBounds(rows, cols, p) && Count(b, IsFlagged) <= MinesLaid(mineCount)
    ensures Count(CappedToggle(b, rows, cols, mineCount, p), IsFlagged) <= MinesLaid(mineCount)
    ensures b[p.r][p.c].state == Closed ==>
              (CappedToggle(b, rows, cols, mineCount, p)[p.r][p.c].state == Flagged <==> Count(b, IsFlagged) < mineCount)
    ensures b[p.r][p.c].state == Flagged ==> CappedToggle(b, rows, cols, mineCount, p)[p.r][p.c].state == Closed
    ensures SameLayout(b, CappedToggle(b, rows, cols, mineCount, p), rows, cols)
    ensures Count(CappedToggle(b, rows, cols, mineCount, p), OpenSafe) == Count(b, OpenSafe)
    ensures Count(CappedToggle(b, rows, cols, mineCount, p), NotOpen) == Count(b, NotOpen)
  {
    FlipFlagFacts(b, rows, cols, p);
    var b1 := CappedToggle(b, rows, cols, mineCount, p);
    CountSame(b1, b, OpenSafe, OpenSafe);
    CountSame(b1, b, NotOpen, NotOpen);
  }

  /** What a left click does: the click handler, `openCell`, then `checkGameStatus`. */
  ghost predicate ClickSpec(b: Board, rows: int, cols: int, mineCount: int, st: Status, p: Pos, b': Board, st': Status)
    requires IsGrid(b, rows, cols) && InBounds(rows, cols, p)
  {
    if st != Playing then b' == b && st' == st
    else if b[p.r][p.c].state != Closed then
      b' == b && st' == (if WinTest(b, mineCount) then Won else Playing)
    else if b[p.r][p.c].mine then
      b' == ShowMines(Put(b, p, b[p.r][p.c].(state := Open)), false) && st' == Lost
    else
      Filled(b, b', rows, cols, p) && st' == (if WinTest(b', mineCount) then Won else Playing)
  }

  /**
   * The state a game keeps between clicks: the mines laid
   * that were asked for, no open mine until the game is lost, no more flags
   * than mines, `flags` never touched, and `revealedCells` the number of
   * open safe cells (plus the mine that lost the game).
   */
  ghost predicate Consistent(b: Board, rows: int, cols: int, mineCount: int, st: Status, flags: int, revealed: int) {
    rows > 0 && IsGrid(b, rows, cols) && Count(b, IsMine) == MinesLaid(mineCount) &&
    Count(b, IsFlagged) <= MinesLaid(mineCount) && flags == 0 &&
    (st != Lost ==> NoOpenMine(b)) &&
    revealed == Count(b, OpenSafe) + (if st == Lost then 1 else 0)
  }

  /** While no mine is open the open cells are the open safe cells. */
  lemma OpenAreSafe(b: Board)
    requires NoOpenMine(b)
    ensures Count(b, IsOpen) == Count(b, OpenSafe)
  {
    CountSame(b, b, IsOpen, OpenSafe);
  }

  /**
   * A click on a closed mine: the game is lost, every mine is shown, and the
   * state stays consistent with the mine counted in `revealedCells`.
   */
  lemma MineClickConsistent(b: Board, rows: nat, cols: nat, mineCount: int, flags: int, revealed: int, p: Pos,
                            b': Board, revealed': int)
    requires InBounds(rows, cols, p) && Consistent(b, rows, cols, mineCount, Playing, flags, revealed) && ZeroSafe(b, rows, cols)
    requires b[p.r][p.c].state == Closed && b[p.r][p.c].mine
    requires b' == ShowMines(Put(b, p, b[p.r][p.c].(state := Open)), false)
    requires revealed' == revealed + Count(Put(b, p, b[p.r][p.c].(state := Open)), IsOpen) - Count(b, IsOpen)
    ensures ClickSpec(b, rows, cols, mineCount, Playing, p, b', Lost)
    ensures Consistent(b', rows, cols, mineCount, Lost, flags, revealed')
    ensures SameLayout(b, b', rows, cols) && ZeroSafe(b', rows, cols)
  {
    var cell := b[p.r][p.c];
    var b1 := Put(b, p, cell.(state := Open));
    CountUpdate(b, p, cell.(state := Open), OpenSafe);
    CountUpdate(b, p, cell.(state := Open), IsOpen);
    CountUpdate(b, p, cell.(state := Open), IsMine);
    CountUpdate(b, p, cell.(state := Open), IsFlagged);
    ShowMinesFacts(b1, rows, cols, false);
    ShowMinesCounts(b1, rows, cols, false);
    LayoutKept(b, b', rows, cols);
  }

  /**
   * A click that opened safe cells only (or nothing) keeps the game
   * consistent, with `revealedCells` moved by the cells opened; a game it
   * wins has every safe cell open.
   */
  lemma SafeClickConsistent(b: Board, b1: Board, rows: nat, cols: nat, mineCount: int, flags: int, revealed: int,
                            p: Pos, st': Status, revealed': int)
    requires InBounds(rows, cols, p) && Consistent(b, rows, cols, mineCount, Playing, flags, revealed) && ZeroSafe(b, rows, cols)
    requires b[p.r][p.c].state != Closed ==> b1 == b
    requires b[p.r][p.c].state == Closed ==> !b[p.r][p.c].mine && Filled(b, b1, rows, cols, p)
    requires st' == if WinTest(b1, mineCount) then Won else Playing
    requires revealed' == revealed + Count(b1, IsOpen) - Count(b, IsOpen)
    ensures ClickSpec(b, rows, cols, mineCount, Playing, p, b1, st')
    ensures Consistent(b1, rows, cols, mineCount, st', flags, revealed')
    ensures SameLayout(b, b1, rows, cols) && ZeroSafe(b1, rows, cols)
    ensures st' == Won && mineCount >= 0 ==> AllSafeOpen(b1)
  {
    OpenAreSafe(b);
    if b[p.r][p.c].state == Closed {
      FilledSettled(b, b1, rows, cols, p);
      ReachNoMine(b, b1, rows, cols, p);
      ReachKeepsFlags(b, b1, rows, cols, p);
    }
    LayoutKept(b, b1, rows, cols);
    OpenAreSafe(b1);
    if WinTest(b1, mineCount) && mineCount >= 0 {
      WinTestsAgree(b1, rows, cols, mineCount);
    }
  }

  /** A toggle keeps the game consistent: the cap holds, and nothing else moves. */
  lemma ToggleConsistent(b: Board, rows: nat, cols: nat, mineCount: int, st: Status, flags: int, revealed: int, p: Pos)
    requires InBounds(rows, cols, p) && Consistent(b, rows, cols, mineCount, st, flags, revealed)
    ensures Consistent(CappedToggle(b, rows, cols, mineCount, p), rows, cols, mineCount, st, flags, revealed)
    ensures SameLayout(b, CappedToggle(b, rows, cols, mineCount, p), rows, cols)
  {
    var b' := CappedToggle(b, rows, cols, mineCount, p);
    CappedToggleKeepsCap(b, rows, cols, mineCount, p);
    LayoutKept(b, b', rows, cols);
    FlipFlagFacts(b, rows, cols, p);
  }

  class Game {
    var rows: nat
    var cols: nat
    var mineCount: int
    var board: Board
    var flags: int
    var revealedCells: int
    var status: Status

    ghost predicate Valid()
      reads this
    {
      Consistent(board, rows, cols, mineCount, status, flags, revealedCells) &&
      ZeroSafe(board, rows, cols)
    }

    /** `generateField(rows, cols, mineCount)`: a new `GameState`, status "ready". */
    constructor (rows: nat, cols: nat, mineCount: int, draws: seq<Pos>)
      requires rows > 0
      requires forall k :: 0 <= k < |draws| ==> InBounds(rows, cols, draws[k])
      requires Fresh(draws, {}) >= mineCount
      ensures Valid() && AllAdjCorrect(board, rows, cols)
      ensures this.rows == rows && this.cols == cols && this.mineCount == mineCount
      ensures status == Ready && flags == 0 && revealedCells == 0
      ensures Count(board, IsMine) == MinesLaid(mineCount)
      ensures forall i, j :: 0 <= i < rows && 0 <= j < cols ==> board[i][j].state == Closed
    {
      var b := GenerateField(rows, cols, mineCount, draws);
      this.rows, this.cols, this.mineCount := rows, cols, mineCount;
      board, flags, revealedCells, status := b, 0, 0, Ready;
    }

    /** `startGame()`: a fresh 10 x 10 field with 10 mines, now being played. */
    method Start(draws: seq<Pos>)
      requires forall k :: 0 <= k < |draws| ==> InBounds(Rows, Cols, draws[k])
      requires Fresh(draws, {}) >= Mines
      modifies this
      ensures Valid() && AllAdjCorrect(board, rows, cols)
      ensures rows == Rows && cols == Cols && mineCount == Mines
      ensures status == Playing && flags == 0 && revealedCells == 0
      ensures Count(board, IsMine) == Mines
      ensures forall i, j :: 0 <= i < rows && 0 <= j < cols ==> board[i][j].state == Closed
    {
      var b := GenerateField(Rows, Cols, Mines, draws);
      rows, cols, mineCount := Rows, Cols, Mines;
      board, flags, revealedCells, status := b, 0, 0, Playing;
    }

    /**
     * The cell's click listener: ignored unless the game is being played;
     * otherwise `openCell`, then `checkGameStatus`: a loss opens every mine
     * (`revealAllMines`, flagged ones too), otherwise `isWin` may end the
     * game as won.
     */
    method Click(r: int, c: int)
      requires Valid() && InBounds(rows, cols, Pos(r, c))
      modifies this
      ensures Valid() && rows == old(rows) && cols == old(cols) && mineCount == old(mineCount) && flags == old(flags)
      ensures ClickSpec(old(board), rows, cols, mineCount, old(status), Pos(r, c), board, status)
      ensures SameLayout(old(board), board, rows, cols)
      ensures status == Won && old(status) != Won && mineCount >= 0 ==> AllSafeOpen(board)
    {
      if status != Playing {
        return;
      }
      var b1, rev1, st1 := OpenRec(board, rows, cols, revealedCells, status, Pos(r, c));
      if st1 == Lost {
        var b' := RevealMines(b1, rows, cols, false);
        board, revealedCells, status := b', rev1, Lost;
        MineClickConsistent(old(board), rows, cols, mineCount, flags, old(revealedCells), Pos(r, c), board, revealedCells);
      } else {
        var won := IsWin(b1, rows, cols, mineCount);
        board, revealedCells, status := b1, rev1, if won then Won else Playing;
        SafeClickConsistent(old(board), board, rows, cols, mineCount, flags, old(revealedCells), Pos(r, c), status, revealedCells);
      }
    }

    /** The cell's context-menu listener: `toggleFlag` while the game is being played. */
    method RightClick(r: int, c: int)
      requires Valid() && InBounds(rows, cols, Pos(r, c))
      modifies this
      ensures Valid() && rows == old(rows) && cols == old(cols) && mineCount == old(mineCount)
      ensures status == old(status) && flags == old(flags) && revealedCells == old(revealedCells)
      ensures board == if status == Playing then CappedToggle(old(board), rows, cols, mineCount, Pos(r, c)) else old(board)
    {
      if status != Playing {
        return;
      }
      var cell := board[r][c];
      if cell.state == Open {
        return;
      }
      if cell.state == Closed {
        var flagsPlaced := CountCells(board, rows, cols, IsFlagged);
        if flagsPlaced >= mineCount {
          return;
        }
      }
      ToggleConsistent(board, rows, cols, mineCount, status, flags, revealedCells, Pos(r, c));
      LayoutKept(board, CappedToggle(board, rows, cols, mineCount, Pos(r, c)), rows, cols);
      board := Put(board, Pos(r, c), cell.(state := if cell.state == Flagged then Closed else Flagged));
    }

    /**
     * `updateFlagsCounter()`: the double loop counting flags; the header
     * shows `mineCount` less that number, which the cap keeps at or above 0.
     */
    method FlagsLeft() returns (left: int)
      requires Valid()
      ensures left == mineCount - Count(board, IsFlagged)
      ensures mineCount >= 0 ==> 0 <= left <= mineCount
    {
      var placedFlags := CountCells(board, rows, cols, IsFlagged);
      left := mineCount - placedFlags;
    }
  }
}
