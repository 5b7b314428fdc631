/**
 * Kovalov-Andrii/script.js: `generateField` builds a mine-free game, mines
 * are placed on the first click outside the clicked cell's 3x3 block,
 * `openCell` recurses over the eight offsets and checks for a win at the
 * end of every call, and the module variables `flagsLeft` and `firstClick`
 * sit beside the current game.
 */
module Kovalov {
  import opened Grid
  import opened Neighbours
  import opened Cells
  import opened Placement
  import opened Cascade
  import opened Recursion

  datatype Status = Playing | Win | Lose

  /**
   * `placeMines(game, safeRow, safeCol)`: draws that fall in the safe
   * cell's 3x3 block or on a mine are skipped until `mineCount` mines are
   * down; then every safe cell gets its number.
   */
  method PlaceMines(b: Board, rows: nat, cols: nat, mineCount: int, safe: Pos, draws: seq<Pos>) returns (b': Board)
    requires IsGrid(b, rows, cols)
    requires forall i, j :: 0 <= i < rows && 0 <= j < cols ==> !b[i][j].mine
    requires forall k :: 0 <= k < |draws| ==> InBounds(rows, cols, draws[k])
    requires Fresh(draws, Square(safe)) >= mineCount
    ensures SafeAdjCorrect(b', rows, cols)
    ensures Count(b', IsMine) == if mineCount > 0 then mineCount else 0
    ensures forall i, j :: 0 <= i < rows && 0 <= j < cols && b'[i][j].mine ==>
              !InZone(safe, Pos(i, j)) && Pos(i, j) in draws && b'[i][j].adj == b[i][j].adj
    ensures forall i, j :: 0 <= i < rows && 0 <= j < cols ==> b'[i][j].state == b[i][j].state
  {
    var mined := PlaceByDraws(b, rows, cols, if mineCount > 0 then mineCount else 0, draws, Square(safe));
    forall q ensures q in Square(safe) <==> InZone(safe, q) {
      ZoneMembers(safe, q);
    }
    b' := ComputeAdj(mined, rows, cols, false);
    CountSame(b', mined, IsMine, IsMine);
  }

  /**
   * The board right after `placeMines` on b around `safe`: true numbers on
   * the safe cells, `max(mineCount, 0)` mines, each outside the 3x3 block
   * and at a drawn position, and every cell as visible as before.
   */
  ghost predicate LaidAround(b: Board, b': Board, rows: int, cols: int, mineCount: int, safe: Pos, draws: seq<Pos>) {
    IsGrid(b, rows, cols) && SafeAdjCorrect(b', rows, cols) &&
    Count(b', IsMine) == (if mineCount > 0 then mineCount else 0) &&
    (forall i, j :: 0 <= i < rows && 0 <= j < cols && b'[i][j].mine ==>
       !InZone(safe, Pos(i, j)) && Pos(i, j) in draws && b'[i][j].adj == b[i][j].adj) &&
    (forall i, j :: 0 <= i < rows && 0 <= j < cols ==> b'[i][j].state == b[i][j].state)
  }

  /** What `openCell(game, row, col)` does; it has no status guard of its own. */
  ghost predicate OpenCellSpec(b: Board, rows: int, cols: int, st: Status, p: Pos, b': Board, st': Status)
    requires IsGrid(b, rows, cols)
  {
    if !InBounds(rows, cols, p) || b[p.r][p.c].state != Closed then
      b' == b && st' == st
    else if b[p.r][p.c].mine then
      b' == ShowMines(b, false) && st' == Lose
    else
      Filled(b, b', rows, cols, p) && st' == (if AllSafeOpen(b') then Win else st)
  }

  /**
   * `openCell`: ignored out of bounds and on an open or flagged cell; a mine
   * opens, loses and shows every mine; a 0 calls `openCell` on all eight
   * offsets; every call ends with `checkWin`.
   */
  method OpenRec(b: Board, rows: int, cols: int, st: Status, p: Pos) returns (b': Board, st': Status)
    requires ZeroSafe(b, rows, cols)
    ensures IsGrid(b', rows, cols)
    ensures OpenCellSpec(b, rows, cols, st, p, b', st')
    decreases Count(b, IsClosed)
  {
    if !InBounds(rows, cols, p) {
      return b, st;
    }
    var cell := b[p.r][p.c];
    if cell.state == Open || cell.state == Flagged {
      return b, st;
    }
    b' := Put(b, p, cell.(state := Open));
    if cell.mine {
      b' := RevealMines(b', rows, cols, false);
      assert b' == ShowMines(b, false) by {
        forall i | 0 <= i < rows ensures b'[i] == ShowMines(b, false)[i] { }
      }
      return b', Lose;
    }
    st' := st;
    if cell.adj == 0 {
      var cands := ShiftAll(p, Offsets);
      OffsetsCover(rows, cols, p);
      FrameStart(b, rows, cols, p, cands);
      var k := 0;
      while k < |Offsets|
        invariant FrameInv(b, b', rows, cols, p, cands, k)
        invariant st' == st || (st' == Win && AllSafeOpen(b'))
      {
        // A call on a cell off the board or not covered returns at once.
        var q := Shift(p, Offsets[k]);
        if InBounds(rows, cols, q) && b'[q.r][q.c].state == Closed {
          OffsetsAreAdjacent(p, k);
          FrameNext(b, b', rows, cols, p, cands, k);
          FrameFewer(b, b', rows, cols, p, cands, k);
          var b2, st2 := OpenRec(b', rows, cols, st', q);
          assert !b'[q.r][q.c].mine;
          FrameCall(b, b', b2, rows, cols, p, cands, k);
          KeepsWin(b', b2, rows, cols, q);
          b', st' := b2, st2;
        } else {
          FrameSkip(b, b', rows, cols, p, cands, k);
        }
        k := k + 1;
      }
      FrameEnd(b, b', rows, cols, p, cands);
    } else {
      OpenNumbered(b, rows, cols, p);
    }
    var won := ScanWin(b', rows, cols);
    if won {
      st' := Win;
    }
  }

  /** A win already on the board survives a further cascade. */
  lemma KeepsWin(b: Board, b': Board, rows: int, cols: int, p: Pos)
    requires IsGrid(b, rows, cols) && Filled(b, b', rows, cols, p)
    ensures AllSafeOpen(b) ==> AllSafeOpen(b')
  {
    if AllSafeOpen(b) {
      FilledKeepsWin(b, b', rows, cols, p);
    }
  }

  /**
   * Opening moves no mine or number and keeps every flag; a loss opens
   * every mine; outside a loss no mine is open.
   */
  lemma OpenCellKeeps(b: Board, rows: int, cols: int, st: Status, p: Pos, b': Board, st': Status)
    requires IsGrid(b, rows, cols) && OpenCellSpec(b, rows, cols, st, p, b', st')
    ensures SameLayout(b, b', rows, cols)
    ensures Count(b', IsFlagged) == Count(b, IsFlagged) || st' == Lose
    ensures st' == Lose && st != Lose ==>
              forall i, j :: 0 <= i < rows && 0 <= j < cols && b[i][j].mine ==> b'[i][j].state == Open
    ensures st' != Lose && NoOpenMine(b) ==> NoOpenMine(b')
  {
    if InBounds(rows, cols, p) && b[p.r][p.c].state == Closed {
      if b[p.r][p.c].mine {
        ShowMinesFacts(b, rows, cols, false);
      } else {
        FilledSettled(b, b', rows, cols, p);
        ReachKeepsFlags(b, b', rows, cols, p);
        FilledSpares(b, b', rows, cols, p);
      }
    }
  }

  /**
   * `handleCellRightClick` as written: the counter is adjusted before
   * `toggleFlag` looks at the cell, so a right click on an open cell still
   * spends a flag.
   */
  function RightClickAsWritten(b: Board, rows: int, cols: int, st: Status, left: int, p: Pos): (Board, int)
    requires IsGrid(b, rows, cols) && InBounds(rows, cols, p)
  {
    if st != Playing then (b, left)
    else if b[p.r][p.c].state == Flagged then (FlipFlag(b, p), left + 1)
    else if left > 0 then (FlipFlag(b, p), left - 1)
    else (b, left)
  }

  /**
   * The counter drifts: on an open cell the board is unchanged but
   * `flagsLeft` drops, so it no longer equals the mine count less the flags.
   */
  lemma RightClickOnOpenCellDrifts(b: Board, rows: int, cols: int, mineCount: int, left: int, p: Pos)
    requires IsGrid(b, rows, cols) && InBounds(rows, cols, p)
    requires b[p.r][p.c].state == Open && left > 0 && left == mineCount - Count(b, IsFlagged)
    ensures RightClickAsWritten(b, rows, cols, Playing, left, p) == (b, left - 1)
    ensures RightClickAsWritten(b, rows, cols, Playing, left, p).1
              != mineCount - Count(RightClickAsWritten(b, rows, cols, Playing, left, p).0, IsFlagged)
  {
  }

  /** `handleCellRightClick` as intended: an open cell is ignored, like `toggleFlag` ignores it. */
  function RightClick(b: Board, rows: int, cols: int, st: Status, left: int, p: Pos): (Board, int)
    requires IsGrid(b, rows, cols) && InBounds(rows, cols, p)
  {
    if st != Playing || b[p.r][p.c].state == Open then (b, left)
    else if b[p.r][p.c].state == Flagged then (FlipFlag(b, p), left + 1)
    else if left > 0 then (FlipFlag(b, p), left - 1)
    else (b, left)
  }

  /** With open cells ignored, `flagsLeft` stays the mine count less the flags, and never negative. */
  lemma RightClickKeepsBudget(b: Board, rows: int, cols: int, st: Status, mineCount: int, left: int, p: Pos)
    requires IsGrid(b, rows, cols) && InBounds(rows, cols, p)
    requires left == mineCount - Count(b, IsFlagged) && 0 <= left
    ensures RightClick(b, rows, cols, st, left, p).1 == mineCount - Count(RightClick(b, rows, cols, st, left, p).0, IsFlagged)
    ensures 0 <= RightClick(b, rows, cols, st, left, p).1 <= mineCount
    ensures SameLayout(b, RightClick(b, rows, cols, st, left, p).0, rows, cols)
    ensures Count(RightClick(b, rows, cols, st, left, p).0, IsOpen) == Count(b, IsOpen)
  {
    FlipFlagFacts(b, rows, cols, p);
  }

  /** Before the first click the field holds no mine and nothing is uncovered. */
  ghost predicate Untouched(b: Board, rows: int, cols: int)
    requires IsGrid(b, rows, cols)
  {
    forall i, j :: 0 <= i < rows && 0 <= j < cols ==> !b[i][j].mine && b[i][j].state != Open
  }

  /**
   * What holds between events: numbers are right around blanks, `flagsLeft`
   * is the mine count less the flags until a loss uncovers flagged mines,
   * no mine is uncovered during play, and before the first click the field
   * is untouched.
   */
  ghost predicate Consistent(b: Board, rows: int, cols: int, mineCount: int, st: Status, left: int, first: bool) {
    ZeroSafe(b, rows, cols) &&
    0 <= left <= mineCount &&
    (st != Lose ==> left == mineCount - Count(b, IsFlagged)) &&
    (st == Playing ==> NoOpenMine(b)) &&
    (first ==> st == Playing && Untouched(b, rows, cols))
  }

  /**
   * The first click of `handleCellClick`: `placeMines` around p, then
   * `openCell` on the board it laid. The clicked cell is safe, so the game
   * is not lost, and exactly `mineCount` mines are down.
   */
  method FirstOpen(b: Board, rows: nat, cols: nat, mineCount: int, left: int, p: Pos, draws: seq<Pos>)
    returns (b': Board, st': Status)
    requires Consistent(b, rows, cols, mineCount, Playing, left, true) && InBounds(rows, cols, p)
    requires forall k :: 0 <= k < |draws| ==> InBounds(rows, cols, draws[k])
    requires Fresh(draws, Square(p)) >= mineCount
    ensures exists laid :: LaidAround(b, laid, rows, cols, mineCount, p, draws) &&
                           OpenCellSpec(laid, rows, cols, Playing, p, b', st')
    ensures Consistent(b', rows, cols, mineCount, st', left, false)
    ensures Count(b', IsMine) == mineCount && st' != Lose
  {
    var laid := PlaceMines(b, rows, cols, mineCount, p, draws);
    PlacedConsistent(b, laid, rows, cols, mineCount, left, p);
    assert LaidAround(b, laid, rows, cols, mineCount, p, draws);
    b', st' := OpenRec(laid, rows, cols, Playing, p);
    OpenedConsistent(laid, b', rows, cols, mineCount, left, p, st');
  }

  /** Placing the mines on the first click keeps the state consistent and leaves the clicked cell safe. */
  lemma PlacedConsistent(b: Board, b': Board, rows: int, cols: int, mineCount: int, left: int, p: Pos)
    requires Consistent(b, rows, cols, mineCount, Playing, left, true) && InBounds(rows, cols, p)
    requires SafeAdjCorrect(b', rows, cols)
    requires forall i, j :: 0 <= i < rows && 0 <= j < cols && b'[i][j].mine ==> !InZone(p, Pos(i, j))
    requires forall i, j :: 0 <= i < rows && 0 <= j < cols ==> b'[i][j].state == b[i][j].state
    ensures Consistent(b', rows, cols, mineCount, Playing, left, false)
    ensures !b'[p.r][p.c].mine
  {
    AdjZeroSafe(b', rows, cols);
    CountSame(b', b, IsFlagged, IsFlagged);
    assert InZone(p, p);
  }

  /** Opening a cell during play keeps the state consistent. */
  lemma OpenedConsistent(b: Board, b': Board, rows: int, cols: int, mineCount: int, left: int, p: Pos, st': Status)
    requires Consistent(b, rows, cols, mineCount, Playing, left, false)
    requires IsGrid(b', rows, cols) && OpenCellSpec(b, rows, cols, Playing, p, b', st')
    ensures Consistent(b', rows, cols, mineCount, st', left, false)
    ensures Count(b', IsMine) == Count(b, IsMine)
  {
    OpenCellKeeps(b, rows, cols, Playing, p, b', st');
    LayoutKept(b, b', rows, cols);
  }

  /** A right click keeps the state consistent. */
  lemma RightClickConsistent(b: Board, rows: int, cols: int, mineCount: int, st: Status, left: int, first: bool, p: Pos)
    requires Consistent(b, rows, cols, mineCount, st, left, first) && InBounds(rows, cols, p)
    requires st == Playing
    ensures Consistent(RightClick(b, rows, cols, st, left, p).0, rows, cols, mineCount, st, RightClick(b, rows, cols, st, left, p).1, first)
  {
    RightClickKeepsBudget(b, rows, cols, st, mineCount, left, p);
    FlipFlagFacts(b, rows, cols, p);
    LayoutKept(b, RightClick(b, rows, cols, st, left, p).0, rows, cols);
  }

  class Game {
    var rows: nat
    var cols: nat
    var mineCount: int
    var status: Status
    var field: Board
    var flagsLeft: int
    var firstClick: bool

    ghost predicate Valid()
      reads this
    {
      Consistent(field, rows, cols, mineCount, status, flagsLeft, firstClick)
    }

    /** `newGame(rowCount, colCount, mineCount)`: a mine-free closed field, all flags left, waiting for the first click. */
    constructor (rows: nat, cols: nat, mineCount: nat)
      ensures Valid()
      ensures this.rows == rows && this.cols == cols && this.mineCount == mineCount
      ensures status == Playing && flagsLeft == mineCount && firstClick
      ensures forall i, j :: 0 <= i < rows && 0 <= j < cols ==> field[i][j] == Blank
    {
      var f := CreateBoard(rows, cols);
      CountNone(f, IsFlagged);
      this.rows, this.cols, this.mineCount := rows, cols, mineCount;
      status, flagsLeft, firstClick := Playing, mineCount, true;
      field := f;
    }

    /**
     * `handleCellClick`: ignored once the game is over; the first click
     * places the mines around it, then the cell is opened. The first cell
     * opened is never a mine.
     */
    method Click(r: int, c: int, draws: seq<Pos>)
      requires Valid() && InBounds(rows, cols, Pos(r, c))
      requires firstClick ==> (forall k :: 0 <= k < |draws| ==> InBounds(rows, cols, draws[k])) &&
                              Fresh(draws, Square(Pos(r, c))) >= mineCount
      modifies this
      ensures Valid() && rows == old(rows) && cols == old(cols) && mineCount == old(mineCount)
      ensures flagsLeft == old(flagsLeft) && !firstClick
      ensures old(status) != Playing ==> unchanged(this)
      ensures old(firstClick) ==> Count(field, IsMine) == mineCount && status != Lose
      ensures old(status) == Playing && old(firstClick) ==>
                exists laid :: LaidAround(old(field), laid, rows, cols, mineCount, Pos(r, c), draws) &&
                               OpenCellSpec(laid, rows, cols, Playing, Pos(r, c), field, status)
      ensures old(status) == Playing && !old(firstClick) ==>
                OpenCellSpec(old(field), rows, cols, old(status), Pos(r, c), field, status)
    {
      if status != Playing {
        return;
      }
      var f, s;
      if firstClick {
        f, s := FirstOpen(field, rows, cols, mineCount, flagsLeft, Pos(r, c), draws);
      } else {
        f, s := OpenRec(field, rows, cols, Playing, Pos(r, c));
        OpenedConsistent(field, f, rows, cols, mineCount, flagsLeft, Pos(r, c), s);
      }
      field, status, firstClick := f, s, false;
    }

    /** `handleCellRightClick` followed by `toggleFlag`, with open cells ignored. */
    method RightClickCell(r: int, c: int)
      requires Valid() && InBounds(rows, cols, Pos(r, c))
      modifies this
      ensures Valid() && rows == old(rows) && cols == old(cols) && mineCount == old(mineCount)
      ensures status == old(status) && firstClick == old(firstClick)
      ensures (field, flagsLeft) == RightClick(old(field), rows, cols, status, old(flagsLeft), Pos(r, c))
    {
      if status != Playing {
        return;
      }
      var cell := field[r][c];
      if cell.state == Open {
        return;
      }
      RightClickConsistent(field, rows, cols, mineCount, status, flagsLeft, firstClick, Pos(r, c));
      var b, left := field, flagsLeft;
      if cell.state == Flagged {
        left := left + 1;
      } else if left > 0 {
        left := left - 1;
      } else {
        return;
      }
      field, flagsLeft := FlipFlag(b, Pos(r, c)), left;
    }
  }
}
