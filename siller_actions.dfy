/**
 * Siller-Olena/actions.js: every cell is a record `{revealed, bomb,
 * adjacent, flagged}` (never both revealed and flagged, so the shared
 * three-state cell fits). `revealCell` ignores revealed and flagged cells;
 * a 0 asks `revealAdjacentCells` to reveal its unrevealed, bomb-free
 * neighbours; `checkWin` counts revealed safe cells against
 * `sizeX * sizeY - bombs`. DOM events are replaced by coordinates.
 */
module SillerActions {
  import opened Grid
  import opened Neighbours
  import opened Cells
  import opened Placement
  import opened Cascade
  import opened Recursion

  /** The default settings, before the inputs are read. */
  const SizeX := 10
  const SizeY := 10
  const Bombs := 10

  /**
   * The board `startGame` builds: sizeX x sizeY blank cells, bombs laid by
   * rejection from the draws, then `countAdjacentBombs` for every cell
   * without a bomb.
   */
  method StartBoard(sizeX: nat, sizeY: nat, bombs: int, draws: seq<Pos>) returns (b: Board)
    requires forall k :: 0 <= k < |draws| ==> InBounds(sizeX, sizeY, draws[k])
    requires Fresh(draws, {}) >= bombs
    ensures SafeAdjCorrect(b, sizeX, sizeY)
    ensures Count(b, IsMine) == MinesLaid(bombs)
    ensures forall i, j :: 0 <= i < sizeX && 0 <= j < sizeY ==>
              b[i][j].state == Closed && (b[i][j].mine ==> b[i][j].adj == 0 && Pos(i, j) in draws)
  {
    var blank := CreateBoard(sizeX, sizeY);
    var mined := PlaceByDraws(blank, sizeX, sizeY, MinesLaid(bombs), draws, {});
    b := ComputeAdj(mined, sizeX, sizeY, false);
    CountSame(b, mined, IsMine, IsMine);
  }

  /** What `revealCell` at p does to the board and `gameOver`. */
  ghost predicate RevealSpec(b: Board, sizeX: int, sizeY: int, bombs: int, over: bool, p: Pos, b': Board, over': bool)
    requires IsGrid(b, sizeX, sizeY) && InBounds(sizeX, sizeY, p)
  {
    IsGrid(b', sizeX, sizeY) &&
    if over || b[p.r][p.c].state != Closed then
      b' == b && over' == over
    else if b[p.r][p.c].mine then
      b' == Put(b, p, b[p.r][p.c].(state := Open)) && over'
    else
      OnlyOpensReach(b, b', sizeX, sizeY, p) && b'[p.r][p.c].state == Open &&
      (over' <==> SafeCountWon(b', sizeX, sizeY, bombs)) &&
      (!over' ==> Filled(b, b', sizeX, sizeY, p))
  }

  /**
   * `revealCell`: nothing once the game is over or on a revealed or flagged
   * cell; otherwise the cell is revealed; a bomb ends the game; a 0 runs
   * `revealAdjacentCells`; a safe cell ends with `checkWin`.
   */
  method RevealCell(b: Board, sizeX: int, sizeY: int, bombs: int, over: bool, p: Pos) returns (b': Board, over': bool)
    requires ZeroSafe(b, sizeX, sizeY) && InBounds(sizeX, sizeY, p)
    ensures RevealSpec(b, sizeX, sizeY, bombs, over, p, b', over')
    decreases Count(b, IsClosed), 1
  {
    if over {
      return b, over;
    }
    var cell := b[p.r][p.c];
    if cell.state == Open || cell.state == Flagged {
      return b, over;
    }
    b' := Put(b, p, cell.(state := Open));
    if cell.mine {
      return b', true;
    }
    OpenOne(b, sizeX, sizeY, p);
    over' := false;
    if cell.adj == 0 {
      OffsetsCover(sizeX, sizeY, p);
      FrameStart(b, sizeX, sizeY, p, ShiftAll(p, Offsets));
      b', over' := RevealAdjacentCells(b', sizeX, sizeY, bombs, p, b);
    } else {
      OpenNumbered(b, sizeX, sizeY, p);
    }
    var safeRevealed := CountCells(b', sizeX, sizeY, OpenSafe);
    if safeRevealed == sizeX * sizeY - bombs {
      over' := true;
    }
  }

  /**
   * `revealAdjacentCells(x, y)`: the dx/dy loop calling `revealCell` on
   * each in-bounds neighbour that is neither revealed nor a bomb.
   */
  method RevealAdjacentCells(b: Board, sizeX: int, sizeY: int, bombs: int, p: Pos, ghost b0: Board)
      returns (b': Board, over': bool)
    requires FrameInv(b0, b, sizeX, sizeY, p, ShiftAll(p, Offsets), 0)
    ensures IsGrid(b', sizeX, sizeY)
    ensures OnlyOpensReach(b0, b', sizeX, sizeY, p) && b'[p.r][p.c].state == Open
    ensures over' ==> SafeCountWon(b', sizeX, sizeY, bombs)
    ensures !over' ==> Filled(b0, b', sizeX, sizeY, p)
    decreases Count(b0, IsClosed), 0
  {
    var cands := ShiftAll(p, Offsets);
    b', over' := b, false;
    var k := 0;
    while k < |Offsets|
      invariant 0 <= k <= |Offsets| && IsGrid(b', sizeX, sizeY)
      invariant !over' ==> FrameInv(b0, b', sizeX, sizeY, p, cands, k)
      invariant over' ==> OnlyOpensReach(b0, b', sizeX, sizeY, p) && b'[p.r][p.c].state == Open &&
                          SafeCountWon(b', sizeX, sizeY, bombs)
    {
      // A call once the game is over, or on a flagged cell, returns at once.
      var q := Shift(p, Offsets[k]);
      if InBounds(sizeX, sizeY, q) && b'[q.r][q.c].state == Closed && !b'[q.r][q.c].mine && !over' {
        OffsetsAreAdjacent(p, k);
        FrameNext(b0, b', sizeX, sizeY, p, cands, k);
        FrameFewer(b0, b', sizeX, sizeY, p, cands, k);
        var b2, o2 := RevealCell(b', sizeX, sizeY, bombs, over', q);
        if o2 {
          FrameStop(b0, b', b2, sizeX, sizeY, p, cands, k);
        } else {
          FrameCall(b0, b', b2, sizeX, sizeY, p, cands, k);
        }
        b', over' := b2, o2;
      } else if !over' {
        FrameSkip(b0, b', sizeX, sizeY, p, cands, k);
      }
      k := k + 1;
    }
    if !over' {
      FrameEnd(b0, b', sizeX, sizeY, p, cands);
      FilledSettled(b0, b', sizeX, sizeY, p);
    }
  }

  /**
   * Revealing moves no bomb and no number and keeps every flag; while the
   * game goes on no bomb is revealed; and on a board holding `bombs` bombs,
   * none revealed, a safe click has opened the whole cascade and ends the
   * game exactly when every safe cell is revealed.
   */
  lemma RevealKeeps(b: Board, sizeX: nat, sizeY: nat, bombs: int, over: bool, p: Pos, b': Board, over': bool)
    requires IsGrid(b, sizeX, sizeY) && InBounds(sizeX, sizeY, p)
    requires RevealSpec(b, sizeX, sizeY, bombs, over, p, b', over')
    ensures SameLayout(b, b', sizeX, sizeY)
    ensures forall i, j :: 0 <= i < sizeX && 0 <= j < sizeY ==> (b'[i][j].state == Flagged <==> b[i][j].state == Flagged)
    ensures Count(b', IsFlagged) == Count(b, IsFlagged)
    ensures !over && b[p.r][p.c].state == Closed && b[p.r][p.c].mine ==> over'
    ensures !over' && NoOpenMine(b) ==> NoOpenMine(b')
    ensures !over && b[p.r][p.c].state == Closed && !b[p.r][p.c].mine && NoOpenMine(b) && Count(b, IsMine) == bombs ==>
              Filled(b, b', sizeX, sizeY, p) && (over' <==> AllSafeOpen(b'))
  {
    if !over && b[p.r][p.c].state == Closed {
      if b[p.r][p.c].mine {
        CountUpdate(b, p, b'[p.r][p.c], IsFlagged);
      } else {
        ReachKeepsFlags(b, b', sizeX, sizeY, p);
        if NoOpenMine(b) {
          ReachNoMine(b, b', sizeX, sizeY, p);
          LayoutKept(b, b', sizeX, sizeY);
          if Count(b, IsMine) == bombs {
            SafeCountWonMeaning(b', sizeX, sizeY, bombs);
            if over' {
              WinFilled(b, b', sizeX, sizeY, p);
            }
          }
        }
      }
    }
  }

  /** The game state is what the functions above leave behind. */
  ghost predicate Consistent(b: Board, sizeX: int, sizeY: int, bombs: int, over: bool, flagged: int) {
    ZeroSafe(b, sizeX, sizeY) && Count(b, IsMine) == MinesLaid(bombs) &&
    flagged == Count(b, IsFlagged) &&
    (!over ==> NoOpenMine(b))
  }

  lemma RevealedConsistent(b: Board, sizeX: nat, sizeY: nat, bombs: int, over: bool, flagged: int,
                           p: Pos, b': Board, over': bool)
    requires Consistent(b, sizeX, sizeY, bombs, over, flagged) && InBounds(sizeX, sizeY, p)
    requires RevealSpec(b, sizeX, sizeY, bombs, over, p, b', over')
    ensures Consistent(b', sizeX, sizeY, bombs, over', flagged)
  {
    RevealKeeps(b, sizeX, sizeY, bombs, over, p, b', over');
    LayoutKept(b, b', sizeX, sizeY);
  }

  lemma ToggledConsistent(b: Board, sizeX: nat, sizeY: nat, bombs: int, over: bool, flagged: int, p: Pos)
    requires Consistent(b, sizeX, sizeY, bombs, over, flagged) && InBounds(sizeX, sizeY, p)
    ensures var (b1, f1) := ToggleCounted(b, sizeX, sizeY, over, flagged, p);
            Consistent(b1, sizeX, sizeY, bombs, over || SafeCountWon(b1, sizeX, sizeY, bombs), f1)
  {
    ToggleCountedFacts(b, sizeX, sizeY, over, flagged, p);
    FlipFlagFacts(b, sizeX, sizeY, p);
    LayoutKept(b, ToggleCounted(b, sizeX, sizeY, over, flagged, p).0, sizeX, sizeY);
  }

  class Game {
    var sizeX: nat
    var sizeY: nat
    var bombs: int
    var board: Board
    var gameOver: bool
    var flaggedCount: int

    ghost predicate Valid()
      reads this
    {
      Consistent(board, sizeX, sizeY, bombs, gameOver, flaggedCount)
    }

    /** `startGame()` with the sizes and bomb count already read from the inputs. */
    constructor (sizeX: nat, sizeY: nat, bombs: int, draws: seq<Pos>)
      requires forall k :: 0 <= k < |draws| ==> InBounds(sizeX, sizeY, draws[k])
      requires Fresh(draws, {}) >= bombs
      ensures Valid()
      ensures this.sizeX == sizeX && this.sizeY == sizeY && this.bombs == bombs
      ensures !gameOver && flaggedCount == 0
      ensures SafeAdjCorrect(board, sizeX, sizeY) && Count(board, IsMine) == MinesLaid(bombs)
      ensures forall i, j :: 0 <= i < sizeX && 0 <= j < sizeY ==> board[i][j].state == Closed
    {
      var b := StartBoard(sizeX, sizeY, bombs, draws);
      AdjZeroSafe(b, sizeX, sizeY);
      CountNone(b, IsFlagged);
      this.sizeX, this.sizeY, this.bombs := sizeX, sizeY, bombs;
      board, gameOver, flaggedCount := b, false, 0;
    }

    /** A left click on cell (x, y): `revealCell`. */
    method Reveal(x: int, y: int)
      requires Valid() && InBounds(sizeX, sizeY, Pos(x, y))
      modifies this
      ensures sizeX == old(sizeX) && sizeY == old(sizeY) && bombs == old(bombs) && flaggedCount == old(flaggedCount)
      ensures RevealSpec(old(board), sizeX, sizeY, bombs, old(gameOver), Pos(x, y), board, gameOver)
      ensures Valid()
    {
      var b, over := RevealCell(board, sizeX, sizeY, bombs, gameOver, Pos(x, y));
      board, gameOver := b, over;
      RevealedConsistent(old(board), sizeX, sizeY, bombs, old(gameOver), flaggedCount, Pos(x, y), board, gameOver);
    }

    /** A right click on cell (x, y): `toggleFlag`, then `checkWin` when something was toggled. */
    method Flag(x: int, y: int)
      requires Valid() && InBounds(sizeX, sizeY, Pos(x, y))
      modifies this
      ensures sizeX == old(sizeX) && sizeY == old(sizeY) && bombs == old(bombs)
      ensures (board, flaggedCount) == ToggleCounted(old(board), sizeX, sizeY, old(gameOver), old(flaggedCount), Pos(x, y))
      ensures gameOver == (old(gameOver) || (old(board)[x][y].state != Open && SafeCountWon(board, sizeX, sizeY, bombs)))
      ensures Valid()
    {
      if gameOver || board[x][y].state == Open {
        return;
      }
      ToggledConsistent(board, sizeX, sizeY, bombs, gameOver, flaggedCount, Pos(x, y));
      var t := ToggleCounted(board, sizeX, sizeY, gameOver, flaggedCount, Pos(x, y));
      var safeRevealed := CountCells(t.0, sizeX, sizeY, OpenSafe);
      board, flaggedCount := t.0, t.1;
      if safeRevealed == sizeX * sizeY - bombs {
        gameOver := true;
      }
    }
  }
}
