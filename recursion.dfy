/**
 * Recursive cascades. Most engines open the empty region by recursion:
 * open the cell and, when it shows 0, call the same function on each
 * neighbour. One frame of such a recursion is carried by `FrameInv`: after
 * the frame's own cell is open, the loop over its candidate neighbours
 * keeps it, a recursive call that produced its own closure keeps it, and
 * when the loop is done the frame has produced the closure `Filled`.
 */
module Recursion {
  import opened Grid
  import opened Neighbours
  import opened Cells
  import opened Cascade

  /** The cells at the given offsets from p, in bounds or not: what a loop over offsets visits. */
  function ShiftAll(p: Pos, offs: seq<(int, int)>): (s: seq<Pos>)
    ensures |s| == |offs|
    ensures forall k :: 0 <= k < |offs| ==> s[k] == Shift(p, offs[k])
  {
    seq(|offs|, k requires 0 <= k < |offs| => Shift(p, offs[k]))
  }

  /** The candidate list names every in-bounds neighbour of p. */
  ghost predicate Covers(rows: int, cols: int, p: Pos, cands: seq<Pos>) {
    forall n :: Adjacent(p, n) && InBounds(rows, cols, n) ==> n in cands
  }

  /** A loop over the eight offsets visits every neighbour. */
  lemma OffsetsCover(rows: int, cols: int, p: Pos)
    ensures Covers(rows, cols, p, ShiftAll(p, Offsets))
  {
    forall n | Adjacent(p, n) && InBounds(rows, cols, n) ensures n in ShiftAll(p, Offsets) {
      var k := AdjacentIsOffset(p, n);
      assert ShiftAll(p, Offsets)[k] == n;
    }
  }

  /** A loop over the 3x3 block visits every neighbour (and p itself). */
  lemma BlockCovers(rows: int, cols: int, p: Pos)
    ensures Covers(rows, cols, p, ShiftAll(p, Block))
  {
    forall n | Adjacent(p, n) && InBounds(rows, cols, n) ensures n in ShiftAll(p, Block) {
      var k := ZoneIsBlock(p, n);
      assert ShiftAll(p, Block)[k] == n;
    }
  }

  /** A loop over the neighbour list (`neighbors(r, c)`) visits every neighbour. */
  lemma ListCovers(rows: int, cols: int, p: Pos)
    ensures Covers(rows, cols, p, InBoundsShifts(rows, cols, p, Offsets))
  {
    NeighbourListIsNeighbourhood(rows, cols, p);
  }

  /**
   * A safe cell showing 0 has no mined in-bounds neighbour. It holds once
   * the numbers are computed, and it is why a cascade never reaches a mine
   * even in engines whose loop does not test for one.
   */
  ghost predicate ZeroSafe(b: Board, rows: int, cols: int) {
    IsGrid(b, rows, cols) &&
    forall x, n ::
      InBounds(rows, cols, x) && InBounds(rows, cols, n) && Adjacent(x, n) && !b[x.r][x.c].mine && b[x.r][x.c].adj == 0
      ==> !b[n.r][n.c].mine
  }

  /** Correct numbers make the board zero-safe. */
  lemma AdjZeroSafe(b: Board, rows: int, cols: int)
    requires SafeAdjCorrect(b, rows, cols)
    ensures ZeroSafe(b, rows, cols)
  {
    forall x, n | InBounds(rows, cols, x) && InBounds(rows, cols, n) && Adjacent(x, n)
        && !b[x.r][x.c].mine && b[x.r][x.c].adj == 0
      ensures !b[n.r][n.c].mine
    {
      ZeroMeansNoMinedNeighbour(b, IsMine, rows, cols, x, n);
    }
  }

  /** Reachability only shrinks as cells open: a path on the later board is one on the earlier. */
  lemma ReachMonotone(b0: Board, b1: Board, rows: int, cols: int, x: Pos, q: Pos)
    requires OnlyOpens(b0, b1, rows, cols) && Reach(b1, rows, cols, x, q)
    ensures Reach(b0, rows, cols, x, q)
  {
    var path :| IsPath(b1, rows, cols, path) && path[0] == x && path[|path| - 1] == q;
    forall i | 0 <= i < |path| ensures Enterable(b0, rows, cols, path[i]) {
      assert Enterable(b1, rows, cols, path[i]);
    }
    forall i | 0 <= i < |path| - 1 ensures Link(b0, path, i) {
      assert Link(b1, path, i);
    }
    assert IsPath(b0, rows, cols, path);
  }

  /** Reachability is transitive: paths join at their shared cell. */
  lemma ReachConcat(b: Board, rows: int, cols: int, p: Pos, x: Pos, q: Pos)
    requires Reach(b, rows, cols, p, x) && Reach(b, rows, cols, x, q)
    ensures Reach(b, rows, cols, p, q)
  {
    var s :| IsPath(b, rows, cols, s) && s[0] == p && s[|s| - 1] == x;
    var t :| IsPath(b, rows, cols, t) && t[0] == x && t[|t| - 1] == q;
    var u := s + t[1..];
    forall i | 0 <= i < |u| ensures Enterable(b, rows, cols, u[i]) {
      if i >= |s| {
        assert u[i] == t[i - |s| + 1];
      }
    }
    forall i | 0 <= i < |u| - 1 ensures Link(b, u, i) {
      if i < |s| - 1 {
        assert Link(b, s, i);
      } else {
        var j := i - |s| + 1;
        assert Link(b, t, j);
        assert u[i] == t[j] && u[i + 1] == t[j + 1];
      }
    }
    assert IsPath(b, rows, cols, u);
  }

  /** A nested cascade from a cell reachable from p opens only cells reachable from p. */
  lemma OnlyOpensReachCompose(b0: Board, b1: Board, b2: Board, rows: int, cols: int, p: Pos, q: Pos)
    requires OnlyOpensReach(b0, b1, rows, cols, p) && OnlyOpensReach(b1, b2, rows, cols, q)
    requires Reach(b0, rows, cols, p, q)
    ensures OnlyOpensReach(b0, b2, rows, cols, p)
  {
    forall i, j | 0 <= i < rows && 0 <= j < cols && b2[i][j].state != b0[i][j].state
      ensures Reach(b0, rows, cols, p, Pos(i, j))
    {
      if b1[i][j].state == b0[i][j].state {
        ReachMonotone(b0, b1, rows, cols, q, Pos(i, j));
        ReachConcat(b0, rows, cols, p, q, Pos(i, j));
      }
    }
  }

  /** A finished cascade, read back as its two halves. */
  lemma FilledSettled(b0: Board, b1: Board, rows: int, cols: int, p: Pos)
    requires Filled(b0, b1, rows, cols, p) && Enterable(b0, rows, cols, p)
    ensures OnlyOpensReach(b0, b1, rows, cols, p) && LocalClosed(b0, b1, rows, cols)
    ensures b1[p.r][p.c].state == Open
  {
    ReachStart(b0, rows, cols, p);
    forall x, n | InBounds(rows, cols, x) && InBounds(rows, cols, n) && Adjacent(x, n)
        && b0[x.r][x.c].state != Open && b1[x.r][x.c].state == Open && b1[x.r][x.c].adj == 0
      ensures b1[n.r][n.c].state != Closed || b1[n.r][n.c].mine
    {
      assert Reach(b0, rows, cols, p, Pos(x.r, x.c));
      if Enterable(b0, rows, cols, n) {
        ReachStep(b0, rows, cols, p, x, n);
        assert Reach(b0, rows, cols, p, Pos(n.r, n.c));
      } else if b0[n.r][n.c].state != Closed && Reach(b0, rows, cols, p, Pos(n.r, n.c)) {
        ReachEnterable(b0, rows, cols, p, Pos(n.r, n.c));
      }
    }
  }

  /** When every safe cell ends up open, a cascade that opened only reachable cells is the closure. */
  lemma WinFilled(b0: Board, b1: Board, rows: int, cols: int, p: Pos)
    requires OnlyOpensReach(b0, b1, rows, cols, p) && AllSafeOpen(b1)
    ensures Filled(b0, b1, rows, cols, p)
  {
    forall i, j | 0 <= i < rows && 0 <= j < cols && Reach(b0, rows, cols, p, Pos(i, j))
      ensures b1[i][j].state == Open
    {
      ReachEnterable(b0, rows, cols, p, Pos(i, j));
    }
  }

  /** Opening a closed cell and then only opening more leaves fewer closed cells. */
  lemma FewerClosed(b0: Board, bk: Board, rows: int, cols: int, p: Pos)
    requires OnlyOpens(b0, bk, rows, cols) && InBounds(rows, cols, p)
    requires b0[p.r][p.c].state == Closed && bk[p.r][p.c].state == Open
    ensures Count(bk, IsClosed) < Count(b0, IsClosed)
  {
    var b1 := Put(b0, p, b0[p.r][p.c].(state := Open));
    CountUpdate(b0, p, b0[p.r][p.c].(state := Open), IsClosed);
    forall i, j | 0 <= i < |bk| && 0 <= j < |bk[i]| && IsClosed(bk[i][j]) ensures IsClosed(b1[i][j]) {
    }
    CountLe(bk, b1, IsClosed, IsClosed);
  }

  /** A cascade changes no mine and no number, so it keeps the mine count and zero-safety. */
  lemma LayoutKept(b0: Board, b1: Board, rows: int, cols: int)
    requires SameLayout(b0, b1, rows, cols)
    ensures Count(b1, IsMine) == Count(b0, IsMine)
    ensures ZeroSafe(b0, rows, cols) ==> ZeroSafe(b1, rows, cols)
  {
    CountSame(b1, b0, IsMine, IsMine);
  }

  /** A cascade opens no mine. */
  lemma ReachNoMine(b0: Board, b1: Board, rows: int, cols: int, p: Pos)
    requires OnlyOpensReach(b0, b1, rows, cols, p) && NoOpenMine(b0)
    ensures NoOpenMine(b1)
  {
    forall i, j | 0 <= i < |b1| && 0 <= j < |b1[i]| && b1[i][j].mine ensures b1[i][j].state != Open {
      if b1[i][j].state != b0[i][j].state {
        ReachEnterable(b0, rows, cols, p, Pos(i, j));
      }
    }
  }

  /**
   * One frame of a recursive cascade from p, `k` candidates into its loop:
   * p was enterable and shows 0, p is open, only cells reachable from p were
   * opened, and every opened cell showing 0 has its closed safe neighbours
   * open or still ahead in the candidate list.
   */
  ghost predicate FrameInv(b0: Board, bk: Board, rows: int, cols: int, p: Pos, cands: seq<Pos>, k: int) {
    0 <= k <= |cands| && FrameBase(b0, bk, rows, cols, p) && Pending(b0, bk, rows, cols, cands[k..])
  }

  /** The part of a frame that does not depend on how far its loop has got. */
  ghost predicate FrameBase(b0: Board, bk: Board, rows: int, cols: int, p: Pos) {
    ZeroSafe(b0, rows, cols) && Enterable(b0, rows, cols, p) && Spreads(b0, p) &&
    IsGrid(bk, rows, cols) &&
    OnlyOpensReach(b0, bk, rows, cols, p) && bk[p.r][p.c].state == Open
  }

  lemma FrameStart(b0: Board, rows: int, cols: int, p: Pos, cands: seq<Pos>)
    requires ZeroSafe(b0, rows, cols) && Enterable(b0, rows, cols, p) && Spreads(b0, p)
    requires Covers(rows, cols, p, cands)
    ensures FrameInv(b0, Put(b0, p, b0[p.r][p.c].(state := Open)), rows, cols, p, cands, 0)
  {
    ReachStart(b0, rows, cols, p);
    assert cands[0..] == cands;
  }

  /** The frame's own cell is open, so every board inside the frame has fewer closed cells. */
  lemma FrameFewer(b0: Board, bk: Board, rows: int, cols: int, p: Pos, cands: seq<Pos>, k: int)
    requires FrameInv(b0, bk, rows, cols, p, cands, k)
    ensures Count(bk, IsClosed) < Count(b0, IsClosed)
    ensures ZeroSafe(bk, rows, cols)
  {
    FewerClosed(b0, bk, rows, cols, p);
    LayoutKept(b0, bk, rows, cols);
  }

  /** A closed in-bounds candidate next to p is enterable: p shows 0, so it is no mine. */
  lemma FrameNext(b0: Board, bk: Board, rows: int, cols: int, p: Pos, cands: seq<Pos>, k: int)
    requires FrameInv(b0, bk, rows, cols, p, cands, k) && k < |cands|
    requires InZone(p, cands[k]) && InBounds(rows, cols, cands[k]) && bk[cands[k].r][cands[k].c].state == Closed
    ensures Adjacent(p, cands[k]) && Enterable(bk, rows, cols, cands[k])
  {
  }

  /** Skipping a candidate that is out of bounds, not closed, or a mine keeps the frame. */
  lemma FrameSkip(b0: Board, bk: Board, rows: int, cols: int, p: Pos, cands: seq<Pos>, k: int)
    requires FrameInv(b0, bk, rows, cols, p, cands, k) && k < |cands|
    requires !InBounds(rows, cols, cands[k]) || bk[cands[k].r][cands[k].c].state != Closed
             || bk[cands[k].r][cands[k].c].mine
    ensures FrameInv(b0, bk, rows, cols, p, cands, k + 1)
  {
    PendingCons(b0, bk, rows, cols, cands, k);
    PendingSkip(b0, bk, rows, cols, cands[k], cands[k + 1..]);
  }

  /** A pending cell that is out of bounds, not closed, or a mine needs no visit. */
  lemma PendingSkip(b0: Board, bk: Board, rows: int, cols: int, q: Pos, rest: seq<Pos>)
    requires Pending(b0, bk, rows, cols, [q] + rest)
    requires !InBounds(rows, cols, q) || bk[q.r][q.c].state != Closed || bk[q.r][q.c].mine
    ensures Pending(b0, bk, rows, cols, rest)
  {
    forall x, n | InBounds(rows, cols, x) && InBounds(rows, cols, n) && Adjacent(x, n)
        && b0[x.r][x.c].state != Open && bk[x.r][x.c].state == Open && bk[x.r][x.c].adj == 0
      ensures bk[n.r][n.c].state != Closed || bk[n.r][n.c].mine || n in rest
    {
      assert bk[n.r][n.c].state != Closed || bk[n.r][n.c].mine || n in [q] + rest;
    }
  }

  /** After a nested cascade from q completed, q is off the pending list. */
  lemma PendingAfterCall(b0: Board, bk: Board, bk': Board, rows: int, cols: int, q: Pos, rest: seq<Pos>)
    requires Pending(b0, bk, rows, cols, [q] + rest)
    requires OnlyOpens(bk, bk', rows, cols) && LocalClosed(bk, bk', rows, cols)
    requires InBounds(rows, cols, q) && bk'[q.r][q.c].state == Open
    ensures Pending(b0, bk', rows, cols, rest)
  {
    forall x, n | InBounds(rows, cols, x) && InBounds(rows, cols, n) && Adjacent(x, n)
        && b0[x.r][x.c].state != Open && bk'[x.r][x.c].state == Open && bk'[x.r][x.c].adj == 0
      ensures bk'[n.r][n.c].state != Closed || bk'[n.r][n.c].mine || n in rest
    {
      if bk[x.r][x.c].state == Open {
        assert bk[n.r][n.c].state != Closed || bk[n.r][n.c].mine || n in [q] + rest;
      }
    }
  }

  /** The state half of `FrameCall`: compose the nested cascade into the frame's. */
  lemma CallStep(b0: Board, bk: Board, bk': Board, rows: int, cols: int, p: Pos, q: Pos, rest: seq<Pos>)
    requires OnlyOpensReach(b0, bk, rows, cols, p) && Pending(b0, bk, rows, cols, [q] + rest)
    requires Reach(b0, rows, cols, p, q) && InBounds(rows, cols, q) && InBounds(rows, cols, p)
    requires OnlyOpensReach(bk, bk', rows, cols, q) && LocalClosed(bk, bk', rows, cols)
    requires bk'[q.r][q.c].state == Open && bk[p.r][p.c].state == Open
    ensures OnlyOpensReach(b0, bk', rows, cols, p) && Pending(b0, bk', rows, cols, rest)
    ensures bk'[p.r][p.c].state == Open
  {
    OnlyOpensReachCompose(b0, bk, bk', rows, cols, p, q);
    PendingAfterCall(b0, bk, bk', rows, cols, q, rest);
  }

  /** A recursive call on an enterable candidate that produces its own closure keeps the frame. */
  lemma FrameCall(b0: Board, bk: Board, bk': Board, rows: int, cols: int, p: Pos, cands: seq<Pos>, k: int)
    requires FrameInv(b0, bk, rows, cols, p, cands, k) && k < |cands|
    requires Adjacent(p, cands[k]) && Enterable(bk, rows, cols, cands[k])
    requires Filled(bk, bk', rows, cols, cands[k])
    ensures FrameInv(b0, bk', rows, cols, p, cands, k + 1)
  {
    PendingCons(b0, bk, rows, cols, cands, k);
    CallFrame(b0, bk, bk', rows, cols, p, cands[k], cands[k + 1..]);
  }

  /** The pending list from k is candidate k followed by the rest. */
  lemma PendingCons(b0: Board, bk: Board, rows: int, cols: int, cands: seq<Pos>, k: int)
    requires 0 <= k < |cands| && Pending(b0, bk, rows, cols, cands[k..])
    ensures Pending(b0, bk, rows, cols, [cands[k]] + cands[k + 1..])
  {
    assert cands[k..] == [cands[k]] + cands[k + 1..];
  }

  /** `FrameCall` on the boards alone: the frame survives the nested cascade from q. */
  lemma CallFrame(b0: Board, bk: Board, bk': Board, rows: int, cols: int, p: Pos, q: Pos, rest: seq<Pos>)
    requires FrameBase(b0, bk, rows, cols, p) && Pending(b0, bk, rows, cols, [q] + rest)
    requires Adjacent(p, q) && Enterable(bk, rows, cols, q) && Filled(bk, bk', rows, cols, q)
    ensures FrameBase(b0, bk', rows, cols, p) && Pending(b0, bk', rows, cols, rest)
  {
    FilledSettled(bk, bk', rows, cols, q);
    NeighbourReached(b0, bk, rows, cols, p, q);
    CallStep(b0, bk, bk', rows, cols, p, q, rest);
  }

  /** A closed safe neighbour of the frame's cell, still closed, is reachable from it. */
  lemma NeighbourReached(b0: Board, bk: Board, rows: int, cols: int, p: Pos, q: Pos)
    requires FrameBase(b0, bk, rows, cols, p) && Adjacent(p, q) && Enterable(bk, rows, cols, q)
    ensures Reach(b0, rows, cols, p, q)
  {
    assert bk[q.r][q.c].state == b0[q.r][q.c].state;
    ReachStart(b0, rows, cols, p);
    ReachStep(b0, rows, cols, p, p, q);
  }

  /** At the end of the loop the frame has produced the closure from p. */
  lemma FrameEnd(b0: Board, bk: Board, rows: int, cols: int, p: Pos, cands: seq<Pos>)
    requires FrameInv(b0, bk, rows, cols, p, cands, |cands|)
    ensures Filled(b0, bk, rows, cols, p)
  {
    assert cands[|cands|..] == [];
    FillComplete(b0, bk, rows, cols, p);
  }

  /** Opening a numbered cell is a whole cascade by itself. */
  lemma OpenNumbered(b0: Board, rows: int, cols: int, p: Pos)
    requires IsGrid(b0, rows, cols) && Enterable(b0, rows, cols, p) && b0[p.r][p.c].adj != 0
    ensures Filled(b0, Put(b0, p, b0[p.r][p.c].(state := Open)), rows, cols, p)
  {
    ReachStart(b0, rows, cols, p);
    FillComplete(b0, Put(b0, p, b0[p.r][p.c].(state := Open)), rows, cols, p);
  }

  /**
   * A nested cascade from an enterable neighbour q that stopped part-way
   * (the game was won inside it) still opened only cells reachable from p.
   */
  lemma FrameStop(b0: Board, bk: Board, bk': Board, rows: int, cols: int, p: Pos, cands: seq<Pos>, k: int)
    requires FrameInv(b0, bk, rows, cols, p, cands, k) && k < |cands|
    requires Adjacent(p, cands[k]) && Enterable(bk, rows, cols, cands[k])
    requires OnlyOpensReach(bk, bk', rows, cols, cands[k])
    ensures OnlyOpensReach(b0, bk', rows, cols, p) && bk'[p.r][p.c].state == Open
    ensures Count(bk', IsClosed) < Count(b0, IsClosed)
  {
    var q := cands[k];
    ReachStart(b0, rows, cols, p);
    ReachStep(b0, rows, cols, p, p, q);
    OnlyOpensReachCompose(b0, bk, bk', rows, cols, p, q);
    FewerClosed(b0, bk', rows, cols, p);
  }

  /** Opening one enterable cell opens only what is reachable from it. */
  lemma OpenOne(b0: Board, rows: int, cols: int, p: Pos)
    requires IsGrid(b0, rows, cols) && Enterable(b0, rows, cols, p)
    ensures OnlyOpensReach(b0, Put(b0, p, b0[p.r][p.c].(state := Open)), rows, cols, p)
    ensures Count(Put(b0, p, b0[p.r][p.c].(state := Open)), IsClosed) < Count(b0, IsClosed)
  {
    ReachStart(b0, rows, cols, p);
    FewerClosed(b0, Put(b0, p, b0[p.r][p.c].(state := Open)), rows, cols, p);
  }

  /** A cascade changes only closed safe cells, so the flags and their count stay as they were. */
  lemma ReachKeepsFlags(b0: Board, b1: Board, rows: int, cols: int, p: Pos)
    requires OnlyOpensReach(b0, b1, rows, cols, p)
    ensures forall i, j :: 0 <= i < rows && 0 <= j < cols ==> (b1[i][j].state == Flagged <==> b0[i][j].state == Flagged)
    ensures Count(b1, IsFlagged) == Count(b0, IsFlagged)
  {
    forall i, j | 0 <= i < rows && 0 <= j < cols && b1[i][j].state != b0[i][j].state
      ensures b0[i][j].state == Closed
    {
      ReachEnterable(b0, rows, cols, p, Pos(i, j));
    }
    CountSame(b1, b0, IsFlagged, IsFlagged);
  }

  /** A cascade only opens, so a board already won stays won. */
  lemma FilledKeepsWin(b0: Board, b1: Board, rows: int, cols: int, p: Pos)
    requires Filled(b0, b1, rows, cols, p) && AllSafeOpen(b0)
    ensures AllSafeOpen(b1)
  {
  }

  /** Only closed cells change, and only to open; mines and numbers stay. */
  predicate OpensClosed(b0: Board, b1: Board, rows: int, cols: int) {
    SameLayout(b0, b1, rows, cols) &&
    forall i, j :: 0 <= i < rows && 0 <= j < cols ==>
      b1[i][j].state == b0[i][j].state || (b0[i][j].state == Closed && b1[i][j].state == Open)
  }

  lemma OpensClosedTrans(b0: Board, b1: Board, b2: Board, rows: int, cols: int)
    requires OpensClosed(b0, b1, rows, cols) && OpensClosed(b1, b2, rows, cols)
    ensures OpensClosed(b0, b2, rows, cols)
  {
  }

  /** A cascade opens only closed cells, so it keeps every flag in place. */
  lemma FilledOpensClosed(b0: Board, b1: Board, rows: int, cols: int, p: Pos)
    requires Filled(b0, b1, rows, cols, p)
    ensures OpensClosed(b0, b1, rows, cols)
  {
    forall i, j | 0 <= i < rows && 0 <= j < cols && b1[i][j].state != b0[i][j].state
      ensures b0[i][j].state == Closed
    {
      ReachEnterable(b0, rows, cols, p, Pos(i, j));
    }
  }

  /** x is opened by a chord around p: a neighbour of p itself, or a cell the cascade from one reaches. */
  ghost predicate ChordReached(b: Board, rows: int, cols: int, p: Pos, x: Pos) {
    exists q :: InBounds(rows, cols, q) && Adjacent(p, q) && (q == x || Reach(b, rows, cols, q, x))
  }

  /** Every cell whose state changed from b0 to b1 is one a chord around p opens. */
  ghost predicate ChordFrame(b0: Board, b1: Board, rows: int, cols: int, p: Pos) {
    SameLayout(b0, b1, rows, cols) &&
    forall i, j :: 0 <= i < rows && 0 <= j < cols && b1[i][j].state != b0[i][j].state ==>
      ChordReached(b0, rows, cols, p, Pos(i, j))
  }

  /**
   * Handing the neighbour q of p to the open keeps the chord's frame: a cell
   * it changes is q itself or reached from q on the board of the moment,
   * and opening cells only shrinks what q reaches.
   */
  lemma ChordFrameStep(b0: Board, b1: Board, b2: Board, rows: int, cols: int, p: Pos, q: Pos)
    requires OpensClosed(b0, b1, rows, cols) && ChordFrame(b0, b1, rows, cols, p)
    requires SameLayout(b1, b2, rows, cols) && InBounds(rows, cols, q) && Adjacent(p, q)
    requires forall i, j :: 0 <= i < rows && 0 <= j < cols && b2[i][j].state != b1[i][j].state ==>
               Pos(i, j) == q || Reach(b1, rows, cols, q, Pos(i, j))
    ensures ChordFrame(b0, b2, rows, cols, p)
  {
    forall i, j | 0 <= i < rows && 0 <= j < cols && b2[i][j].state != b0[i][j].state
      ensures ChordReached(b0, rows, cols, p, Pos(i, j))
    {
      if b2[i][j].state != b1[i][j].state && Pos(i, j) != q {
        ReachMonotone(b0, b1, rows, cols, q, Pos(i, j));
      }
    }
  }

  /**
   * Every safe cell opened since b0 that shows 0 has no closed safe
   * neighbour left: each cascade run since b0 was run to its end.
   */
  ghost predicate SafeSettled(b0: Board, b1: Board, rows: int, cols: int) {
    SameLayout(b0, b1, rows, cols) &&
    forall x, n :: InBounds(rows, cols, x) && InBounds(rows, cols, n) && Adjacent(x, n)
      && b0[x.r][x.c].state != Open && b1[x.r][x.c].state == Open && !b1[x.r][x.c].mine && b1[x.r][x.c].adj == 0
      ==> b1[n.r][n.c].state != Closed || b1[n.r][n.c].mine
  }

  /** A finished cascade leaves the board settled. */
  lemma FilledSafeSettled(b0: Board, b1: Board, rows: int, cols: int, p: Pos)
    requires Filled(b0, b1, rows, cols, p) && Enterable(b0, rows, cols, p)
    ensures SafeSettled(b0, b1, rows, cols)
  {
    FilledSettled(b0, b1, rows, cols, p);
  }

  /** Opening a single mine leaves the board settled: no safe cell opened. */
  lemma MineOpenSettled(b0: Board, rows: int, cols: int, p: Pos)
    requires IsGrid(b0, rows, cols) && InBounds(rows, cols, p) && b0[p.r][p.c].mine
    ensures SafeSettled(b0, Put(b0, p, b0[p.r][p.c].(state := Open)), rows, cols)
  {
  }

  /** Two settled steps that only open closed cells make one settled step. */
  lemma SettledTrans(b0: Board, b1: Board, b2: Board, rows: int, cols: int)
    requires OpensClosed(b0, b1, rows, cols) && SafeSettled(b0, b1, rows, cols)
    requires OpensClosed(b1, b2, rows, cols) && SafeSettled(b1, b2, rows, cols)
    ensures SafeSettled(b0, b2, rows, cols)
  {
    forall x, n | InBounds(rows, cols, x) && InBounds(rows, cols, n) && Adjacent(x, n)
        && b0[x.r][x.c].state != Open && b2[x.r][x.c].state == Open && !b2[x.r][x.c].mine && b2[x.r][x.c].adj == 0
      ensures b2[n.r][n.c].state != Closed || b2[n.r][n.c].mine
    {
      if b1[x.r][x.c].state == Open {
        assert b1[n.r][n.c].state != Closed || b1[n.r][n.c].mine;
      }
    }
  }

  lemma {:induction false} SettledPath(b0: Board, b1: Board, rows: int, cols: int, path: seq<Pos>, k: int)
    requires OpensClosed(b0, b1, rows, cols) && SafeSettled(b0, b1, rows, cols)
    requires IsPath(b0, rows, cols, path) && 0 <= k < |path|
    requires b1[path[0].r][path[0].c].state == Open
    ensures b1[path[k].r][path[k].c].state == Open
  {
    if k > 0 {
      SettledPath(b0, b1, rows, cols, path, k - 1);
      assert Link(b0, path, k - 1);
      assert Enterable(b0, rows, cols, path[k - 1]) && Enterable(b0, rows, cols, path[k]);
    }
  }

  /** On a settled board, a cascade start that is open has its whole cascade open. */
  lemma SettledCascade(b0: Board, b1: Board, rows: int, cols: int, q: Pos, x: Pos)
    requires OpensClosed(b0, b1, rows, cols) && SafeSettled(b0, b1, rows, cols)
    requires Reach(b0, rows, cols, q, x) && b1[q.r][q.c].state == Open
    ensures b1[x.r][x.c].state == Open
  {
    var path :| IsPath(b0, rows, cols, path) && path[0] == q && path[|path| - 1] == x;
    SettledPath(b0, b1, rows, cols, path, |path| - 1);
  }

  /** Every cell the cascade from some neighbour of p opens on b0 is open in b1. */
  ghost predicate ChordFilled(b0: Board, b1: Board, rows: int, cols: int, p: Pos) {
    IsGrid(b1, rows, cols) &&
    forall q, x :: InBounds(rows, cols, q) && Adjacent(p, q) && InBounds(rows, cols, x) && Reach(b0, rows, cols, q, x) ==>
      b1[x.r][x.c].state == Open
  }

  /**
   * A settled chord that left no neighbour of p closed has run each
   * neighbour's cascade to the end.
   */
  lemma SettledChordFilled(b0: Board, b1: Board, rows: int, cols: int, p: Pos)
    requires OpensClosed(b0, b1, rows, cols) && SafeSettled(b0, b1, rows, cols)
    requires forall q :: InBounds(rows, cols, q) && Adjacent(p, q) ==> b1[q.r][q.c].state != Closed
    ensures ChordFilled(b0, b1, rows, cols, p)
  {
    forall q, x | InBounds(rows, cols, q) && Adjacent(p, q) && InBounds(rows, cols, x) && Reach(b0, rows, cols, q, x)
      ensures b1[x.r][x.c].state == Open
    {
      ReachEnterable(b0, rows, cols, q, x);
      SettledCascade(b0, b1, rows, cols, q, x);
    }
  }
}
