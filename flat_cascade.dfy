/**
 * The invariant of the breadth-first cascade in minesweeper/script.js and
 * the lemmas that carry it across one step: every queued index is a cell
 * reached from the click that shows 0, and every opened cell showing 0 that
 * is neither queued nor being visited has no closed safe neighbour left.
 */
module FlatCascade {
  import opened Grid
  import opened Neighbours
  import opened Cells
  import opened Cascade
  import opened Recursion
  import opened FlatGrid

  /** Every queued index is on the board, reached from p, and shows 0. */
  ghost predicate Queued(b0: Board, w: nat, h: nat, p: Pos, queue: seq<int>)
    requires w > 0
  {
    forall m :: 0 <= m < |queue| ==>
      0 <= queue[m] < w * h && Reach(b0, h, w, p, PosOf(queue[m], w)) && Spreads(b0, PosOf(queue[m], w))
  }

  /**
   * A cell the cascade opened that shows 0 has no closed safe neighbour,
   * unless it is still queued or that neighbour is still to be looked at
   * (it is in `todo`, the rest of the visited cell's neighbour list).
   */
  ghost predicate Waiting(b0: Board, b: Board, w: nat, h: nat, queue: seq<int>, todo: seq<Pos>)
    requires w > 0
  {
    SameLayout(b0, b, h, w) &&
    forall x, n :: InBounds(h, w, x) && InBounds(h, w, n) && Adjacent(x, n)
      && b0[x.r][x.c].state != Open && b[x.r][x.c].state == Open && b[x.r][x.c].adj == 0
      && IndexOf(x, w) !in queue
      ==> b[n.r][n.c].state != Closed || b[n.r][n.c].mine || n in todo
  }

  /** What holds between the steps of the breadth-first cascade started at p. */
  ghost predicate QueueInv(b0: Board, b: Board, w: nat, h: nat, p: Pos, queue: seq<int>, todo: seq<Pos>)
    requires w > 0
  {
    IsGrid(b, h, w) && InBounds(h, w, p) && OnlyOpensReach(b0, b, h, w, p) && b[p.r][p.c].state == Open &&
    Queued(b0, w, h, p, queue) && Waiting(b0, b, w, h, queue, todo)
  }

  /** A neighbour the visit is done with: open, flagged or mined. */
  predicate Handled(b: Board, w: nat, h: nat, q: Pos) {
    IsGrid(b, h, w) && InBounds(h, w, q) && (b[q.r][q.c].state != Closed || b[q.r][q.c].mine)
  }

  lemma QueueStart(b0: Board, b: Board, w: nat, h: nat, idx: int)
    requires w > 0 && IsGrid(b0, h, w) && 0 <= idx < w * h
    requires Enterable(b0, h, w, PosOf(idx, w)) && Spreads(b0, PosOf(idx, w))
    requires b == Put(b0, PosOf(idx, w), b0[PosOf(idx, w).r][PosOf(idx, w).c].(state := Open))
    ensures QueueInv(b0, b, w, h, PosOf(idx, w), [idx], [])
  {
    var p := PosOf(idx, w);
    IndexRoundTrip(p, idx, w, h);
    OpenOne(b0, h, w, p);
    ReachStart(b0, h, w, p);
    forall x | InBounds(h, w, x) && b[x.r][x.c].state != b0[x.r][x.c].state ensures IndexOf(x, w) == idx {
      assert x == p;
    }
  }

  /** Taking the head of the queue: its neighbours become the ones to look at. */
  lemma QueuePop(b0: Board, b: Board, w: nat, h: nat, p: Pos, queue: seq<int>)
    requires w > 0 && QueueInv(b0, b, w, h, p, queue, []) && queue != []
    ensures QueueInv(b0, b, w, h, p, queue[1..], InBoundsShifts(h, w, PosOf(queue[0], w), Offsets))
    ensures 0 <= queue[0] < w * h && Reach(b0, h, w, p, PosOf(queue[0], w)) && Spreads(b0, PosOf(queue[0], w))
  {
    var x := PosOf(queue[0], w);
    var todo := InBoundsShifts(h, w, x, Offsets);
    NeighbourListIsNeighbourhood(h, w, x);
    forall y, n | InBounds(h, w, y) && InBounds(h, w, n) && Adjacent(y, n)
        && b0[y.r][y.c].state != Open && b[y.r][y.c].state == Open && b[y.r][y.c].adj == 0
        && IndexOf(y, w) !in queue[1..]
      ensures b[n.r][n.c].state != Closed || b[n.r][n.c].mine || n in todo
    {
      if y == x {
        assert n in todo;
      } else {
        IndexRoundTrip(y, queue[0], w, h);
        assert IndexOf(y, w) !in queue;
      }
    }
    assert forall m :: 0 <= m < |queue| - 1 ==> queue[1..][m] == queue[m + 1];
  }

  lemma QueuedPush(b0: Board, w: nat, h: nat, p: Pos, queue: seq<int>, idx: int)
    requires w > 0 && Queued(b0, w, h, p, queue)
    requires 0 <= idx < w * h && Reach(b0, h, w, p, PosOf(idx, w)) && Spreads(b0, PosOf(idx, w))
    ensures Queued(b0, w, h, p, queue + [idx])
  {
  }

  /** Opening q keeps `Waiting` when q is queued in case it shows 0. */
  lemma WaitingOpen(b0: Board, b: Board, w: nat, h: nat, queue: seq<int>, queue': seq<int>, todo: seq<Pos>, q: Pos)
    requires w > 0 && Waiting(b0, b, w, h, queue, todo) && InBounds(h, w, q)
    requires forall j :: j in queue ==> j in queue'
    requires b[q.r][q.c].adj == 0 ==> IndexOf(q, w) in queue'
    ensures Waiting(b0, Put(b, q, b[q.r][q.c].(state := Open)), w, h, queue', todo)
  {
    var b': Board := Put(b, q, b[q.r][q.c].(state := Open));
    forall y, n | InBounds(h, w, y) && InBounds(h, w, n) && Adjacent(y, n)
        && b0[y.r][y.c].state != Open && b'[y.r][y.c].state == Open && b'[y.r][y.c].adj == 0
        && IndexOf(y, w) !in queue'
      ensures b'[n.r][n.c].state != Closed || b'[n.r][n.c].mine || n in todo
    {
      if y != q {
        assert IndexOf(y, w) !in queue;
        assert b[y.r][y.c] == b'[y.r][y.c];
        assert b[n.r][n.c].state != Closed || b[n.r][n.c].mine || n in todo;
      }
    }
  }

  /** Opening an enterable neighbour q of the visited cell x, queueing it when it shows 0. */
  lemma VisitOpen(b0: Board, b: Board, w: nat, h: nat, p: Pos, queue: seq<int>, todo: seq<Pos>, x: Pos, q: Pos, idx: int)
    requires w > 0 && QueueInv(b0, b, w, h, p, queue, todo)
    requires Reach(b0, h, w, p, x) && Spreads(b0, x) && Adjacent(x, q)
    requires InBounds(h, w, q) && IndexOf(q, w) == idx && b[q.r][q.c].state == Closed && !b[q.r][q.c].mine
    requires b[q.r][q.c].adj >= 0
    ensures QueueInv(b0, Put(b, q, b[q.r][q.c].(state := Open)), w, h, p,
                     if b[q.r][q.c].adj > 0 then queue else queue + [idx], todo)
    ensures Count(Put(b, q, b[q.r][q.c].(state := Open)), IsClosed) < Count(b, IsClosed)
  {
    var queue' := if b[q.r][q.c].adj > 0 then queue else queue + [idx];
    ReachStep(b0, h, w, p, x, q);
    OnlyOpensOpen(b0, b, h, w, p, q);
    OpeningShrinksClosed(b, h, w, q);
    IndexRoundTrip(q, idx, w, h);
    if b[q.r][q.c].adj == 0 {
      QueuedPush(b0, w, h, p, queue, idx);
    }
    WaitingOpen(b0, b, w, h, queue, queue', todo, q);
  }

  /** A handled neighbour needs no more looking at. */
  lemma VisitDrop(b0: Board, b: Board, w: nat, h: nat, p: Pos, queue: seq<int>, todo: seq<Pos>)
    requires w > 0 && QueueInv(b0, b, w, h, p, queue, todo) && todo != [] && Handled(b, w, h, todo[0])
    ensures QueueInv(b0, b, w, h, p, queue, todo[1..])
  {
    forall y, n | InBounds(h, w, y) && InBounds(h, w, n) && Adjacent(y, n)
        && b0[y.r][y.c].state != Open && b[y.r][y.c].state == Open && b[y.r][y.c].adj == 0
        && IndexOf(y, w) !in queue
      ensures b[n.r][n.c].state != Closed || b[n.r][n.c].mine || n in todo[1..]
    {
      if n != todo[0] && n in todo {
        var m :| 0 <= m < |todo| && todo[m] == n;
        assert todo[1..][m - 1] == n;
      }
    }
  }

}
