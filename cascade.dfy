/**
 * The cascade ("flood fill") that opens the empty region around a safe
 * cell. Its specification is a closure: starting at the clicked cell, the
 * cascade opens exactly the closed, safe cells reachable through cells that
 * show 0. `Reach` states that order-free; every engine's cascade, stack,
 * queue or recursion, is proved to produce it or to keep its two halves
 * (`OnlyOpensReach`: nothing else opens; `LocalClosed`: nothing is missed).
 */
module Cascade {
  import opened Grid
  import opened Neighbours
  import opened Cells

  /** A cell a cascade may open: in bounds, closed, not a mine. */
  predicate Enterable(b: Board, rows: int, cols: int, q: Pos) {
    InBounds(rows, cols, q) && Inside(b, q) && b[q.r][q.c].state == Closed && !b[q.r][q.c].mine
  }

  /** A cell whose number is 0: the cascade continues past it. */
  predicate Spreads(b: Board, q: Pos) {
    Inside(b, q) && b[q.r][q.c].adj == 0
  }

  /** Step i of a path: its cell shows 0 and touches the next one. */
  predicate Link(b: Board, path: seq<Pos>, i: int)
    requires 0 <= i < |path| - 1
  {
    Spreads(b, path[i]) && Adjacent(path[i], path[i + 1])
  }

  /** A chain of enterable cells, each touching the next, all but the last showing 0. */
  ghost predicate IsPath(b: Board, rows: int, cols: int, path: seq<Pos>) {
    |path| > 0 &&
    (forall i :: 0 <= i < |path| ==> Enterable(b, rows, cols, path[i])) &&
    (forall i :: 0 <= i < |path| - 1 ==> Link(b, path, i))
  }

  /** q is opened by a cascade started at p on board b. */
  ghost predicate Reach(b: Board, rows: int, cols: int, p: Pos, q: Pos) {
    exists path :: IsPath(b, rows, cols, path) && path[0] == p && path[|path| - 1] == q
  }

  lemma ReachStart(b: Board, rows: int, cols: int, p: Pos)
    requires Enterable(b, rows, cols, p)
    ensures Reach(b, rows, cols, p, p)
  {
    assert IsPath(b, rows, cols, [p]);
  }

  /** One more step from a reached cell showing 0 to an enterable neighbour. */
  lemma ReachStep(b: Board, rows: int, cols: int, p: Pos, x: Pos, n: Pos)
    requires Reach(b, rows, cols, p, x) && Spreads(b, x) && Adjacent(x, n) && Enterable(b, rows, cols, n)
    ensures Reach(b, rows, cols, p, n)
  {
    var path :| IsPath(b, rows, cols, path) && path[0] == p && path[|path| - 1] == x;
    var path' := path + [n];
    forall i | 0 <= i < |path'| - 1 ensures Link(b, path', i) {
      if i < |path| - 1 {
        assert Link(b, path, i);
      }
    }
    assert IsPath(b, rows, cols, path');
  }

  /** Only enterable cells are ever reached: never a mine, a flag or an open cell. */
  lemma ReachEnterable(b: Board, rows: int, cols: int, p: Pos, q: Pos)
    requires Reach(b, rows, cols, p, q)
    ensures Enterable(b, rows, cols, p) && Enterable(b, rows, cols, q)
  {
  }

  /** Only visibility changes, and only to open. */
  predicate OnlyOpens(b0: Board, b1: Board, rows: int, cols: int) {
    SameLayout(b0, b1, rows, cols) &&
    forall i, j :: 0 <= i < rows && 0 <= j < cols ==> b1[i][j].state == b0[i][j].state || b1[i][j].state == Open
  }

  /** Nothing changes except closed cells reachable from p, which become open. */
  ghost predicate OnlyOpensReach(b0: Board, b1: Board, rows: int, cols: int, p: Pos) {
    OnlyOpens(b0, b1, rows, cols) &&
    forall i, j :: 0 <= i < rows && 0 <= j < cols && b1[i][j].state != b0[i][j].state ==> Reach(b0, rows, cols, p, Pos(i, j))
  }

  /**
   * Every cell opened since b0 that shows 0 has each neighbour open, flagged,
   * mined, or still waiting in `pending`.
   */
  ghost predicate Pending(b0: Board, b1: Board, rows: int, cols: int, pending: seq<Pos>) {
    SameLayout(b0, b1, rows, cols) &&
    forall x, n :: InBounds(rows, cols, x) && InBounds(rows, cols, n) && Adjacent(x, n)
      && b0[x.r][x.c].state != Open && b1[x.r][x.c].state == Open && b1[x.r][x.c].adj == 0
      ==> b1[n.r][n.c].state != Closed || b1[n.r][n.c].mine || n in pending
  }

  /** Nothing left to do: no cell opened since b0 that shows 0 has a closed safe neighbour. */
  ghost predicate LocalClosed(b0: Board, b1: Board, rows: int, cols: int) {
    Pending(b0, b1, rows, cols, [])
  }

  /** The result of a cascade from p: exactly the reachable cells open, nothing else changed. */
  ghost predicate Filled(b0: Board, b1: Board, rows: int, cols: int, p: Pos) {
    SameLayout(b0, b1, rows, cols) &&
    forall i, j :: 0 <= i < rows && 0 <= j < cols ==>
      b1[i][j].state == if Reach(b0, rows, cols, p, Pos(i, j)) then Open else b0[i][j].state
  }

  /** Once the fill is closed, an opened cell showing 0 has every enterable neighbour open. */
  lemma ClosedStep(b0: Board, b1: Board, rows: int, cols: int, x: Pos, n: Pos)
    requires OnlyOpens(b0, b1, rows, cols) && LocalClosed(b0, b1, rows, cols)
    requires Enterable(b0, rows, cols, x) && Enterable(b0, rows, cols, n)
    requires Spreads(b0, x) && Adjacent(x, n) && b1[x.r][x.c].state == Open
    ensures b1[n.r][n.c].state == Open
  {
    assert !b1[n.r][n.c].mine;
    assert b1[n.r][n.c].state != Closed;
  }

  lemma {:induction false} PathOpened(b0: Board, b1: Board, rows: int, cols: int, path: seq<Pos>, k: int)
    requires OnlyOpens(b0, b1, rows, cols) && LocalClosed(b0, b1, rows, cols)
    requires IsPath(b0, rows, cols, path) && 0 <= k < |path|
    requires b1[path[0].r][path[0].c].state == Open
    ensures b1[path[k].r][path[k].c].state == Open
  {
    if k > 0 {
      PathOpened(b0, b1, rows, cols, path, k - 1);
      assert Link(b0, path, k - 1);
      ClosedStep(b0, b1, rows, cols, path[k - 1], path[k]);
    }
  }

  /** The two halves together are the closure. */
  lemma FillComplete(b0: Board, b1: Board, rows: int, cols: int, p: Pos)
    requires OnlyOpensReach(b0, b1, rows, cols, p) && LocalClosed(b0, b1, rows, cols)
    requires InBounds(rows, cols, p) && b1[p.r][p.c].state == Open
    ensures Filled(b0, b1, rows, cols, p)
  {
    forall i, j | 0 <= i < rows && 0 <= j < cols && Reach(b0, rows, cols, p, Pos(i, j))
      ensures b1[i][j].state == Open
    {
      var path :| IsPath(b0, rows, cols, path) && path[0] == p && path[|path| - 1] == Pos(i, j);
      PathOpened(b0, b1, rows, cols, path, |path| - 1);
    }
  }

  /**
   * The inner loop of the stack fill: push every in-bounds neighbour of x
   * that is closed and not a mine.
   */
  method PushNeighbours(b: Board, rows: int, cols: int, x: Pos, stack: seq<Pos>) returns (stack': seq<Pos>)
    requires IsGrid(b, rows, cols)
    ensures |stack'| >= |stack| && stack'[..|stack|] == stack
    ensures forall k :: |stack| <= k < |stack'| ==>
              Adjacent(x, stack'[k]) && Enterable(b, rows, cols, stack'[k])
    ensures forall n :: Adjacent(x, n) && InBounds(rows, cols, n) ==>
              b[n.r][n.c].state != Closed || b[n.r][n.c].mine || n in stack'
  {
    stack' := stack;
    var k := 0;
    while k < |Offsets|
      invariant 0 <= k <= |Offsets|
      invariant |stack'| >= |stack| && stack'[..|stack|] == stack
      invariant forall m :: |stack| <= m < |stack'| ==>
                  Adjacent(x, stack'[m]) && Enterable(b, rows, cols, stack'[m])
      invariant forall j :: 0 <= j < k && InBounds(rows, cols, Shift(x, Offsets[j])) ==>
                  var n := Shift(x, Offsets[j]);
                  b[n.r][n.c].state != Closed || b[n.r][n.c].mine || n in stack'
    {
      var n := Shift(x, Offsets[k]);
      OffsetsAreAdjacent(x, k);
      if InBounds(rows, cols, n) && b[n.r][n.c].state == Closed && !b[n.r][n.c].mine {
        stack' := stack' + [n];
      }
      k := k + 1;
    }
    forall n | Adjacent(x, n) && InBounds(rows, cols, n)
      ensures b[n.r][n.c].state != Closed || b[n.r][n.c].mine || n in stack'
    {
      var j := AdjacentIsOffset(x, n);
    }
  }

  /** Every cell waiting on the stack is reachable from p. */
  ghost predicate AllReach(b: Board, rows: int, cols: int, p: Pos, stack: seq<Pos>) {
    forall k :: 0 <= k < |stack| ==> Reach(b, rows, cols, p, stack[k])
  }

  lemma AllReachPrefix(b: Board, rows: int, cols: int, p: Pos, stack: seq<Pos>, n: int)
    requires AllReach(b, rows, cols, p, stack) && 0 <= n <= |stack|
    ensures AllReach(b, rows, cols, p, stack[..n])
  {
    forall k | 0 <= k < n ensures Reach(b, rows, cols, p, stack[..n][k]) {
      assert stack[..n][k] == stack[k];
    }
  }

  /** Dropping a cell that is no longer closed keeps the pending invariant. */
  lemma PendingPop(b0: Board, b1: Board, rows: int, cols: int, rest: seq<Pos>, x: Pos)
    requires Pending(b0, b1, rows, cols, rest + [x])
    requires InBounds(rows, cols, x) && b1[x.r][x.c].state != Closed
    ensures Pending(b0, b1, rows, cols, rest)
  {
    forall y, n | InBounds(rows, cols, y) && InBounds(rows, cols, n) && Adjacent(y, n)
        && b0[y.r][y.c].state != Open && b1[y.r][y.c].state == Open && b1[y.r][y.c].adj == 0
      ensures b1[n.r][n.c].state != Closed || b1[n.r][n.c].mine || n in rest
    {
      if n != x {
        assert n in rest + [x] ==> n in rest;
      }
    }
  }

  /** Opening a popped cell, and pushing its neighbours when it shows 0, keeps it. */
  lemma PendingOpen(b0: Board, b1: Board, rows: int, cols: int, rest: seq<Pos>, x: Pos, pushed: seq<Pos>)
    requires Pending(b0, b1, rows, cols, rest + [x])
    requires InBounds(rows, cols, x)
    requires |pushed| >= |rest| && pushed[..|rest|] == rest
    requires var b2 := Put(b1, x, b1[x.r][x.c].(state := Open));
             b1[x.r][x.c].adj == 0 ==>
               forall n :: Adjacent(x, n) && InBounds(rows, cols, n) ==>
                 b2[n.r][n.c].state != Closed || b2[n.r][n.c].mine || n in pushed
    ensures Pending(b0, Put(b1, x, b1[x.r][x.c].(state := Open)), rows, cols, pushed)
  {
    var b2: Board := Put(b1, x, b1[x.r][x.c].(state := Open));
    forall y, n | InBounds(rows, cols, y) && InBounds(rows, cols, n) && Adjacent(y, n)
        && b0[y.r][y.c].state != Open && b2[y.r][y.c].state == Open && b2[y.r][y.c].adj == 0
      ensures b2[n.r][n.c].state != Closed || b2[n.r][n.c].mine || n in pushed
    {
      if y != x && n != x {
        assert b1[n.r][n.c].state != Closed || b1[n.r][n.c].mine || n in rest + [x];
        if n in rest {
          var k :| 0 <= k < |rest| && rest[k] == n;
          assert pushed[..|rest|][k] == n;
        }
      }
    }
  }

  /** Opening a reachable cell keeps "only reachable cells were opened". */
  lemma OnlyOpensOpen(b0: Board, b1: Board, rows: int, cols: int, p: Pos, x: Pos)
    requires OnlyOpensReach(b0, b1, rows, cols, p) && Reach(b0, rows, cols, p, x) && InBounds(rows, cols, x)
    ensures OnlyOpensReach(b0, Put(b1, x, b1[x.r][x.c].(state := Open)), rows, cols, p)
  {
  }

  /** What holds between pops of the flood fill's stack. */
  ghost predicate FillInv(b: Board, b': Board, rows: int, cols: int, p: Pos, stack: seq<Pos>) {
    IsGrid(b', rows, cols) &&
    OnlyOpensReach(b, b', rows, cols, p) &&
    AllReach(b, rows, cols, p, stack) &&
    InBounds(rows, cols, p) &&
    (b'[p.r][p.c].state == Open || p in stack) &&
    Pending(b, b', rows, cols, stack)
  }

  lemma SplitTop<T>(s: seq<T>)
    requires s != []
    ensures s == s[..|s| - 1] + [s[|s| - 1]]
  {
  }

  lemma TopInBounds(b: Board, b1: Board, rows: int, cols: int, p: Pos, stack: seq<Pos>)
    requires FillInv(b, b1, rows, cols, p, stack) && stack != []
    ensures InBounds(rows, cols, stack[|stack| - 1])
  {
    ReachEnterable(b, rows, cols, p, stack[|stack| - 1]);
  }

  /** Opening a closed cell leaves one closed cell fewer: the flood fill's measure. */
  lemma OpeningShrinksClosed(b1: Board, rows: int, cols: int, x: Pos)
    requires IsGrid(b1, rows, cols) && InBounds(rows, cols, x) && b1[x.r][x.c].state == Closed
    ensures Count(Put(b1, x, b1[x.r][x.c].(state := Open)), IsClosed) < Count(b1, IsClosed)
  {
    CountUpdate(b1, x, b1[x.r][x.c].(state := Open), IsClosed);
  }

  /** Popping a cell that is already open or flagged keeps the loop invariant. */
  lemma FillSkipInv(b: Board, b1: Board, rows: int, cols: int, p: Pos, rest: seq<Pos>, x: Pos)
    requires FillInv(b, b1, rows, cols, p, rest + [x])
    requires InBounds(rows, cols, x) && b1[x.r][x.c].state != Closed
    ensures FillInv(b, b1, rows, cols, p, rest)
  {
    PendingPop(b, b1, rows, cols, rest, x);
    AllReachPrefix(b, rows, cols, p, rest + [x], |rest|);
    assert (rest + [x])[..|rest|] == rest;
    if p != x && p in rest + [x] {
      assert p in rest;
    }
  }

  /** New stack entries are reachable: each is an enterable neighbour of x, which shows 0. */
  lemma PushedReach(b: Board, b2: Board, rows: int, cols: int, p: Pos, rest: seq<Pos>, x: Pos, pushed: seq<Pos>)
    requires SameLayout(b, b2, rows, cols) && OnlyOpensReach(b, b2, rows, cols, p)
    requires AllReach(b, rows, cols, p, rest) && Reach(b, rows, cols, p, x) && Spreads(b, x)
    requires |pushed| >= |rest| && pushed[..|rest|] == rest
    requires forall k :: |rest| <= k < |pushed| ==> Adjacent(x, pushed[k]) && Enterable(b2, rows, cols, pushed[k])
    ensures AllReach(b, rows, cols, p, pushed)
  {
    forall k | 0 <= k < |pushed| ensures Reach(b, rows, cols, p, pushed[k]) {
      if k < |rest| {
        assert pushed[k] == pushed[..|rest|][k];
      } else {
        var n := pushed[k];
        assert b2[n.r][n.c].state == Closed;
        ReachStep(b, rows, cols, p, x, n);
      }
    }
  }

  /** Opening a popped closed cell, and pushing its neighbours when it shows 0, keeps the loop invariant. */
  lemma FillOpenInv(b: Board, b1: Board, rows: int, cols: int, p: Pos, rest: seq<Pos>, x: Pos, pushed: seq<Pos>)
    requires FillInv(b, b1, rows, cols, p, rest + [x])
    requires InBounds(rows, cols, x) && b1[x.r][x.c].state == Closed
    requires |pushed| >= |rest| && pushed[..|rest|] == rest
    requires b1[x.r][x.c].adj != 0 ==> pushed == rest
    requires var b2 := Put(b1, x, b1[x.r][x.c].(state := Open));
             b1[x.r][x.c].adj == 0 ==>
               (forall k :: |rest| <= k < |pushed| ==> Adjacent(x, pushed[k]) && Enterable(b2, rows, cols, pushed[k])) &&
               (forall n :: Adjacent(x, n) && InBounds(rows, cols, n) ==>
                  b2[n.r][n.c].state != Closed || b2[n.r][n.c].mine || n in pushed)
    ensures FillInv(b, Put(b1, x, b1[x.r][x.c].(state := Open)), rows, cols, p, pushed)
  {
    var b2: Board := Put(b1, x, b1[x.r][x.c].(state := Open));
    assert (rest + [x])[..|rest|] == rest;
    AllReachPrefix(b, rows, cols, p, rest + [x], |rest|);
    assert Reach(b, rows, cols, p, (rest + [x])[|rest|]);
    OnlyOpensOpen(b, b1, rows, cols, p, x);
    if b1[x.r][x.c].adj == 0 {
      PushedReach(b, b2, rows, cols, p, rest, x, pushed);
    }
    PendingOpen(b, b1, rows, cols, rest, x, pushed);
    if p != x && p in rest + [x] {
      assert p in rest;
      var k :| 0 <= k < |rest| && rest[k] == p;
      assert pushed[..|rest|][k] == p;
    }
  }

  /**
   * The open half of a pass: open the popped closed cell x and, when it
   * shows 0, push its closed safe neighbours.
   */
  method OpenPopped(b: Board, rows: int, cols: int, p: Pos, b1: Board, rest: seq<Pos>, x: Pos) returns (b2: Board, stack': seq<Pos>)
    requires FillInv(b, b1, rows, cols, p, rest + [x])
    requires InBounds(rows, cols, x) && b1[x.r][x.c].state == Closed
    ensures FillInv(b, b2, rows, cols, p, stack')
    ensures Count(b2, IsClosed) < Count(b1, IsClosed)
  {
    var nowOpen := b1[x.r][x.c].(state := Open);
    OpeningShrinksClosed(b1, rows, cols, x);
    b2 := Put(b1, x, nowOpen);
    stack' := rest;
    if nowOpen.adj == 0 {
      stack' := PushNeighbours(b2, rows, cols, x, rest);
    }
    FillOpenInv(b, b1, rows, cols, p, rest, x, stack');
  }

  /**
   * One pass of the flood-fill loop: pop a cell, skip it if open or
   * flagged, otherwise open it and, when it shows 0, push its closed safe
   * neighbours. Either a closed cell was opened or the stack got shorter.
   */
  method FillStep(b: Board, rows: int, cols: int, p: Pos, b1: Board, stack: seq<Pos>) returns (b2: Board, stack': seq<Pos>)
    requires FillInv(b, b1, rows, cols, p, stack) && stack != []
    ensures FillInv(b, b2, rows, cols, p, stack')
    ensures Count(b2, IsClosed) < Count(b1, IsClosed)
            || (Count(b2, IsClosed) == Count(b1, IsClosed) && |stack'| < |stack|)
  {
    var x := stack[|stack| - 1];
    var rest := stack[..|stack| - 1];
    SplitTop(stack);
    TopInBounds(b, b1, rows, cols, p, stack);
    if b1[x.r][x.c].state != Closed {
      FillSkipInv(b, b1, rows, cols, p, rest, x);
      b2, stack' := b1, rest;
    } else {
      b2, stack' := OpenPopped(b, rows, cols, p, b1, rest, x);
    }
  }

  /**
   * `openCell`'s flood fill in Hretskyi_Danylo_CS_31 and Marharyta-Hetalo:
   * pop a cell, skip it if open or flagged, open it, and when it shows 0
   * push its closed safe neighbours. The result is the closure from p.
   */
  method StackFill(b: Board, rows: int, cols: int, p: Pos) returns (b': Board)
    requires IsGrid(b, rows, cols) && Enterable(b, rows, cols, p)
    ensures Filled(b, b', rows, cols, p)
    ensures IsGrid(b', rows, cols)
  {
    b' := b;
    var stack := [p];
    ReachStart(b, rows, cols, p);
    while stack != []
      invariant FillInv(b, b', rows, cols, p, stack)
      decreases Count(b', IsClosed), |stack|
    {
      b', stack := FillStep(b, rows, cols, p, b', stack);
    }
    FillComplete(b, b', rows, cols, p);
  }
  /**
   * A cascade never touches a flagged cell or a mine, and the cells it
   * opens are exactly the ones that change.
   */
  lemma FilledSpares(b0: Board, b1: Board, rows: int, cols: int, p: Pos)
    requires Filled(b0, b1, rows, cols, p)
    ensures forall i, j :: 0 <= i < rows && 0 <= j < cols && (b0[i][j].state == Flagged || b0[i][j].mine) ==>
              b1[i][j].state == b0[i][j].state
    ensures NoOpenMine(b0) ==> NoOpenMine(b1)
  {
    forall i, j | 0 <= i < rows && 0 <= j < cols && Reach(b0, rows, cols, p, Pos(i, j))
      ensures b0[i][j].state == Closed && !b0[i][j].mine
    {
      ReachEnterable(b0, rows, cols, p, Pos(i, j));
    }
  }
}
