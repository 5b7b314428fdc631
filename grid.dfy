/**
 * Positions on a rectangular minefield, the eight-cell neighbourhood, and
 * counting over grids. Every engine in the repository addresses cells by
 * (row, column) and bounds-checks with `0 <= r < rows && 0 <= c < cols`.
 */
module Grid {

  datatype Pos = Pos(r: int, c: int)

  /** A value or JavaScript's `null`. */
  datatype Option<T> = None | Some(value: T)

  /** The bounds test shared by every engine (`inBounds`, `isValidPosition`). */
  predicate InBounds(rows: int, cols: int, p: Pos) {
    0 <= p.r < rows && 0 <= p.c < cols
  }

  /** q touches p: Chebyshev distance one, never p itself. */
  predicate Adjacent(p: Pos, q: Pos) {
    p != q && -1 <= q.r - p.r <= 1 && -1 <= q.c - p.c <= 1
  }

  /** q lies in the 3x3 block centred on p (p included). */
  predicate InZone(p: Pos, q: Pos) {
    -1 <= q.r - p.r <= 1 && -1 <= q.c - p.c <= 1
  }

  function Shift(p: Pos, d: (int, int)): Pos {
    Pos(p.r + d.0, p.c + d.1)
  }

  /**
   * The eight offsets in the order of the sources' loops
   * `for dr in -1..1, for dc in -1..1, skip (0, 0)`, which is also the order
   * of the explicit direction tables.
   */
  const Offsets: seq<(int, int)> :=
    [(-1, -1), (-1, 0), (-1, 1), (0, -1), (0, 1), (1, -1), (1, 0), (1, 1)]

  /** The nine offsets of the 3x3 block, centre included, in loop order. */
  const Block: seq<(int, int)> :=
    [(-1, -1), (-1, 0), (-1, 1), (0, -1), (0, 0), (0, 1), (1, -1), (1, 0), (1, 1)]

  lemma {:induction false} OffsetsAreAdjacent(p: Pos, k: int)
    requires 0 <= k < |Offsets|
    ensures Adjacent(p, Shift(p, Offsets[k]))
  {
  }

  /** Every neighbour of p is reached by exactly one of the eight offsets. */
  lemma {:induction false} AdjacentIsOffset(p: Pos, q: Pos) returns (k: int)
    requires Adjacent(p, q)
    ensures 0 <= k < |Offsets| && q == Shift(p, Offsets[k])
    ensures forall j :: 0 <= j < |Offsets| && j != k ==> q != Shift(p, Offsets[j])
  {
    var dr, dc := q.r - p.r, q.c - p.c;
    k := if dr == -1 then dc + 1 else if dr == 0 then (if dc == -1 then 3 else 4) else dc + 6;
  }

  /** Every cell of the 3x3 zone of p is reached by exactly one block offset. */
  lemma {:induction false} ZoneIsBlock(p: Pos, q: Pos) returns (k: int)
    requires InZone(p, q)
    ensures 0 <= k < |Block| && q == Shift(p, Block[k])
  {
    k := (q.r - p.r + 1) * 3 + (q.c - p.c + 1);
  }

  lemma {:induction false} BlockInZone(p: Pos, k: int)
    requires 0 <= k < |Block|
    ensures InZone(p, Shift(p, Block[k]))
    ensures Shift(p, Block[k]) == p <==> k == 4
  {
  }

  /** A rectangle of `rows` rows, each `cols` long. */
  predicate IsGrid<T>(b: seq<seq<T>>, rows: int, cols: int) {
    |b| == rows && forall i :: 0 <= i < |b| ==> |b[i]| == cols
  }

  predicate Inside<T>(b: seq<seq<T>>, p: Pos) {
    0 <= p.r < |b| && 0 <= p.c < |b[p.r]|
  }

  /** `b[p.r][p.c] = v` on an array of arrays, as a new value. */
  function Put<T>(b: seq<seq<T>>, p: Pos, v: T): (b': seq<seq<T>>)
    requires Inside(b, p)
    ensures |b'| == |b| && forall i :: 0 <= i < |b| ==> |b'[i]| == |b[i]|
    ensures b'[p.r][p.c] == v
    ensures forall i, j :: 0 <= i < |b| && 0 <= j < |b[i]| && (i != p.r || j != p.c) ==> b'[i][j] == b[i][j]
  {
    b[p.r := b[p.r][p.c := v]]
  }

  /** Writing a cell and then writing its old value back restores the grid. */
  lemma PutBack<T>(b: seq<seq<T>>, p: Pos, v: T)
    requires Inside(b, p)
    ensures Put(Put(b, p, v), p, b[p.r][p.c]) == b
  {
    assert b[p.r][p.c := v][p.c := b[p.r][p.c]] == b[p.r];
  }

  // ---------------------------------------------------------------------
  // Counting cells that satisfy a test
  // ---------------------------------------------------------------------

  function CountRow<T>(s: seq<T>, f: T -> bool): (n: nat)
    ensures n <= |s|
  {
    if s == [] then 0 else CountRow(s[..|s| - 1], f) + (if f(s[|s| - 1]) then 1 else 0)
  }

  /** The number of cells of a grid satisfying f (`flat().filter(f).length`). */
  function Count<T>(b: seq<seq<T>>, f: T -> bool): nat {
    if b == [] then 0 else Count(b[..|b| - 1], f) + CountRow(b[|b| - 1], f)
  }

  lemma {:induction false} CountRowUpdate<T>(s: seq<T>, j: int, v: T, f: T -> bool)
    requires 0 <= j < |s|
    ensures CountRow(s[j := v], f) ==
            CountRow(s, f) - (if f(s[j]) then 1 else 0) + (if f(v) then 1 else 0)
  {
    var t := s[j := v];
    if j == |s| - 1 {
      assert t[..|t| - 1] == s[..|s| - 1];
    } else {
      assert t[..|t| - 1] == s[..|s| - 1][j := v];
      CountRowUpdate(s[..|s| - 1], j, v, f);
    }
  }

  /** Changing one cell moves the count by at most one, in the obvious direction. */
  lemma {:induction false} CountUpdate<T>(b: seq<seq<T>>, p: Pos, v: T, f: T -> bool)
    requires Inside(b, p)
    ensures Count(Put(b, p, v), f) ==
            Count(b, f) - (if f(b[p.r][p.c]) then 1 else 0) + (if f(v) then 1 else 0)
  {
    var b' := Put(b, p, v);
    if p.r == |b| - 1 {
      assert b'[..|b'| - 1] == b[..|b| - 1];
      CountRowUpdate(b[p.r], p.c, v, f);
    } else {
      assert b'[..|b'| - 1] == Put(b[..|b| - 1], p, v);
      CountUpdate(b[..|b| - 1], p, v, f);
    }
  }

  lemma {:induction false} CountRowSplit<T>(s: seq<T>, f: T -> bool, g: T -> bool, h: T -> bool)
    requires forall j :: 0 <= j < |s| ==> (f(s[j]) <==> g(s[j]) || h(s[j]))
    requires forall j :: 0 <= j < |s| ==> !(g(s[j]) && h(s[j]))
    ensures CountRow(s, f) == CountRow(s, g) + CountRow(s, h)
  {
    if s != [] {
      CountRowSplit(s[..|s| - 1], f, g, h);
    }
  }

  /** A test that is the disjoint union of two others counts their sum. */
  lemma {:induction false} CountSplit<T>(b: seq<seq<T>>, f: T -> bool, g: T -> bool, h: T -> bool)
    requires forall i, j :: 0 <= i < |b| && 0 <= j < |b[i]| ==> (f(b[i][j]) <==> g(b[i][j]) || h(b[i][j]))
    requires forall i, j :: 0 <= i < |b| && 0 <= j < |b[i]| ==> !(g(b[i][j]) && h(b[i][j]))
    ensures Count(b, f) == Count(b, g) + Count(b, h)
  {
    if b != [] {
      CountSplit(b[..|b| - 1], f, g, h);
      CountRowSplit(b[|b| - 1], f, g, h);
    }
  }

  lemma {:induction false} CountRowSubset<T>(s: seq<T>, f: T -> bool, g: T -> bool)
    requires forall j :: 0 <= j < |s| ==> f(s[j]) ==> g(s[j])
    ensures CountRow(s, f) <= CountRow(s, g)
    ensures CountRow(s, f) == CountRow(s, g) ==> forall j :: 0 <= j < |s| ==> g(s[j]) ==> f(s[j])
  {
    if s != [] {
      var s' := s[..|s| - 1];
      CountRowSubset(s', f, g);
      forall j | 0 <= j < |s'| ensures s'[j] == s[j] { }
    }
  }

  /**
   * If every f-cell is a g-cell, f counts at most as many cells as g, and
   * equal counts mean every g-cell is an f-cell.
   */
  lemma {:induction false} CountSubset<T>(b: seq<seq<T>>, f: T -> bool, g: T -> bool)
    requires forall i, j :: 0 <= i < |b| && 0 <= j < |b[i]| ==> f(b[i][j]) ==> g(b[i][j])
    ensures Count(b, f) <= Count(b, g)
    ensures Count(b, f) == Count(b, g) ==>
              forall i, j :: 0 <= i < |b| && 0 <= j < |b[i]| ==> g(b[i][j]) ==> f(b[i][j])
  {
    if b != [] {
      var b' := b[..|b| - 1];
      CountSubset(b', f, g);
      CountRowSubset(b[|b| - 1], f, g);
      forall i | 0 <= i < |b'| ensures b'[i] == b[i] { }
    }
  }

  lemma {:induction false} CountRowSame<T, U>(s: seq<T>, t: seq<U>, f: T -> bool, g: U -> bool)
    requires |s| == |t|
    requires forall j :: 0 <= j < |s| ==> (f(s[j]) <==> g(t[j]))
    ensures CountRow(s, f) == CountRow(t, g)
  {
    if s != [] {
      CountRowSame(s[..|s| - 1], t[..|t| - 1], f, g);
    }
  }

  /** Two same-shaped grids that agree cell by cell on the tests count alike. */
  lemma {:induction false} CountSame<T, U>(b: seq<seq<T>>, c: seq<seq<U>>, f: T -> bool, g: U -> bool)
    requires |b| == |c| && forall i :: 0 <= i < |b| ==> |b[i]| == |c[i]|
    requires forall i, j :: 0 <= i < |b| && 0 <= j < |b[i]| ==> (f(b[i][j]) <==> g(c[i][j]))
    ensures Count(b, f) == Count(c, g)
  {
    if b != [] {
      CountSame(b[..|b| - 1], c[..|c| - 1], f, g);
      CountRowSame(b[|b| - 1], c[|c| - 1], f, g);
    }
  }

  lemma {:induction false} CountRowAll<T>(s: seq<T>, f: T -> bool)
    requires forall j :: 0 <= j < |s| ==> f(s[j])
    ensures CountRow(s, f) == |s|
  {
    if s != [] {
      CountRowAll(s[..|s| - 1], f);
    }
  }

  lemma {:induction false} CountRowNone<T>(s: seq<T>, f: T -> bool)
    requires forall j :: 0 <= j < |s| ==> !f(s[j])
    ensures CountRow(s, f) == 0
  {
    if s != [] {
      CountRowNone(s[..|s| - 1], f);
    }
  }

  /** On a rows x cols grid a test true everywhere counts rows * cols cells. */
  lemma {:induction false} CountAll<T>(b: seq<seq<T>>, rows: nat, cols: nat, f: T -> bool)
    requires IsGrid(b, rows, cols)
    requires forall i, j :: 0 <= i < |b| && 0 <= j < |b[i]| ==> f(b[i][j])
    ensures Count(b, f) == rows * cols
  {
    if b != [] {
      CountAll(b[..|b| - 1], rows - 1, cols, f);
      CountRowAll(b[|b| - 1], f);
    }
  }

  lemma {:induction false} CountNone<T>(b: seq<seq<T>>, f: T -> bool)
    requires forall i, j :: 0 <= i < |b| && 0 <= j < |b[i]| ==> !f(b[i][j])
    ensures Count(b, f) == 0
  {
    if b != [] {
      CountNone(b[..|b| - 1], f);
      CountRowNone(b[|b| - 1], f);
    }
  }

  /** A count over a grid of rows x cols never exceeds rows * cols. */
  lemma {:induction false} CountAtMost<T>(b: seq<seq<T>>, rows: nat, cols: nat, f: T -> bool)
    requires IsGrid(b, rows, cols)
    ensures Count(b, f) <= rows * cols
  {
    if b != [] {
      CountAtMost(b[..|b| - 1], rows - 1, cols, f);
    }
  }

  /** One cell satisfying f makes the count positive. */
  lemma {:induction false} CountPositive<T>(b: seq<seq<T>>, f: T -> bool, p: Pos)
    requires Inside(b, p) && f(b[p.r][p.c])
    ensures Count(b, f) > 0
  {
    if p.r == |b| - 1 {
      CountRowPositive(b[p.r], f, p.c);
    } else {
      CountPositive(b[..|b| - 1], f, p);
    }
  }

  lemma {:induction false} CountRowPositive<T>(s: seq<T>, f: T -> bool, j: int)
    requires 0 <= j < |s| && f(s[j])
    ensures CountRow(s, f) > 0
  {
    if j < |s| - 1 {
      CountRowPositive(s[..|s| - 1], f, j);
    }
  }
  lemma {:induction false} CountRowLe<T, U>(s: seq<T>, t: seq<U>, f: T -> bool, g: U -> bool)
    requires |s| == |t|
    requires forall j :: 0 <= j < |s| ==> f(s[j]) ==> g(t[j])
    ensures CountRow(s, f) <= CountRow(t, g)
  {
    if s != [] {
      CountRowLe(s[..|s| - 1], t[..|t| - 1], f, g);
    }
  }

  /** Across two same-shaped grids: if every f-cell of b sits where c has a g-cell, f counts at most g. */
  lemma {:induction false} CountLe<T, U>(b: seq<seq<T>>, c: seq<seq<U>>, f: T -> bool, g: U -> bool)
    requires |b| == |c| && forall i :: 0 <= i < |b| ==> |b[i]| == |c[i]|
    requires forall i, j :: 0 <= i < |b| && 0 <= j < |b[i]| ==> f(b[i][j]) ==> g(c[i][j])
    ensures Count(b, f) <= Count(c, g)
  {
    if b != [] {
      CountLe(b[..|b| - 1], c[..|c| - 1], f, g);
      CountRowLe(b[|b| - 1], c[|c| - 1], f, g);
    }
  }
  /** A row-major double loop that counts the cells satisfying f (`countFlags` and the like). */
  method CountCells<T>(b: seq<seq<T>>, rows: int, cols: int, f: T -> bool) returns (n: nat)
    requires IsGrid(b, rows, cols)
    ensures n == Count(b, f)
  {
    n := 0;
    var r := 0;
    while r < rows
      invariant 0 <= r <= rows
      invariant n == Count(b[..r], f)
    {
      var c := 0;
      while c < cols
        invariant 0 <= c <= cols
        invariant n == Count(b[..r], f) + CountRow(b[r][..c], f)
      {
        assert b[r][..c + 1][..c] == b[r][..c];
        if f(b[r][c]) {
          n := n + 1;
        }
        c := c + 1;
      }
      assert b[r][..c] == b[r];
      assert b[..r + 1][..r] == b[..r];
      r := r + 1;
    }
    assert b[..r] == b;
  }
}
