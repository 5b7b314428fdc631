/**
 * Flat cell indices, as minesweeper/script.js keeps its board: cell (r, c)
 * of a board w cells wide sits at `r * w + c`. The index arithmetic is
 * proved to be a bijection between the board's cells and 0 .. w*h - 1, the
 * neighbour-index list is proved to be the cell's neighbourhood, and the
 * cells a first click protects are counted.
 */
module FlatGrid {
  import opened Grid
  import opened Neighbours
  import opened Cells
  import opened Placement

  /** `indexFromRowCol`: the row-major position in the flat array. */
  function IndexOf(p: Pos, w: int): int {
    p.r * w + p.c
  }

  /** The row and column `getNeighborIndices` recovers: `Math.floor(i / w)` and `i % w`. */
  function PosOf(k: int, w: int): Pos
    requires w > 0
  {
    Pos(k / w, k % w)
  }

  /** Rows a < b of width w are at least a whole row apart. */
  lemma {:induction false} RowsApart(a: int, b: int, w: int)
    requires w > 0 && a < b
    ensures a * w + w <= b * w
    decreases b - a
  {
    if a + 1 < b {
      RowsApart(a + 1, b, w);
    }
    assert (a + 1) * w == a * w + w;
  }

  /** Quotient and remainder are unique. */
  lemma DivUnique(k: int, w: int, q: int, m: int)
    requires w > 0 && 0 <= m < w && k == q * w + m
    ensures k / w == q && k % w == m
  {
    var q', m' := k / w, k % w;
    if q' < q {
      RowsApart(q', q, w);
    }
    if q < q' {
      RowsApart(q, q', w);
    }
  }

  /** The two index maps are inverse on the board: cells and indices 0 .. w*h-1 correspond one to one. */
  lemma IndexRoundTrip(p: Pos, k: int, w: nat, h: nat)
    requires w > 0
    ensures InBounds(h, w, p) ==> 0 <= IndexOf(p, w) < w * h && PosOf(IndexOf(p, w), w) == p
    ensures 0 <= k < w * h ==> InBounds(h, w, PosOf(k, w)) && IndexOf(PosOf(k, w), w) == k
  {
    if InBounds(h, w, p) {
      RowsApart(p.r, h, w);
      DivUnique(IndexOf(p, w), w, p.r, p.c);
    }
    if 0 <= k < w * h {
      var q := k / w;
      if q >= h {
        RowsApart(h - 1, q, w);
      }
      if q < 0 {
        RowsApart(q, 0, w);
      }
    }
  }

  /** The indices of a list of cells. */
  function Indices(qs: seq<Pos>, w: int): (ks: seq<int>)
    ensures |ks| == |qs| && forall m :: 0 <= m < |qs| ==> ks[m] == IndexOf(qs[m], w)
  {
    seq(|qs|, m requires 0 <= m < |qs| => IndexOf(qs[m], w))
  }

  /** The neighbour indices of cell k: the in-bounds cells around it, in offset order. */
  function NeighbourIndexList(k: int, w: nat, h: nat): seq<int>
    requires w > 0
  {
    Indices(InBoundsShifts(h, w, PosOf(k, w), Offsets), w)
  }

  /**
   * The neighbour list holds exactly the indices of the in-bounds cells
   * adjacent to cell k, each at most once among at most eight, never k
   * itself, and each entry reads back as its cell.
   */
  lemma NeighbourIndexMeaning(k: int, w: nat, h: nat)
    requires w > 0 && 0 <= k < w * h
    ensures forall j :: j in NeighbourIndexList(k, w, h) <==> 0 <= j < w * h && Adjacent(PosOf(k, w), PosOf(j, w))
    ensures k !in NeighbourIndexList(k, w, h)
    ensures |NeighbourIndexList(k, w, h)| <= 8
    ensures forall m :: 0 <= m < |NeighbourIndexList(k, w, h)| ==>
              PosOf(NeighbourIndexList(k, w, h)[m], w) == InBoundsShifts(h, w, PosOf(k, w), Offsets)[m]
  {
    var p := PosOf(k, w);
    var qs := InBoundsShifts(h, w, p, Offsets);
    NeighbourListIsNeighbourhood(h, w, p);
    forall m | 0 <= m < |qs| ensures PosOf(IndexOf(qs[m], w), w) == qs[m] {
      assert qs[m] in qs;
      IndexRoundTrip(qs[m], 0, w, h);
    }
    forall j ensures j in NeighbourIndexList(k, w, h) <==> 0 <= j < w * h && Adjacent(p, PosOf(j, w)) {
      IndexRoundTrip(p, j, w, h);
      if j in NeighbourIndexList(k, w, h) {
        var m :| 0 <= m < |qs| && j == IndexOf(qs[m], w);
        assert qs[m] in qs;
        IndexRoundTrip(qs[m], j, w, h);
      }
      if 0 <= j < w * h && Adjacent(p, PosOf(j, w)) {
        var q := PosOf(j, w);
        assert q in qs;
        var m :| 0 <= m < |qs| && qs[m] == q;
        assert NeighbourIndexList(k, w, h)[m] == j;
      }
    }
    IndexRoundTrip(p, k, w, h);
  }

  /** Entry m of cell k's neighbour list: on the board, and read back as the m-th in-bounds shift. */
  lemma NeighbourEntry(k: int, w: nat, h: nat, m: int)
    requires w > 0 && 0 <= k < w * h && 0 <= m < |NeighbourIndexList(k, w, h)|
    ensures var qs := InBoundsShifts(h, w, PosOf(k, w), Offsets);
            |qs| == |NeighbourIndexList(k, w, h)| && 0 <= NeighbourIndexList(k, w, h)[m] < w * h &&
            PosOf(NeighbourIndexList(k, w, h)[m], w) == qs[m] && Adjacent(PosOf(k, w), qs[m])
  {
    NeighbourIndexMeaning(k, w, h);
    assert NeighbourIndexList(k, w, h)[m] in NeighbourIndexList(k, w, h);
  }

  /** `idxs.filter(i => f(grid[i])).length`, also written as a `reduce`: the listed cells satisfying f. */
  function CountAt(b: Board, f: Cell -> bool, w: nat, h: nat, idxs: seq<int>): nat
    requires w > 0
  {
    if idxs == [] then 0
    else CountAt(b, f, w, h, idxs[..|idxs| - 1]) + (if MinedAt(b, f, h, w, PosOf(idxs[|idxs| - 1], w)) then 1 else 0)
  }

  lemma {:induction false} CountAtCells(b: Board, f: Cell -> bool, w: nat, h: nat, qs: seq<Pos>)
    requires w > 0 && forall m :: 0 <= m < |qs| ==> InBounds(h, w, qs[m])
    ensures CountAt(b, f, w, h, Indices(qs, w)) == MinedAmong(b, f, h, w, qs)
  {
    if qs != [] {
      var qs' := qs[..|qs| - 1];
      CountAtCells(b, f, w, h, qs');
      assert Indices(qs, w)[..|qs| - 1] == Indices(qs', w);
      IndexRoundTrip(qs[|qs| - 1], 0, w, h);
    }
  }

  lemma ShiftsInBounds(h: int, w: int, p: Pos, offs: seq<(int, int)>)
    ensures forall m :: 0 <= m < |InBoundsShifts(h, w, p, offs)| ==> InBounds(h, w, InBoundsShifts(h, w, p, offs)[m])
  {
    forall m | 0 <= m < |InBoundsShifts(h, w, p, offs)| ensures InBounds(h, w, InBoundsShifts(h, w, p, offs)[m]) {
      var q := InBoundsShifts(h, w, p, offs)[m];
      InBoundsShiftsMembers(h, w, p, offs, q);
    }
  }

  /** Counting over the neighbour list of cell k is counting its f-neighbours. */
  lemma CountAtNeighbours(b: Board, f: Cell -> bool, w: nat, h: nat, k: int)
    requires w > 0
    ensures CountAt(b, f, w, h, NeighbourIndexList(k, w, h)) == NeighbourMines(b, f, h, w, PosOf(k, w))
  {
    var p := PosOf(k, w);
    ShiftsInBounds(h, w, p, Offsets);
    CountAtCells(b, f, w, h, InBoundsShifts(h, w, p, Offsets));
    ListCountsAround(b, f, h, w, p, Offsets);
  }

  /** The flat indices 0 .. n-1: the cells `Math.random() * grid.length` draws from. */
  function Range(n: int): set<int>
    decreases n
  {
    if n <= 0 then {} else Range(n - 1) + {n - 1}
  }

  lemma {:induction false} RangeSize(n: nat)
    ensures |Range(n)| == n
    ensures forall k :: k in Range(n) <==> 0 <= k < n
  {
    if n > 0 {
      RangeSize(n - 1);
    }
  }

  lemma {:induction false} ElemsAtMost<T>(s: seq<T>)
    ensures |Elems(s)| <= |s|
  {
    if s != [] {
      ElemsAtMost(s[..|s| - 1]);
      assert Elems(s) == Elems(s[..|s| - 1]) + {s[|s| - 1]};
    }
  }

  /** `new Set([excludedIndex, ...getNeighborIndices(excludedIndex)])`: where no mine may go. */
  function Forbidden(excluded: int, w: nat, h: nat): set<int>
    requires w > 0
  {
    {excluded} + Elems(NeighbourIndexList(excluded, w, h))
  }

  /**
   * However the first click falls, the cells outside its protected block
   * number at least w*h - 9: that many fresh draws are possible.
   */
  lemma RoomOutsideBlock(excluded: int, w: nat, h: nat)
    requires w > 0 && 0 <= excluded < w * h
    ensures Forbidden(excluded, w, h) <= Range(w * h)
    ensures |Range(w * h) - Forbidden(excluded, w, h)| >= w * h - 9
  {
    var f := Forbidden(excluded, w, h);
    NeighbourIndexMeaning(excluded, w, h);
    ElemsAtMost(NeighbourIndexList(excluded, w, h));
    RangeSize(w * h);
    assert Range(w * h) == (Range(w * h) - f) + f;
  }

  /** A click in the corner of a board at least 2 x 2 leaves at most w*h - 4 cells for mines. */
  lemma CornerClickRoom(draws: seq<int>, w: nat, h: nat)
    requires w >= 2 && h >= 2
    requires forall k :: 0 <= k < |draws| ==> 0 <= draws[k] < w * h
    ensures Fresh(draws, Forbidden(0, w, h)) <= w * h - 4
  {
    var f := Forbidden(0, w, h);
    CornerBlock(w, h);
    SubsetAtMost({0, 1, w, w + 1}, f);
    RoomOutsideBlock(0, w, h);
    RangeSize(w * h);
    assert Range(w * h) == (Range(w * h) - f) + f;
    FreshAtMost(draws, f, Range(w * h));
  }

  /** The corner cell protects itself, its right neighbour and the two cells below. */
  lemma CornerBlock(w: nat, h: nat)
    requires w >= 2 && h >= 2
    ensures {0, 1, w, w + 1} <= Forbidden(0, w, h)
  {
    CornerNeighbour(w, h, 1, 0, 1);
    CornerNeighbour(w, h, w, 1, 0);
    CornerNeighbour(w, h, w + 1, 1, 1);
  }

  /** The cell at row r, column c of the corner's 2 x 2 block neighbours the corner. */
  lemma CornerNeighbour(w: nat, h: nat, j: int, r: int, c: int)
    requires w >= 2 && h >= 2 && 0 <= r <= 1 && 0 <= c <= 1 && (r, c) != (0, 0) && j == r * w + c
    ensures j in Forbidden(0, w, h)
  {
    RowsApart(r, h, w);
    DivUnique(0, w, 0, 0);
    DivUnique(j, w, r, c);
    NeighbourIndexMeaning(0, w, h);
    assert j in NeighbourIndexList(0, w, h);
  }
}
