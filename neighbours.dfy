/**
 * The number shown on a safe cell: how many of its up-to-eight in-bounds
 * neighbours hold a mine. Stated over any cell representation through a
 * mine test, because the engines store mines as `hasMine`, `isMine`,
 * `bomb`, `'M'` or `-1`.
 */
module Neighbours {
  import opened Grid

  /** The in-bounds cells reached from p by `offs`, in order. */
  function InBoundsShifts(rows: int, cols: int, p: Pos, offs: seq<(int, int)>): seq<Pos> {
    if offs == [] then []
    else
      var q := Shift(p, offs[|offs| - 1]);
      InBoundsShifts(rows, cols, p, offs[..|offs| - 1]) + (if InBounds(rows, cols, q) then [q] else [])
  }

  lemma {:induction false} InBoundsShiftsMembers(rows: int, cols: int, p: Pos, offs: seq<(int, int)>, q: Pos)
    ensures q in InBoundsShifts(rows, cols, p, offs) <==>
              InBounds(rows, cols, q) && exists k :: 0 <= k < |offs| && q == Shift(p, offs[k])
  {
    if offs != [] {
      var offs' := offs[..|offs| - 1];
      InBoundsShiftsMembers(rows, cols, p, offs', q);
      if q in InBoundsShifts(rows, cols, p, offs') {
        var k :| 0 <= k < |offs'| && q == Shift(p, offs'[k]);
        assert offs[k] == offs'[k];
      }
      if InBounds(rows, cols, q) && exists k :: 0 <= k < |offs| && q == Shift(p, offs[k]) {
        var k :| 0 <= k < |offs| && q == Shift(p, offs[k]);
        if k < |offs'| {
          assert offs'[k] == offs[k];
        }
      }
    }
  }

  /**
   * The neighbour list of p (`neighbors`, `getNeighborIndices`): exactly the
   * in-bounds cells adjacent to p, each once, never p itself.
   */
  lemma {:induction false} NeighbourListIsNeighbourhood(rows: int, cols: int, p: Pos)
    ensures forall q :: q in InBoundsShifts(rows, cols, p, Offsets) <==> Adjacent(p, q) && InBounds(rows, cols, q)
    ensures |InBoundsShifts(rows, cols, p, Offsets)| <= 8
  {
    forall q ensures q in InBoundsShifts(rows, cols, p, Offsets) <==> Adjacent(p, q) && InBounds(rows, cols, q) {
      InBoundsShiftsMembers(rows, cols, p, Offsets, q);
      if Adjacent(p, q) {
        var k := AdjacentIsOffset(p, q);
      }
      if exists k :: 0 <= k < |Offsets| && q == Shift(p, Offsets[k]) {
        var k :| 0 <= k < |Offsets| && q == Shift(p, Offsets[k]);
        OffsetsAreAdjacent(p, k);
      }
    }
    ShiftsLength(rows, cols, p, Offsets);
  }

  lemma {:induction false} ShiftsLength(rows: int, cols: int, p: Pos, offs: seq<(int, int)>)
    ensures |InBoundsShifts(rows, cols, p, offs)| <= |offs|
  {
    if offs != [] {
      ShiftsLength(rows, cols, p, offs[..|offs| - 1]);
    }
  }

  /** q is in bounds, inside the grid value, and holds a mine. */
  predicate MinedAt<T>(b: seq<seq<T>>, isMine: T -> bool, rows: int, cols: int, q: Pos) {
    InBounds(rows, cols, q) && Inside(b, q) && isMine(b[q.r][q.c])
  }

  /** How many of the offsets (the centre never counting) lead to a mined cell. */
  function CountAround<T>(b: seq<seq<T>>, isMine: T -> bool, rows: int, cols: int, p: Pos, offs: seq<(int, int)>): (n: nat)
    ensures n <= |offs|
  {
    if offs == [] then 0
    else
      var d := offs[|offs| - 1];
      CountAround(b, isMine, rows, cols, p, offs[..|offs| - 1])
        + (if d != (0, 0) && MinedAt(b, isMine, rows, cols, Shift(p, d)) then 1 else 0)
  }

  /** `countNeighbourMines`: the mined in-bounds neighbours of p. */
  function NeighbourMines<T>(b: seq<seq<T>>, isMine: T -> bool, rows: int, cols: int, p: Pos): nat {
    CountAround(b, isMine, rows, cols, p, Offsets)
  }

  /** The 3x3 block around p, listed cell by cell. */
  function Square(p: Pos): set<Pos> {
    {Pos(p.r - 1, p.c - 1), Pos(p.r - 1, p.c), Pos(p.r - 1, p.c + 1),
     Pos(p.r, p.c - 1), Pos(p.r, p.c), Pos(p.r, p.c + 1),
     Pos(p.r + 1, p.c - 1), Pos(p.r + 1, p.c), Pos(p.r + 1, p.c + 1)}
  }

  /** The set of mined neighbours, written independently of any loop order. */
  function MinedNeighbours<T>(b: seq<seq<T>>, isMine: T -> bool, rows: int, cols: int, p: Pos): set<Pos> {
    set q | q in Square(p) && Adjacent(p, q) && MinedAt(b, isMine, rows, cols, q)
  }

  lemma {:induction false} CountAroundAppend<T>(b: seq<seq<T>>, isMine: T -> bool, rows: int, cols: int, p: Pos,
                                                s: seq<(int, int)>, t: seq<(int, int)>)
    ensures CountAround(b, isMine, rows, cols, p, s + t)
            == CountAround(b, isMine, rows, cols, p, s) + CountAround(b, isMine, rows, cols, p, t)
  {
    if t != [] {
      assert (s + t)[..|s + t| - 1] == s + t[..|t| - 1];
      CountAroundAppend(b, isMine, rows, cols, p, s, t[..|t| - 1]);
    } else {
      assert s + t == s;
    }
  }

  /** Looping over the whole 3x3 block and skipping the centre counts the same. */
  lemma BlockCountsNeighbours<T>(b: seq<seq<T>>, isMine: T -> bool, rows: int, cols: int, p: Pos)
    ensures CountAround(b, isMine, rows, cols, p, Block) == NeighbourMines(b, isMine, rows, cols, p)
  {
    assert Block == Offsets[..4] + [(0, 0)] + Offsets[4..];
    assert Offsets == Offsets[..4] + Offsets[4..];
    CountAroundAppend(b, isMine, rows, cols, p, Offsets[..4] + [(0, 0)], Offsets[4..]);
    CountAroundAppend(b, isMine, rows, cols, p, Offsets[..4], [(0, 0)]);
    CountAroundAppend(b, isMine, rows, cols, p, Offsets[..4], Offsets[4..]);
    assert [(0, 0)][..0] == [];
  }

  /** The mined neighbours among the first k offsets. */
  function PrefixMined<T>(b: seq<seq<T>>, isMine: T -> bool, rows: int, cols: int, p: Pos, k: int): set<Pos>
    requires 0 <= k <= |Offsets|
  {
    if k == 0 then {}
    else
      var x := Shift(p, Offsets[k - 1]);
      PrefixMined(b, isMine, rows, cols, p, k - 1) + (if MinedAt(b, isMine, rows, cols, x) then {x} else {})
  }

  lemma {:induction false} PrefixMinedMembers<T>(b: seq<seq<T>>, isMine: T -> bool, rows: int, cols: int, p: Pos, k: int, q: Pos)
    requires 0 <= k <= |Offsets|
    ensures q in PrefixMined(b, isMine, rows, cols, p, k) <==>
              MinedAt(b, isMine, rows, cols, q) && exists i :: 0 <= i < k && q == Shift(p, Offsets[i])
  {
    if k > 0 {
      PrefixMinedMembers(b, isMine, rows, cols, p, k - 1, q);
    }
  }

  lemma {:induction false} PrefixMinedCard<T>(b: seq<seq<T>>, isMine: T -> bool, rows: int, cols: int, p: Pos, k: int)
    requires 0 <= k <= |Offsets|
    ensures |PrefixMined(b, isMine, rows, cols, p, k)| == CountAround(b, isMine, rows, cols, p, Offsets[..k])
  {
    if k > 0 {
      PrefixMinedCard(b, isMine, rows, cols, p, k - 1);
      assert Offsets[..k][..k - 1] == Offsets[..k - 1];
      var x := Shift(p, Offsets[k - 1]);
      OffsetsAreAdjacent(p, k - 1);
      var j := AdjacentIsOffset(p, x);
      PrefixMinedMembers(b, isMine, rows, cols, p, k - 1, x);
    }
  }

  /**
   * The loop-ordered count equals the size of the order-free set of mined
   * neighbours: every neighbour is counted, and counted once.
   */
  lemma {:induction false} NeighbourMinesIsCardinality<T>(b: seq<seq<T>>, isMine: T -> bool, rows: int, cols: int, p: Pos)
    ensures NeighbourMines(b, isMine, rows, cols, p) == |MinedNeighbours(b, isMine, rows, cols, p)|
  {
    PrefixMinedCard(b, isMine, rows, cols, p, 8);
    assert Offsets[..8] == Offsets;
    var s := PrefixMined(b, isMine, rows, cols, p, 8);
    var m := MinedNeighbours(b, isMine, rows, cols, p);
    forall q ensures q in s <==> q in m {
      PrefixMinedMembers(b, isMine, rows, cols, p, 8, q);
      if Adjacent(p, q) {
        var k := AdjacentIsOffset(p, q);
      }
      if exists i :: 0 <= i < 8 && q == Shift(p, Offsets[i]) {
        var i :| 0 <= i < 8 && q == Shift(p, Offsets[i]);
        OffsetsAreAdjacent(p, i);
      }
    }
    assert s == m;
  }

  lemma {:induction false} CountAroundPrefix<T>(b: seq<seq<T>>, isMine: T -> bool, rows: int, cols: int, p: Pos,
                                                offs: seq<(int, int)>, k: int)
    requires 0 <= k <= |offs|
    ensures CountAround(b, isMine, rows, cols, p, offs[..k]) <= CountAround(b, isMine, rows, cols, p, offs)
  {
    if k < |offs| {
      assert offs[..|offs| - 1][..k] == offs[..k];
      CountAroundPrefix(b, isMine, rows, cols, p, offs[..|offs| - 1], k);
    } else {
      assert offs[..k] == offs;
    }
  }

  /** A cell showing zero has no mine among its neighbours (what makes cascades safe). */
  lemma {:induction false} ZeroMeansNoMinedNeighbour<T>(b: seq<seq<T>>, isMine: T -> bool, rows: int, cols: int, p: Pos, q: Pos)
    requires NeighbourMines(b, isMine, rows, cols, p) == 0
    requires Adjacent(p, q)
    ensures !MinedAt(b, isMine, rows, cols, q)
  {
    var k := AdjacentIsOffset(p, q);
    assert Offsets[..k + 1][..k] == Offsets[..k];
    CountAroundPrefix(b, isMine, rows, cols, p, Offsets, k + 1);
  }

  lemma {:induction false} CountAroundFrame<T, U>(b: seq<seq<T>>, f: T -> bool, c: seq<seq<U>>, g: U -> bool,
                                                 rows: int, cols: int, p: Pos, offs: seq<(int, int)>)
    requires forall q :: InBounds(rows, cols, q) ==> (MinedAt(b, f, rows, cols, q) <==> MinedAt(c, g, rows, cols, q))
    ensures CountAround(b, f, rows, cols, p, offs) == CountAround(c, g, rows, cols, p, offs)
  {
    if offs != [] {
      CountAroundFrame(b, f, c, g, rows, cols, p, offs[..|offs| - 1]);
    }
  }

  /**
   * Counts depend only on where the mines are: rewriting the numbers of
   * other cells (as the in-place passes do) never changes a count.
   */
  lemma NeighbourMinesFrame<T, U>(b: seq<seq<T>>, f: T -> bool, c: seq<seq<U>>, g: U -> bool, rows: int, cols: int, p: Pos)
    requires forall q :: InBounds(rows, cols, q) ==> (MinedAt(b, f, rows, cols, q) <==> MinedAt(c, g, rows, cols, q))
    ensures NeighbourMines(b, f, rows, cols, p) == NeighbourMines(c, g, rows, cols, p)
  {
    CountAroundFrame(b, f, c, g, rows, cols, p, Offsets);
  }

  /** `neighbors(gameState, row, col)`: the double offset loop collecting in-bounds cells. */
  method NeighbourList(rows: int, cols: int, p: Pos) returns (result: seq<Pos>)
    ensures result == InBoundsShifts(rows, cols, p, Offsets)
  {
    result := [];
    var k := 0;
    while k < |Offsets|
      invariant 0 <= k <= |Offsets|
      invariant result == InBoundsShifts(rows, cols, p, Offsets[..k])
    {
      var q := Shift(p, Offsets[k]);
      assert Offsets[..k + 1][..k] == Offsets[..k];
      if InBounds(rows, cols, q) {
        result := result + [q];
      }
      k := k + 1;
    }
    assert Offsets[..k] == Offsets;
  }

  /** How many cells of the list qs hold a mine. */
  function MinedAmong<T>(b: seq<seq<T>>, isMine: T -> bool, rows: int, cols: int, qs: seq<Pos>): nat {
    if qs == [] then 0
    else MinedAmong(b, isMine, rows, cols, qs[..|qs| - 1]) + (if MinedAt(b, isMine, rows, cols, qs[|qs| - 1]) then 1 else 0)
  }

  /** Counting the mines of the neighbour list is counting over the offsets. */
  lemma {:induction false} ListCountsAround<T>(b: seq<seq<T>>, isMine: T -> bool, rows: int, cols: int, p: Pos, offs: seq<(int, int)>)
    requires forall k :: 0 <= k < |offs| ==> offs[k] != (0, 0)
    ensures MinedAmong(b, isMine, rows, cols, InBoundsShifts(rows, cols, p, offs)) == CountAround(b, isMine, rows, cols, p, offs)
  {
    if offs != [] {
      var offs' := offs[..|offs| - 1];
      var q := Shift(p, offs[|offs| - 1]);
      var list' := InBoundsShifts(rows, cols, p, offs');
      ListCountsAround(b, isMine, rows, cols, p, offs');
      if InBounds(rows, cols, q) {
        assert (list' + [q])[..|list' + [q]| - 1] == list';
      } else {
        assert list' + [] == list';
      }
    }
  }
}
