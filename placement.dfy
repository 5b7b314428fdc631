/**
 * Random mine placement. Every engine draws random cells and skips a draw
 * that is already a mine (or lies in the protected 3x3 zone of the first
 * click) until enough mines are down. The random source is replaced by a
 * supplied sequence of draws; the loop finishes only when that sequence
 * holds enough fresh, eligible cells, which is what `Fresh` counts.
 */
module Placement {
  import opened Grid
  import opened Neighbours
  import opened Cells

  /** The number of entries of s that are outside `zone` and not seen earlier in s. */
  function Fresh<T>(s: seq<T>, zone: set<T>): nat {
    if s == [] then 0
    else
      var s' := s[..|s| - 1];
      Fresh(s', zone) + (if s[|s| - 1] !in zone && s[|s| - 1] !in s' then 1 else 0)
  }

  function Elems<T>(s: seq<T>): set<T> {
    set x | x in s
  }

  /** `Fresh` is the number of distinct eligible values drawn. */
  lemma {:induction false} FreshIsCardinality<T>(s: seq<T>, zone: set<T>)
    ensures Fresh(s, zone) == |Elems(s) - zone|
  {
    if s != [] {
      var s' := s[..|s| - 1];
      var x := s[|s| - 1];
      FreshIsCardinality(s', zone);
      assert s == s' + [x];
      if x !in zone && x !in s' {
        assert Elems(s) - zone == (Elems(s') - zone) + {x};
      } else {
        assert Elems(s) - zone == Elems(s') - zone;
      }
    }
  }

  /**
   * Drawing only from `universe`, no sequence of draws can supply more
   * fresh cells than the universe holds outside the zone: the loop can only
   * finish when the mine count fits there.
   */
  lemma FreshAtMost<T>(s: seq<T>, zone: set<T>, universe: set<T>)
    requires forall k :: 0 <= k < |s| ==> s[k] in universe
    ensures Fresh(s, zone) <= |universe - zone|
  {
    FreshIsCardinality(s, zone);
    SubsetAtMost(Elems(s) - zone, universe - zone);
  }

  lemma {:induction false} SubsetAtMost<T>(a: set<T>, b: set<T>)
    requires a <= b
    ensures |a| <= |b|
    decreases |a|
  {
    if a != {} {
      var x :| x in a;
      SubsetAtMost(a - {x}, b - {x});
    }
  }

  /** The protected zone of the first click: its 3x3 block. */
  lemma ZoneMembers(safe: Pos, q: Pos)
    ensures q in Square(safe) <==> InZone(safe, q)
  {
  }

  /**
   * The rejection loop: take draws in order, skip one that is already a
   * mine or lies in `zone`, otherwise make it a mine; stop at n mines.
   */
  method PlaceByDraws(b: Board, rows: int, cols: int, n: nat, draws: seq<Pos>, zone: set<Pos>) returns (b': Board)
    requires IsGrid(b, rows, cols)
    requires forall i, j :: 0 <= i < rows && 0 <= j < cols ==> !b[i][j].mine
    requires forall k :: 0 <= k < |draws| ==> InBounds(rows, cols, draws[k])
    requires Fresh(draws, zone) >= n
    ensures IsGrid(b', rows, cols)
    ensures Count(b', IsMine) == n
    ensures forall i, j :: 0 <= i < rows && 0 <= j < cols && b'[i][j].mine ==> Pos(i, j) !in zone && Pos(i, j) in draws
    ensures forall i, j :: 0 <= i < rows && 0 <= j < cols ==>
              b'[i][j].adj == b[i][j].adj && b'[i][j].state == b[i][j].state
  {
    b' := b;
    var placed := 0;
    var i := 0;
    CountNone(b, IsMine);
    while placed < n
      invariant 0 <= i <= |draws| && placed <= n
      invariant DrawnUpTo(b, b', rows, cols, zone, draws, i, placed)
      decreases |draws| - i
    {
      assert draws[..|draws|] == draws;
      var q := draws[i];
      DrawStep(b, b', rows, cols, zone, draws, i, placed);
      if b'[q.r][q.c].mine || q in zone {
        // already a mine, or protected: draw again
      } else {
        b' := Put(b', q, b'[q.r][q.c].(mine := true));
        placed := placed + 1;
      }
      i := i + 1;
    }
    forall r, c | 0 <= r < rows && 0 <= c < cols && b'[r][c].mine ensures Pos(r, c) in draws {
      assert Pos(r, c) in draws[..i];
    }
  }

  /** After the first i draws: exactly the drawn cells outside `zone` are mined, `placed` of them. */
  ghost predicate DrawnUpTo(b: Board, b': Board, rows: int, cols: int, zone: set<Pos>, draws: seq<Pos>, i: int, placed: int)
    requires 0 <= i <= |draws|
  {
    IsGrid(b, rows, cols) && IsGrid(b', rows, cols) &&
    placed == Fresh(draws[..i], zone) == Count(b', IsMine) &&
    (forall r, c :: 0 <= r < rows && 0 <= c < cols ==>
       (b'[r][c].mine <==> Pos(r, c) in draws[..i] && Pos(r, c) !in zone)) &&
    forall r, c :: 0 <= r < rows && 0 <= c < cols ==>
      b'[r][c].adj == b[r][c].adj && b'[r][c].state == b[r][c].state
  }

  /** One draw of the rejection loop keeps `DrawnUpTo`. */
  lemma DrawStep(b: Board, b': Board, rows: int, cols: int, zone: set<Pos>, draws: seq<Pos>, i: int, placed: int)
    requires 0 <= i < |draws| && InBounds(rows, cols, draws[i]) && DrawnUpTo(b, b', rows, cols, zone, draws, i, placed)
    ensures var q := draws[i];
            if b'[q.r][q.c].mine || q in zone then DrawnUpTo(b, b', rows, cols, zone, draws, i + 1, placed)
            else DrawnUpTo(b, Put(b', q, b'[q.r][q.c].(mine := true)), rows, cols, zone, draws, i + 1, placed + 1)
  {
    var q := draws[i];
    assert draws[..i + 1] == draws[..i] + [q];
    assert draws[..i + 1][..i] == draws[..i];
    if !(b'[q.r][q.c].mine || q in zone) {
      CountUpdate(b', q, b'[q.r][q.c].(mine := true), IsMine);
    }
  }

  /** What a `while (placed < n)` loop lays: nothing for a count below one. */
  function MinesLaid(n: int): nat {
    if n > 0 then n else 0
  }

  /** `Math.min(mines, total)` as a loop bound: a count at or below zero places nothing. */
  function ToPlace(mines: int, total: int): (n: nat)
    ensures n <= mines || n == 0
    ensures total >= 0 ==> n <= total
    ensures 0 < mines <= total ==> n == mines
  {
    if mines <= 0 || total <= 0 then 0 else if mines < total then mines else total
  }

  /**
   * `generateField` of Hretskyi_Danylo_CS_31 and Marharyta-Hetalo: a blank
   * board with `min(mines, rows * cols)` mines drawn by rejection. Numbers
   * are left at 0 for `computeAllAdj`.
   */
  method GenerateCapped(rows: nat, cols: nat, mines: int, draws: seq<Pos>) returns (field: Board)
    requires forall k :: 0 <= k < |draws| ==> InBounds(rows, cols, draws[k])
    requires Fresh(draws, {}) >= ToPlace(mines, rows * cols)
    ensures IsGrid(field, rows, cols)
    ensures Count(field, IsMine) == ToPlace(mines, rows * cols)
    ensures forall i, j :: 0 <= i < rows && 0 <= j < cols ==>
              field[i][j].state == Closed && field[i][j].adj == 0 && (field[i][j].mine ==> Pos(i, j) in draws)
  {
    field := CreateBoard(rows, cols);
    field := PlaceByDraws(field, rows, cols, ToPlace(mines, rows * cols), draws, {});
  }

  /**
   * A `Set` of flat indices filled by `add` until it holds n of them; a
   * repeated draw leaves the set unchanged.
   */
  method CollectIndices(n: int, draws: seq<int>) returns (chosen: set<int>)
    requires Fresh(draws, {}) >= n
    ensures |chosen| == (if n > 0 then n else 0)
    ensures forall k :: k in chosen ==> k in draws
  {
    chosen := {};
    var i := 0;
    while |chosen| < n
      invariant 0 <= i <= |draws| && |chosen| <= (if n > 0 then n else 0)
      invariant chosen == Elems(draws[..i]) - {}
      decreases |draws| - i
    {
      FreshIsCardinality(draws[..i], {});
      assert draws[..|draws|] == draws;
      assert i < |draws|;
      assert draws[..i + 1] == draws[..i] + [draws[i]];
      chosen := chosen + {draws[i]};
      i := i + 1;
    }
    forall k | k in chosen ensures k in draws {
      assert k in draws[..i];
    }
  }

  /** The chosen flat indices below m. */
  function Below(chosen: set<int>, m: int): set<int> {
    set k | k in chosen && k < m
  }

  /** The scan has reached row r, column c: exactly the chosen cells before it are mined. */
  ghost predicate MarkedUpTo(b0: Board, b: Board, rows: nat, cols: nat, chosen: set<int>, r: int, c: int) {
    IsGrid(b, rows, cols) && IsGrid(b0, rows, cols) &&
    (forall i, j :: 0 <= i < rows && 0 <= j < cols ==>
       (b[i][j].mine <==> (i < r || (i == r && j < c)) && i * cols + j in chosen)) &&
    (forall i, j :: 0 <= i < rows && 0 <= j < cols ==>
       b[i][j].adj == b0[i][j].adj && b[i][j].state == b0[i][j].state)
  }

  /** Mining the chosen cell (r, c) moves the scan one column on. */
  lemma MarkTaken(b0: Board, b: Board, rows: nat, cols: nat, chosen: set<int>, r: nat, c: nat)
    requires r < rows && c < cols && MarkedUpTo(b0, b, rows, cols, chosen, r, c) && r * cols + c in chosen
    requires Count(b, IsMine) == |Below(chosen, r * cols + c)|
    ensures MarkedUpTo(b0, Put(b, Pos(r, c), b[r][c].(mine := true)), rows, cols, chosen, r, c + 1)
    ensures Count(Put(b, Pos(r, c), b[r][c].(mine := true)), IsMine) == |Below(chosen, r * cols + c + 1)|
  {
    var index := r * cols + c;
    BelowNext(chosen, index);
    CountUpdate(b, Pos(r, c), b[r][c].(mine := true), IsMine);
    MarkTakenGrid(b0, b, rows, cols, chosen, r, c);
  }

  lemma BelowNext(chosen: set<int>, index: int)
    requires index in chosen
    ensures Below(chosen, index + 1) == Below(chosen, index) + {index}
    ensures index !in Below(chosen, index)
  {
  }

  lemma MarkTakenGrid(b0: Board, b: Board, rows: nat, cols: nat, chosen: set<int>, r: nat, c: nat)
    requires r < rows && c < cols && MarkedUpTo(b0, b, rows, cols, chosen, r, c) && r * cols + c in chosen
    ensures MarkedUpTo(b0, Put(b, Pos(r, c), b[r][c].(mine := true)), rows, cols, chosen, r, c + 1)
  {
    var b1: Board := Put(b, Pos(r, c), b[r][c].(mine := true));
    forall i, j | 0 <= i < rows && 0 <= j < cols
      ensures b1[i][j].mine <==> (i < r || (i == r && j < c + 1)) && i * cols + j in chosen
    {
      if i != r || j != c {
        assert b1[i][j] == b[i][j];
      }
    }
  }

  /** Passing over the unchosen cell (r, c) moves the scan one column on. */
  lemma MarkPassed(b0: Board, b: Board, rows: nat, cols: nat, chosen: set<int>, r: nat, c: nat)
    requires r < rows && c < cols && MarkedUpTo(b0, b, rows, cols, chosen, r, c) && r * cols + c !in chosen
    requires Count(b, IsMine) == |Below(chosen, r * cols + c)|
    ensures MarkedUpTo(b0, b, rows, cols, chosen, r, c + 1)
    ensures Count(b, IsMine) == |Below(chosen, r * cols + c + 1)|
  {
    assert Below(chosen, r * cols + c + 1) == Below(chosen, r * cols + c);
  }

  /** One row of the scan. */
  method MarkRow(b0: Board, b: Board, rows: nat, cols: nat, chosen: set<int>, r: nat) returns (b': Board)
    requires r < rows && MarkedUpTo(b0, b, rows, cols, chosen, r, 0)
    requires Count(b, IsMine) == |Below(chosen, r * cols)|
    ensures MarkedUpTo(b0, b', rows, cols, chosen, r, cols)
    ensures Count(b', IsMine) == |Below(chosen, r * cols + cols)|
  {
    b' := b;
    var c := 0;
    while c < cols
      invariant 0 <= c <= cols && MarkedUpTo(b0, b', rows, cols, chosen, r, c)
      invariant Count(b', IsMine) == |Below(chosen, r * cols + c)|
    {
      var index := r * cols + c;
      if index in chosen {
        MarkTaken(b0, b', rows, cols, chosen, r, c);
        b' := Put(b', Pos(r, c), b'[r][c].(mine := true));
      } else {
        MarkPassed(b0, b', rows, cols, chosen, r, c);
      }
      c := c + 1;
    }
  }

  /**
   * The scan `row`, `col` with a running flat index: a cell is mined when its
   * index `row * cols + col` was chosen.
   */
  method MarkIndices(b: Board, rows: nat, cols: nat, chosen: set<int>) returns (b': Board)
    requires IsGrid(b, rows, cols)
    requires forall i, j :: 0 <= i < rows && 0 <= j < cols ==> !b[i][j].mine
    requires forall k :: k in chosen ==> 0 <= k < rows * cols
    ensures IsGrid(b', rows, cols)
    ensures Count(b', IsMine) == |chosen|
    ensures forall i, j :: 0 <= i < rows && 0 <= j < cols ==> (b'[i][j].mine <==> i * cols + j in chosen)
    ensures forall i, j :: 0 <= i < rows && 0 <= j < cols ==>
              b'[i][j].adj == b[i][j].adj && b'[i][j].state == b[i][j].state
  {
    b' := b;
    CountNone(b, IsMine);
    assert Below(chosen, 0) == {};
    var r := 0;
    while r < rows
      invariant 0 <= r <= rows && MarkedUpTo(b, b', rows, cols, chosen, r, 0)
      invariant Count(b', IsMine) == |Below(chosen, r * cols)|
    {
      b' := MarkRow(b, b', rows, cols, chosen, r);
      assert (r + 1) * cols == r * cols + cols;
      r := r + 1;
    }
    assert Below(chosen, rows * cols) == chosen;
  }

  /** The positions of ps that lie on the board, in order: the ones a placement from given positions acts on. */
  function OnBoard(rows: int, cols: int, ps: seq<Pos>): (kept: seq<Pos>)
    ensures |kept| <= |ps|
    ensures forall q :: q in kept <==> q in ps && InBounds(rows, cols, q)
  {
    if ps == [] then []
    else OnBoard(rows, cols, ps[..|ps| - 1]) + (if InBounds(rows, cols, ps[|ps| - 1]) then [ps[|ps| - 1]] else [])
  }

  lemma {:induction false} FreshAtMostLength<T>(s: seq<T>, zone: set<T>)
    ensures Fresh(s, zone) <= |s|
  {
    if s != [] {
      FreshAtMostLength(s[..|s| - 1], zone);
    }
  }

  /** No value occurs twice. */
  predicate Distinct<T(==)>(s: seq<T>) {
    forall i, j :: 0 <= i < j < |s| ==> s[i] != s[j]
  }

  /** Every position lies on the board. */
  predicate AllOnBoard(rows: int, cols: int, ps: seq<Pos>) {
    forall k :: 0 <= k < |ps| ==> InBounds(rows, cols, ps[k])
  }

  lemma DistinctSnoc<T>(s: seq<T>, x: T)
    ensures Distinct(s + [x]) <==> Distinct(s) && x !in s
  {
    var ps := s + [x];
    if Distinct(ps) {
      forall i | 0 <= i < |s| ensures s[i] != x {
        assert ps[i] == s[i] && ps[|s|] == x;
      }
      forall i, j | 0 <= i < j < |s| ensures s[i] != s[j] {
        assert s[i] == ps[i] && s[j] == ps[j];
      }
    }
  }

  lemma AllOnBoardSnoc(rows: int, cols: int, s: seq<Pos>, x: Pos)
    ensures AllOnBoard(rows, cols, s + [x]) <==> AllOnBoard(rows, cols, s) && InBounds(rows, cols, x)
  {
    var ps := s + [x];
    if AllOnBoard(rows, cols, ps) {
      assert ps[|s|] == x;
      forall k | 0 <= k < |s| ensures InBounds(rows, cols, s[k]) {
        assert ps[k] == s[k];
      }
    }
  }

  /**
   * Placing mines at given positions lays one mine per listed position
   * exactly when every position is on the board and none is repeated.
   */
  lemma {:induction false} OnBoardFreshExact(rows: int, cols: int, ps: seq<Pos>)
    ensures Fresh(OnBoard(rows, cols, ps), {}) == |ps| <==> AllOnBoard(rows, cols, ps) && Distinct(ps)
  {
    if ps != [] {
      var s := ps[..|ps| - 1];
      var x := ps[|ps| - 1];
      assert ps == s + [x];
      OnBoardFreshExact(rows, cols, s);
      DistinctSnoc(s, x);
      AllOnBoardSnoc(rows, cols, s, x);
      var kept := OnBoard(rows, cols, s);
      FreshAtMostLength(kept, {});
      if InBounds(rows, cols, x) {
        assert OnBoard(rows, cols, ps) == kept + [x];
        assert (kept + [x])[..|kept|] == kept;
      } else {
        assert OnBoard(rows, cols, ps) == kept;
      }
    }
  }
}
