/**
 * Skrypniak-Taras/script.js: a top-level script over a 10 x 10 grid of
 * integers. A `while` loop writes -1 into `mines` distinct random cells;
 * a second pass overwrites every other cell with the number of -1 cells
 * among its in-bounds neighbours, in place, row by row.
 */
module Skrypniak {
  import opened Grid
  import opened Neighbours
  import opened Placement

  const Rows: nat := 10
  const Cols: nat := 10
  const Mines: int := 10

  /** -1 marks a mine. */
  function IsMineValue(v: int): bool { v == -1 }

  /**
   * `Array.from({ length: rows }, () => Array(cols).fill(0))` followed by the
   * placement loop: a draw that is already -1 is drawn again, otherwise it
   * becomes -1, until `mines` cells are mined.
   */
  method LayMines(rows: nat, cols: nat, mines: int, draws: seq<Pos>) returns (grid: seq<seq<int>>)
    requires forall k :: 0 <= k < |draws| ==> InBounds(rows, cols, draws[k])
    requires Fresh(draws, {}) >= mines
    ensures IsGrid(grid, rows, cols)
    ensures Count(grid, IsMineValue) == MinesLaid(mines)
    ensures forall i, j :: 0 <= i < rows && 0 <= j < cols ==> grid[i][j] == 0 || grid[i][j] == -1
    ensures forall i, j :: 0 <= i < rows && 0 <= j < cols && grid[i][j] == -1 ==> Pos(i, j) in draws
  {
    grid := seq(rows, _ => seq(cols, _ => 0));
    var placedMines := 0;
    var i := 0;
    CountNone(grid, IsMineValue);
    while placedMines < mines
      invariant 0 <= i <= |draws| && placedMines <= MinesLaid(mines)
      invariant LaidFrom(grid, rows, cols, draws, i, placedMines)
      decreases |draws| - i
    {
      assert draws[..|draws|] == draws;
      var q := draws[i];
      LayStep(grid, rows, cols, draws, i, placedMines);
      if grid[q.r][q.c] != -1 {
        grid := Put(grid, q, -1);
        placedMines := placedMines + 1;
      }
      i := i + 1;
    }
    forall r, c | 0 <= r < rows && 0 <= c < cols && grid[r][c] == -1 ensures Pos(r, c) in draws {
      assert Pos(r, c) in draws[..i];
    }
  }

  /** After the first i draws: `placed` distinct cells hold -1, exactly the drawn ones, and the rest 0. */
  ghost predicate LaidFrom(grid: seq<seq<int>>, rows: nat, cols: nat, draws: seq<Pos>, i: int, placed: int)
    requires 0 <= i <= |draws|
  {
    IsGrid(grid, rows, cols) &&
    placed == Fresh(draws[..i], {}) == Count(grid, IsMineValue) &&
    forall r, c :: 0 <= r < rows && 0 <= c < cols ==>
      (grid[r][c] == -1 <==> Pos(r, c) in draws[..i]) && (grid[r][c] == 0 || grid[r][c] == -1)
  }

  lemma LayStep(grid: seq<seq<int>>, rows: nat, cols: nat, draws: seq<Pos>, i: int, placed: int)
    requires 0 <= i < |draws| && InBounds(rows, cols, draws[i]) && LaidFrom(grid, rows, cols, draws, i, placed)
    ensures var q := draws[i];
            if grid[q.r][q.c] != -1 then LaidFrom(Put(grid, q, -1), rows, cols, draws, i + 1, placed + 1)
            else LaidFrom(grid, rows, cols, draws, i + 1, placed)
  {
    var q := draws[i];
    assert draws[..i + 1] == draws[..i] + [q];
    assert draws[..i + 1][..i] == draws[..i];
    if grid[q.r][q.c] != -1 {
      CountUpdate(grid, q, -1, IsMineValue);
    }
  }

  /** The `directions` loop for cell p: the in-bounds neighbours holding -1. */
  method CountAroundCell(grid: seq<seq<int>>, rows: nat, cols: nat, p: Pos) returns (count: nat)
    requires IsGrid(grid, rows, cols)
    ensures count == NeighbourMines(grid, IsMineValue, rows, cols, p)
    ensures count <= 8
  {
    count := 0;
    var k := 0;
    while k < |Offsets|
      invariant 0 <= k <= |Offsets|
      invariant count == CountAround(grid, IsMineValue, rows, cols, p, Offsets[..k])
    {
      var q := Shift(p, Offsets[k]);
      if InBounds(rows, cols, q) && grid[q.r][q.c] == -1 {
        count := count + 1;
      }
      assert Offsets[..k + 1][..k] == Offsets[..k];
      k := k + 1;
    }
    assert Offsets[..k] == Offsets;
  }

  /** Writing counts (never -1) leaves the mined cells, hence every count, as they were. */
  lemma CountsKeepMines(g0: seq<seq<int>>, g: seq<seq<int>>, rows: nat, cols: nat, p: Pos)
    requires IsGrid(g0, rows, cols) && IsGrid(g, rows, cols)
    requires forall i, j :: 0 <= i < rows && 0 <= j < cols ==> (g[i][j] == -1 <==> g0[i][j] == -1)
    ensures NeighbourMines(g, IsMineValue, rows, cols, p) == NeighbourMines(g0, IsMineValue, rows, cols, p)
  {
    NeighbourMinesFrame(g, IsMineValue, g0, IsMineValue, rows, cols, p);
  }

  /**
   * The numbering pass: a -1 cell is skipped and stays -1; any other cell
   * becomes the number of mined neighbours, between 0 and 8. Because only
   * non-mine cells are overwritten, and never with -1, a cell numbered late
   * in the pass sees the same mines as the grid the pass started from.
   */
  method NumberPass(g0: seq<seq<int>>, rows: nat, cols: nat) returns (grid: seq<seq<int>>)
    requires IsGrid(g0, rows, cols)
    ensures IsGrid(grid, rows, cols)
    ensures forall i, j :: 0 <= i < rows && 0 <= j < cols ==>
              grid[i][j] == if g0[i][j] == -1 then -1 else NeighbourMines(g0, IsMineValue, rows, cols, Pos(i, j))
    ensures forall i, j :: 0 <= i < rows && 0 <= j < cols ==> -1 <= grid[i][j] <= 8
  {
    grid := g0;
    var r := 0;
    while r < rows
      invariant 0 <= r <= rows && IsGrid(grid, rows, cols)
      invariant forall i, j :: 0 <= i < rows && 0 <= j < cols ==> (grid[i][j] == -1 <==> g0[i][j] == -1)
      invariant forall i, j :: 0 <= i < rows && 0 <= j < cols ==>
                  grid[i][j] == if i < r && g0[i][j] != -1 then NeighbourMines(g0, IsMineValue, rows, cols, Pos(i, j))
                                else g0[i][j]
    {
      var c := 0;
      while c < cols
        invariant 0 <= c <= cols && IsGrid(grid, rows, cols)
        invariant forall i, j :: 0 <= i < rows && 0 <= j < cols ==> (grid[i][j] == -1 <==> g0[i][j] == -1)
        invariant forall i, j :: 0 <= i < rows && 0 <= j < cols ==>
                    grid[i][j] == if (i < r || (i == r && j < c)) && g0[i][j] != -1
                                  then NeighbourMines(g0, IsMineValue, rows, cols, Pos(i, j)) else g0[i][j]
      {
        if grid[r][c] != -1 {
          var count := CountAroundCell(grid, rows, cols, Pos(r, c));
          CountsKeepMines(g0, grid, rows, cols, Pos(r, c));
          grid := Put(grid, Pos(r, c), count);
        }
        c := c + 1;
      }
      r := r + 1;
    }
  }

  /**
   * The whole script: `mines` distinct drawn cells hold -1, every other cell
   * its count of mined neighbours, between 0 and 8.
   */
  method BuildGrid(draws: seq<Pos>) returns (grid: seq<seq<int>>)
    requires forall k :: 0 <= k < |draws| ==> InBounds(Rows, Cols, draws[k])
    requires Fresh(draws, {}) >= Mines
    ensures IsGrid(grid, Rows, Cols) && Count(grid, IsMineValue) == Mines
    ensures forall i, j :: 0 <= i < Rows && 0 <= j < Cols ==>
              grid[i][j] == -1 || grid[i][j] == NeighbourMines(grid, IsMineValue, Rows, Cols, Pos(i, j))
    ensures forall i, j :: 0 <= i < Rows && 0 <= j < Cols ==>
              -1 <= grid[i][j] <= 8 && (grid[i][j] == -1 ==> Pos(i, j) in draws)
  {
    var mined := LayMines(Rows, Cols, Mines, draws);
    grid := NumberPass(mined, Rows, Cols);
    CountSame(grid, mined, IsMineValue, IsMineValue);
    forall i, j | 0 <= i < Rows && 0 <= j < Cols
      ensures NeighbourMines(grid, IsMineValue, Rows, Cols, Pos(i, j)) == NeighbourMines(mined, IsMineValue, Rows, Cols, Pos(i, j))
    {
      CountsKeepMines(mined, grid, Rows, Cols, Pos(i, j));
    }
  }
}
