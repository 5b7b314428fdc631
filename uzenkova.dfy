/**
 * Uzenkova-Daria/script.js: a game record built from a list of mine
 * positions given by the caller. The board is a rows x cols array of
 * `{hasMine, adjacentMines, state}` cells; mines carry -1 as their number;
 * `boardToPrintable` maps the board to the strings a table shows.
 */
module Uzenkova {
  import opened Grid
  import opened Neighbours
  import opened Cells
  import opened Placement
  import opened TimeFormat

  datatype Status = InProgress | Win | Lose

  /** What `createGame` returns. */
  datatype GameRecord = GameRecord(rows: int, cols: int, mines: int, status: Status, board: Board)

  /** `createCell(hasMine)`: closed, number 0. */
  function CreateCell(hasMine: bool): (c: Cell)
    ensures c.mine == hasMine && c.adj == 0 && c.state == Closed
  {
    Cell(hasMine, 0, Closed)
  }

  /** The first k positions are placed on b, giving b'. */
  ghost predicate PlacedUpTo(b: Board, b': Board, rows: int, cols: int, positions: seq<Pos>, k: int)
    requires 0 <= k <= |positions|
  {
    IsGrid(b, rows, cols) && IsGrid(b', rows, cols) &&
    (forall i, j :: 0 <= i < rows && 0 <= j < cols ==>
       (b'[i][j].mine <==> b[i][j].mine || Pos(i, j) in positions[..k]) &&
       b'[i][j].adj == b[i][j].adj && b'[i][j].state == b[i][j].state) &&
    ((forall i, j :: 0 <= i < rows && 0 <= j < cols ==> !b[i][j].mine) ==>
       Count(b', IsMine) == Fresh(OnBoard(rows, cols, positions[..k]), {}))
  }

  /** Marking the on-board position k as a mine places one more. */
  lemma PlaceOnBoard(b: Board, b': Board, rows: int, cols: int, positions: seq<Pos>, k: int)
    requires 0 <= k < |positions| && PlacedUpTo(b, b', rows, cols, positions, k) && InBounds(rows, cols, positions[k])
    ensures PlacedUpTo(b, Put(b', positions[k], b'[positions[k].r][positions[k].c].(mine := true)), rows, cols, positions, k + 1)
  {
    var q := positions[k];
    assert positions[..k + 1] == positions[..k] + [q];
    assert positions[..k + 1][..k] == positions[..k];
    var kept := OnBoard(rows, cols, positions[..k]);
    assert OnBoard(rows, cols, positions[..k + 1]) == kept + [q];
    assert (kept + [q])[..|kept|] == kept;
    CountUpdate(b', q, b'[q.r][q.c].(mine := true), IsMine);
  }

  /** An off-board position k is skipped. */
  lemma PlaceOffBoard(b: Board, b': Board, rows: int, cols: int, positions: seq<Pos>, k: int)
    requires 0 <= k < |positions| && PlacedUpTo(b, b', rows, cols, positions, k) && !InBounds(rows, cols, positions[k])
    ensures PlacedUpTo(b, b', rows, cols, positions, k + 1)
  {
    assert positions[..k + 1] == positions[..k] + [positions[k]];
    assert positions[..k + 1][..k] == positions[..k];
    assert OnBoard(rows, cols, positions[..k + 1]) == OnBoard(rows, cols, positions[..k]);
  }

  /**
   * `placeMines(board, positions)`: each position that names a cell of the
   * board gets a mine; one outside the board is skipped without a word, and
   * a repeated one changes nothing. On a mine-free board the mines laid are
   * exactly the distinct on-board positions.
   */
  method PlaceMines(b: Board, rows: int, cols: int, positions: seq<Pos>) returns (b': Board)
    requires IsGrid(b, rows, cols)
    ensures IsGrid(b', rows, cols)
    ensures forall i, j :: 0 <= i < rows && 0 <= j < cols ==>
              (b'[i][j].mine <==> b[i][j].mine || Pos(i, j) in positions) &&
              b'[i][j].adj == b[i][j].adj && b'[i][j].state == b[i][j].state
    ensures (forall i, j :: 0 <= i < rows && 0 <= j < cols ==> !b[i][j].mine) ==>
              Count(b', IsMine) == Fresh(OnBoard(rows, cols, positions), {})
  {
    b' := b;
    var k := 0;
    PlacedNone(b, rows, cols, positions);
    while k < |positions|
      invariant 0 <= k <= |positions| && PlacedUpTo(b, b', rows, cols, positions, k)
    {
      var q := positions[k];
      if 0 <= q.r < rows && 0 <= q.c < cols {
        PlaceOnBoard(b, b', rows, cols, positions, k);
        b' := Put(b', q, b'[q.r][q.c].(mine := true));
      } else {
        PlaceOffBoard(b, b', rows, cols, positions, k);
      }
      k := k + 1;
    }
    PlacedAll(b, b', rows, cols, positions);
  }

  /** Before the loop nothing is placed. */
  lemma PlacedNone(b: Board, rows: int, cols: int, positions: seq<Pos>)
    requires IsGrid(b, rows, cols)
    ensures PlacedUpTo(b, b, rows, cols, positions, 0)
  {
    assert positions[..0] == [];
    if forall i, j :: 0 <= i < rows && 0 <= j < cols ==> !b[i][j].mine {
      CountNone(b, IsMine);
    }
  }

  /** With every position placed, `PlacedUpTo` is the contract of `PlaceMines`. */
  lemma PlacedAll(b: Board, b': Board, rows: int, cols: int, positions: seq<Pos>)
    requires PlacedUpTo(b, b', rows, cols, positions, |positions|)
    ensures IsGrid(b', rows, cols)
    ensures forall i, j :: 0 <= i < rows && 0 <= j < cols ==>
              (b'[i][j].mine <==> b[i][j].mine || Pos(i, j) in positions) &&
              b'[i][j].adj == b[i][j].adj && b'[i][j].state == b[i][j].state
    ensures (forall i, j :: 0 <= i < rows && 0 <= j < cols ==> !b[i][j].mine) ==>
              Count(b', IsMine) == Fresh(OnBoard(rows, cols, positions), {})
  {
    assert positions[..|positions|] == positions;
  }

  /**
   * `computeAdjacentCounts(board)`: sizes read off the board itself (the
   * first row must exist); a mine gets -1, any other cell the number of
   * mined in-bounds neighbours.
   */
  method ComputeAdjacentCounts(b: Board) returns (b': Board)
    requires |b| > 0 && IsGrid(b, |b|, |b[0]|)
    ensures IsGrid(b', |b|, |b[0]|)
    ensures forall i, j :: 0 <= i < |b| && 0 <= j < |b[0]| ==>
              b'[i][j].mine == b[i][j].mine && b'[i][j].state == b[i][j].state &&
              b'[i][j].adj == if b[i][j].mine then -1 else Around(b, |b|, |b[0]|, Pos(i, j))
  {
    var rows := |b|;
    var cols := |b[0]|;
    b' := b;
    var r := 0;
    while r < rows
      invariant 0 <= r <= rows && IsGrid(b', rows, cols)
      invariant forall i, j :: 0 <= i < rows && 0 <= j < cols ==>
                  b'[i][j].mine == b[i][j].mine && b'[i][j].state == b[i][j].state &&
                  b'[i][j].adj == if i < r then (if b[i][j].mine then -1 else Around(b, rows, cols, Pos(i, j))) else b[i][j].adj
    {
      var c := 0;
      while c < cols
        invariant 0 <= c <= cols && IsGrid(b', rows, cols)
        invariant forall i, j :: 0 <= i < rows && 0 <= j < cols ==>
                    b'[i][j].mine == b[i][j].mine && b'[i][j].state == b[i][j].state &&
                    b'[i][j].adj == if i < r || (i == r && j < c)
                                    then (if b[i][j].mine then -1 else Around(b, rows, cols, Pos(i, j))) else b[i][j].adj
      {
        if b'[r][c].mine {
          b' := Put(b', Pos(r, c), b'[r][c].(adj := -1));
        } else {
          var count := CountNeighbourMines(b', rows, cols, Pos(r, c));
          MinesSameAround(b, b', rows, cols, Pos(r, c));
          b' := Put(b', Pos(r, c), b'[r][c].(adj := count));
        }
        c := c + 1;
      }
      r := r + 1;
    }
  }

  /**
   * `createGame(rows, cols, minePositions)`: an empty board, the mines
   * placed, the numbers computed. `mines` is the length of the list, so a
   * repeated or off-board position makes it larger than the number of mines
   * actually on the board.
   */
  method CreateGame(rows: nat, cols: nat, minePositions: seq<Pos>) returns (g: GameRecord)
    requires rows > 0
    ensures g.rows == rows && g.cols == cols && g.status == InProgress && g.mines == |minePositions|
    ensures IsGrid(g.board, rows, cols)
    ensures Count(g.board, IsMine) == Fresh(OnBoard(rows, cols, minePositions), {}) <= g.mines
    ensures Count(g.board, IsMine) == g.mines <==> AllOnBoard(rows, cols, minePositions) && Distinct(minePositions)
    ensures forall i, j :: 0 <= i < rows && 0 <= j < cols ==>
              g.board[i][j].state == Closed && (g.board[i][j].mine <==> Pos(i, j) in minePositions) &&
              g.board[i][j].adj == if g.board[i][j].mine then -1 else Around(g.board, rows, cols, Pos(i, j))
  {
    var board := CreateBoard(rows, cols);
    board := PlaceMines(board, rows, cols, minePositions);
    var mined := board;
    board := ComputeAdjacentCounts(board);
    CountSame(board, mined, IsMine, IsMine);
    FreshAtMostLength(OnBoard(rows, cols, minePositions), {});
    OnBoardFreshExact(rows, cols, minePositions);
    forall i, j | 0 <= i < rows && 0 <= j < cols ensures Around(board, rows, cols, Pos(i, j)) == Around(mined, rows, cols, Pos(i, j)) {
      MinesSameAround(mined, board, rows, cols, Pos(i, j));
    }
    g := GameRecord(rows, cols, |minePositions|, InProgress, board);
  }

  const Bomb: string := "\U{1F4A3}"

  /** `String(n)` for any whole number. */
  function IntString(n: int): string {
    if n < 0 then "-" + Decimal(-n) else Decimal(n)
  }

  /** `boardToPrintable(game)`: the same shape, a bomb for a mine and the number otherwise. */
  function BoardToPrintable(g: GameRecord): (t: seq<seq<string>>)
    ensures |t| == |g.board| && forall i :: 0 <= i < |t| ==> |t[i]| == |g.board[i]|
  {
    seq(|g.board|, i requires 0 <= i < |g.board| =>
      seq(|g.board[i]|, j requires 0 <= j < |g.board[i]| =>
        if g.board[i][j].mine then Bomb else IntString(g.board[i][j].adj)))
  }

  /**
   * The printed table can be read back: a mine shows the bomb, which no
   * number prints as, and any other cell of a created game shows digits
   * that denote its number.
   */
  lemma PrintableReadsBack(g: GameRecord, i: int, j: int)
    requires 0 <= i < |g.board| && 0 <= j < |g.board[i]|
    requires !g.board[i][j].mine ==> g.board[i][j].adj >= 0
    ensures g.board[i][j].mine ==> BoardToPrintable(g)[i][j] == Bomb
    ensures !g.board[i][j].mine ==> AllDigits(BoardToPrintable(g)[i][j]) &&
                                    Value(BoardToPrintable(g)[i][j]) == g.board[i][j].adj &&
                                    BoardToPrintable(g)[i][j] != Bomb
  {
    if !g.board[i][j].mine {
      DecimalValue(g.board[i][j].adj);
      assert !IsDigit(Bomb[0]);
    }
  }
}
