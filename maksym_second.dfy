/**
 * Maksym-Maliutin/script.js, second version (lines 279-421): a test setup
 * that builds a `GameState` over an empty board, puts mines at a list of
 * given positions (skipping any outside the board), and numbers the board,
 * storing `null` for a mine. The mine count recorded is the length of the
 * list, whatever it holds.
 */
module MaksymSecond {
  import opened Grid
  import opened Neighbours
  import opened Cells
  import opened Placement

  /** A cell of this version: `neighborCount` is `null` (None) on a mine once numbered. */
  datatype TestCell = TestCell(hasMine: bool, neighborCount: Option<int>, state: CellState)

  type TestBoard = seq<seq<TestCell>>

  /** `createCell()` with its defaults: no mine, count 0, closed. */
  const DefaultCell: TestCell := TestCell(false, Some(0), Closed)

  function HasMine(c: TestCell): bool { c.hasMine }

  datatype Status = Playing | Won | Lost

  /** `createEmptyBoard(rows, cols)`: the nested loops filling each row with default cells. */
  method CreateEmptyBoard(rows: nat, cols: nat) returns (b: TestBoard)
    ensures IsGrid(b, rows, cols)
    ensures forall i, j :: 0 <= i < rows && 0 <= j < cols ==> b[i][j] == DefaultCell
    ensures Count(b, HasMine) == 0
  {
    b := [];
    var row := 0;
    while row < rows
      invariant 0 <= row <= rows && IsGrid(b, row, cols)
      invariant forall i, j :: 0 <= i < row && 0 <= j < cols ==> b[i][j] == DefaultCell
    {
      var line: seq<TestCell> := [];
      var col := 0;
      while col < cols
        invariant 0 <= col <= cols && |line| == col
        invariant forall j :: 0 <= j < col ==> line[j] == DefaultCell
      {
        line := line + [DefaultCell];
        col := col + 1;
      }
      b := b + [line];
      row := row + 1;
    }
    CountNone(b, HasMine);
  }

  /**
   * `isValidPosition(board, row, col)`: the sizes come from the board itself
   * (its length and the length of its first row); an empty board has no
   * valid position.
   */
  function IsValidPosition(b: TestBoard, row: int, col: int): bool {
    row >= 0 && row < |b| && col >= 0 && col < |b[0]|
  }

  /** On a rows x cols board a position is valid exactly when it is in bounds. */
  lemma ValidIsInBounds(b: TestBoard, rows: nat, cols: nat, p: Pos)
    requires IsGrid(b, rows, cols)
    ensures IsValidPosition(b, p.r, p.c) <==> InBounds(rows, cols, p)
  {
  }

  /** The first k positions are placed on b, giving b'. */
  ghost predicate PlacedPrefix(b: TestBoard, b': TestBoard, rows: int, cols: int, positions: seq<Pos>, k: int)
    requires 0 <= k <= |positions|
  {
    IsGrid(b, rows, cols) && IsGrid(b', rows, cols) &&
    (forall i, j :: 0 <= i < rows && 0 <= j < cols ==>
       (b'[i][j].hasMine <==> b[i][j].hasMine || Pos(i, j) in positions[..k]) &&
       b'[i][j].neighborCount == b[i][j].neighborCount && b'[i][j].state == b[i][j].state) &&
    (Count(b, HasMine) == 0 ==> Count(b', HasMine) == Fresh(OnBoard(rows, cols, positions[..k]), {}))
  }

  lemma PlaceValid(b: TestBoard, b': TestBoard, rows: int, cols: int, positions: seq<Pos>, k: int)
    requires 0 <= k < |positions| && PlacedPrefix(b, b', rows, cols, positions, k) && InBounds(rows, cols, positions[k])
    requires forall i, j :: 0 <= i < rows && 0 <= j < cols && Count(b, HasMine) == 0 ==> !b[i][j].hasMine
    ensures PlacedPrefix(b, Put(b', positions[k], b'[positions[k].r][positions[k].c].(hasMine := true)), rows, cols, positions, k + 1)
  {
    var q := positions[k];
    var b1 := Put(b', q, b'[q.r][q.c].(hasMine := true));
    PrefixSnoc(positions, k);
    if Count(b, HasMine) == 0 {
      PlaceCount(b', rows, cols, positions, k);
    }
    assert IsGrid(b1, rows, cols);
  }

  lemma PrefixSnoc<T>(s: seq<T>, k: int)
    requires 0 <= k < |s|
    ensures s[..k + 1] == s[..k] + [s[k]] && s[..k + 1][..k] == s[..k]
  {
  }

  /** Mining a fresh valid position adds it to the distinct valid positions. */
  lemma PlaceCount(b': TestBoard, rows: int, cols: int, positions: seq<Pos>, k: int)
    requires 0 <= k < |positions| && IsGrid(b', rows, cols) && InBounds(rows, cols, positions[k])
    requires Count(b', HasMine) == Fresh(OnBoard(rows, cols, positions[..k]), {})
    requires b'[positions[k].r][positions[k].c].hasMine <==> positions[k] in positions[..k]
    ensures Count(Put(b', positions[k], b'[positions[k].r][positions[k].c].(hasMine := true)), HasMine)
            == Fresh(OnBoard(rows, cols, positions[..k + 1]), {})
  {
    var q := positions[k];
    PrefixSnoc(positions, k);
    var kept := OnBoard(rows, cols, positions[..k]);
    assert OnBoard(rows, cols, positions[..k + 1]) == kept + [q];
    assert (kept + [q])[..|kept|] == kept;
    assert q in kept <==> q in positions[..k];
    CountUpdate(b', q, b'[q.r][q.c].(hasMine := true), HasMine);
  }

  lemma PlaceInvalid(b: TestBoard, b': TestBoard, rows: int, cols: int, positions: seq<Pos>, k: int)
    requires 0 <= k < |positions| && PlacedPrefix(b, b', rows, cols, positions, k) && !InBounds(rows, cols, positions[k])
    ensures PlacedPrefix(b, b', rows, cols, positions, k + 1)
  {
    assert positions[..k + 1] == positions[..k] + [positions[k]];
    assert positions[..k + 1][..k] == positions[..k];
    assert OnBoard(rows, cols, positions[..k + 1]) == OnBoard(rows, cols, positions[..k]);
  }

  /** A board without mines has no cell with a mine. */
  lemma NoneMined(b: TestBoard, rows: int, cols: int)
    requires IsGrid(b, rows, cols) && Count(b, HasMine) == 0
    ensures forall i, j :: 0 <= i < rows && 0 <= j < cols ==> !b[i][j].hasMine
  {
    forall i, j | 0 <= i < rows && 0 <= j < cols ensures !b[i][j].hasMine {
      if b[i][j].hasMine {
        CountPositive(b, HasMine, Pos(i, j));
      }
    }
  }

  /**
   * `placeMinesAtPositions(board, positions)`: each valid position gets a
   * mine, an invalid one is skipped, a repeated one changes nothing. On a
   * board without mines the mines laid are the distinct valid positions.
   */
  method PlaceMinesAtPositions(b: TestBoard, ghost rows: nat, ghost cols: nat, positions: seq<Pos>) returns (b': TestBoard)
    requires IsGrid(b, rows, cols)
    ensures IsGrid(b', rows, cols)
    ensures forall i, j :: 0 <= i < rows && 0 <= j < cols ==>
              (b'[i][j].hasMine <==> b[i][j].hasMine || Pos(i, j) in positions) &&
              b'[i][j].neighborCount == b[i][j].neighborCount && b'[i][j].state == b[i][j].state
    ensures Count(b, HasMine) == 0 ==> Count(b', HasMine) == Fresh(OnBoard(rows, cols, positions), {})
  {
    b' := b;
    var k := 0;
    PlacedNone(b, rows, cols, positions);
    while k < |positions|
      invariant 0 <= k <= |positions| && PlacedPrefix(b, b', rows, cols, positions, k)
    {
      var q := positions[k];
      PlaceStep(b, b', rows, cols, positions, k);
      if IsValidPosition(b', q.r, q.c) {
        b' := Put(b', q, b'[q.r][q.c].(hasMine := true));
      }
      k := k + 1;
    }
    PlacedAll(b, b', rows, cols, positions);
  }

  /** Before the loop nothing is placed. */
  lemma PlacedNone(b: TestBoard, rows: nat, cols: nat, positions: seq<Pos>)
    requires IsGrid(b, rows, cols)
    ensures PlacedPrefix(b, b, rows, cols, positions, 0)
  {
    assert positions[..0] == [];
  }

  /** With every position placed, `PlacedPrefix` is the contract of `PlaceMinesAtPositions`. */
  lemma PlacedAll(b: TestBoard, b': TestBoard, rows: nat, cols: nat, positions: seq<Pos>)
    requires PlacedPrefix(b, b', rows, cols, positions, |positions|)
    ensures IsGrid(b', rows, cols)
    ensures forall i, j :: 0 <= i < rows && 0 <= j < cols ==>
              (b'[i][j].hasMine <==> b[i][j].hasMine || Pos(i, j) in positions) &&
              b'[i][j].neighborCount == b[i][j].neighborCount && b'[i][j].state == b[i][j].state
    ensures Count(b, HasMine) == 0 ==> Count(b', HasMine) == Fresh(OnBoard(rows, cols, positions), {})
  {
    assert positions[..|positions|] == positions;
  }

  /** One position of the loop keeps `PlacedPrefix`, whether it is valid or not. */
  lemma PlaceStep(b: TestBoard, b': TestBoard, rows: nat, cols: nat, positions: seq<Pos>, k: int)
    requires 0 <= k < |positions| && PlacedPrefix(b, b', rows, cols, positions, k)
    ensures var q := positions[k];
            if IsValidPosition(b', q.r, q.c)
            then InBounds(rows, cols, q) && PlacedPrefix(b, Put(b', q, b'[q.r][q.c].(hasMine := true)), rows, cols, positions, k + 1)
            else PlacedPrefix(b, b', rows, cols, positions, k + 1)
  {
    var q := positions[k];
    ValidIsInBounds(b', rows, cols, q);
    if Count(b, HasMine) == 0 {
      NoneMined(b, rows, cols);
    }
    if IsValidPosition(b', q.r, q.c) {
      PlaceValid(b, b', rows, cols, positions, k);
    } else {
      PlaceInvalid(b, b', rows, cols, positions, k);
    }
  }

  /** The inner `deltaRow`/`deltaCol` loops: the valid neighbours holding a mine. */
  method CountMinedNeighbours(b: TestBoard, rows: nat, cols: nat, p: Pos) returns (mineCount: nat)
    requires IsGrid(b, rows, cols)
    ensures mineCount == NeighbourMines(b, HasMine, rows, cols, p)
    ensures mineCount <= 8
  {
    mineCount := 0;
    var k := 0;
    while k < |Offsets|
      invariant 0 <= k <= |Offsets|
      invariant mineCount == CountAround(b, HasMine, rows, cols, p, Offsets[..k])
    {
      var q := Shift(p, Offsets[k]);
      ValidIsInBounds(b, rows, cols, q);
      if IsValidPosition(b, q.r, q.c) && b[q.r][q.c].hasMine {
        mineCount := mineCount + 1;
      }
      assert Offsets[..k + 1][..k] == Offsets[..k];
      k := k + 1;
    }
    assert Offsets[..k] == Offsets;
  }

  /**
   * `computeNeighborCounts(board)`: sizes from the board (the first row
   * must exist); a mine gets `null`, any other cell the number of its mined
   * neighbours, between 0 and 8. Writing counts moves no mine, so cells
   * numbered late see the same mines.
   */
  method ComputeNeighborCounts(b: TestBoard) returns (b': TestBoard)
    requires |b| > 0 && IsGrid(b, |b|, |b[0]|)
    ensures IsGrid(b', |b|, |b[0]|)
    ensures forall i, j :: 0 <= i < |b| && 0 <= j < |b[0]| ==>
              b'[i][j].hasMine == b[i][j].hasMine && b'[i][j].state == b[i][j].state &&
              b'[i][j].neighborCount == if b[i][j].hasMine then None else Some(NeighbourMines(b, HasMine, |b|, |b[0]|, Pos(i, j)))
    ensures forall i, j :: 0 <= i < |b| && 0 <= j < |b[0]| && !b[i][j].hasMine ==> 0 <= b'[i][j].neighborCount.value <= 8
  {
    var totalRows := |b|;
    var totalCols := |b[0]|;
    b' := b;
    var row := 0;
    while row < totalRows
      invariant 0 <= row <= totalRows && IsGrid(b', totalRows, totalCols)
      invariant forall i, j :: 0 <= i < totalRows && 0 <= j < totalCols ==>
                  b'[i][j].hasMine == b[i][j].hasMine && b'[i][j].state == b[i][j].state &&
                  b'[i][j].neighborCount == if i < row then (if b[i][j].hasMine then None else Some(NeighbourMines(b, HasMine, totalRows, totalCols, Pos(i, j))))
                                            else b[i][j].neighborCount
    {
      var col := 0;
      while col < totalCols
        invariant 0 <= col <= totalCols && IsGrid(b', totalRows, totalCols)
        invariant forall i, j :: 0 <= i < totalRows && 0 <= j < totalCols ==>
                    b'[i][j].hasMine == b[i][j].hasMine && b'[i][j].state == b[i][j].state &&
                    b'[i][j].neighborCount == if i < row || (i == row && j < col)
                                              then (if b[i][j].hasMine then None else Some(NeighbourMines(b, HasMine, totalRows, totalCols, Pos(i, j))))
                                              else b[i][j].neighborCount
      {
        var cell := b'[row][col];
        if cell.hasMine {
          b' := Put(b', Pos(row, col), cell.(neighborCount := None));
        } else {
          var mineCount := CountMinedNeighbours(b', totalRows, totalCols, Pos(row, col));
          NeighbourMinesFrame(b', HasMine, b, HasMine, totalRows, totalCols, Pos(row, col));
          b' := Put(b', Pos(row, col), cell.(neighborCount := Some(mineCount)));
        }
        col := col + 1;
      }
      row := row + 1;
    }
    forall i, j | 0 <= i < totalRows && 0 <= j < totalCols && !b[i][j].hasMine
      ensures 0 <= b'[i][j].neighborCount.value <= 8
    {
      CountAroundAtMost(b, HasMine, totalRows, totalCols, Pos(i, j));
    }
  }

  /** At most eight neighbours can hold a mine. */
  lemma CountAroundAtMost(b: TestBoard, isMine: TestCell -> bool, rows: int, cols: int, p: Pos)
    ensures NeighbourMines(b, isMine, rows, cols, p) <= 8
  {
    assert |Offsets| == 8;
  }

  class GameState {
    var rows: int
    var cols: int
    var mineCount: int
    var status: Status
    var board: TestBoard

    /** `new GameState(rows, cols, mineCount)`: playing, over an empty board. */
    constructor (rows: nat, cols: nat, mineCount: int)
      ensures this.rows == rows && this.cols == cols && this.mineCount == mineCount && status == Playing
      ensures IsGrid(board, rows, cols) && forall i, j :: 0 <= i < rows && 0 <= j < cols ==> board[i][j] == DefaultCell
    {
      var b := CreateEmptyBoard(rows, cols);
      this.rows, this.cols, this.mineCount := rows, cols, mineCount;
      status := Playing;
      board := b;
    }
  }

  /**
   * `initTestGame(rows, cols, mines)`: a new game whose `mineCount` is the
   * length of the list; the board holds a mine at each listed on-board
   * position and correct counts elsewhere. The recorded count is the number
   * of mines on the board exactly when the list holds distinct on-board
   * positions; otherwise it is larger.
   */
  method InitTestGame(rows: nat, cols: nat, mines: seq<Pos>) returns (game: GameState)
    requires rows > 0
    ensures fresh(game)
    ensures game.rows == rows && game.cols == cols && game.status == Playing && game.mineCount == |mines|
    ensures IsGrid(game.board, rows, cols)
    ensures Count(game.board, HasMine) <= game.mineCount
    ensures Count(game.board, HasMine) == game.mineCount <==> AllOnBoard(rows, cols, mines) && Distinct(mines)
    ensures forall i, j :: 0 <= i < rows && 0 <= j < cols ==>
              game.board[i][j].state == Closed && (game.board[i][j].hasMine <==> Pos(i, j) in mines) &&
              game.board[i][j].neighborCount ==
                if game.board[i][j].hasMine then None else Some(NeighbourMines(game.board, HasMine, rows, cols, Pos(i, j)))
  {
    game := new GameState(rows, cols, |mines|);
    CountNone(game.board, HasMine);
    var placed := PlaceMinesAtPositions(game.board, rows, cols, mines);
    var numbered := ComputeNeighborCounts(placed);
    CountSame(numbered, placed, HasMine, HasMine);
    FreshAtMostLength(OnBoard(rows, cols, mines), {});
    OnBoardFreshExact(rows, cols, mines);
    forall i, j | 0 <= i < rows && 0 <= j < cols
      ensures NeighbourMines(numbered, HasMine, rows, cols, Pos(i, j)) == NeighbourMines(placed, HasMine, rows, cols, Pos(i, j))
    {
      NeighbourMinesFrame(numbered, HasMine, placed, HasMine, rows, cols, Pos(i, j));
    }
    game.board := numbered;
  }
}
