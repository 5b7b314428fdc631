/**
 * Siller-Olena/script.js: `field` is a grid of numbers in which a mine is
 * the string 'M'; which cells are revealed and which are flagged live in
 * two separate grids of booleans. `openCell` never looks at the flags, so
 * a flagged cell can be revealed, and `toggleFlag` flips a flag on any
 * cell, revealed or not, then recounts all flags.
 */
module SillerScript {
  import opened Grid
  import opened Neighbours
  import opened Cells
  import opened Placement
  import opened Cascade
  import opened Recursion

  /** A cell of `field`: the string 'M' or a number. */
  datatype Square = M | Num(n: int)

  function IsM(s: Square): bool { s.M? }
  function IsSet(flag: bool): bool { flag }

  /** The default settings, before the inputs are read. */
  const Rows := 10
  const Cols := 10
  const Mines := 20

  /** `field` is a rows x cols grid and every cell other than 'M' holds its count of 'M' neighbours. */
  ghost predicate Numbered(field: seq<seq<Square>>, rows: int, cols: int) {
    IsGrid(field, rows, cols) &&
    forall i, j :: 0 <= i < rows && 0 <= j < cols && field[i][j] != M ==>
      field[i][j] == Num(NeighbourMines(field, IsM, rows, cols, Pos(i, j)))
  }

  /**
   * The rejection loop of `generateField`: a draw that is not yet 'M'
   * becomes 'M', until `mines` cells are.
   */
  method PlaceMines(field: seq<seq<Square>>, rows: int, cols: int, mines: int, draws: seq<Pos>)
      returns (field': seq<seq<Square>>)
    requires IsGrid(field, rows, cols)
    requires forall i, j :: 0 <= i < rows && 0 <= j < cols ==> field[i][j] == Num(0)
    requires forall k :: 0 <= k < |draws| ==> InBounds(rows, cols, draws[k])
    requires Fresh(draws, {}) >= mines
    ensures IsGrid(field', rows, cols)
    ensures Count(field', IsM) == MinesLaid(mines)
    ensures forall i, j :: 0 <= i < rows && 0 <= j < cols ==>
              (field'[i][j] == M || field'[i][j] == Num(0)) && (field'[i][j] == M ==> Pos(i, j) in draws)
  {
    field' := field;
    var placed := 0;
    var k := 0;
    CountNone(field, IsM);
    while placed < mines
      invariant 0 <= k <= |draws| && placed <= MinesLaid(mines)
      invariant IsGrid(field', rows, cols)
      invariant placed == Fresh(draws[..k], {}) == Count(field', IsM)
      invariant forall i, j :: 0 <= i < rows && 0 <= j < cols ==>
                  (field'[i][j] == M <==> Pos(i, j) in draws[..k]) && (field'[i][j] == M || field'[i][j] == Num(0))
      decreases |draws| - k
    {
      assert draws[..|draws|] == draws;
      assert k < |draws|;
      var q := draws[k];
      assert draws[..k + 1] == draws[..k] + [q];
      if field'[q.r][q.c] != M {
        CountUpdate(field', q, M, IsM);
        field' := Put(field', q, M);
        placed := placed + 1;
      }
      k := k + 1;
    }
    forall i, j | 0 <= i < rows && 0 <= j < cols && field'[i][j] == M ensures Pos(i, j) in draws {
      assert Pos(i, j) in draws[..k];
    }
  }

  /**
   * `countNeighbourMines(field, row, col)`: the loop over the direction
   * table, bounded by `field.length` and `field[0].length`.
   */
  method CountNeighbourMines(field: seq<seq<Square>>, p: Pos) returns (n: nat)
    requires |field| > 0 && IsGrid(field, |field|, |field[0]|)
    ensures n == NeighbourMines(field, IsM, |field|, |field[0]|, p)
    ensures n == |MinedNeighbours(field, IsM, |field|, |field[0]|, p)| && n <= 8
  {
    n := 0;
    var k := 0;
    while k < |Offsets|
      invariant 0 <= k <= |Offsets|
      invariant n == CountAround(field, IsM, |field|, |field[0]|, p, Offsets[..k])
    {
      var q := Shift(p, Offsets[k]);
      if 0 <= q.r < |field| && 0 <= q.c < |field[0]| && field[q.r][q.c] == M {
        n := n + 1;
      }
      assert Offsets[..k + 1][..k] == Offsets[..k];
      k := k + 1;
    }
    assert Offsets[..k] == Offsets;
    NeighbourMinesIsCardinality(field, IsM, |field|, |field[0]|, p);
  }

  /** Grids with 'M' in the same places give every cell the same count. */
  lemma SameMinesSameCount(f0: seq<seq<Square>>, f1: seq<seq<Square>>, rows: int, cols: int, p: Pos)
    requires IsGrid(f0, rows, cols) && IsGrid(f1, rows, cols)
    requires forall i, j :: 0 <= i < rows && 0 <= j < cols ==> (f1[i][j] == M <==> f0[i][j] == M)
    ensures NeighbourMines(f1, IsM, rows, cols, p) == NeighbourMines(f0, IsM, rows, cols, p)
  {
    NeighbourMinesFrame(f1, IsM, f0, IsM, rows, cols, p);
  }

  /** The second loop of `generateField`: every cell that is not 'M' is replaced by its count. */
  method NumberField(field: seq<seq<Square>>, rows: int, cols: int) returns (field': seq<seq<Square>>)
    requires IsGrid(field, rows, cols)
    ensures IsGrid(field', rows, cols)
    ensures forall i, j :: 0 <= i < rows && 0 <= j < cols ==> (field'[i][j] == M <==> field[i][j] == M)
    ensures Numbered(field', rows, cols)
  {
    field' := field;
    var r := 0;
    while r < rows
      invariant 0 <= r <= rows && IsGrid(field', rows, cols)
      invariant forall i, j :: 0 <= i < rows && 0 <= j < cols ==>
                  field'[i][j] == if i < r && field[i][j] != M then Num(NeighbourMines(field, IsM, rows, cols, Pos(i, j)))
                                  else field[i][j]
    {
      var c := 0;
      assert |field'[r]| == cols;
      while c < cols
        invariant 0 <= c <= cols && IsGrid(field', rows, cols)
        invariant forall i, j :: 0 <= i < rows && 0 <= j < cols ==>
                    field'[i][j] == if (i < r || (i == r && j < c)) && field[i][j] != M
                                    then Num(NeighbourMines(field, IsM, rows, cols, Pos(i, j))) else field[i][j]
      {
        if field'[r][c] != M {
          var n := CountNeighbourMines(field', Pos(r, c));
          SameMinesSameCount(field, field', rows, cols, Pos(r, c));
          field' := Put(field', Pos(r, c), Num(n));
        }
        c := c + 1;
      }
      r := r + 1;
    }
    forall p: Pos ensures NeighbourMines(field', IsM, rows, cols, p) == NeighbourMines(field, IsM, rows, cols, p) {
      SameMinesSameCount(field, field', rows, cols, p);
    }
  }

  /**
   * `generateField(rows, cols, mines)`: a grid of zeros, `mines` distinct
   * cells drawn and marked 'M', every other cell numbered.
   */
  method GenerateField(rows: nat, cols: nat, mines: int, draws: seq<Pos>) returns (field: seq<seq<Square>>)
    requires forall k :: 0 <= k < |draws| ==> InBounds(rows, cols, draws[k])
    requires Fresh(draws, {}) >= mines
    ensures Numbered(field, rows, cols)
    ensures Count(field, IsM) == MinesLaid(mines)
    ensures forall i, j :: 0 <= i < rows && 0 <= j < cols && field[i][j] == M ==> Pos(i, j) in draws
  {
    var zeros := seq(rows, i => seq(cols, j => Num(0)));
    var marked := PlaceMines(zeros, rows, cols, mines, draws);
    field := NumberField(marked, rows, cols);
    CountSame(field, marked, IsM, IsM);
  }

  /** The revealed and flag grids `initializeGame` starts with: all false. */
  function AllFalse(rows: nat, cols: nat): (g: seq<seq<bool>>)
    ensures IsGrid(g, rows, cols) && Count(g, IsSet) == 0
  {
    var g := seq(rows, i => seq(cols, j => false));
    CountNone(g, IsSet);
    g
  }

  // ---------------------------------------------------------------------
  // The cascade, seen through the shared cell record
  // ---------------------------------------------------------------------

  /** One cell of `field` with its `revealed` bit, as the shared cell record (never flagged). */
  function Zip(s: Square, shown: bool): Cell {
    Cell(s.M?, if s.Num? then s.n else 0, if shown then Open else Closed)
  }

  /** `field` and `revealed` side by side. */
  function View(field: seq<seq<Square>>, revealed: seq<seq<bool>>): (b: Board)
    requires |revealed| == |field| && forall i :: 0 <= i < |field| ==> |revealed[i]| == |field[i]|
    ensures |b| == |field| && forall i :: 0 <= i < |field| ==> |b[i]| == |field[i]|
  {
    seq(|field|, i requires 0 <= i < |field| =>
      seq(|field[i]|, j requires 0 <= j < |field[i]| => Zip(field[i][j], revealed[i][j])))
  }

  lemma ViewAt(field: seq<seq<Square>>, revealed: seq<seq<bool>>, rows: int, cols: int, q: Pos)
    requires IsGrid(field, rows, cols) && IsGrid(revealed, rows, cols) && InBounds(rows, cols, q)
    ensures View(field, revealed)[q.r][q.c] == Zip(field[q.r][q.c], revealed[q.r][q.c])
  {
  }

  lemma ViewCells(field: seq<seq<Square>>, revealed: seq<seq<bool>>)
    requires |revealed| == |field| && forall i :: 0 <= i < |field| ==> |revealed[i]| == |field[i]|
    ensures forall i, j :: 0 <= i < |field| && 0 <= j < |field[i]| ==>
              View(field, revealed)[i][j] == Zip(field[i][j], revealed[i][j])
  {
  }

  /** Revealing one cell is opening it in the view. */
  lemma ViewReveal(field: seq<seq<Square>>, revealed: seq<seq<bool>>, rows: int, cols: int, p: Pos)
    requires IsGrid(field, rows, cols) && IsGrid(revealed, rows, cols) && InBounds(rows, cols, p)
    ensures View(field, Put(revealed, p, true)) ==
            Put(View(field, revealed), p, View(field, revealed)[p.r][p.c].(state := Open))
  {
    var l := View(field, Put(revealed, p, true));
    var r := Put(View(field, revealed), p, View(field, revealed)[p.r][p.c].(state := Open));
    assert forall i :: 0 <= i < rows ==> l[i] == r[i];
  }

  /** A numbered field makes every view zero-safe: a 0 never touches an 'M'. */
  lemma ViewZeroSafe(field: seq<seq<Square>>, revealed: seq<seq<bool>>, rows: int, cols: int)
    requires Numbered(field, rows, cols) && IsGrid(revealed, rows, cols)
    ensures ZeroSafe(View(field, revealed), rows, cols)
  {
    var b: Board := View(field, revealed);
    ViewCells(field, revealed);
    forall q | InBounds(rows, cols, q)
      ensures MinedAt(b, IsMine, rows, cols, q) <==> MinedAt(field, IsM, rows, cols, q)
    {
    }
    forall i, j | 0 <= i < rows && 0 <= j < cols && !b[i][j].mine
      ensures b[i][j].adj == Around(b, rows, cols, Pos(i, j))
    {
      NeighbourMinesFrame(b, IsMine, field, IsM, rows, cols, Pos(i, j));
    }
    AdjZeroSafe(b, rows, cols);
  }

  /** `checkWin()`: no cell other than 'M' is unrevealed. */
  predicate AllRevealed(field: seq<seq<Square>>, revealed: seq<seq<bool>>, rows: int, cols: int)
    requires IsGrid(field, rows, cols) && IsGrid(revealed, rows, cols)
  {
    forall i, j :: 0 <= i < rows && 0 <= j < cols && field[i][j] != M ==> revealed[i][j]
  }

  /** The win test is "every safe cell open" in the view. */
  lemma AllRevealedIsWin(field: seq<seq<Square>>, revealed: seq<seq<bool>>, rows: int, cols: int)
    requires IsGrid(field, rows, cols) && IsGrid(revealed, rows, cols)
    ensures AllRevealed(field, revealed, rows, cols) <==> AllSafeOpen(View(field, revealed))
  {
    var b: Board := View(field, revealed);
    ViewCells(field, revealed);
    if AllSafeOpen(b) {
      forall i, j | 0 <= i < rows && 0 <= j < cols && field[i][j] != M ensures revealed[i][j] {
        assert !b[i][j].mine;
      }
    }
  }

  /** The double loop of `checkWin`, returning false at the first unrevealed cell that is not 'M'. */
  method CheckWin(field: seq<seq<Square>>, revealed: seq<seq<bool>>, rows: int, cols: int) returns (w: bool)
    requires IsGrid(field, rows, cols) && IsGrid(revealed, rows, cols)
    ensures w <==> AllRevealed(field, revealed, rows, cols)
  {
    var r := 0;
    while r < rows
      invariant 0 <= r <= rows
      invariant forall i, j :: 0 <= i < r && 0 <= j < cols && field[i][j] != M ==> revealed[i][j]
    {
      var c := 0;
      while c < cols
        invariant 0 <= c <= cols
        invariant forall i, j :: 0 <= i < r && 0 <= j < cols && field[i][j] != M ==> revealed[i][j]
        invariant forall j :: 0 <= j < c && field[r][j] != M ==> revealed[r][j]
      {
        if field[r][c] != M && !revealed[r][c] {
          return false;
        }
        c := c + 1;
      }
      r := r + 1;
    }
    return true;
  }

  /**
   * What `openCell(row, col)` does to `revealed` and `gameOver`: nothing
   * once the game is over or on a revealed cell; an 'M' is revealed and
   * ends the game; any other cell opens the cascade from it, and the game
   * ends exactly when every cell other than 'M' is revealed.
   */
  ghost predicate OpenCellSpec(field: seq<seq<Square>>, revealed: seq<seq<bool>>, rows: int, cols: int,
                               over: bool, p: Pos, revealed': seq<seq<bool>>, over': bool)
    requires IsGrid(field, rows, cols) && IsGrid(revealed, rows, cols) && InBounds(rows, cols, p)
  {
    IsGrid(revealed', rows, cols) &&
    if over || revealed[p.r][p.c] then
      revealed' == revealed && over' == over
    else if field[p.r][p.c] == M then
      revealed' == Put(revealed, p, true) && over'
    else
      Filled(View(field, revealed), View(field, revealed'), rows, cols, p) &&
      (over' <==> AllRevealed(field, revealed', rows, cols))
  }

  /**
   * `openCell(row, col)`: reveal the cell; an 'M' ends the game; a 0 calls
   * `openCell` on each unrevealed in-bounds neighbour; then `checkWin`.
   */
  method OpenRec(field: seq<seq<Square>>, revealed: seq<seq<bool>>, rows: int, cols: int, over: bool, p: Pos)
      returns (revealed': seq<seq<bool>>, over': bool)
    requires Numbered(field, rows, cols) && IsGrid(revealed, rows, cols) && InBounds(rows, cols, p)
    ensures OpenCellSpec(field, revealed, rows, cols, over, p, revealed', over')
    decreases Count(View(field, revealed), IsClosed), 1
  {
    if over || revealed[p.r][p.c] {
      return revealed, over;
    }
    revealed' := Put(revealed, p, true);
    if field[p.r][p.c] == M {
      return revealed', true;
    }
    ghost var b0 := View(field, revealed);
    ViewAt(field, revealed, rows, cols, p);
    ViewZeroSafe(field, revealed, rows, cols);
    ViewReveal(field, revealed, rows, cols, p);
    over' := false;
    if field[p.r][p.c] == Num(0) {
      OffsetsCover(rows, cols, p);
      FrameStart(b0, rows, cols, p, ShiftAll(p, Offsets));
      revealed', over' := OpenAround(field, revealed', rows, cols, p, b0);
    } else {
      OpenNumbered(b0, rows, cols, p);
    }
    var won := CheckWin(field, revealed', rows, cols);
    if won {
      over' := true;
    }
  }

  /**
   * The loop of `openCell` over the direction table once p, showing 0, is
   * revealed: it produces the cascade from p, or stops early with every
   * cell other than 'M' revealed.
   */
  method OpenAround(field: seq<seq<Square>>, revealed: seq<seq<bool>>, rows: int, cols: int, p: Pos, ghost b0: Board)
      returns (revealed': seq<seq<bool>>, over': bool)
    requires Numbered(field, rows, cols) && IsGrid(revealed, rows, cols)
    requires FrameInv(b0, View(field, revealed), rows, cols, p, ShiftAll(p, Offsets), 0)
    ensures IsGrid(revealed', rows, cols)
    ensures Filled(b0, View(field, revealed'), rows, cols, p)
    ensures over' ==> AllRevealed(field, revealed', rows, cols)
    decreases Count(b0, IsClosed), 0
  {
    var cands := ShiftAll(p, Offsets);
    revealed', over' := revealed, false;
    var k := 0;
    while k < |Offsets|
      invariant 0 <= k <= |Offsets| && AroundInv(field, revealed', rows, cols, p, b0, cands, k, over')
    {
      // Once the game is over a call returns at once.
      var q := Shift(p, Offsets[k]);
      AroundEnter(field, revealed', rows, cols, p, b0, cands, k, over');
      if InBounds(rows, cols, q) && !revealed'[q.r][q.c] && !over' {
        var r2, o2 := OpenRec(field, revealed', rows, cols, over', q);
        AroundCall(field, revealed', rows, cols, p, b0, cands, k, r2, o2);
        revealed', over' := r2, o2;
      }
      k := k + 1;
    }
    AroundEnd(field, revealed', rows, cols, p, b0, cands, over');
  }

  /** The loop of `OpenAround` after k directions: the frame goes on, or the game is won. */
  ghost predicate AroundInv(field: seq<seq<Square>>, revealed: seq<seq<bool>>, rows: int, cols: int, p: Pos, b0: Board,
                            cands: seq<Pos>, k: int, over: bool)
  {
    IsGrid(field, rows, cols) && IsGrid(revealed, rows, cols) && 0 <= k <= |cands| &&
    (!over ==> FrameInv(b0, View(field, revealed), rows, cols, p, cands, k)) &&
    (over ==> OnlyOpensReach(b0, View(field, revealed), rows, cols, p) && AllRevealed(field, revealed, rows, cols))
  }

  /**
   * Direction k: a neighbour that will be entered is adjacent, enterable and
   * leaves fewer closed cells than the frame began with; any other direction
   * keeps the invariant as it is.
   */
  lemma AroundEnter(field: seq<seq<Square>>, revealed: seq<seq<bool>>, rows: int, cols: int, p: Pos, b0: Board,
                    cands: seq<Pos>, k: int, over: bool)
    requires cands == ShiftAll(p, Offsets) && k < |cands| && AroundInv(field, revealed, rows, cols, p, b0, cands, k, over)
    ensures var q := cands[k];
            if InBounds(rows, cols, q) && !revealed[q.r][q.c] && !over
            then Adjacent(p, q) && Enterable(View(field, revealed), rows, cols, q) &&
                 Count(View(field, revealed), IsClosed) < Count(b0, IsClosed)
            else AroundInv(field, revealed, rows, cols, p, b0, cands, k + 1, over)
  {
    var q := cands[k];
    var bk := View(field, revealed);
    OffsetsAreAdjacent(p, k);
    if InBounds(rows, cols, q) {
      ViewAt(field, revealed, rows, cols, q);
    }
    if !over {
      if InBounds(rows, cols, q) && !revealed[q.r][q.c] {
        FrameNext(b0, bk, rows, cols, p, cands, k);
        FrameFewer(b0, bk, rows, cols, p, cands, k);
      } else {
        FrameSkip(b0, bk, rows, cols, p, cands, k);
      }
    }
  }

  /** After the eight directions: the cascade from p is filled, and a finished game has every safe cell revealed. */
  lemma AroundEnd(field: seq<seq<Square>>, revealed: seq<seq<bool>>, rows: int, cols: int, p: Pos, b0: Board,
                  cands: seq<Pos>, over: bool)
    requires AroundInv(field, revealed, rows, cols, p, b0, cands, |cands|, over)
    ensures IsGrid(revealed, rows, cols)
    ensures Filled(b0, View(field, revealed), rows, cols, p)
    ensures over ==> AllRevealed(field, revealed, rows, cols)
  {
    if over {
      AllRevealedIsWin(field, revealed, rows, cols);
      WinFilled(b0, View(field, revealed), rows, cols, p);
    } else {
      FrameEnd(b0, View(field, revealed), rows, cols, p, cands);
    }
  }

  /** What the call of `openCell` on the k-th neighbour leaves for the rest of the loop. */
  lemma AroundCall(field: seq<seq<Square>>, revealed: seq<seq<bool>>, rows: int, cols: int, p: Pos, b0: Board,
                   cands: seq<Pos>, k: int, r2: seq<seq<bool>>, o2: bool)
    requires IsGrid(field, rows, cols) && IsGrid(revealed, rows, cols)
    requires FrameInv(b0, View(field, revealed), rows, cols, p, cands, k) && k < |cands|
    requires Adjacent(p, cands[k]) && Enterable(View(field, revealed), rows, cols, cands[k])
    requires OpenCellSpec(field, revealed, rows, cols, false, cands[k], r2, o2)
    ensures AroundInv(field, r2, rows, cols, p, b0, cands, k + 1, o2)
  {
    var q := cands[k];
    var bk := View(field, revealed);
    ViewAt(field, revealed, rows, cols, q);
    assert Filled(bk, View(field, r2), rows, cols, q);
    if o2 {
      FilledSettled(bk, View(field, r2), rows, cols, q);
      FrameStop(b0, bk, View(field, r2), rows, cols, p, cands, k);
    } else {
      FrameCall(b0, bk, View(field, r2), rows, cols, p, cands, k);
    }
  }

  /**
   * Revealed cells stay revealed; only a cell that was not revealed can
   * become so; a game that goes on after the click has no revealed 'M' if
   * it had none before; and on a safe click the game ends exactly when
   * every cell other than 'M' is revealed.
   */
  lemma OpenCellKeeps(field: seq<seq<Square>>, revealed: seq<seq<bool>>, rows: int, cols: int,
                      over: bool, p: Pos, revealed': seq<seq<bool>>, over': bool)
    requires IsGrid(field, rows, cols) && IsGrid(revealed, rows, cols) && InBounds(rows, cols, p)
    requires OpenCellSpec(field, revealed, rows, cols, over, p, revealed', over')
    ensures forall i, j :: 0 <= i < rows && 0 <= j < cols && revealed[i][j] ==> revealed'[i][j]
    ensures !over ==> revealed'[p.r][p.c]
    ensures over ==> revealed' == revealed
    ensures !over' && NoRevealedMine(field, revealed, rows, cols) ==> NoRevealedMine(field, revealed', rows, cols)
    ensures !over && !revealed[p.r][p.c] && field[p.r][p.c] == M ==> over'
    ensures !over && !revealed[p.r][p.c] && field[p.r][p.c] != M ==> (over' <==> AllSafeOpen(View(field, revealed')))
  {
    AllRevealedIsWin(field, revealed', rows, cols);
    if !over && !revealed[p.r][p.c] && field[p.r][p.c] != M {
      var b0: Board, b1: Board := View(field, revealed), View(field, revealed');
      ViewCells(field, revealed);
      ViewCells(field, revealed');
      forall i, j | 0 <= i < rows && 0 <= j < cols && revealed[i][j] ensures revealed'[i][j] {
        assert b0[i][j].state == Open;
      }
      assert b0[p.r][p.c].state == Closed && !b0[p.r][p.c].mine;
      ReachStart(b0, rows, cols, p);
      assert b1[p.r][p.c].state == Open;
      FilledSpares(b0, b1, rows, cols, p);
      if !over' && NoRevealedMine(field, revealed, rows, cols) {
        assert NoOpenMine(b0);
        forall i, j | 0 <= i < rows && 0 <= j < cols && field[i][j] == M ensures !revealed'[i][j] {
          assert b1[i][j].mine;
        }
      }
    }
  }

  /** No 'M' is revealed: true while the game goes on. */
  predicate NoRevealedMine(field: seq<seq<Square>>, revealed: seq<seq<bool>>, rows: int, cols: int)
    requires IsGrid(field, rows, cols) && IsGrid(revealed, rows, cols)
  {
    forall i, j :: 0 <= i < rows && 0 <= j < cols && field[i][j] == M ==> !revealed[i][j]
  }

  /** `flags[row][col] = !flags[row][col]`, revealed or not. */
  function Flip(flags: seq<seq<bool>>, p: Pos): seq<seq<bool>>
    requires Inside(flags, p)
  {
    Put(flags, p, !flags[p.r][p.c])
  }

  /**
   * A flip changes that one flag, twice restores the grid, and the recount
   * `flags.flat().filter(flag => flag).length` moves by exactly one.
   */
  lemma FlipFacts(flags: seq<seq<bool>>, rows: int, cols: int, p: Pos)
    requires IsGrid(flags, rows, cols) && InBounds(rows, cols, p)
    ensures Flip(flags, p)[p.r][p.c] != flags[p.r][p.c]
    ensures forall i, j :: 0 <= i < rows && 0 <= j < cols && (i != p.r || j != p.c) ==> Flip(flags, p)[i][j] == flags[i][j]
    ensures Flip(Flip(flags, p), p) == flags
    ensures Count(Flip(flags, p), IsSet) == Count(flags, IsSet) + (if flags[p.r][p.c] then -1 else 1)
  {
    PutBack(flags, p, !flags[p.r][p.c]);
    CountUpdate(flags, p, !flags[p.r][p.c], IsSet);
  }

  /** The game state is what the functions above leave behind. */
  ghost predicate Consistent(field: seq<seq<Square>>, revealed: seq<seq<bool>>, flags: seq<seq<bool>>,
                             rows: int, cols: int, gameOver: bool, totalFlags: int) {
    Numbered(field, rows, cols) && IsGrid(revealed, rows, cols) && IsGrid(flags, rows, cols) &&
    totalFlags == Count(flags, IsSet) &&
    (!gameOver ==> NoRevealedMine(field, revealed, rows, cols))
  }

  /** Opening keeps the game state consistent. */
  lemma OpenedConsistent(field: seq<seq<Square>>, revealed: seq<seq<bool>>, flags: seq<seq<bool>>, rows: int, cols: int,
                         over: bool, totalFlags: int, p: Pos, revealed': seq<seq<bool>>, over': bool)
    requires Consistent(field, revealed, flags, rows, cols, over, totalFlags) && InBounds(rows, cols, p)
    requires OpenCellSpec(field, revealed, rows, cols, over, p, revealed', over')
    ensures Consistent(field, revealed', flags, rows, cols, over', totalFlags)
  {
    OpenCellKeeps(field, revealed, rows, cols, over, p, revealed', over');
  }

  class Game {
    var rows: nat
    var cols: nat
    var mines: int
    var field: seq<seq<Square>>
    var revealed: seq<seq<bool>>
    var flags: seq<seq<bool>>
    var gameOver: bool
    var totalFlags: int

    ghost predicate Valid()
      reads this
    {
      Consistent(field, revealed, flags, rows, cols, gameOver, totalFlags)
    }

    /** `initializeGame()` with the sizes and mine count already read from the inputs. */
    constructor (rows: nat, cols: nat, mines: int, draws: seq<Pos>)
      requires forall k :: 0 <= k < |draws| ==> InBounds(rows, cols, draws[k])
      requires Fresh(draws, {}) >= mines
      ensures Valid()
      ensures this.rows == rows && this.cols == cols && this.mines == mines
      ensures Count(field, IsM) == MinesLaid(mines)
      ensures revealed == AllFalse(rows, cols) && flags == AllFalse(rows, cols)
      ensures !gameOver && totalFlags == 0
    {
      var f := GenerateField(rows, cols, mines, draws);
      var none := AllFalse(rows, cols);
      this.rows, this.cols, this.mines := rows, cols, mines;
      field, revealed, flags := f, none, none;
      gameOver, totalFlags := false, 0;
    }

    /** `openCell(row, col)` from a click on a cell of the board. */
    method OpenCell(r: int, c: int)
      requires Valid() && InBounds(rows, cols, Pos(r, c))
      modifies this
      ensures rows == old(rows) && cols == old(cols) && mines == old(mines) && field == old(field)
      ensures flags == old(flags) && totalFlags == old(totalFlags)
      ensures OpenCellSpec(field, old(revealed), rows, cols, old(gameOver), Pos(r, c), revealed, gameOver)
      ensures Valid()
    {
      var rev, over := OpenRec(field, revealed, rows, cols, gameOver, Pos(r, c));
      revealed, gameOver := rev, over;
      OpenedConsistent(field, old(revealed), flags, rows, cols, old(gameOver), totalFlags, Pos(r, c), revealed, gameOver);
    }

    /** `toggleFlag(row, col)`: flip, recount, then `checkWin`. */
    method ToggleFlag(r: int, c: int)
      requires Valid() && InBounds(rows, cols, Pos(r, c))
      modifies this
      ensures Valid()
      ensures rows == old(rows) && cols == old(cols) && mines == old(mines) && field == old(field)
      ensures revealed == old(revealed)
      ensures old(gameOver) ==> flags == old(flags) && totalFlags == old(totalFlags) && gameOver
      ensures !old(gameOver) ==> flags == Flip(old(flags), Pos(r, c)) && totalFlags == Count(flags, IsSet) &&
                                 (gameOver <==> AllRevealed(field, revealed, rows, cols))
    {
      if gameOver {
        return;
      }
      var f := Flip(flags, Pos(r, c));
      var n := CountCells(f, rows, cols, IsSet);
      var won := CheckWin(field, revealed, rows, cols);
      flags, totalFlags := f, n;
      if won {
        gameOver := true;
      }
    }
  }
}
