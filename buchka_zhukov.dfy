/**
 * Buchka-Mykyta/script.js and Zhukov-Danylo/script.js: two copies of one
 * engine, differing only in how a lost board is drawn. The state is a set
 * of top-level variables (`rows`, `cols`, `mines`, `grid`, `firstClick`,
 * `flags`) plus what the page shows: the mine counter and the face on the
 * reset button. There is no status variable: the face is the only record
 * of a finished game. Mines are laid on the first click, outside the 3x3
 * block around it; `reveal` recurses over the in-bounds 3x3 block of a 0;
 * a double click on a number "chords"; `checkWin` counts uncovered cells.
 *
 * A cell's `uncovered` / `flagged` pair (never both set) is the cell state
 * Open / Flagged, and neither is Closed.
 */
module BuchkaZhukov {
  import opened Grid
  import opened Neighbours
  import opened Cells
  import opened Placement
  import opened Cascade
  import opened Recursion

  /** The reset button: 🙂 during a game, 😵 after `gameOver(false)`, 😎 after `gameOver(true)`. */
  datatype Face = Smiling | Dizzy | Cool

  /** How many times `for (let r = 0; r < n; r++)` runs. */
  function Dim(n: int): nat {
    if n > 0 then n else 0
  }

  /**
   * `setControls`: `Math.max(1, Math.min(mines, rows * cols - 1))`. The
   * count is at least 1, below the number of cells whenever there are two
   * or more, and a request in range is kept as it is.
   */
  function ClampMines(rows: int, cols: int, minesIn: int): (m: int)
    ensures m >= 1
    ensures rows * cols >= 2 ==> m <= rows * cols - 1
    ensures 1 <= minesIn <= rows * cols - 1 ==> m == minesIn
    ensures minesIn < 1 ==> m == 1
    ensures rows * cols >= 2 && minesIn > rows * cols - 1 ==> m == rows * cols - 1
  {
    var capped := if minesIn < rows * cols - 1 then minesIn else rows * cols - 1;
    if capped > 1 then capped else 1
  }

  /**
   * The clamp admits counts the first click leaves no room for: on a 3 x 3
   * board, 8 mines are accepted, yet after a click in the centre every
   * cell lies in the protected block, so no sequence of random draws lets
   * `placeMines` lay a single mine and its loop never ends.
   */
  lemma ClampOverfillsZone(draws: seq<Pos>)
    requires forall k :: 0 <= k < |draws| ==> InBounds(3, 3, draws[k])
    ensures ClampMines(3, 3, 8) == 8
    ensures Fresh(draws, Square(Pos(1, 1))) < ClampMines(3, 3, 8)
  {
    forall k | 0 <= k < |draws| ensures draws[k] in Square(Pos(1, 1)) {
      ZoneMembers(Pos(1, 1), draws[k]);
    }
    FreshAtMost(draws, Square(Pos(1, 1)), Square(Pos(1, 1)));
  }

  /** The mine counter after a flag toggle: `Math.max(0, mines - flags)`. */
  function Counter(mines: int, flags: int): (shown: int)
    ensures shown >= 0
    ensures flags <= mines ==> shown + flags == mines
    ensures flags >= mines ==> shown == 0
  {
    if mines - flags > 0 then mines - flags else 0
  }

  /**
   * `placeMines(safeR, safeC)`: random cells are drawn until `mines` of
   * them are mines, skipping a cell that already is one or lies in the
   * 3x3 block around the click; then every cell, mines included, gets the
   * number of mined neighbours. Flags already set stay.
   */
  method PlaceMines(b: Board, rows: nat, cols: nat, mines: int, safe: Pos, draws: seq<Pos>) returns (b': Board)
    requires IsGrid(b, rows, cols)
    requires forall i, j :: 0 <= i < rows && 0 <= j < cols ==> !b[i][j].mine
    requires forall k :: 0 <= k < |draws| ==> InBounds(rows, cols, draws[k])
    requires Fresh(draws, Square(safe)) >= mines
    ensures IsGrid(b', rows, cols) && AllAdjCorrect(b', rows, cols) && ZeroSafe(b', rows, cols)
    ensures Count(b', IsMine) == MinesLaid(mines)
    ensures forall i, j :: 0 <= i < rows && 0 <= j < cols && b'[i][j].mine ==> !InZone(safe, Pos(i, j)) && Pos(i, j) in draws
    ensures forall i, j :: 0 <= i < rows && 0 <= j < cols ==> b'[i][j].state == b[i][j].state
  {
    var mined := PlaceByDraws(b, rows, cols, MinesLaid(mines), draws, Square(safe));
    forall q ensures q in Square(safe) <==> InZone(safe, q) {
      ZoneMembers(safe, q);
    }
    b' := ComputeAdj(mined, rows, cols, true);
    CountSame(b', mined, IsMine, IsMine);
    AdjZeroSafe(b', rows, cols);
  }

  /** What `reveal(cell)` does to the board and the face. */
  ghost predicate RevealSpec(b: Board, rows: int, cols: int, face: Face, p: Pos, b': Board, face': Face)
    requires IsGrid(b, rows, cols) && InBounds(rows, cols, p)
  {
    if b[p.r][p.c].state != Closed then
      b' == b && face' == face
    else if b[p.r][p.c].mine then
      b' == Put(b, p, b[p.r][p.c].(state := Open)) && face' == Dizzy
    else
      Filled(b, b', rows, cols, p) && face' == face
  }

  /**
   * `reveal(cell)`: an uncovered or flagged cell is left alone; otherwise
   * it is uncovered; a mine ends the game (`gameOver(false)`) without going
   * further; a 0 calls `reveal` on every in-bounds cell of its 3x3 block,
   * itself included, which by then returns at once.
   */
  method Reveal(b: Board, rows: int, cols: int, face: Face, p: Pos) returns (b': Board, face': Face)
    requires ZeroSafe(b, rows, cols) && InBounds(rows, cols, p)
    ensures IsGrid(b', rows, cols)
    ensures RevealSpec(b, rows, cols, face, p, b', face')
    decreases Count(b, IsClosed)
  {
    var cell := b[p.r][p.c];
    if cell.state != Closed {
      return b, face;
    }
    if cell.mine {
      return Put(b, p, cell.(state := Open)), Dizzy;
    }
    b', face' := Put(b, p, cell.(state := Open)), face;
    if cell.adj == 0 {
      var cands := ShiftAll(p, Block);
      BlockCovers(rows, cols, p);
      FrameStart(b, rows, cols, p, cands);
      var k := 0;
      while k < |Block|
        invariant FrameInv(b, b', rows, cols, p, cands, k) && face' == face
      {
        var q := Shift(p, Block[k]);
        // A call on a cell that is not closed returns at once.
        if InBounds(rows, cols, q) && b'[q.r][q.c].state == Closed {
          BlockInZone(p, k);
          FrameNext(b, b', rows, cols, p, cands, k);
          FrameFewer(b, b', rows, cols, p, cands, k);
          var b2, face2 := Reveal(b', rows, cols, face', q);
          FrameCall(b, b', b2, rows, cols, p, cands, k);
          b', face' := b2, face2;
        } else {
          FrameSkip(b, b', rows, cols, p, cands, k);
        }
        k := k + 1;
      }
      FrameEnd(b, b', rows, cols, p, cands);
    } else {
      OpenNumbered(b, rows, cols, p);
    }
  }

  /** `checkWin` as written: every uncovered cell counts, an exploded mine too. */
  predicate WinCountAsWritten(b: Board, rows: int, cols: int, mines: int) {
    Count(b, IsOpen) == rows * cols - mines
  }

  /** `checkWin()` as written: the double loop counting uncovered cells; on a match, `gameOver(true)`. */
  method CheckWinAsWritten(b: Board, rows: nat, cols: nat, mines: int, face: Face) returns (face': Face)
    requires IsGrid(b, rows, cols)
    ensures face' == if WinCountAsWritten(b, rows, cols, mines) then Cool else face
  {
    var uncovered := CountCells(b, rows, cols, IsOpen);
    face' := if uncovered == rows * cols - mines then Cool else face;
  }

  /** On a one-row board, a cell's number counts mines to its left and right only. */
  lemma RowAround(b: Board, cols: int, j: int)
    requires IsGrid(b, 1, cols) && 0 <= j < cols
    ensures Around(b, 1, cols, Pos(0, j)) ==
            (if j > 0 && b[0][j - 1].mine then 1 else 0) + (if j < cols - 1 && b[0][j + 1].mine then 1 else 0)
  {
    var p := Pos(0, j);
    assert Offsets[..0] == [];
    AroundStep(b, cols, p, 0);
    AroundStep(b, cols, p, 1);
    AroundStep(b, cols, p, 2);
    AroundStep(b, cols, p, 3);
    AroundStep(b, cols, p, 4);
    AroundStep(b, cols, p, 5);
    AroundStep(b, cols, p, 6);
    AroundStep(b, cols, p, 7);
    assert Offsets[..8] == Offsets;
  }

  /** One more offset of the count on a one-row board: only the row's own offsets can find a mine. */
  lemma AroundStep(b: Board, cols: int, p: Pos, k: int)
    requires IsGrid(b, 1, cols) && InBounds(1, cols, p) && 0 <= k < |Offsets|
    ensures CountAround(b, IsMine, 1, cols, p, Offsets[..k + 1]) == CountAround(b, IsMine, 1, cols, p, Offsets[..k]) +
            (if Offsets[k].0 == 0 && MinedAt(b, IsMine, 1, cols, Shift(p, Offsets[k])) then 1 else 0)
  {
    assert Offsets[..k + 1][..k] == Offsets[..k];
  }

  /** The 1 x 5 board of the counterexample below, before the mine is clicked. */
  const Row5: Board := [[Cell(false, 0, Open), Cell(false, 1, Open), Cell(true, 0, Closed), Cell(false, 2, Closed), Cell(true, 0, Closed)]]

  /**
   * A lost game that `checkWin` as written calls won. On a 1 x 5 board with
   * mines at columns 2 and 4, a first click at column 0 uncovers columns 0
   * and 1 (column 1 shows 1). A click on the mine at column 2 then makes
   * three uncovered cells, which is `rows * cols - mines`: the face that
   * `reveal` set to 😵 turns to 😎 while the safe cell at column 3 is
   * still covered.
   */
  lemma ExplodedMineCountsAsWin()
    ensures AllAdjCorrect(Row5, 1, 5) && Count(Row5, IsMine) == 2
    ensures var b' := Put(Row5, Pos(0, 2), Row5[0][2].(state := Open));
            RevealSpec(Row5, 1, 5, Smiling, Pos(0, 2), b', Dizzy) &&
            WinCountAsWritten(b', 1, 5, 2) && !AllSafeOpen(b')
  {
    Row5Numbered();
    Row5Exploded();
    var b': Board := Put(Row5, Pos(0, 2), Row5[0][2].(state := Open));
    assert !b'[0][3].mine && b'[0][3].state == Closed;
  }

  /** The counterexample's board is a real one: true numbers, two mines. */
  lemma Row5Numbered()
    ensures AllAdjCorrect(Row5, 1, 5) && Count(Row5, IsMine) == 2
  {
    var r0 := Row5[0];
    assert Row5[..0] == [];
    assert r0[..5][..4] == r0[..4] && r0[..4][..3] == r0[..3] && r0[..3][..2] == r0[..2] && r0[..2][..1] == r0[..1] && r0[..1][..0] == [];
    assert r0[..5] == r0;
    assert CountRow(r0[..1], IsMine) == 0;
    assert CountRow(r0[..2], IsMine) == 0;
    assert CountRow(r0[..3], IsMine) == 1;
    assert CountRow(r0[..4], IsMine) == 1;
    assert CountRow(r0, IsMine) == 2;
    forall i, j | 0 <= i < 1 && 0 <= j < 5 ensures Row5[i][j].adj == Around(Row5, 1, 5, Pos(i, j)) {
      RowAround(Row5, 5, j);
    }
  }

  /** With the mine at column 2 uncovered, three cells are uncovered. */
  lemma Row5Exploded()
    ensures Count(Put(Row5, Pos(0, 2), Row5[0][2].(state := Open)), IsOpen) == 3
  {
    var b': Board := Put(Row5, Pos(0, 2), Row5[0][2].(state := Open));
    var row := b'[0];
    assert |b'| == 1 && b'[..0] == [];
    assert row == [Row5[0][0], Row5[0][1], Row5[0][2].(state := Open), Row5[0][3], Row5[0][4]];
    assert row[..5][..4] == row[..4] && row[..4][..3] == row[..3] && row[..3][..2] == row[..2] && row[..2][..1] == row[..1] && row[..1][..0] == [];
    assert CountRow(row[..1], IsOpen) == 1;
    assert CountRow(row[..2], IsOpen) == 2;
    assert CountRow(row[..3], IsOpen) == 3;
    assert CountRow(row[..4], IsOpen) == 3;
    assert row[..5] == row;
  }

  /**
   * `checkWin()` as intended: only uncovered safe cells count, so the test
   * is met exactly when every safe cell is uncovered, on a board holding
   * `mines` mines; an exploded mine never turns a loss into a win.
   */
  method CheckWin(b: Board, rows: nat, cols: nat, mines: int, face: Face) returns (face': Face)
    requires IsGrid(b, rows, cols)
    ensures face' == if SafeCountWon(b, rows, cols, mines) then Cool else face
    ensures Count(b, IsMine) == mines ==> (face' == Cool <==> face == Cool || AllSafeOpen(b))
  {
    var uncovered := CountCells(b, rows, cols, OpenSafe);
    face' := if uncovered == rows * cols - mines then Cool else face;
    SafeCountWonMeaning(b, rows, cols, mines);
  }

  /** b0 as it was, carrying the mines and numbers of b1: the board a first click's cascade starts from. */
  function WithLayout(b0: Board, b1: Board, rows: nat, cols: nat): (l: Board)
    requires IsGrid(b0, rows, cols) && IsGrid(b1, rows, cols)
  {
    seq(rows, i requires 0 <= i < rows =>
      seq(cols, j requires 0 <= j < cols => b0[i][j].(mine := b1[i][j].mine, adj := b1[i][j].adj)))
  }

  lemma LaidIsWithLayout(b0: Board, laid: Board, b1: Board, rows: nat, cols: nat)
    requires IsGrid(b0, rows, cols) && SameLayout(laid, b1, rows, cols)
    requires forall i, j :: 0 <= i < rows && 0 <= j < cols ==> laid[i][j].state == b0[i][j].state
    ensures laid == WithLayout(b0, b1, rows, cols)
  {
    var l := WithLayout(b0, b1, rows, cols);
    forall i | 0 <= i < rows ensures laid[i] == l[i] {
      forall j | 0 <= j < cols ensures laid[i][j] == l[i][j] {
        var c := laid[i][j];
        assert c == Cell(c.mine, c.adj, c.state);
      }
    }
  }

  /**
   * What `clickCell(cell)` does. A flagged or uncovered cell is ignored.
   * Otherwise the first click lays the mines, none in its 3x3 block; a
   * later click moves no mine. The click then reveals the cell on the laid
   * board — a mine is uncovered alone, a safe cell opens its cascade — and
   * `checkWin` shows 😎 when every safe cell is uncovered, else the face
   * `reveal` left.
   */
  ghost predicate ClickSpec(b: Board, rows: nat, cols: nat, mines: int, first: bool, face: Face, p: Pos,
                            b': Board, first': bool, face': Face)
    requires IsGrid(b, rows, cols) && InBounds(rows, cols, p)
  {
    if b[p.r][p.c].state != Closed then
      b' == b && first' == first && face' == face
    else
      IsGrid(b', rows, cols) && !first' && Count(b', IsMine) == MinesLaid(mines) &&
      (first ==> AllAdjCorrect(b', rows, cols) &&
                 forall i, j :: 0 <= i < rows && 0 <= j < cols && InZone(p, Pos(i, j)) ==> !b'[i][j].mine) &&
      (!first ==> SameLayout(b, b', rows, cols)) &&
      var laid := WithLayout(b, b', rows, cols);
      (b'[p.r][p.c].mine ==> b' == Put(laid, p, laid[p.r][p.c].(state := Open))) &&
      (!b'[p.r][p.c].mine ==> Filled(laid, b', rows, cols, p)) &&
      face' == if AllSafeOpen(b') then Cool else if b'[p.r][p.c].mine then Dizzy else face
  }

  /** The facts `ClickCell` gathers, turned into `ClickSpec`. */
  lemma ClickFacts(b: Board, rows: nat, cols: nat, mines: int, first: bool, face: Face, p: Pos,
                   laid: Board, b1: Board, face1: Face, face': Face)
    requires IsGrid(b, rows, cols) && InBounds(rows, cols, p) && b[p.r][p.c].state == Closed
    requires IsGrid(laid, rows, cols) && Count(laid, IsMine) == MinesLaid(mines) && mines >= 1
    requires forall i, j :: 0 <= i < rows && 0 <= j < cols ==> laid[i][j].state == b[i][j].state
    requires first ==> AllAdjCorrect(laid, rows, cols) &&
                       forall i, j :: 0 <= i < rows && 0 <= j < cols && InZone(p, Pos(i, j)) ==> !laid[i][j].mine
    requires !first ==> laid == b
    requires IsGrid(b1, rows, cols) && RevealSpec(laid, rows, cols, face, p, b1, face1)
    requires face' == if SafeCountWon(b1, rows, cols, mines) then Cool else face1
    ensures ClickSpec(b, rows, cols, mines, first, face, p, b1, false, face')
  {
    if laid[p.r][p.c].mine {
      CountUpdate(laid, p, laid[p.r][p.c].(state := Open), IsMine);
    } else {
      FilledSettled(laid, b1, rows, cols, p);
    }
    assert SameLayout(laid, b1, rows, cols);
    LayoutKept(laid, b1, rows, cols);
    LayoutKeepsAdj(laid, b1, rows, cols);
    LaidIsWithLayout(b, laid, b1, rows, cols);
    SafeCountWonMeaning(b1, rows, cols, mines);
  }

  /**
   * `clickCell(cell)` on a cell of the board: ignored when flagged or
   * uncovered; the first click calls `placeMines` on it; then `reveal` and
   * `checkWin`.
   */
  method ClickCell(b: Board, rows: nat, cols: nat, mines: int, first: bool, face: Face, p: Pos, draws: seq<Pos>)
      returns (b': Board, first': bool, face': Face)
    requires ZeroSafe(b, rows, cols) && InBounds(rows, cols, p) && mines >= 1
    requires first ==> forall i, j :: 0 <= i < rows && 0 <= j < cols ==> !b[i][j].mine
    requires first ==> (forall k :: 0 <= k < |draws| ==> InBounds(rows, cols, draws[k])) && Fresh(draws, Square(p)) >= mines
    requires !first ==> Count(b, IsMine) == mines
    ensures IsGrid(b', rows, cols)
    ensures ClickSpec(b, rows, cols, mines, first, face, p, b', first', face')
  {
    if b[p.r][p.c].state != Closed {
      return b, first, face;
    }
    var laid := b;
    if first {
      laid := PlaceMines(b, rows, cols, mines, p, draws);
    }
    var b1, face1 := Reveal(laid, rows, cols, face, p);
    face' := CheckWin(b1, rows, cols, mines, face1);
    ClickFacts(b, rows, cols, mines, first, face, p, laid, b1, face1, face');
    b', first' := b1, false;
  }

  /**
   * The first loop of `chord(cell)` over the in-bounds 3x3 block: `f`
   * counts the flagged neighbours, `covered` lists the neighbours neither
   * flagged nor uncovered (the cell itself is uncovered, so it is in
   * neither).
   */
  method CollectAround(b: Board, rows: int, cols: int, p: Pos) returns (f: nat, covered: seq<Pos>)
    requires IsGrid(b, rows, cols) && InBounds(rows, cols, p) && b[p.r][p.c].state == Open
    ensures f == NeighbourMines(b, IsFlagged, rows, cols, p)
    ensures forall q :: q in covered ==> InBounds(rows, cols, q) && Adjacent(p, q) && b[q.r][q.c].state == Closed
    ensures forall q :: InBounds(rows, cols, q) && Adjacent(p, q) && b[q.r][q.c].state == Closed ==> q in covered
  {
    f, covered := 0, [];
    var k := 0;
    while k < |Block|
      invariant 0 <= k <= |Block| && Collected(b, rows, cols, p, k, f, covered)
    {
      var q := Shift(p, Block[k]);
      CollectStep(b, rows, cols, p, k, f, covered);
      if InBounds(rows, cols, q) {
        if b[q.r][q.c].state == Flagged {
          f := f + 1;
        } else if b[q.r][q.c].state != Open {
          covered := covered + [q];
        }
      }
      k := k + 1;
    }
    CollectDone(b, rows, cols, p, f, covered);
  }

  /** After the first k cells of the block: f flags counted, and the closed ones listed. */
  ghost predicate Collected(b: Board, rows: int, cols: int, p: Pos, k: int, f: int, covered: seq<Pos>)
    requires IsGrid(b, rows, cols) && 0 <= k <= |Block|
  {
    f == CountAround(b, IsFlagged, rows, cols, p, Block[..k]) &&
    (forall q :: q in covered ==> InBounds(rows, cols, q) && Adjacent(p, q) && b[q.r][q.c].state == Closed) &&
    (forall m :: (0 <= m < k && InBounds(rows, cols, Shift(p, Block[m])) &&
                  b[Shift(p, Block[m]).r][Shift(p, Block[m]).c].state == Closed) ==> Shift(p, Block[m]) in covered)
  }

  lemma CollectStep(b: Board, rows: int, cols: int, p: Pos, k: int, f: int, covered: seq<Pos>)
    requires IsGrid(b, rows, cols) && InBounds(rows, cols, p) && b[p.r][p.c].state == Open
    requires 0 <= k < |Block| && Collected(b, rows, cols, p, k, f, covered)
    ensures var q := Shift(p, Block[k]);
            var seen := InBounds(rows, cols, q);
            Collected(b, rows, cols, p, k + 1, f + (if seen && b[q.r][q.c].state == Flagged then 1 else 0),
                      covered + (if seen && b[q.r][q.c].state == Closed then [q] else []))
  {
    BlockInZone(p, k);
    assert Block[..k + 1][..k] == Block[..k];
  }

  lemma CollectDone(b: Board, rows: int, cols: int, p: Pos, f: int, covered: seq<Pos>)
    requires IsGrid(b, rows, cols) && Collected(b, rows, cols, p, |Block|, f, covered)
    ensures f == NeighbourMines(b, IsFlagged, rows, cols, p)
    ensures forall q :: InBounds(rows, cols, q) && Adjacent(p, q) && b[q.r][q.c].state == Closed ==> q in covered
  {
    assert Block[..|Block|] == Block;
    BlockCountsNeighbours(b, IsFlagged, rows, cols, p);
    forall q | InBounds(rows, cols, q) && Adjacent(p, q) && b[q.r][q.c].state == Closed ensures q in covered {
      var m := ZoneIsBlock(p, q);
    }
  }

  /** No covered (closed) neighbour of p holds a mine. */
  ghost predicate SafeCovered(b: Board, rows: int, cols: int, p: Pos) {
    IsGrid(b, rows, cols) &&
    forall q :: InBounds(rows, cols, q) && Adjacent(p, q) && b[q.r][q.c].state == Closed ==> !b[q.r][q.c].mine
  }

  /**
   * Part-way through `covered.forEach(c => reveal(c))`: only closed cells
   * were opened, each a neighbour of p or reached from one, and each
   * cascade was run to its end; every closed
   * neighbour is still to come; the face changed
   * only to 😵 and only with a mine uncovered, and it did change if a mine
   * was uncovered; if no covered neighbour was a mine, none is uncovered.
   */
  ghost predicate ChordInv(b: Board, b': Board, rows: int, cols: int, face: Face, p: Pos, todo: seq<Pos>, face': Face) {
    IsGrid(b', rows, cols) && OpensClosed(b, b', rows, cols) && ChordFrame(b, b', rows, cols, p) &&
    SafeSettled(b, b', rows, cols) &&
    (forall q :: q in todo ==> InBounds(rows, cols, q) && Adjacent(p, q) && b[q.r][q.c].state == Closed) &&
    (forall q :: InBounds(rows, cols, q) && Adjacent(p, q) && b'[q.r][q.c].state == Closed ==> q in todo) &&
    (face' == face || (face' == Dizzy && !NoOpenMine(b'))) &&
    (NoOpenMine(b) && !NoOpenMine(b') ==> face' == Dizzy) &&
    (NoOpenMine(b) && SafeCovered(b, rows, cols, p) ==> NoOpenMine(b'))
  }

  /**
   * One `reveal`: only closed cells open and the cell is no longer closed;
   * the face changes only to 😵 with a mine uncovered, and does change
   * when the first mine is uncovered; a safe cell uncovers no mine; what
   * changes is the cell or a cell its cascade reaches, and the cascade is
   * run to its end.
   */
  lemma RevealFacts(b: Board, rows: int, cols: int, face: Face, q: Pos, b': Board, face': Face)
    requires IsGrid(b, rows, cols) && InBounds(rows, cols, q) && IsGrid(b', rows, cols)
    requires RevealSpec(b, rows, cols, face, q, b', face')
    ensures OpensClosed(b, b', rows, cols) && b'[q.r][q.c].state == if b[q.r][q.c].state == Closed then Open else b[q.r][q.c].state
    ensures face' == face || (face' == Dizzy && !NoOpenMine(b'))
    ensures NoOpenMine(b) && !NoOpenMine(b') ==> face' == Dizzy
    ensures NoOpenMine(b) && !b[q.r][q.c].mine ==> NoOpenMine(b')
    ensures forall i, j :: 0 <= i < rows && 0 <= j < cols && b'[i][j].state != b[i][j].state ==>
              Pos(i, j) == q || Reach(b, rows, cols, q, Pos(i, j))
    ensures SafeSettled(b, b', rows, cols)
  {
    if b[q.r][q.c].state == Closed && b[q.r][q.c].mine {
      MineOpenSettled(b, rows, cols, q);
    }
    if b[q.r][q.c].state == Closed && !b[q.r][q.c].mine {
      FilledOpensClosed(b, b', rows, cols, q);
      FilledSettled(b, b', rows, cols, q);
      if NoOpenMine(b) {
        ReachNoMine(b, b', rows, cols, q);
      }
    }
  }

  /** Revealing the next listed cell keeps the invariant. */
  lemma ChordStep(b: Board, b': Board, rows: int, cols: int, face: Face, p: Pos, todo: seq<Pos>, face': Face,
                  b2: Board, face2: Face)
    requires ChordInv(b, b', rows, cols, face, p, todo, face') && todo != []
    requires IsGrid(b2, rows, cols) && RevealSpec(b', rows, cols, face', todo[0], b2, face2)
    ensures ChordInv(b, b2, rows, cols, face, p, todo[1..], face2)
  {
    var q := todo[0];
    RevealFacts(b', rows, cols, face', q, b2, face2);
    ChordFrameStep(b, b', b2, rows, cols, p, q);
    SettledTrans(b, b', b2, rows, cols);
    OpensClosedTrans(b, b', b2, rows, cols);
    TodoShrinks(b', b2, rows, cols, p, todo);
  }

  /** Once the first listed cell is no longer closed, the closed neighbours are all in the rest of the list. */
  lemma TodoShrinks(b1: Board, b2: Board, rows: int, cols: int, p: Pos, todo: seq<Pos>)
    requires OpensClosed(b1, b2, rows, cols) && todo != [] && InBounds(rows, cols, todo[0])
    requires b2[todo[0].r][todo[0].c].state != Closed
    requires forall q :: InBounds(rows, cols, q) && Adjacent(p, q) && b1[q.r][q.c].state == Closed ==> q in todo
    ensures forall q :: InBounds(rows, cols, q) && Adjacent(p, q) && b2[q.r][q.c].state == Closed ==> q in todo[1..]
  {
    forall y | InBounds(rows, cols, y) && Adjacent(p, y) && b2[y.r][y.c].state == Closed ensures y in todo[1..] {
      var m :| 0 <= m < |todo| && todo[m] == y;
      assert todo[1..][m - 1] == y;
    }
  }

  /** `covered.forEach(c => reveal(c))`. */
  method RevealAll(b: Board, rows: int, cols: int, face: Face, p: Pos, covered: seq<Pos>) returns (b': Board, face': Face)
    requires ZeroSafe(b, rows, cols)
    requires forall q :: q in covered ==> InBounds(rows, cols, q) && Adjacent(p, q) && b[q.r][q.c].state == Closed
    requires forall q :: InBounds(rows, cols, q) && Adjacent(p, q) && b[q.r][q.c].state == Closed ==> q in covered
    ensures ChordInv(b, b', rows, cols, face, p, [], face')
    ensures ChordFilled(b, b', rows, cols, p)
  {
    b', face' := b, face;
    var k := 0;
    while k < |covered|
      invariant 0 <= k <= |covered|
      invariant ChordInv(b, b', rows, cols, face, p, covered[k..], face')
    {
      LayoutKept(b, b', rows, cols);
      var b2, face2 := Reveal(b', rows, cols, face', covered[k]);
      ChordStep(b, b', rows, cols, face, p, covered[k..], face', b2, face2);
      assert covered[k..][1..] == covered[k + 1..];
      b', face' := b2, face2;
      k := k + 1;
    }
    assert covered[k..] == [];
    SettledChordFilled(b, b', rows, cols, p);
  }

  /** The chord fires on an uncovered number whose flagged neighbours are as many as it shows. */
  predicate Fires(b: Board, rows: int, cols: int, p: Pos)
    requires IsGrid(b, rows, cols) && InBounds(rows, cols, p)
  {
    b[p.r][p.c].state == Open && b[p.r][p.c].adj != 0 && NeighbourMines(b, IsFlagged, rows, cols, p) == b[p.r][p.c].adj
  }

  /**
   * What `chord(cell)` does: nothing unless it fires; then every closed
   * neighbour is revealed (only closed cells open, no mine moves, and
   * exactly the covered neighbours and the cells their cascades reach), and
   * `checkWin` runs. The face turns to 😵 only with a mine uncovered, and
   * does whenever the chord uncovers one, unless the board is then won.
   * When no covered neighbour is a mine, the chord uncovers no mine.
   */
  ghost predicate ChordSpec(b: Board, rows: nat, cols: nat, mines: int, face: Face, p: Pos, b': Board, face': Face)
    requires IsGrid(b, rows, cols) && InBounds(rows, cols, p)
  {
    if !Fires(b, rows, cols, p) then
      b' == b && face' == face
    else
      IsGrid(b', rows, cols) && OpensClosed(b, b', rows, cols) && ChordFrame(b, b', rows, cols, p) &&
      (forall q :: InBounds(rows, cols, q) && Adjacent(p, q) ==> b'[q.r][q.c].state != Closed) &&
      ChordFilled(b, b', rows, cols, p) &&
      (SafeCountWon(b', rows, cols, mines) ==> face' == Cool) &&
      (!SafeCountWon(b', rows, cols, mines) ==> (face' == face || (face' == Dizzy && !NoOpenMine(b')))) &&
      (!SafeCountWon(b', rows, cols, mines) && NoOpenMine(b) && !NoOpenMine(b') ==> face' == Dizzy) &&
      (NoOpenMine(b) && SafeCovered(b, rows, cols, p) ==> NoOpenMine(b'))
  }

  /** `chord(cell)`: count, then `covered.forEach(reveal)` and `checkWin` when the flags match. */
  method ChordCell(b: Board, rows: nat, cols: nat, mines: int, face: Face, p: Pos) returns (b': Board, face': Face)
    requires ZeroSafe(b, rows, cols) && InBounds(rows, cols, p)
    ensures IsGrid(b', rows, cols)
    ensures ChordSpec(b, rows, cols, mines, face, p, b', face')
  {
    if b[p.r][p.c].state != Open || b[p.r][p.c].adj == 0 {
      return b, face;
    }
    var f, covered := CollectAround(b, rows, cols, p);
    if f != b[p.r][p.c].adj {
      return b, face;
    }
    var b1, face1 := RevealAll(b, rows, cols, face, p, covered);
    face' := CheckWin(b1, rows, cols, mines, face1);
    b' := b1;
  }

  /**
   * Chording is safe when the flags are right: if the number is correct,
   * the flags around it are as many, and every one of them is on a mine,
   * then no covered neighbour is a mine.
   */
  lemma ChordCorrectFlagsSafe(b: Board, rows: int, cols: int, p: Pos)
    requires IsGrid(b, rows, cols) && InBounds(rows, cols, p)
    requires b[p.r][p.c].adj == Around(b, rows, cols, p)
    requires NeighbourMines(b, IsFlagged, rows, cols, p) == b[p.r][p.c].adj
    requires forall q :: InBounds(rows, cols, q) && Adjacent(p, q) && b[q.r][q.c].state == Flagged ==> b[q.r][q.c].mine
    ensures SafeCovered(b, rows, cols, p)
  {
    var flagged := MinedNeighbours(b, IsFlagged, rows, cols, p);
    var mined := MinedNeighbours(b, IsMine, rows, cols, p);
    NeighbourMinesIsCardinality(b, IsFlagged, rows, cols, p);
    NeighbourMinesIsCardinality(b, IsMine, rows, cols, p);
    assert flagged <= mined;
    SameSizeSubset(flagged, mined);
    forall q | InBounds(rows, cols, q) && Adjacent(p, q) && b[q.r][q.c].state == Closed ensures !b[q.r][q.c].mine {
      ZoneMembers(p, q);
      assert q !in flagged;
    }
  }

  /** A subset as large as its superset is all of it. */
  lemma SameSizeSubset<T>(a: set<T>, b: set<T>)
    requires a <= b && |a| == |b|
    ensures a == b
  {
    if x :| x in b && x !in a {
      SubsetAtMost(a, b - {x});
    }
  }

  /**
   * What the engine keeps between events. The board has `rows` x `cols`
   * cells and a 0 never has a mined neighbour; `flags` is the number of
   * flagged cells and the counter shows `max(0, mines - flags)`; before the
   * first click there is no mine and nothing uncovered, after it there are
   * exactly `mines` mines with true numbers; 🙂 means no mine has gone off
   * and 😎 that every safe cell is uncovered.
   */
  ghost predicate Consistent(b: Board, rows: int, cols: int, mines: int, first: bool, flags: int, face: Face, counter: int) {
    IsGrid(b, Dim(rows), Dim(cols)) && ZeroSafe(b, Dim(rows), Dim(cols)) && mines >= 1 &&
    flags == Count(b, IsFlagged) && counter == Counter(mines, flags) &&
    (first ==> forall i, j :: 0 <= i < Dim(rows) && 0 <= j < Dim(cols) ==> !b[i][j].mine && b[i][j].state != Open) &&
    (!first ==> Count(b, IsMine) == mines && AllAdjCorrect(b, Dim(rows), Dim(cols))) &&
    (face == Smiling ==> NoOpenMine(b)) &&
    (face == Cool ==> AllSafeOpen(b))
  }

  lemma ClickConsistent(b: Board, rows: int, cols: int, mines: int, first: bool, flags: int, face: Face, counter: int,
                        p: Pos, b': Board, first': bool, face': Face)
    requires Consistent(b, rows, cols, mines, first, flags, face, counter) && InBounds(rows, cols, p)
    requires ClickSpec(b, Dim(rows), Dim(cols), mines, first, face, p, b', first', face')
    ensures Consistent(b', rows, cols, mines, first', flags, face', counter)
  {
    if b[p.r][p.c].state == Closed {
      ClickClosed(b, Dim(rows), Dim(cols), mines, first, face, p, b', face');
    }
  }

  /** A click on a closed cell keeps the board, flag and face parts of `Consistent`. */
  lemma ClickClosed(b: Board, rows: nat, cols: nat, mines: int, first: bool, face: Face, p: Pos, b': Board, face': Face)
    requires IsGrid(b, rows, cols) && ZeroSafe(b, rows, cols) && InBounds(rows, cols, p) && b[p.r][p.c].state == Closed
    requires mines >= 1
    requires first ==> forall i, j :: 0 <= i < rows && 0 <= j < cols ==> !b[i][j].mine && b[i][j].state != Open
    requires !first ==> Count(b, IsMine) == mines && AllAdjCorrect(b, rows, cols)
    requires face == Smiling ==> NoOpenMine(b)
    requires face == Cool ==> AllSafeOpen(b)
    requires ClickSpec(b, rows, cols, mines, first, face, p, b', false, face')
    ensures IsGrid(b', rows, cols) && ZeroSafe(b', rows, cols)
    ensures Count(b', IsFlagged) == Count(b, IsFlagged)
    ensures Count(b', IsMine) == mines && AllAdjCorrect(b', rows, cols)
    ensures face' == Smiling ==> NoOpenMine(b')
    ensures face' == Cool ==> AllSafeOpen(b')
  {
    var laid := WithLayout(b, b', rows, cols);
    LaidFacts(b, b', rows, cols, first);
    CascadeFacts(laid, b', rows, cols, p);
    ClickFace(b, b', rows, cols, p, face, face');
    if first {
      AdjZeroSafe(b', rows, cols);
    } else {
      LayoutKept(b, b', rows, cols);
      LayoutKeepsAdj(b, b', rows, cols);
    }
  }

  /** 🙂 and 😎 keep their meaning through a click on a closed cell. */
  lemma ClickFace(b: Board, b': Board, rows: nat, cols: nat, p: Pos, face: Face, face': Face)
    requires IsGrid(b, rows, cols) && IsGrid(b', rows, cols) && InBounds(rows, cols, p) && b[p.r][p.c].state == Closed
    requires b[p.r][p.c].mine ==> b'[p.r][p.c].mine
    requires face == Cool ==> AllSafeOpen(b)
    requires face == Smiling && !b'[p.r][p.c].mine ==> NoOpenMine(b')
    requires face' == if AllSafeOpen(b') then Cool else if b'[p.r][p.c].mine then Dizzy else face
    ensures face' == Cool ==> AllSafeOpen(b')
    ensures face' == Smiling ==> NoOpenMine(b')
  {
  }

  /** The board a click's reveal starts from keeps b's flags, and no uncovered mine if b had none. */
  lemma LaidFacts(b: Board, b': Board, rows: nat, cols: nat, first: bool)
    requires IsGrid(b, rows, cols) && IsGrid(b', rows, cols)
    requires first ==> forall i, j :: 0 <= i < rows && 0 <= j < cols ==> b[i][j].state != Open
    requires !first ==> SameLayout(b, b', rows, cols)
    ensures SameLayout(WithLayout(b, b', rows, cols), b', rows, cols)
    ensures Count(WithLayout(b, b', rows, cols), IsFlagged) == Count(b, IsFlagged)
    ensures NoOpenMine(b) ==> NoOpenMine(WithLayout(b, b', rows, cols))
  {
    var laid := WithLayout(b, b', rows, cols);
    CountSame(laid, b, IsFlagged, IsFlagged);
  }

  /** Revealing a closed cell of a laid board: flags stay, and a safe cell uncovers no mine. */
  lemma CascadeFacts(laid: Board, b': Board, rows: nat, cols: nat, p: Pos)
    requires IsGrid(laid, rows, cols) && InBounds(rows, cols, p) && laid[p.r][p.c].state == Closed
    requires laid[p.r][p.c].mine ==> b' == Put(laid, p, laid[p.r][p.c].(state := Open))
    requires !laid[p.r][p.c].mine ==> Filled(laid, b', rows, cols, p)
    ensures Count(b', IsFlagged) == Count(laid, IsFlagged)
    ensures NoOpenMine(laid) && !laid[p.r][p.c].mine ==> NoOpenMine(b')
  {
    if laid[p.r][p.c].mine {
      CountUpdate(laid, p, laid[p.r][p.c].(state := Open), IsFlagged);
    } else {
      FilledSettled(laid, b', rows, cols, p);
      ReachKeepsFlags(laid, b', rows, cols, p);
      if NoOpenMine(laid) {
        ReachNoMine(laid, b', rows, cols, p);
      }
    }
  }

  lemma ChordConsistent(b: Board, rows: int, cols: int, mines: int, first: bool, flags: int, face: Face, counter: int,
                        p: Pos, b': Board, face': Face)
    requires Consistent(b, rows, cols, mines, first, flags, face, counter) && InBounds(rows, cols, p)
    requires ChordSpec(b, Dim(rows), Dim(cols), mines, face, p, b', face')
    ensures Consistent(b', rows, cols, mines, first, flags, face', counter)
  {
    var R, C := Dim(rows), Dim(cols);
    if Fires(b, R, C, p) {
      assert !first;
      LayoutKept(b, b', R, C);
      LayoutKeepsAdj(b, b', R, C);
      CountSame(b', b, IsFlagged, IsFlagged);
      ChordFace(b, b', R, C, mines, face, face');
    }
  }

  /** 🙂 and 😎 keep their meaning through a chord that fires. */
  lemma ChordFace(b: Board, b': Board, rows: nat, cols: nat, mines: int, face: Face, face': Face)
    requires OpensClosed(b, b', rows, cols) && Count(b', IsMine) == mines
    requires face == Cool ==> AllSafeOpen(b)
    requires face == Smiling ==> NoOpenMine(b)
    requires SafeCountWon(b', rows, cols, mines) ==> face' == Cool
    requires !SafeCountWon(b', rows, cols, mines) ==> (face' == face || (face' == Dizzy && !NoOpenMine(b')))
    requires !SafeCountWon(b', rows, cols, mines) && NoOpenMine(b) && !NoOpenMine(b') ==> face' == Dizzy
    ensures face' == Cool ==> AllSafeOpen(b')
    ensures face' == Smiling ==> NoOpenMine(b')
  {
    SafeCountWonMeaning(b', rows, cols, mines);
  }

  lemma ToggleConsistent(b: Board, rows: int, cols: int, mines: int, first: bool, flags: int, face: Face, counter: int, p: Pos)
    requires Consistent(b, rows, cols, mines, first, flags, face, counter) && InBounds(rows, cols, p)
    requires b[p.r][p.c].state != Open
    ensures var flags' := if b[p.r][p.c].state == Closed then flags + 1 else flags - 1;
            Consistent(FlipFlag(b, p), rows, cols, mines, first, flags', face, Counter(mines, flags'))
  {
    var R, C := Dim(rows), Dim(cols);
    FlipFlagFacts(b, R, C, p);
    LayoutKept(b, FlipFlag(b, p), R, C);
    LayoutKeepsAdj(b, FlipFlag(b, p), R, C);
  }

  /** A mark `gameOver(false)` puts on a cell. */
  datatype Mark = Plain | MineMark | WrongFlag

  /**
   * Buchka-Mykyta's `gameOver(false, explodedCell)`: the exploded cell is
   * skipped; a mine without a flag shows the bomb; a flag on a safe cell is
   * marked wrong; anything else is left as it is.
   */
  function BuchkaLossMark(c: Cell, exploded: bool): Mark {
    if exploded then Plain
    else if c.mine && c.state != Flagged then MineMark
    else if c.state == Flagged && !c.mine then WrongFlag
    else Plain
  }

  /** Zhukov-Danylo's `gameOver(false)`: every mine not uncovered, flagged or not, shows the bomb. */
  function ZhukovLossMark(c: Cell): Mark {
    if c.mine && c.state != Open then MineMark else Plain
  }

  /**
   * After a loss every mine is in view in both scripts: uncovered, marked
   * with the bomb, or (in Buchka-Mykyta's) still under its flag; a wrong
   * flag is marked only in Buchka-Mykyta's, and a flag on a mine only in
   * Zhukov-Danylo's gets the bomb. Off flagged cells and the exploded one,
   * the two agree.
   */
  lemma LossViews(c: Cell, exploded: bool)
    requires exploded ==> c.mine && c.state == Open
    ensures c.mine ==> c.state == Open || ZhukovLossMark(c) == MineMark
    ensures c.mine ==> c.state == Open || c.state == Flagged || BuchkaLossMark(c, exploded) == MineMark
    ensures BuchkaLossMark(c, exploded) == WrongFlag <==> c.state == Flagged && !c.mine
    ensures ZhukovLossMark(c) != WrongFlag
    ensures c.state == Flagged ==> (ZhukovLossMark(c) == MineMark <==> c.mine)
    ensures c.state != Flagged && !exploded && !(c.mine && c.state == Open) ==> BuchkaLossMark(c, exploded) == ZhukovLossMark(c)
  {
  }

  /**
   * `setControls` reads the counter off `mines - flags` before `newGame`
   * resets `flags`, so a new game starts showing the old game's flags
   * taken off: after one flag on a 10-mine game the new game shows 9.
   */
  function NewGameCounterAsWritten(mines: int, oldFlags: int): int {
    mines - oldFlags
  }

  lemma StaleCounter(mines: int, oldFlags: int)
    requires mines >= 1 && oldFlags >= 0
    ensures NewGameCounterAsWritten(mines, oldFlags) == Counter(mines, 0) <==> oldFlags == 0
    ensures NewGameCounterAsWritten(10, 1) == 9 != Counter(10, 0)
  {
  }

  /**
   * The page's state. Events name a cell of the board; `draws` stands for
   * the `Math.random` cell choices of the first click.
   */
  class Game {
    var rows: int
    var cols: int
    var mines: int
    var grid: Board
    var firstClick: bool
    var flags: int
    var face: Face
    /** The number the mine counter shows. */
    var counter: int

    ghost predicate Valid()
      reads this
    {
      Consistent(grid, rows, cols, mines, firstClick, flags, face, counter)
    }

    /** The script's load: inputs filled with the defaults, then `newGame()`. */
    constructor (rowsIn: int, colsIn: int, minesIn: int)
      ensures Valid()
      ensures rows == rowsIn && cols == colsIn && mines == ClampMines(rowsIn, colsIn, minesIn)
      ensures firstClick && flags == 0 && face == Smiling && counter == mines
      ensures forall i, j :: 0 <= i < Dim(rows) && 0 <= j < Dim(cols) ==> grid[i][j] == Blank
    {
      var m := ClampMines(rowsIn, colsIn, minesIn);
      var b := CreateBoard(Dim(rowsIn), Dim(colsIn));
      rows, cols, mines, grid := rowsIn, colsIn, m, b;
      firstClick, flags, face, counter := true, 0, Smiling, Counter(m, 0);
      CountNone(b, IsFlagged);
    }

    /**
     * `newGame()`: read and clamp the settings, an untouched board, no
     * flags, 🙂. The counter shows `mines`, with the old game's flags
     * reset first (see `NewGameCounterAsWritten`).
     */
    method NewGame(rowsIn: int, colsIn: int, minesIn: int)
      modifies this
      ensures Valid()
      ensures rows == rowsIn && cols == colsIn && mines == ClampMines(rowsIn, colsIn, minesIn)
      ensures firstClick && flags == 0 && face == Smiling && counter == mines
      ensures forall i, j :: 0 <= i < Dim(rows) && 0 <= j < Dim(cols) ==> grid[i][j] == Blank
    {
      var m := ClampMines(rowsIn, colsIn, minesIn);
      var b := CreateBoard(Dim(rowsIn), Dim(colsIn));
      rows, cols, mines, grid := rowsIn, colsIn, m, b;
      firstClick, flags, face, counter := true, 0, Smiling, Counter(m, 0);
      CountNone(b, IsFlagged);
    }

    /** A click on cell (r, c). */
    method Click(r: int, c: int, draws: seq<Pos>)
      requires Valid() && InBounds(rows, cols, Pos(r, c))
      requires firstClick ==> (forall k :: 0 <= k < |draws| ==> InBounds(rows, cols, draws[k])) &&
                              Fresh(draws, Square(Pos(r, c))) >= mines
      modifies this
      ensures Valid()
      ensures rows == old(rows) && cols == old(cols) && mines == old(mines) && flags == old(flags) && counter == old(counter)
      ensures ClickSpec(old(grid), rows, cols, mines, old(firstClick), old(face), Pos(r, c), grid, firstClick, face)
    {
      var b, first, f := ClickCell(grid, rows, cols, mines, firstClick, face, Pos(r, c), draws);
      grid, firstClick, face := b, first, f;
      ClickConsistent(old(grid), rows, cols, mines, old(firstClick), flags, old(face), counter, Pos(r, c), grid, firstClick, face);
    }

    /** A double click on cell (r, c). */
    method Chord(r: int, c: int)
      requires Valid() && InBounds(rows, cols, Pos(r, c))
      modifies this
      ensures Valid()
      ensures rows == old(rows) && cols == old(cols) && mines == old(mines) && flags == old(flags) && counter == old(counter)
      ensures firstClick == old(firstClick)
      ensures ChordSpec(old(grid), rows, cols, mines, old(face), Pos(r, c), grid, face)
    {
      var b, f := ChordCell(grid, rows, cols, mines, face, Pos(r, c));
      grid, face := b, f;
      ChordConsistent(old(grid), rows, cols, mines, firstClick, flags, old(face), counter, Pos(r, c), grid, face);
    }

    /**
     * `toggleFlag(cell)`: an uncovered cell is left alone; otherwise its
     * flag flips, `flags` moves by one with no cap, and the counter shows
     * `max(0, mines - flags)`.
     */
    method ToggleFlag(r: int, c: int)
      requires Valid() && InBounds(rows, cols, Pos(r, c))
      modifies this
      ensures Valid()
      ensures rows == old(rows) && cols == old(cols) && mines == old(mines)
      ensures firstClick == old(firstClick) && face == old(face)
      ensures grid == FlipFlag(old(grid), Pos(r, c))
      ensures flags == old(flags) + (match old(grid)[r][c].state case Closed => 1 case Flagged => -1 case Open => 0)
      ensures counter == Counter(mines, flags)
    {
      var p := Pos(r, c);
      if grid[r][c].state == Open {
        return;
      }
      var flags' := if grid[r][c].state == Closed then flags + 1 else flags - 1;
      grid, flags, counter := FlipFlag(grid, p), flags', Counter(mines, flags');
      ToggleConsistent(old(grid), rows, cols, mines, firstClick, old(flags), face, old(counter), p);
    }
  }
}
