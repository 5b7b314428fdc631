/**
 * minesweeper/script.js: a gridWidth x gridHeight board kept as one flat
 * array indexed `row * gridWidth + col`, mines laid on the first open
 * outside the clicked cell's 3x3 block, a breadth-first cascade, chording
 * on an open number, uncapped flags and a win test on the count of open
 * safe cells. The flat array is held here as rows of cells; `IndexOf` and
 * `PosOf` are the source's index arithmetic, proved to be inverse, and
 * every operation that takes a cell index converts it with `PosOf`.
 */
module Minesweeper {
  import opened Grid
  import opened Neighbours
  import opened Cells
  import opened Placement
  import opened Cascade
  import opened Recursion
  import opened FlatGrid
  import opened FlatCascade

  datatype Difficulty = Easy | Medium | Hard | Custom

  /** gridWidth, gridHeight and mineCount. */
  datatype Settings = Settings(width: int, height: int, mines: int)

  /** `clamp(value, min, max)`: `Math.min(max, Math.max(min, value))`. */
  function Clamp(value: int, lo: int, hi: int): (r: int)
    ensures r <= hi && (r == value || r == lo || r == hi)
    ensures lo <= hi ==> lo <= r && (lo <= value ==> r == if value < hi then value else hi)
  {
    var atLeast := if lo < value then value else lo;
    if atLeast < hi then atLeast else hi
  }

  /**
   * `+input.value || fallback`: an input that is not a number (None) or
   * reads as 0 falls back. Inputs are whole numbers here.
   */
  function OrDefault(input: Option<int>, fallback: int): int {
    if input.None? || input.value == 0 then fallback else input.value
  }

  /** The custom board size, as `applyDifficulty` clamps it. */
  function CustomSize(widthIn: Option<int>, heightIn: Option<int>): (wh: (int, int))
    ensures 5 <= wh.0 <= 40 && 5 <= wh.1 <= 30
  {
    (Clamp(OrDefault(widthIn, 10), 5, 40), Clamp(OrDefault(heightIn, 10), 5, 30))
  }

  /**
   * `applyDifficulty` as written: the three presets, or the custom inputs
   * clamped, with mines allowed up to every cell but one.
   */
  function ApplyDifficultyAsWritten(d: Difficulty, widthIn: Option<int>, heightIn: Option<int>, minesIn: Option<int>): (s: Settings)
    ensures 5 <= s.width <= 40 && 5 <= s.height <= 30
    ensures 1 <= s.mines < s.width * s.height
    ensures d == Custom && OrDefault(minesIn, 15) >= 1 ==> s.mines == if OrDefault(minesIn, 15) < s.width * s.height - 1
                                                                     then OrDefault(minesIn, 15) else s.width * s.height - 1
  {
    match d
    case Easy => Settings(9, 9, 10)
    case Medium => Settings(16, 16, 40)
    case Hard => Settings(30, 16, 99)
    case Custom =>
      var (w, h) := CustomSize(widthIn, heightIn);
      var maxMines := if 1 < w * h - 1 then w * h - 1 else 1;
      Settings(w, h, Clamp(OrDefault(minesIn, 15), 1, maxMines))
  }

  /**
   * `applyDifficulty` with the mine cap lowered to leave room for the
   * protected 3x3 block of the first click: at most every cell but nine.
   */
  function ApplyDifficulty(d: Difficulty, widthIn: Option<int>, heightIn: Option<int>, minesIn: Option<int>): (s: Settings)
    ensures 5 <= s.width <= 40 && 5 <= s.height <= 30
    ensures 1 <= s.mines <= s.width * s.height - 9
    ensures d != Custom ==> s == ApplyDifficultyAsWritten(d, widthIn, heightIn, minesIn)
    ensures d == Custom && 1 <= OrDefault(minesIn, 15) <= s.width * s.height - 9 ==>
              s == ApplyDifficultyAsWritten(d, widthIn, heightIn, minesIn)
  {
    match d
    case Easy => Settings(9, 9, 10)
    case Medium => Settings(16, 16, 40)
    case Hard => Settings(30, 16, 99)
    case Custom =>
      var (w, h) := CustomSize(widthIn, heightIn);
      assert 25 <= w * h by { RowsApart(4, h, w); RowsApart(4, w, 5); }
      Settings(w, h, Clamp(OrDefault(minesIn, 15), 1, w * h - 9))
  }

  /** `getNeighborIndices(cellIndex)`: the offset loop collecting the indices of in-bounds neighbours. */
  method NeighbourIndices(k: int, w: nat, h: nat) returns (ns: seq<int>)
    requires w > 0
    ensures ns == NeighbourIndexList(k, w, h)
  {
    var p := PosOf(k, w);
    var qs: seq<Pos> := [];
    ns := [];
    var m := 0;
    while m < |Offsets|
      invariant 0 <= m <= |Offsets|
      invariant qs == InBoundsShifts(h, w, p, Offsets[..m]) && ns == Indices(qs, w)
    {
      var q := Shift(p, Offsets[m]);
      assert Offsets[..m + 1][..m] == Offsets[..m];
      if InBounds(h, w, q) {
        qs := qs + [q];
        ns := ns + [IndexOf(q, w)];
      }
      m := m + 1;
    }
    assert Offsets[..m] == Offsets;
  }

  /**
   * With the settings `ApplyDifficulty` allows, the rejection loop of the
   * first click can always finish: the board outside the protected block
   * holds at least `mineCount` cells.
   */
  lemma FirstClickFits(d: Difficulty, widthIn: Option<int>, heightIn: Option<int>, minesIn: Option<int>, excluded: int)
    requires var s := ApplyDifficulty(d, widthIn, heightIn, minesIn); 0 <= excluded < s.width * s.height
    ensures var s := ApplyDifficulty(d, widthIn, heightIn, minesIn);
            |Range(s.width * s.height) - Forbidden(excluded, s.width, s.height)| >= s.mines
  {
    var s := ApplyDifficulty(d, widthIn, heightIn, minesIn);
    RoomOutsideBlock(excluded, s.width, s.height);
  }

  /**
   * The mine cap as written leaves too little room: a custom 5 x 5 board
   * with 24 mines is accepted, yet after a first click in the corner only
   * 21 cells lie outside the protected block, so no sequence of draws lets
   * the placement loop lay its 24th mine.
   */
  lemma CornerClickCannotPlace(s: Settings, draws: seq<int>)
    requires s == ApplyDifficultyAsWritten(Custom, Some(5), Some(5), Some(24))
    requires forall k :: 0 <= k < |draws| ==> 0 <= draws[k] < s.width * s.height
    ensures s == Settings(5, 5, 24)
    ensures Fresh(draws, Forbidden(0, s.width, s.height)) < s.mines
  {
    CornerSettings();
    CornerClickRoom(draws, s.width, s.height);
  }

  lemma CornerSettings()
    ensures ApplyDifficultyAsWritten(Custom, Some(5), Some(5), Some(24)) == Settings(5, 5, 24)
  {
    assert CustomSize(Some(5), Some(5)) == (5, 5);
  }

  /** A board as `newGame` leaves it: no mine, nothing open, every number 0 (flags may already be set). */
  predicate Untouched(b: Board, h: int, w: int) {
    IsGrid(b, h, w) &&
    forall i, j :: 0 <= i < h && 0 <= j < w ==> !b[i][j].mine && b[i][j].state != Open && b[i][j].adj == 0
  }

  /** After `placeMines`: a mine shows 0, every other cell its number of mined neighbours. */
  predicate Numbered(b: Board, h: int, w: int) {
    IsGrid(b, h, w) &&
    forall i, j :: 0 <= i < h && 0 <= j < w ==> b[i][j].adj == if b[i][j].mine then 0 else Around(b, h, w, Pos(i, j))
  }

  /**
   * The first loop of `placeMines`: take draws in order, skip a forbidden
   * index or one already mined, otherwise lay a mine there, until
   * `mineCount` are down.
   */
  method LayMines(b: Board, w: nat, h: nat, mines: int, forbidden: set<int>, draws: seq<int>) returns (b': Board)
    requires w > 0 && IsGrid(b, h, w)
    requires forall i, j :: 0 <= i < h && 0 <= j < w ==> !b[i][j].mine
    requires forall k :: 0 <= k < |draws| ==> 0 <= draws[k] < w * h
    requires Fresh(draws, forbidden) >= mines
    ensures IsGrid(b', h, w)
    ensures Count(b', IsMine) == MinesLaid(mines)
    ensures forall i, j :: 0 <= i < h && 0 <= j < w ==> b'[i][j].adj == b[i][j].adj && b'[i][j].state == b[i][j].state
    ensures forall i, j :: 0 <= i < h && 0 <= j < w && b'[i][j].mine ==>
              IndexOf(Pos(i, j), w) in draws && IndexOf(Pos(i, j), w) !in forbidden
  {
    b' := b;
    var placed := 0;
    var i := 0;
    CountNone(b, IsMine);
    while placed < mines
      invariant 0 <= i <= |draws| && placed <= MinesLaid(mines)
      invariant LaidFrom(b, b', w, h, forbidden, draws, i, placed)
      decreases |draws| - i
    {
      assert draws[..|draws|] == draws;
      var candidate := draws[i];
      var q := PosOf(candidate, w);
      LayStep(b, b', w, h, forbidden, draws, i, placed);
      if candidate in forbidden || b'[q.r][q.c].mine {
        // drawn again
      } else {
        b' := Put(b', q, b'[q.r][q.c].(mine := true));
        placed := placed + 1;
      }
      i := i + 1;
    }
    forall r, c | 0 <= r < h && 0 <= c < w && b'[r][c].mine ensures IndexOf(Pos(r, c), w) in draws {
      assert IndexOf(Pos(r, c), w) in draws[..i];
    }
  }

  /** After the first i draws: exactly the drawn cells outside `forbidden` are mined, `placed` of them. */
  ghost predicate LaidFrom(b: Board, b': Board, w: nat, h: nat, forbidden: set<int>, draws: seq<int>, i: int, placed: int)
    requires 0 <= i <= |draws|
  {
    IsGrid(b, h, w) && IsGrid(b', h, w) &&
    placed == Fresh(draws[..i], forbidden) == Count(b', IsMine) &&
    (forall r, c :: 0 <= r < h && 0 <= c < w ==>
       (b'[r][c].mine <==> IndexOf(Pos(r, c), w) in draws[..i] && IndexOf(Pos(r, c), w) !in forbidden)) &&
    forall r, c :: 0 <= r < h && 0 <= c < w ==> b'[r][c].adj == b[r][c].adj && b'[r][c].state == b[r][c].state
  }

  lemma LayStep(b: Board, b': Board, w: nat, h: nat, forbidden: set<int>, draws: seq<int>, i: int, placed: int)
    requires w > 0 && 0 <= i < |draws| && 0 <= draws[i] < w * h && LaidFrom(b, b', w, h, forbidden, draws, i, placed)
    ensures var q := PosOf(draws[i], w);
            InBounds(h, w, q) &&
            if draws[i] in forbidden || b'[q.r][q.c].mine then LaidFrom(b, b', w, h, forbidden, draws, i + 1, placed)
            else LaidFrom(b, Put(b', q, b'[q.r][q.c].(mine := true)), w, h, forbidden, draws, i + 1, placed + 1)
  {
    var candidate := draws[i];
    var q := PosOf(candidate, w);
    IndexRoundTrip(q, candidate, w, h);
    forall r, c | 0 <= r < h && 0 <= c < w ensures IndexOf(Pos(r, c), w) == candidate ==> Pos(r, c) == q {
      IndexRoundTrip(Pos(r, c), candidate, w, h);
    }
    assert draws[..i + 1] == draws[..i] + [candidate];
    assert draws[..i + 1][..i] == draws[..i];
    if !(candidate in forbidden || b'[q.r][q.c].mine) {
      CountUpdate(b', q, b'[q.r][q.c].(mine := true), IsMine);
    }
  }

  /**
   * The second loop of `placeMines`, over the flat indices: a mine gets 0,
   * any other cell the `reduce` over its neighbour list counting mines.
   */
  method NumberCells(b: Board, w: nat, h: nat) returns (b': Board)
    requires w > 0 && IsGrid(b, h, w)
    ensures IsGrid(b', h, w)
    ensures forall i, j :: 0 <= i < h && 0 <= j < w ==> b'[i][j].mine == b[i][j].mine && b'[i][j].state == b[i][j].state
    ensures forall i, j :: 0 <= i < h && 0 <= j < w ==> b'[i][j].adj == if b[i][j].mine then 0 else Around(b, h, w, Pos(i, j))
  {
    b' := b;
    var i := 0;
    while i < w * h
      invariant 0 <= i <= w * h
      invariant IsGrid(b', h, w)
      invariant forall r, c :: 0 <= r < h && 0 <= c < w ==> b'[r][c].mine == b[r][c].mine && b'[r][c].state == b[r][c].state
      invariant forall r, c :: 0 <= r < h && 0 <= c < w ==>
                  b'[r][c].adj == if IndexOf(Pos(r, c), w) < i then (if b[r][c].mine then 0 else Around(b, h, w, Pos(r, c)))
                                  else b[r][c].adj
    {
      var q := PosOf(i, w);
      IndexRoundTrip(q, i, w, h);
      forall r, c | 0 <= r < h && 0 <= c < w ensures IndexOf(Pos(r, c), w) == i ==> Pos(r, c) == q {
        IndexRoundTrip(Pos(r, c), i, w, h);
      }
      if b'[q.r][q.c].mine {
        b' := Put(b', q, b'[q.r][q.c].(adj := 0));
      } else {
        var ns := NeighbourIndices(i, w, h);
        CountAtNeighbours(b', IsMine, w, h, i);
        MinesSameAround(b, b', h, w, q);
        b' := Put(b', q, b'[q.r][q.c].(adj := CountAt(b', IsMine, w, h, ns)));
      }
      i := i + 1;
    }
    forall r, c | 0 <= r < h && 0 <= c < w ensures IndexOf(Pos(r, c), w) < w * h {
      IndexRoundTrip(Pos(r, c), 0, w, h);
    }
  }

  /** What `placeMines(excludedIndex)` leaves: the mines and numbers, visibility untouched. */
  ghost predicate Placed(b: Board, laid: Board, w: nat, h: nat, mines: int, excluded: int, draws: seq<int>)
    requires w > 0
  {
    IsGrid(b, h, w) && Numbered(laid, h, w) && Count(laid, IsMine) == MinesLaid(mines) &&
    forall i, j :: 0 <= i < h && 0 <= j < w ==>
      laid[i][j].state == b[i][j].state &&
      (laid[i][j].mine ==> IndexOf(Pos(i, j), w) in draws && IndexOf(Pos(i, j), w) !in Forbidden(excluded, w, h))
  }

  /** `placeMines(excludedIndex)`: the forbidden set, the rejection loop, then the numbering loop. */
  method PlaceMines(b: Board, w: nat, h: nat, mines: int, excluded: int, draws: seq<int>) returns (b': Board)
    requires w > 0 && IsGrid(b, h, w)
    requires forall i, j :: 0 <= i < h && 0 <= j < w ==> !b[i][j].mine
    requires forall k :: 0 <= k < |draws| ==> 0 <= draws[k] < w * h
    requires Fresh(draws, Forbidden(excluded, w, h)) >= mines
    ensures Placed(b, b', w, h, mines, excluded, draws)
  {
    var around := NeighbourIndices(excluded, w, h);
    var forbidden := {excluded} + Elems(around);
    var mined := LayMines(b, w, h, mines, forbidden, draws);
    b' := NumberCells(mined, w, h);
    CountSame(b', mined, IsMine, IsMine);
    forall p: Pos ensures Around(b', h, w, p) == Around(mined, h, w, p) {
      MinesSameAround(mined, b', h, w, p);
    }
  }

  /** No cell shows a negative count, as after `calculateNumbers`. */
  ghost predicate ShowsCounts(b: Board, h: nat, w: nat) {
    IsGrid(b, h, w) && forall i, j :: 0 <= i < h && 0 <= j < w ==> b[i][j].adj >= 0
  }

  /**
   * One neighbour in the `forEach` of a visit: skipped when open, flagged or
   * mined; otherwise opened, and queued when it shows 0. Either way it leaves
   * the list of neighbours still to look at.
   */
  method VisitOne(b: Board, w: nat, h: nat, queue: seq<int>, idx: int,
                  ghost b0: Board, ghost p: Pos, ghost x: Pos, ghost todo: seq<Pos>)
      returns (b': Board, queue': seq<int>)
    requires w > 0 && ShowsCounts(b0, h, w) && QueueInv(b0, b, w, h, p, queue, todo)
    requires Reach(b0, h, w, p, x) && Spreads(b0, x)
    requires 0 <= idx < w * h && Adjacent(x, PosOf(idx, w)) && todo != [] && todo[0] == PosOf(idx, w)
    ensures QueueInv(b0, b', w, h, p, queue', todo[1..])
    ensures Count(b', IsClosed) < Count(b, IsClosed) || (Count(b', IsClosed) == Count(b, IsClosed) && queue' == queue)
  {
    var q := PosOf(idx, w);
    IndexRoundTrip(q, idx, w, h);
    if b[q.r][q.c].state == Open || b[q.r][q.c].state == Flagged || b[q.r][q.c].mine {
      VisitDrop(b0, b, w, h, p, queue, todo);
      return b, queue;
    }
    VisitOpen(b0, b, w, h, p, queue, todo, x, q, idx);
    b' := Put(b, q, b[q.r][q.c].(state := Open));
    queue' := if b[q.r][q.c].adj > 0 then queue else queue + [idx];
    VisitDrop(b0, b', w, h, p, queue', todo);
  }

  /**
   * The visit of one dequeued cell: the `forEach` over its neighbour list.
   * Afterwards none of its neighbours is closed and safe.
   */
  method VisitNeighbours(b: Board, w: nat, h: nat, queue: seq<int>, cur: int, ghost b0: Board, ghost p: Pos)
      returns (b': Board, queue': seq<int>)
    requires w > 0 && ShowsCounts(b0, h, w) && 0 <= cur < w * h
    requires QueueInv(b0, b, w, h, p, queue, InBoundsShifts(h, w, PosOf(cur, w), Offsets))
    requires Reach(b0, h, w, p, PosOf(cur, w)) && Spreads(b0, PosOf(cur, w))
    ensures QueueInv(b0, b', w, h, p, queue', [])
    ensures Count(b', IsClosed) < Count(b, IsClosed) || (Count(b', IsClosed) == Count(b, IsClosed) && queue' == queue)
  {
    ghost var x := PosOf(cur, w);
    var ns := NeighbourIndices(cur, w, h);
    ghost var qs := InBoundsShifts(h, w, x, Offsets);
    assert |qs| == |ns| by {
      if |ns| == 0 {
        NeighbourIndexMeaning(cur, w, h);
      } else {
        NeighbourEntry(cur, w, h, 0);
      }
    }
    b', queue' := b, queue;
    var k := 0;
    while k < |ns|
      invariant 0 <= k <= |ns| == |qs|
      invariant QueueInv(b0, b', w, h, p, queue', qs[k..])
      invariant Count(b', IsClosed) < Count(b, IsClosed) || (Count(b', IsClosed) == Count(b, IsClosed) && queue' == queue)
    {
      NeighbourEntry(cur, w, h, k);
      assert qs[k..][1..] == qs[k + 1..];
      b', queue' := VisitOne(b', w, h, queue', ns[k], b0, p, x, qs[k..]);
      k := k + 1;
    }
    assert qs[k..] == [];
  }

  /**
   * The breadth-first cascade of `openCell` for a clicked cell showing 0,
   * already opened: the queue starts with the clicked index; each dequeued
   * cell has its neighbours visited. It ends with exactly the cells a
   * cascade from the click reaches opened.
   */
  method QueueFill(b: Board, w: nat, h: nat, idx: int, ghost b0: Board) returns (b': Board)
    requires w > 0 && Numbered(b0, h, w) && 0 <= idx < w * h
    requires Enterable(b0, h, w, PosOf(idx, w)) && Spreads(b0, PosOf(idx, w))
    requires b == Put(b0, PosOf(idx, w), b0[PosOf(idx, w).r][PosOf(idx, w).c].(state := Open))
    ensures Filled(b0, b', h, w, PosOf(idx, w))
  {
    ghost var p := PosOf(idx, w);
    assert ShowsCounts(b0, h, w);
    QueueStart(b0, b, w, h, idx);
    b' := b;
    var queue := [idx];
    while queue != []
      invariant QueueInv(b0, b', w, h, p, queue, [])
      decreases Count(b', IsClosed), |queue|
    {
      QueuePop(b0, b', w, h, p, queue);
      var current := queue[0];
      queue := queue[1..];
      b', queue := VisitNeighbours(b', w, h, queue, current, b0, p);
    }
    assert LocalClosed(b0, b', h, w);
    FillComplete(b0, b', h, w, p);
  }

  /** The numbers depend only on the mines, so a board with the same layout stays numbered. */
  lemma NumberedKept(b0: Board, b1: Board, h: int, w: int)
    requires SameLayout(b0, b1, h, w) && Numbered(b0, h, w)
    ensures Numbered(b1, h, w)
  {
    forall i, j | 0 <= i < h && 0 <= j < w ensures Around(b1, h, w, Pos(i, j)) == Around(b0, h, w, Pos(i, j)) {
      MinesSameAround(b0, b1, h, w, Pos(i, j));
    }
  }

  /**
   * What `openCell` at p does. Nothing once the game is over or on an open
   * or flagged cell. Otherwise the first open lays the mines (`laid` is the
   * board right after `placeMines`, or the board itself on later opens); a
   * mine is opened and ends the game; a safe cell opens its whole cascade
   * and the game ends exactly when `checkWin` counts every safe cell open.
   */
  ghost predicate OpenSpec(b: Board, w: nat, h: nat, mines: int, firstDone: bool, over: bool, p: Pos, draws: seq<int>,
                           b': Board, firstDone': bool, over': bool, laid: Board)
    requires w > 0 && IsGrid(b, h, w) && InBounds(h, w, p)
  {
    IsGrid(b', h, w) &&
    if over || b[p.r][p.c].state != Closed then
      b' == b && firstDone' == firstDone && over' == over && laid == b
    else
      firstDone' &&
      (if firstDone then laid == b else Placed(b, laid, w, h, mines, IndexOf(p, w), draws)) &&
      IsGrid(laid, h, w) &&
      if laid[p.r][p.c].mine then
        b' == Put(laid, p, laid[p.r][p.c].(state := Open)) && over'
      else
        Filled(laid, b', h, w, p) && (over' <==> SafeCountWon(b', h, w, mines))
  }

  /**
   * `openCell(cellIndex)`: the guard, `placeMines` on the first open, the
   * cell opened, the game lost on a mine, the cascade from a cell showing 0,
   * and `checkWin`.
   */
  method OpenCell(b: Board, w: nat, h: nat, mines: int, firstDone: bool, over: bool, idx: int, draws: seq<int>)
      returns (b': Board, firstDone': bool, over': bool, ghost laid: Board)
    requires w > 0 && IsGrid(b, h, w) && 0 <= idx < w * h
    requires firstDone ==> Numbered(b, h, w)
    requires !firstDone ==> (forall i, j :: 0 <= i < h && 0 <= j < w ==> !b[i][j].mine) &&
                            (forall k :: 0 <= k < |draws| ==> 0 <= draws[k] < w * h) &&
                            Fresh(draws, Forbidden(idx, w, h)) >= mines
    ensures InBounds(h, w, PosOf(idx, w)) &&
            OpenSpec(b, w, h, mines, firstDone, over, PosOf(idx, w), draws, b', firstDone', over', laid)
  {
    var p := PosOf(idx, w);
    IndexRoundTrip(p, idx, w, h);
    if b[p.r][p.c].state == Open || b[p.r][p.c].state == Flagged || over {
      return b, firstDone, over, b;
    }
    var cur := b;
    if !firstDone {
      cur := PlaceMines(b, w, h, mines, idx, draws);
    }
    firstDone' := true;
    laid := cur;
    var cell := cur[p.r][p.c];
    b' := Put(cur, p, cell.(state := Open));
    if cell.mine {
      return b', firstDone', true, laid;
    }
    if cell.adj > 0 {
      OpenNumbered(cur, h, w, p);
    } else {
      assert ShowsCounts(cur, h, w);
      b' := QueueFill(b', w, h, idx, cur);
    }
    var openedSafe := CountCells(b', h, w, OpenSafe);
    over' := openedSafe == w * h - mines;
  }

  /**
   * An open on a game already under way: only closed cells open; the cell
   * itself opens unless the game was over; a game that ends has a mine open
   * or every safe cell counted open; while it goes on no mine is open.
   */
  lemma OpenedKeeps(b: Board, w: nat, h: nat, mines: int, over: bool, p: Pos, draws: seq<int>,
                    b': Board, firstDone': bool, over': bool, laid: Board)
    requires w > 0 && IsGrid(b, h, w) && InBounds(h, w, p)
    requires OpenSpec(b, w, h, mines, true, over, p, draws, b', firstDone', over', laid)
    ensures OpensClosed(b, b', h, w)
    ensures over ==> b' == b && over'
    ensures !over ==> b'[p.r][p.c].state != Closed
    ensures over' && !over ==> !NoOpenMine(b') || SafeCountWon(b', h, w, mines)
    ensures !over' && NoOpenMine(b) ==> NoOpenMine(b')
  {
    if !over && b[p.r][p.c].state == Closed {
      if b[p.r][p.c].mine {
        assert b'[p.r][p.c].mine && b'[p.r][p.c].state == Open;
      } else {
        FilledOpensClosed(b, b', h, w, p);
        FilledSettled(b, b', h, w, p);
        if NoOpenMine(b) {
          ReachNoMine(b, b', h, w, p);
        }
      }
    }
  }

  /**
   * What the chord on the open number at p does. Nothing unless the game
   * goes on and the flags around p are as many as p shows. Then only
   * closed cells open, and only a neighbour of p or a cell the cascade
   * from one reaches; every cascade it started was run to its end; while
   * the game goes on no neighbour is left closed and every cell the
   * cascade from a neighbour reaches is open; a chord that opened
   * something ends the game when every safe cell is then counted open, and
   * ends it only so or with a mine open.
   */
  ghost predicate ChordSpec(b: Board, w: nat, h: nat, mines: int, over: bool, p: Pos, b': Board, over': bool)
    requires w > 0 && IsGrid(b, h, w) && InBounds(h, w, p)
  {
    var fires := !over && NeighbourMines(b, IsFlagged, h, w, p) == b[p.r][p.c].adj;
    IsGrid(b', h, w) && OpensClosed(b, b', h, w) && ChordFrame(b, b', h, w, p) && SafeSettled(b, b', h, w) &&
    (b' != b && SafeCountWon(b', h, w, mines) ==> over') &&
    (!fires ==> b' == b && over' == over) &&
    (fires && !over' ==> forall q :: InBounds(h, w, q) && Adjacent(p, q) ==> b'[q.r][q.c].state != Closed) &&
    (fires && !over' ==> ChordFilled(b, b', h, w, p)) &&
    (over' && !over ==> !NoOpenMine(b') || SafeCountWon(b', h, w, mines)) &&
    (!over' && NoOpenMine(b) ==> NoOpenMine(b'))
  }

  /**
   * Part-way through the chord around x: only closed cells opened, each a
   * neighbour of x or reached from one, and each cascade finished; nothing changed if the game was
   * already over; every closed neighbour is still in `todo`; once something
   * opened, every safe cell counted open means the game is over; a game
   * that ended has a mine open or every safe cell counted open; while it
   * goes on no mine is open.
   */
  ghost predicate ChordInv(b: Board, b': Board, w: nat, h: nat, mines: int, over: bool, x: Pos, todo: seq<Pos>, over': bool) {
    IsGrid(b', h, w) && OpensClosed(b, b', h, w) && ChordFrame(b, b', h, w, x) && SafeSettled(b, b', h, w) &&
    (b' != b && SafeCountWon(b', h, w, mines) ==> over') &&
    (over ==> b' == b && over') &&
    (!over && !over' ==> forall q :: InBounds(h, w, q) && Adjacent(x, q) && b'[q.r][q.c].state == Closed ==> q in todo) &&
    (over' && !over ==> !NoOpenMine(b') || SafeCountWon(b', h, w, mines)) &&
    (!over' && NoOpenMine(b) ==> NoOpenMine(b'))
  }

  /** A neighbour already open or flagged is passed over. */
  lemma ChordPass(b: Board, b': Board, w: nat, h: nat, mines: int, over: bool, x: Pos, todo: seq<Pos>, over': bool)
    requires ChordInv(b, b', w, h, mines, over, x, todo, over') && todo != []
    requires InBounds(h, w, todo[0]) && b'[todo[0].r][todo[0].c].state != Closed
    ensures ChordInv(b, b', w, h, mines, over, x, todo[1..], over')
  {
    forall y | !over && !over' && InBounds(h, w, y) && Adjacent(x, y) && b'[y.r][y.c].state == Closed
      ensures y in todo[1..]
    {
      var m :| 0 <= m < |todo| && todo[m] == y;
      assert todo[1..][m - 1] == y;
    }
  }

  /** A closed neighbour is handed to `openCell`. */
  lemma ChordOpen(b: Board, b': Board, w: nat, h: nat, mines: int, over: bool, x: Pos, todo: seq<Pos>, over': bool,
                  b2: Board, f2: bool, o2: bool, laid: Board)
    requires w > 0 && ChordInv(b, b', w, h, mines, over, x, todo, over') && todo != []
    requires InBounds(h, w, todo[0]) && Adjacent(x, todo[0]) && b'[todo[0].r][todo[0].c].state == Closed
    requires OpenSpec(b', w, h, mines, true, over', todo[0], [], b2, f2, o2, laid)
    ensures ChordInv(b, b2, w, h, mines, over, x, todo[1..], o2)
  {
    OpenedKeeps(b', w, h, mines, over', todo[0], [], b2, f2, o2, laid);
    ChordFrameStep(b, b', b2, h, w, x, todo[0]);
    if !over' {
      if b'[todo[0].r][todo[0].c].mine {
        MineOpenSettled(b', h, w, todo[0]);
      } else {
        FilledSafeSettled(b', b2, h, w, todo[0]);
      }
      SettledTrans(b, b', b2, h, w);
    }
    OpensClosedTrans(b, b', b2, h, w);
    forall y | !over && !o2 && InBounds(h, w, y) && Adjacent(x, y) && b2[y.r][y.c].state == Closed
      ensures y in todo[1..]
    {
      var m :| 0 <= m < |todo| && todo[m] == y;
      assert todo[1..][m - 1] == y;
    }
  }

  /**
   * `onChordClick(centerIndex)`: when the flags among the neighbours number
   * as many as the cell shows, `openCell` on every neighbour that is neither
   * flagged nor open (a call after the game ended returns at once).
   */
  method Chord(b: Board, w: nat, h: nat, mines: int, over: bool, center: int) returns (b': Board, over': bool)
    requires w > 0 && Numbered(b, h, w) && 0 <= center < w * h
    ensures InBounds(h, w, PosOf(center, w)) && ChordSpec(b, w, h, mines, over, PosOf(center, w), b', over')
  {
    var x := PosOf(center, w);
    IndexRoundTrip(x, center, w, h);
    var ns := NeighbourIndices(center, w, h);
    CountAtNeighbours(b, IsFlagged, w, h, center);
    var flagsAround := CountAt(b, IsFlagged, w, h, ns);
    if flagsAround != b[x.r][x.c].adj {
      return b, over;
    }
    ghost var qs := InBoundsShifts(h, w, x, Offsets);
    NeighbourListIsNeighbourhood(h, w, x);
    NeighbourIndexMeaning(center, w, h);
    b', over' := b, over;
    var k := 0;
    while k < |ns|
      invariant 0 <= k <= |ns| == |qs|
      invariant ChordInv(b, b', w, h, mines, over, x, qs[k..], over')
    {
      NeighbourEntry(center, w, h, k);
      var q := PosOf(ns[k], w);
      if b'[q.r][q.c].state == Closed {
        NumberedKept(b, b', h, w);
        var b2, f2, o2, laid := OpenCell(b', w, h, mines, true, over', ns[k], []);
        ChordOpen(b, b', w, h, mines, over, x, qs[k..], over', b2, f2, o2, laid);
        b', over' := b2, o2;
      } else {
        ChordPass(b, b', w, h, mines, over, x, qs[k..], over');
      }
      assert qs[k..][1..] == qs[k + 1..];
      k := k + 1;
    }
    assert qs[k..] == [];
    if !over' {
      SettledChordFilled(b, b', h, w, x);
    }
  }

  /** The state `newGame` and the clicks keep: what each part of the closure state means. */
  ghost predicate Consistent(b: Board, w: nat, h: nat, mines: int, firstDone: bool, over: bool, flags: int) {
    w > 0 && IsGrid(b, h, w) && mines >= 1 &&
    flags == Count(b, IsFlagged) &&
    (!firstDone ==> Untouched(b, h, w)) &&
    (firstDone ==> Numbered(b, h, w) && Count(b, IsMine) == mines) &&
    (!over ==> NoOpenMine(b))
  }

  /**
   * A real open, read at the level of the game: afterwards the mines are
   * laid; the first open never hits a mine; an open that does hit one ends
   * the game; a safe open uncovers the whole cascade from p and ends the
   * game exactly when every safe cell is open.
   */
  lemma OpenOutcome(b: Board, w: nat, h: nat, mines: int, firstDone: bool, flags: int, p: Pos, draws: seq<int>,
                    b': Board, firstDone': bool, over': bool, laid: Board)
    requires Consistent(b, w, h, mines, firstDone, false, flags) && InBounds(h, w, p) && b[p.r][p.c].state == Closed
    requires OpenSpec(b, w, h, mines, firstDone, false, p, draws, b', firstDone', over', laid)
    ensures firstDone' && Count(laid, IsMine) == mines
    ensures !firstDone ==> !laid[p.r][p.c].mine
    ensures laid[p.r][p.c].mine ==> over' && b'[p.r][p.c] == laid[p.r][p.c].(state := Open)
    ensures !laid[p.r][p.c].mine ==> Filled(laid, b', h, w, p) && (over' <==> AllSafeOpen(b'))
  {
    if !firstDone {
      assert IndexOf(p, w) in Forbidden(IndexOf(p, w), w, h);
    }
    if !laid[p.r][p.c].mine {
      LayoutKept(laid, b', h, w);
      SafeCountWonMeaning(b', h, w, mines);
    }
  }

  lemma OpenedConsistent(b: Board, w: nat, h: nat, mines: int, firstDone: bool, over: bool, flags: int, p: Pos,
                         draws: seq<int>, b': Board, firstDone': bool, over': bool, laid: Board)
    requires Consistent(b, w, h, mines, firstDone, over, flags) && InBounds(h, w, p)
    requires OpenSpec(b, w, h, mines, firstDone, over, p, draws, b', firstDone', over', laid)
    ensures Consistent(b', w, h, mines, firstDone', over', flags)
  {
    if !over && b[p.r][p.c].state == Closed {
      if !firstDone {
        CountSame(laid, b, IsFlagged, IsFlagged);
        assert NoOpenMine(laid);
      }
      if laid[p.r][p.c].mine {
        CountUpdate(laid, p, laid[p.r][p.c].(state := Open), IsFlagged);
        CountUpdate(laid, p, laid[p.r][p.c].(state := Open), IsMine);
        NumberedKept(laid, b', h, w);
      } else {
        FilledSettled(laid, b', h, w, p);
        ReachKeepsFlags(laid, b', h, w, p);
        ReachNoMine(laid, b', h, w, p);
        LayoutKept(laid, b', h, w);
        NumberedKept(laid, b', h, w);
      }
    }
  }

  lemma ChordedConsistent(b: Board, w: nat, h: nat, mines: int, over: bool, flags: int, p: Pos, b': Board, over': bool)
    requires Consistent(b, w, h, mines, true, over, flags) && InBounds(h, w, p)
    requires ChordSpec(b, w, h, mines, over, p, b', over')
    ensures Consistent(b', w, h, mines, true, over', flags)
  {
    NumberedKept(b, b', h, w);
    LayoutKept(b, b', h, w);
    CountSame(b', b, IsFlagged, IsFlagged);
  }

  /** `onLeftClick` on the game's values: a chord on an open safe number, an open otherwise. */
  method LeftClickOn(b: Board, w: nat, h: nat, mines: int, firstDone: bool, over: bool, flags: int, idx: int,
                     draws: seq<int>) returns (b': Board, firstDone': bool, over': bool)
    requires Consistent(b, w, h, mines, firstDone, over, flags) && 0 <= idx < w * h
    requires !firstDone ==> (forall k :: 0 <= k < |draws| ==> 0 <= draws[k] < w * h) &&
                            Fresh(draws, Forbidden(idx, w, h)) >= mines
    ensures Consistent(b', w, h, mines, firstDone', over', flags)
    ensures InBounds(h, w, PosOf(idx, w))
    ensures var p := PosOf(idx, w);
            var c := b[p.r][p.c];
            if c.state == Open && !c.mine && c.adj > 0 then
              firstDone && firstDone' && ChordSpec(b, w, h, mines, over, p, b', over')
            else
              exists laid :: OpenSpec(b, w, h, mines, firstDone, over, p, draws, b', firstDone', over', laid)
  {
    var p := PosOf(idx, w);
    IndexRoundTrip(p, idx, w, h);
    var c := b[p.r][p.c];
    if c.state == Open && !c.mine && c.adj > 0 {
      b', over' := Chord(b, w, h, mines, over, idx);
      firstDone' := firstDone;
      ChordedConsistent(b, w, h, mines, over, flags, p, b', over');
    } else {
      ghost var laid;
      b', firstDone', over', laid := OpenCell(b, w, h, mines, firstDone, over, idx, draws);
      OpenedConsistent(b, w, h, mines, firstDone, over, flags, p, draws, b', firstDone', over', laid);
    }
  }

  lemma ToggledConsistent(b: Board, w: nat, h: nat, mines: int, firstDone: bool, over: bool, flags: int, p: Pos)
    requires Consistent(b, w, h, mines, firstDone, over, flags) && InBounds(h, w, p)
    ensures var (b1, f1) := ToggleCounted(b, h, w, over, flags, p);
            Consistent(b1, w, h, mines, firstDone, over, f1)
  {
    ToggleCountedFacts(b, h, w, over, flags, p);
    FlipFlagFacts(b, h, w, p);
    var b1 := ToggleCounted(b, h, w, over, flags, p).0;
    LayoutKept(b, b1, h, w);
    if firstDone {
      NumberedKept(b, b1, h, w);
    }
  }

  /** A fresh board of the current size, as `initEmptyGrid` builds it. */
  method EmptyGrid(w: nat, h: nat) returns (b: Board)
    requires w > 0
    ensures Consistent(b, w, h, 1, false, false, 0)
    ensures forall i, j :: 0 <= i < h && 0 <= j < w ==> b[i][j] == Blank
  {
    b := CreateBoard(h, w);
    CountNone(b, IsFlagged);
  }

  /**
   * The closure state of minesweeper/script.js: gridWidth, gridHeight,
   * mineCount, grid, isFirstClickDone, isGameOver and placedFlags.
   */
  class Game {
    var width: nat
    var height: nat
    var mineCount: int
    var grid: Board
    var firstClickDone: bool
    var gameOver: bool
    var placedFlags: int

    ghost predicate Valid()
      reads this
    {
      5 <= width <= 40 && 5 <= height <= 30 && 1 <= mineCount <= width * height - 9 &&
      Consistent(grid, width, height, mineCount, firstClickDone, gameOver, placedFlags)
    }

    /** The start-up: `applyDifficulty()` then `newGame()`. */
    constructor (d: Difficulty, widthIn: Option<int>, heightIn: Option<int>, minesIn: Option<int>)
      ensures Valid()
      ensures Settings(width, height, mineCount) == ApplyDifficulty(d, widthIn, heightIn, minesIn)
      ensures !firstClickDone && !gameOver && placedFlags == 0
      ensures forall i, j :: 0 <= i < height && 0 <= j < width ==> grid[i][j] == Blank
    {
      var s := ApplyDifficulty(d, widthIn, heightIn, minesIn);
      var b := EmptyGrid(s.width, s.height);
      width, height, mineCount := s.width, s.height, s.mines;
      grid, firstClickDone, gameOver, placedFlags := b, false, false, 0;
    }

    /** `newGame()`: an empty board of the current size, no flags, mines not yet laid. */
    method NewGame()
      requires 5 <= width <= 40 && 5 <= height <= 30 && 1 <= mineCount <= width * height - 9
      modifies this
      ensures Valid()
      ensures width == old(width) && height == old(height) && mineCount == old(mineCount)
      ensures !firstClickDone && !gameOver && placedFlags == 0
      ensures forall i, j :: 0 <= i < height && 0 <= j < width ==> grid[i][j] == Blank
    {
      var b := EmptyGrid(width, height);
      grid, firstClickDone, gameOver, placedFlags := b, false, false, 0;
    }

    /** A change of difficulty or of a custom input: `applyDifficulty()` then `newGame()`. */
    method ChangeDifficulty(d: Difficulty, widthIn: Option<int>, heightIn: Option<int>, minesIn: Option<int>)
      modifies this
      ensures Valid()
      ensures Settings(width, height, mineCount) == ApplyDifficulty(d, widthIn, heightIn, minesIn)
      ensures !firstClickDone && !gameOver && placedFlags == 0
      ensures forall i, j :: 0 <= i < height && 0 <= j < width ==> grid[i][j] == Blank
    {
      var s := ApplyDifficulty(d, widthIn, heightIn, minesIn);
      width, height, mineCount := s.width, s.height, s.mines;
      NewGame();
    }

    /**
     * `onLeftClick`: a click on an open safe number chords; any other click
     * opens the cell. The draws feed `placeMines` on the first open and must
     * hold enough distinct cells outside the protected block.
     */
    method LeftClick(idx: int, draws: seq<int>)
      requires Valid() && 0 <= idx < width * height
      requires !firstClickDone ==> (forall k :: 0 <= k < |draws| ==> 0 <= draws[k] < width * height) &&
                                   Fresh(draws, Forbidden(idx, width, height)) >= mineCount
      modifies this
      ensures Valid()
      ensures width == old(width) && height == old(height) && mineCount == old(mineCount) && placedFlags == old(placedFlags)
      ensures InBounds(height, width, PosOf(idx, width))
      ensures var p := PosOf(idx, width);
              var c := old(grid)[p.r][p.c];
              if c.state == Open && !c.mine && c.adj > 0 then
                old(firstClickDone) && firstClickDone &&
                ChordSpec(old(grid), width, height, mineCount, old(gameOver), p, grid, gameOver)
              else
                exists laid :: OpenSpec(old(grid), width, height, mineCount, old(firstClickDone), old(gameOver), p, draws,
                                        grid, firstClickDone, gameOver, laid)
    {
      grid, firstClickDone, gameOver :=
        LeftClickOn(grid, width, height, mineCount, firstClickDone, gameOver, placedFlags, idx, draws);
    }

    /** `toggleFlag(cellIndex)`: the uncapped toggle with `placedFlags` kept in step. */
    method ToggleFlag(idx: int)
      requires Valid() && 0 <= idx < width * height
      modifies this
      ensures Valid()
      ensures width == old(width) && height == old(height) && mineCount == old(mineCount)
      ensures firstClickDone == old(firstClickDone) && gameOver == old(gameOver)
      ensures InBounds(height, width, PosOf(idx, width)) &&
              (grid, placedFlags) == ToggleCounted(old(grid), height, width, gameOver, old(placedFlags), PosOf(idx, width))
    {
      var p := PosOf(idx, width);
      IndexRoundTrip(p, idx, width, height);
      ToggledConsistent(grid, width, height, mineCount, firstClickDone, gameOver, placedFlags, p);
      var t := ToggleCounted(grid, height, width, gameOver, placedFlags, p);
      grid, placedFlags := t.0, t.1;
    }
  }
}
