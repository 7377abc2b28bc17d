/**
 * The board of models.js as a value: the `state` matrix of cells, the
 * `placedPieces` log, and the pure questions the engine asks about them
 * (where a drop lands, whether the top row is full, whether some placed
 * piece owns a coord set held entirely by one player).  The class `Game` in
 * models.dfy keeps these values in its fields and updates them in place.
 */
module Board {
  import opened WinLines

  datatype Option<T> = None | Some(value: T)

  /** A board cell `{value, validCoordSets}`; `value` is null or a player id. */
  datatype Cell = Cell(value: Option<string>, validCoordSets: seq<seq<Coord>>)

  type Grid = seq<seq<Cell>>

  /** `height` rows of `width` cells each. */
  predicate Shaped(s: Grid, width: int, height: int)
  {
    |s| == height && forall y :: 0 <= y < |s| ==> |s[y]| == width
  }

  predicate InGrid(s: Grid, c: Coord)
  {
    0 <= c.row < |s| && 0 <= c.col < |s[c.row]|
  }

  /** The cell at `c` holds player id `id`. */
  predicate Holds(s: Grid, c: Coord, id: string)
  {
    InGrid(s, c) && s[c.row][c.col].value == Some(id)
  }

  /** Every cell of `l` holds `id` (the `every` test of `_checkForGameEnd`). */
  predicate Held(s: Grid, l: seq<Coord>, id: string)
  {
    forall c :: c in l ==> Holds(s, c, id)
  }

  /** The matrix `_createGameState` builds: every cell empty, with its coord sets. */
  function NewGrid(width: nat, height: nat): (g: Grid)
    ensures Shaped(g, width, height)
    ensures forall y, x :: 0 <= y < height && 0 <= x < width ==> g[y][x].value.None?
  {
    seq(height, y => seq(width, x => Cell(None, CoordSets(y, x, width, height))))
  }

  /** `state[y][x].value = id` with every other cell untouched. */
  function Place(s: Grid, y: int, x: int, id: string): (t: Grid)
    requires InGrid(s, Coord(y, x))
    ensures |t| == |s| && |t[y]| == |s[y]|
    ensures Holds(t, Coord(y, x), id) && t[y][x].validCoordSets == s[y][x].validCoordSets
  {
    s[y := s[y][x := s[y][x].(value := Some(id))]]
  }

  /** The board with the piece at `c` taken back out: the board before that drop. */
  function Unplace(s: Grid, c: Coord): (t: Grid)
    ensures |t| == |s| && forall y :: 0 <= y < |s| ==> |t[y]| == |s[y]|
    ensures InGrid(s, c) ==> t[c.row][c.col].value.None?
  {
    if InGrid(s, c) then s[c.row := s[c.row][c.col := s[c.row][c.col].(value := None)]] else s
  }

  /** The first occupied row of column `col` at or below row `from`, or `height`. */
  function FirstOccupied(s: Grid, width: int, height: int, col: int, from: int): (r: int)
    requires Shaped(s, width, height) && 0 <= col < width && 0 <= from <= height
    ensures from <= r <= height
    ensures r < height ==> s[r][col].value.Some?
    ensures forall y :: from <= y < r ==> s[y][col].value.None?
    decreases height - from
  {
    if from == height then height
    else if s[from][col].value.Some? then from
    else FirstOccupied(s, width, height, col, from + 1)
  }

  /**
   * What `_findEmptyCellInColumn(col)` answers: nothing when the top cell is
   * taken, otherwise the row just above the first occupied cell met scanning
   * down from the top, or the bottom row when the column is empty.
   */
  function LandingRow(s: Grid, width: int, height: int, col: int): (r: Option<int>)
    requires Shaped(s, width, height) && 0 <= col < width && height >= 1
    ensures r.None? <==> ColumnFull(s, col)
    ensures r.Some? ==>
            && 0 <= r.value < height
            && s[r.value][col].value.None?
            && (r.value == height - 1 || s[r.value + 1][col].value.Some?)
  {
    if s[0][col].value.Some? then None else Some(FirstOccupied(s, width, height, col, 0) - 1)
  }

  /** The engine's notion of a full column: its top cell holds a piece. */
  predicate ColumnFull(s: Grid, col: int)
  {
    |s| > 0 && 0 <= col < |s[0]| && s[0][col].value.Some?
  }

  /** `state[0].every(cell => cell.value !== null)`. */
  predicate TopRowFull(s: Grid)
    requires |s| > 0
  {
    forall x :: 0 <= x < |s[0]| ==> s[0][x].value.Some?
  }

  /** Pieces rest on the bottom row or on another piece. */
  predicate Gravity(s: Grid, width: int, height: int)
    requires Shaped(s, width, height)
  {
    forall y, x :: 0 <= y < height - 1 && 0 <= x < width ==> Supported(s, y, x)
  }

  /** A piece at (y, x) has a piece under it. */
  predicate Supported(s: Grid, y: int, x: int)
    requires 0 <= y < |s| - 1 && 0 <= x < |s[y]| && 0 <= x < |s[y + 1]|
  {
    s[y][x].value.Some? ==> s[y + 1][x].value.Some?
  }

  /** Every cell carries the coord sets `_populateValidCoordSets` gave it. */
  predicate CellsHaveCoordSets(s: Grid, width: int, height: int)
    requires Shaped(s, width, height)
  {
    forall y, x :: 0 <= y < height && 0 <= x < width ==>
      s[y][x].validCoordSets == CoordSets(y, x, width, height)
  }

  /** `placedPieces` lists every occupied cell exactly once, and nothing else. */
  predicate PlacedMatches(s: Grid, placed: seq<Coord>, width: int, height: int)
    requires Shaped(s, width, height)
  {
    && (forall i :: 0 <= i < |placed| ==>
          InBounds(placed[i], width, height) && s[placed[i].row][placed[i].col].value.Some?)
    && (forall i, j :: 0 <= i < j < |placed| ==> placed[i] != placed[j])
    && (forall y, x :: 0 <= y < height && 0 <= x < width && s[y][x].value.Some? ==>
          Coord(y, x) in placed)
  }

  /** The part of the invariant the win lemmas use: shape, coord sets, and a log of on-board cells. */
  predicate Anchored(s: Grid, placed: seq<Coord>, width: int, height: int)
  {
    && Shaped(s, width, height)
    && CellsHaveCoordSets(s, width, height)
    && forall i :: 0 <= i < |placed| ==> InBounds(placed[i], width, height)
  }

  predicate BoardInvariant(s: Grid, placed: seq<Coord>, width: int, height: int)
  {
    && Shaped(s, width, height)
    && CellsHaveCoordSets(s, width, height)
    && Gravity(s, width, height)
    && PlacedMatches(s, placed, width, height)
  }

  /** The empty cells, which every successful drop makes fewer. */
  ghost function OpenCells(s: Grid, width: int, height: int): set<Coord>
    requires Shaped(s, width, height)
  {
    set y, x | 0 <= y < height && 0 <= x < width && s[y][x].value.None? :: Coord(y, x)
  }

  // ---------------------------------------------------------------------
  // The win scan of `_checkForGameEnd`

  /** The first of `sets` held entirely by `id`. */
  function FirstHeld(s: Grid, sets: seq<seq<Coord>>, id: string): (r: Option<seq<Coord>>)
    ensures r.Some? ==> r.value in sets && Held(s, r.value, id)
  {
    if sets == [] then None
    else if Held(s, sets[0], id) then Some(sets[0])
    else FirstHeld(s, sets[1..], id)
  }

  /** Scanning the placed pieces in order, the first coord set held by `id`. */
  function FirstWin(s: Grid, placed: seq<Coord>, id: string): (r: Option<seq<Coord>>)
    ensures r.Some? ==> Held(s, r.value, id)
  {
    if placed == [] then None
    else
      var p := placed[0];
      var here := if InGrid(s, p) then FirstHeld(s, s[p.row][p.col].validCoordSets, id) else None;
      if here.Some? then here else FirstWin(s, placed[1..], id)
  }

  /** The placed piece `p` owns a coord set held entirely by `id`. */
  ghost predicate PieceWins(s: Grid, p: Coord, id: string)
  {
    InGrid(s, p) && exists l :: l in s[p.row][p.col].validCoordSets && Held(s, l, id)
  }

  ghost predicate Wins(s: Grid, placed: seq<Coord>, id: string)
  {
    exists p :: p in placed && PieceWins(s, p, id)
  }

  datatype GameEnd = Tie | Won(line: seq<Coord>) | Continue

  /**
   * The verdict of `_checkForGameEnd` after a piece of `id` was placed: the
   * tie test on the top row comes first, the win scan second.
   */
  function EndOfGame(s: Grid, placed: seq<Coord>, id: string): (e: GameEnd)
    requires |s| > 0
    ensures e == Tie <==> TopRowFull(s)
    ensures e.Won? ==> !TopRowFull(s) && Held(s, e.line, id)
  {
    if TopRowFull(s) then Tie
    else match FirstWin(s, placed, id)
      case Some(l) => Won(l)
      case None => Continue
  }

  // ---------------------------------------------------------------------
  // Lemmas: the fresh board

  /** `_createGameState` yields a board that satisfies the invariant. */
  lemma NewGridInvariant(width: nat, height: nat)
    ensures BoardInvariant(NewGrid(width, height), [], width, height)
    ensures height >= 1 ==> (TopRowFull(NewGrid(width, height)) <==> width == 0)
  {
    var s: Grid := NewGrid(width, height);
    if height >= 1 && width >= 1 {
      assert s[0][0].value.None?;
    }
  }

  // ---------------------------------------------------------------------
  // Lemmas: landing rows and gravity

  /**
   * Under gravity the landing row is the lowest empty cell of the column:
   * every cell at or above it is empty and every cell below it is occupied;
   * there is none exactly when the whole column is occupied.
   */
  lemma LandingIsLowestEmpty(s: Grid, width: int, height: int, col: int)
    requires Shaped(s, width, height) && Gravity(s, width, height)
    requires 0 <= col < width && height >= 1
    ensures LandingRow(s, width, height, col).None? <==>
            forall y :: 0 <= y < height ==> s[y][col].value.Some?
    ensures LandingRow(s, width, height, col).Some? ==>
            var r := LandingRow(s, width, height, col).value;
            0 <= r < height && forall y :: 0 <= y < height ==> (s[y][col].value.None? <==> y <= r)
  {
    if s[0][col].value.Some? {
      forall y | 0 <= y < height ensures s[y][col].value.Some? {
        OccupiedDownTo(s, width, height, col, y);
      }
    } else {
      var f := FirstOccupied(s, width, height, col, 0);
      forall y | f <= y < height ensures s[y][col].value.Some? {
        OccupiedBelow(s, width, height, col, f, y);
      }
    }
  }

  /** Gravity carries an occupied cell all the way down. */
  lemma {:induction false} OccupiedBelow(s: Grid, width: int, height: int, col: int, y0: int, y: int)
    requires Shaped(s, width, height) && Gravity(s, width, height) && 0 <= col < width
    requires 0 <= y0 <= y < height && s[y0][col].value.Some?
    ensures s[y][col].value.Some?
    decreases y - y0
  {
    if y > y0 {
      OccupiedBelow(s, width, height, col, y0, y - 1);
      assert Supported(s, y - 1, col);
    }
  }

  lemma OccupiedDownTo(s: Grid, width: int, height: int, col: int, y: int)
    requires Shaped(s, width, height) && Gravity(s, width, height) && 0 <= col < width
    requires 0 <= y < height && s[0][col].value.Some?
    ensures s[y][col].value.Some?
  {
    OccupiedBelow(s, width, height, col, 0, y);
  }

  /**
   * The coupling the tie test relies on: with gravity, a full top row means a
   * full board, so the engine's tie test on row 0 is a full-board test.
   */
  lemma TopRowFullMeansBoardFull(s: Grid, width: int, height: int)
    requires Shaped(s, width, height) && Gravity(s, width, height) && height >= 1
    requires TopRowFull(s)
    ensures forall y, x :: 0 <= y < height && 0 <= x < width ==> s[y][x].value.Some?
  {
    forall y, x | 0 <= y < height && 0 <= x < width ensures s[y][x].value.Some? {
      OccupiedDownTo(s, width, height, x, y);
    }
  }

  /** An empty column lands a piece on the bottom row. */
  lemma EmptyColumnLandsAtBottom(s: Grid, width: int, height: int, col: int)
    requires Shaped(s, width, height) && 0 <= col < width && height >= 1
    requires forall y :: 0 <= y < height ==> s[y][col].value.None?
    ensures LandingRow(s, width, height, col) == Some(height - 1)
  {
  }

  /**
   * Successive drops: after a piece lands on row r, the next one in that
   * column lands on row r - 1, and after row 0 the column is full; the other
   * columns answer as before.
   */
  lemma DropThenLanding(s: Grid, width: int, height: int, col: int, r: int, id: string, other: int)
    requires Shaped(s, width, height) && Gravity(s, width, height)
    requires 0 <= col < width && height >= 1 && 0 <= other < width
    requires LandingRow(s, width, height, col) == Some(r)
    ensures InGrid(s, Coord(r, col)) && Shaped(Place(s, r, col, id), width, height)
    ensures LandingRow(Place(s, r, col, id), width, height, col) == if r == 0 then None else Some(r - 1)
    ensures other != col ==>
            LandingRow(Place(s, r, col, id), width, height, other) == LandingRow(s, width, height, other)
  {
    LandingIsLowestEmpty(s, width, height, col);
    var t: Grid := Place(s, r, col, id);
    if r > 0 {
      FirstOccupiedAt(t, width, height, col, 0, r);
    }
    if other != col && t[0][other].value.None? {
      FirstOccupiedSameColumn(s, t, width, height, other, 0);
    }
  }

  lemma {:induction false} FirstOccupiedAt(s: Grid, width: int, height: int, col: int, from: int, r: int)
    requires Shaped(s, width, height) && 0 <= col < width && 0 <= from <= r < height
    requires s[r][col].value.Some? && forall y :: from <= y < r ==> s[y][col].value.None?
    ensures FirstOccupied(s, width, height, col, from) == r
    decreases r - from
  {
    if from < r {
      FirstOccupiedAt(s, width, height, col, from + 1, r);
    }
  }

  lemma {:induction false} FirstOccupiedSameColumn(s: Grid, t: Grid, width: int, height: int, col: int, from: int)
    requires Shaped(s, width, height) && Shaped(t, width, height) && 0 <= col < width && 0 <= from <= height
    requires forall y :: 0 <= y < height ==> s[y][col] == t[y][col]
    ensures FirstOccupied(s, width, height, col, from) == FirstOccupied(t, width, height, col, from)
    decreases height - from
  {
    if from < height {
      FirstOccupiedSameColumn(s, t, width, height, col, from + 1);
    }
  }

  /** A full column stays full, and placing a piece fills at most its own column. */
  lemma PlaceKeepsColumnsFull(s: Grid, y: int, x: int, id: string, col: int)
    requires InGrid(s, Coord(y, x))
    ensures ColumnFull(s, col) ==> ColumnFull(Place(s, y, x, id), col)
    ensures col != x ==> (ColumnFull(Place(s, y, x, id), col) <==> ColumnFull(s, col))
  {
  }

  /** A drop at the landing row keeps gravity and keeps the log matching the board. */
  lemma DropPreservesInvariant(s: Grid, placed: seq<Coord>, width: int, height: int, col: int, id: string)
    requires BoardInvariant(s, placed, width, height)
    requires 0 <= col < width && height >= 1 && LandingRow(s, width, height, col).Some?
    ensures var r := LandingRow(s, width, height, col).value;
            InGrid(s, Coord(r, col)) &&
            BoardInvariant(Place(s, r, col, id), placed + [Coord(r, col)], width, height)
  {
    var r := LandingRow(s, width, height, col).value;
    LandingIsLowestEmpty(s, width, height, col);
    DropKeepsGravity(s, width, height, col, r, id);
    DropKeepsLog(s, placed, width, height, r, col, id);
    PlaceKeepsCoordSets(s, width, height, r, col, id);
  }

  /** Taking a piece back out of an empty cell that got it restores the board. */
  lemma UnplacePlace(s: Grid, y: int, x: int, id: string)
    requires InGrid(s, Coord(y, x)) && s[y][x].value.None?
    ensures Unplace(Place(s, y, x, id), Coord(y, x)) == s
  {
    var u := Unplace(Place(s, y, x, id), Coord(y, x));
    assert u[y] == s[y];
  }

  lemma PlaceKeepsCoordSets(s: Grid, width: int, height: int, r: int, col: int, id: string)
    requires Shaped(s, width, height) && CellsHaveCoordSets(s, width, height)
    requires InBounds(Coord(r, col), width, height)
    ensures Shaped(Place(s, r, col, id), width, height)
    ensures CellsHaveCoordSets(Place(s, r, col, id), width, height)
  {
    var t: Grid := Place(s, r, col, id);
    forall y, x | 0 <= y < height && 0 <= x < width
      ensures t[y][x].validCoordSets == CoordSets(y, x, width, height)
    {
      assert t[y][x].validCoordSets == s[y][x].validCoordSets;
    }
  }

  lemma DropKeepsGravity(s: Grid, width: int, height: int, col: int, r: int, id: string)
    requires Shaped(s, width, height) && Gravity(s, width, height) && 0 <= col < width
    requires 0 <= r < height && s[r][col].value.None?
    requires r + 1 < height ==> s[r + 1][col].value.Some?
    ensures Shaped(Place(s, r, col, id), width, height)
    ensures Gravity(Place(s, r, col, id), width, height)
  {
    var t: Grid := Place(s, r, col, id);
    forall y, x | 0 <= y < height - 1 && 0 <= x < width
      ensures Supported(t, y, x)
    {
      assert Supported(s, y, x);
      if x == col && y == r {
        assert t[y + 1][x] == s[y + 1][x];
      } else if x == col && y + 1 == r {
        assert s[y][x].value.None?;
      } else {
        assert t[y][x] == s[y][x] && t[y + 1][x] == s[y + 1][x];
      }
    }
  }

  lemma DropKeepsLog(s: Grid, placed: seq<Coord>, width: int, height: int, r: int, col: int, id: string)
    requires Shaped(s, width, height) && PlacedMatches(s, placed, width, height)
    requires InBounds(Coord(r, col), width, height) && s[r][col].value.None?
    ensures Shaped(Place(s, r, col, id), width, height)
    ensures PlacedMatches(Place(s, r, col, id), placed + [Coord(r, col)], width, height)
  {
    var t: Grid := Place(s, r, col, id);
    var placed' := placed + [Coord(r, col)];
    assert Coord(r, col) !in placed by {
      forall i | 0 <= i < |placed| ensures placed[i] != Coord(r, col) {
      }
    }
    forall i | 0 <= i < |placed'|
      ensures InBounds(placed'[i], width, height) && t[placed'[i].row][placed'[i].col].value.Some?
    {
      if i < |placed| {
        assert placed'[i] == placed[i];
      }
    }
    forall i, j | 0 <= i < j < |placed'| ensures placed'[i] != placed'[j] {
      if j == |placed| {
        assert placed'[i] in placed;
      }
    }
    forall y, x | 0 <= y < height && 0 <= x < width && t[y][x].value.Some?
      ensures Coord(y, x) in placed'
    {
      if y != r || x != col {
        assert s[y][x].value.Some?;
        assert Coord(y, x) in placed;
      }
    }
  }

  /** A successful drop removes exactly one cell from the empty ones. */
  lemma PlaceShrinksOpen(s: Grid, width: int, height: int, r: int, col: int, id: string)
    requires Shaped(s, width, height) && InBounds(Coord(r, col), width, height)
    requires s[r][col].value.None?
    ensures Shaped(Place(s, r, col, id), width, height)
    ensures OpenCells(Place(s, r, col, id), width, height) == OpenCells(s, width, height) - {Coord(r, col)}
    ensures Coord(r, col) in OpenCells(s, width, height)
  {
    var t: Grid := Place(s, r, col, id);
    assert Coord(r, col) in OpenCells(s, width, height);
    forall c | c in OpenCells(t, width, height)
      ensures c in OpenCells(s, width, height) - {Coord(r, col)}
    {
      var y, x :| 0 <= y < height && 0 <= x < width && t[y][x].value.None? && c == Coord(y, x);
      assert s[y][x].value.None?;
    }
    forall c | c in OpenCells(s, width, height) - {Coord(r, col)}
      ensures c in OpenCells(t, width, height)
    {
      var y, x :| 0 <= y < height && 0 <= x < width && s[y][x].value.None? && c == Coord(y, x);
      assert t[y][x].value.None?;
    }
  }

  /**
   * A piece of `id` completes no coord set of another player `other`: every
   * coord set runs through its own cell, so one that `other` holds after the
   * drop belongs to a piece already placed and was held before it.
   */
  lemma DropKeepsOthersLost(s: Grid, placed: seq<Coord>, width: int, height: int, r: int, col: int,
                            id: string, other: string)
    requires Anchored(s, placed, width, height)
    requires InBounds(Coord(r, col), width, height) && s[r][col].value.None? && id != other
    ensures Wins(Place(s, r, col, id), placed + [Coord(r, col)], other) ==> Wins(s, placed, other)
  {
    var t := Place(s, r, col, id);
    if Wins(t, placed + [Coord(r, col)], other) {
      var p :| p in placed + [Coord(r, col)] && PieceWins(t, p, other);
      assert InBounds(p, width, height) by {
        if p != Coord(r, col) {
          var i :| 0 <= i < |placed| && placed[i] == p;
        }
      }
      PieceWinsBeforeDrop(s, width, height, r, col, id, other, p);
      assert p in placed;
    }
  }

  /** A coord set of `other` owned by `p` after a piece of `id` was dropped: `p` is not the new piece and held it before. */
  lemma PieceWinsBeforeDrop(s: Grid, width: int, height: int, r: int, col: int, id: string, other: string, p: Coord)
    requires Shaped(s, width, height) && CellsHaveCoordSets(s, width, height)
    requires InBounds(Coord(r, col), width, height) && InBounds(p, width, height) && id != other
    requires PieceWins(Place(s, r, col, id), p, other)
    ensures p != Coord(r, col) && PieceWins(s, p, other)
  {
    var t: Grid := Place(s, r, col, id);
    var l :| l in t[p.row][p.col].validCoordSets && Held(t, l, other);
    assert l in CoordSets(p.row, p.col, width, height) by {
      assert t[p.row][p.col].validCoordSets == s[p.row][p.col].validCoordSets;
    }
    CoordSetStartsAtCell(p.row, p.col, width, height, l);
    assert p != Coord(r, col) by {
      assert Holds(t, p, other);
    }
    forall e | e in l ensures Holds(s, e, other) {
      assert Holds(t, e, other);
    }
  }

  // ---------------------------------------------------------------------
  // Lemmas: the win scan

  lemma {:induction false} FirstHeldSpec(s: Grid, sets: seq<seq<Coord>>, id: string)
    ensures FirstHeld(s, sets, id).Some? ==>
            FirstHeld(s, sets, id).value in sets && Held(s, FirstHeld(s, sets, id).value, id)
    ensures FirstHeld(s, sets, id).None? <==> forall l :: l in sets ==> !Held(s, l, id)
  {
    if sets != [] {
      FirstHeldSpec(s, sets[1..], id);
      assert forall l :: l in sets[1..] ==> l in sets;
      assert forall l :: l in sets ==> l == sets[0] || l in sets[1..];
    }
  }

  /**
   * The win scan finds a line exactly when some placed piece owns a coord set
   * held entirely by `id`, and what it finds is such a set.
   */
  lemma {:induction false} FirstWinSpec(s: Grid, placed: seq<Coord>, id: string)
    ensures FirstWin(s, placed, id).Some? <==> Wins(s, placed, id)
    ensures FirstWin(s, placed, id).Some? ==>
            var l := FirstWin(s, placed, id).value;
            Held(s, l, id) && exists p :: p in placed && InGrid(s, p) && l in s[p.row][p.col].validCoordSets
  {
    if placed != [] {
      var p := placed[0];
      var rest := placed[1..];
      FirstWinSpec(s, rest, id);
      assert p in placed;
      assert forall q :: q in rest ==> q in placed;
      assert forall q :: q in placed ==> q == p || q in rest;
      assert Wins(s, placed, id) <==> PieceWins(s, p, id) || Wins(s, rest, id);
      if InGrid(s, p) {
        var sets := s[p.row][p.col].validCoordSets;
        FirstHeldSpec(s, sets, id);
        if FirstHeld(s, sets, id).Some? {
          assert PieceWins(s, p, id);
        } else {
          assert !PieceWins(s, p, id);
        }
      } else {
        assert !PieceWins(s, p, id);
      }
    }
  }

  /** The tie test comes first; a win is reported only on a top row with a gap. */
  lemma EndOfGameCases(s: Grid, placed: seq<Coord>, id: string)
    requires |s| > 0
    ensures EndOfGame(s, placed, id) == Tie <==> TopRowFull(s)
    ensures EndOfGame(s, placed, id).Won? <==> !TopRowFull(s) && Wins(s, placed, id)
    ensures EndOfGame(s, placed, id).Won? ==> Held(s, EndOfGame(s, placed, id).line, id)
    ensures EndOfGame(s, placed, id) == Continue <==> !TopRowFull(s) && !Wins(s, placed, id)
  {
    FirstWinSpec(s, placed, id);
  }

  /** What the win scan reports is an on-board four-in-a-row held by `id`. */
  lemma WinIsStraightFour(s: Grid, placed: seq<Coord>, width: int, height: int, id: string)
    requires BoardInvariant(s, placed, width, height)
    requires FirstWin(s, placed, id).Some?
    ensures var l := FirstWin(s, placed, id).value;
            |l| == 4 && StraightFour(l, l[1].row - l[0].row, l[1].col - l[0].col) &&
            LineInBounds(l, width, height) && Held(s, l, id)
  {
    FirstWinSpec(s, placed, id);
    var l := FirstWin(s, placed, id).value;
    var p :| p in placed && InGrid(s, p) && l in s[p.row][p.col].validCoordSets;
    assert InBounds(p, width, height);
    assert s[p.row][p.col].validCoordSets == CoordSets(p.row, p.col, width, height);
    CoordSetsExactlyLines(p.row, p.col, width, height, l);
    var d :| l == Line(Coord(p.row, p.col), d) && LineInBounds(l, width, height);
    LineIsStraightFour(Coord(p.row, p.col), d);
  }

  /**
   * Conversely, every on-board four-in-a-row held by `id`, in any of the
   * eight directions, is found by the scan over the placed pieces.
   */
  lemma StraightFourIsWin(s: Grid, placed: seq<Coord>, width: int, height: int, id: string,
                          l: seq<Coord>, dr: int, dc: int)
    requires BoardInvariant(s, placed, width, height)
    requires StraightFour(l, dr, dc) && LineInBounds(l, width, height) && Held(s, l, id)
    ensures FirstWin(s, placed, id).Some?
  {
    var owner, j := Coverage(l, dr, dc, width, height);
    var o := l[owner];
    assert o in l;
    var line := CoordSets(o.row, o.col, width, height)[j];
    assert Held(s, line, id);
    assert Holds(s, o, id);
    assert o in placed;
    assert line in s[o.row][o.col].validCoordSets;
    assert PieceWins(s, o, id);
    FirstWinSpec(s, placed, id);
  }
}
