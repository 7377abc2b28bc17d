/**
 * The win-line geometry of models.js (`_populateValidCoordSets`): for every
 * cell the engine precomputes up to five "coord sets", each a run of four
 * cells that starts at the cell itself and walks up, up-left, up-right, left
 * or right.  There are no downward runs.
 */
module WinLines {

  /** A board coordinate `[y, x]`: row 0 is the top row, column 0 the left one. */
  datatype Coord = Coord(row: int, col: int)

  /** The five walking directions, in the order the engine tries them. */
  datatype Direction = Up | UpLeft | UpRight | Left | Right

  const AllDirections: seq<Direction> := [Up, UpLeft, UpRight, Left, Right]

  function RowStep(d: Direction): int
  {
    match d
    case Up => -1
    case UpLeft => -1
    case UpRight => -1
    case Left => 0
    case Right => 0
  }

  function ColStep(d: Direction): int
  {
    match d
    case Up => 0
    case UpLeft => -1
    case UpRight => 1
    case Left => -1
    case Right => 1
  }

  /** The four cells that start at `c` and walk in direction `d`. */
  function Line(c: Coord, d: Direction): (l: seq<Coord>)
    ensures |l| == 4 && l[0] == c
  {
    var dr, dc := RowStep(d), ColStep(d);
    [c, Coord(c.row + dr, c.col + dc), Coord(c.row + 2 * dr, c.col + 2 * dc),
     Coord(c.row + 3 * dr, c.col + 3 * dc)]
  }

  lemma LineIsStraightFour(c: Coord, d: Direction)
    ensures var l := Line(c, d);
            StraightFour(l, RowStep(d), ColStep(d)) &&
            l[1].row - l[0].row == RowStep(d) && l[1].col - l[0].col == ColStep(d)
  {
  }

  predicate InBounds(c: Coord, width: int, height: int)
  {
    0 <= c.row < height && 0 <= c.col < width
  }

  predicate LineInBounds(l: seq<Coord>, width: int, height: int)
  {
    forall c :: c in l ==> InBounds(c, width, height)
  }

  /** The last cell of `Line(c, d)`. */
  function End(c: Coord, d: Direction): Coord
  {
    Coord(c.row + 3 * RowStep(d), c.col + 3 * ColStep(d))
  }

  /** The line from `c` in direction `d` lies on the board: its two ends do. */
  predicate Fits(c: Coord, d: Direction, width: int, height: int)
  {
    InBounds(c, width, height) && InBounds(End(c, d), width, height)
  }

  lemma LineFits(c: Coord, d: Direction, width: int, height: int)
    ensures LineInBounds(Line(c, d), width, height) <==> Fits(c, d, width, height)
  {
    var l := Line(c, d);
    assert l[0] in l && l[3] in l && l[3] == End(c, d);
    if Fits(c, d, width, height) {
      forall e | e in l ensures InBounds(e, width, height) {
        assert e == l[0] || e == l[1] || e == l[2] || e == l[3];
      }
    }
  }

  /**
   * `_populateValidCoordSets(y, x)`: each branch is the source's
   * "does this row / this cell exist" test on the board matrix.
   */
  function CoordSets(y: int, x: int, width: int, height: int): (sets: seq<seq<Coord>>)
    ensures |sets| <= 5
    ensures 0 <= y < height && 0 <= x < width && height < 4 && width < 4 ==> sets == []
  {
    var c := Coord(y, x);
    (if 0 <= y - 3 < height then
       (if 0 <= x < width then [Line(c, Up)] else [])
       + (if 0 <= x - 3 < width then [Line(c, UpLeft)] else [])
       + (if 0 <= x + 3 < width then [Line(c, UpRight)] else [])
     else [])
    + (if 0 <= x - 3 < width then [Line(c, Left)] else [])
    + (if 0 <= x + 3 < width then [Line(c, Right)] else [])
  }

  /**
   * The reference definition: walk the directions in the given order and keep
   * the line in each one that lies on the board.
   */
  function FittingLines(c: Coord, ds: seq<Direction>, width: int, height: int): seq<seq<Coord>>
  {
    if ds == [] then []
    else FittingLine(c, ds[0], width, height) + FittingLines(c, ds[1..], width, height)
  }

  function FittingLine(c: Coord, d: Direction, width: int, height: int): seq<seq<Coord>>
  {
    if Fits(c, d, width, height) then [Line(c, d)] else []
  }

  lemma {:induction false} FittingLinesMembers(c: Coord, ds: seq<Direction>, width: int, height: int, l: seq<Coord>)
    ensures l in FittingLines(c, ds, width, height) <==>
            exists d :: d in ds && l == Line(c, d) && Fits(c, d, width, height)
  {
    if ds != [] {
      FittingLinesMembers(c, ds[1..], width, height, l);
      if l == Line(c, ds[0]) && Fits(c, ds[0], width, height) {
        assert ds[0] in ds;
      }
      forall d | d in ds[1..] ensures d in ds {
      }
      forall d | d in ds && d != ds[0] ensures d in ds[1..] {
      }
    }
  }

  /**
   * Shape and order: for a cell on the board the coord sets are exactly the
   * on-board lines from that cell, in the order up, up-left, up-right, left,
   * right.
   */
  lemma CoordSetsAreFittingLines(y: int, x: int, width: int, height: int)
    requires InBounds(Coord(y, x), width, height)
    ensures CoordSets(y, x, width, height) == FittingLines(Coord(y, x), AllDirections, width, height)
  {
    var c := Coord(y, x);
    var up, ul, ur := FittingLine(c, Up, width, height), FittingLine(c, UpLeft, width, height),
                      FittingLine(c, UpRight, width, height);
    var le, ri := FittingLine(c, Left, width, height), FittingLine(c, Right, width, height);
    FittingLinesUnfold(c, width, height);
    BranchesAreFittingLines(y, x, width, height);
    if 0 <= y - 3 < height {
      Regroup(up, ul, ur, le, ri);
    } else {
      assert up == [] && ul == [] && ur == [];
    }
  }

  /** The reference definition written out for the five directions. */
  lemma FittingLinesUnfold(c: Coord, width: int, height: int)
    ensures FittingLines(c, AllDirections, width, height) ==
            FittingLine(c, Up, width, height) + (FittingLine(c, UpLeft, width, height) +
            (FittingLine(c, UpRight, width, height) + (FittingLine(c, Left, width, height) +
            FittingLine(c, Right, width, height))))
  {
    var r := FittingLine(c, Right, width, height);
    assert [Right] == [Right] + [];
    FittingLinesCons(c, Right, [], width, height);
    assert FittingLines(c, [Right], width, height) == r + [] == r;
    assert [Left, Right] == [Left] + [Right];
    FittingLinesCons(c, Left, [Right], width, height);
    assert [UpRight, Left, Right] == [UpRight] + [Left, Right];
    FittingLinesCons(c, UpRight, [Left, Right], width, height);
    assert [UpLeft, UpRight, Left, Right] == [UpLeft] + [UpRight, Left, Right];
    FittingLinesCons(c, UpLeft, [UpRight, Left, Right], width, height);
    assert AllDirections == [Up] + [UpLeft, UpRight, Left, Right];
    FittingLinesCons(c, Up, [UpLeft, UpRight, Left, Right], width, height);
  }

  lemma FittingLinesCons(c: Coord, d: Direction, ds: seq<Direction>, width: int, height: int)
    ensures FittingLines(c, [d] + ds, width, height) ==
            FittingLine(c, d, width, height) + FittingLines(c, ds, width, height)
  {
    assert ([d] + ds)[1..] == ds;
  }

  /** Each branch of the source's existence tests keeps the one line that fits. */
  lemma BranchesAreFittingLines(y: int, x: int, width: int, height: int)
    requires InBounds(Coord(y, x), width, height)
    ensures CoordSets(y, x, width, height) ==
            (if 0 <= y - 3 < height then
               FittingLine(Coord(y, x), Up, width, height) + FittingLine(Coord(y, x), UpLeft, width, height)
               + FittingLine(Coord(y, x), UpRight, width, height)
             else [])
            + FittingLine(Coord(y, x), Left, width, height) + FittingLine(Coord(y, x), Right, width, height)
    ensures !(0 <= y - 3 < height) ==>
            FittingLine(Coord(y, x), Up, width, height) == [] &&
            FittingLine(Coord(y, x), UpLeft, width, height) == [] &&
            FittingLine(Coord(y, x), UpRight, width, height) == []
  {
  }

  lemma Regroup<T>(a: seq<T>, b: seq<T>, c: seq<T>, d: seq<T>, e: seq<T>)
    ensures a + b + c + d + e == a + (b + (c + (d + e)))
  {
  }

  /**
   * Each coord set has four on-board cells, starts at the cell and steps one
   * unit in a single direction; conversely every such on-board line is one of
   * the coord sets.
   */
  lemma CoordSetsExactlyLines(y: int, x: int, width: int, height: int, l: seq<Coord>)
    requires InBounds(Coord(y, x), width, height)
    ensures l in CoordSets(y, x, width, height) <==>
            exists d :: l == Line(Coord(y, x), d) && LineInBounds(l, width, height)
  {
    CoordSetsAreFittingLines(y, x, width, height);
    FittingLinesMembers(Coord(y, x), AllDirections, width, height, l);
    forall d: Direction ensures d in AllDirections
      && (LineInBounds(Line(Coord(y, x), d), width, height) <==> Fits(Coord(y, x), d, width, height)) {
      LineFits(Coord(y, x), d, width, height);
    }
  }

  /** Every coord set of a cell starts at that cell. */
  lemma CoordSetStartsAtCell(y: int, x: int, width: int, height: int, l: seq<Coord>)
    requires l in CoordSets(y, x, width, height)
    ensures |l| == 4 && l[0] == Coord(y, x) && Coord(y, x) in l
  {
  }

  /** No coord set reaches below its own cell: every line runs up or sideways. */
  lemma CoordSetsNeverReachBelow(y: int, x: int, width: int, height: int)
    requires InBounds(Coord(y, x), width, height)
    ensures forall l, c :: l in CoordSets(y, x, width, height) && c in l ==> c.row <= y
  {
    forall l, c | l in CoordSets(y, x, width, height) && c in l ensures c.row <= y {
      CoordSetsExactlyLines(y, x, width, height, l);
    }
  }

  /**
   * The horizontal lines come in mirrored pairs: the left line of (y, x) is the
   * right line of (y, x - 3) read backwards, and both are coord sets.
   */
  lemma HorizontalMirror(y: int, x: int, width: int, height: int)
    requires InBounds(Coord(y, x), width, height) && x >= 3
    ensures Line(Coord(y, x), Left) in CoordSets(y, x, width, height)
    ensures Line(Coord(y, x - 3), Right) in CoordSets(y, x - 3, width, height)
    ensures forall k :: 0 <= k < 4 ==> Line(Coord(y, x), Left)[k] == Line(Coord(y, x - 3), Right)[3 - k]
  {
    assert LineInBounds(Line(Coord(y, x), Left), width, height);
    CoordSetsExactlyLines(y, x, width, height, Line(Coord(y, x), Left));
    assert LineInBounds(Line(Coord(y, x - 3), Right), width, height);
    CoordSetsExactlyLines(y, x - 3, width, height, Line(Coord(y, x - 3), Right));
  }

  // ---------------------------------------------------------------------
  // Coverage of every four-in-a-row

  /**
   * An independent description of a four-in-a-row: four cells, each one unit
   * step (dr, dc) from the one before, in any of the eight directions.
   */
  predicate StraightFour(l: seq<Coord>, dr: int, dc: int)
  {
    && |l| == 4
    && -1 <= dr <= 1 && -1 <= dc <= 1 && (dr != 0 || dc != 0)
    && l[1] == Coord(l[0].row + dr, l[0].col + dc)
    && l[2] == Coord(l[1].row + dr, l[1].col + dc)
    && l[3] == Coord(l[2].row + dr, l[2].col + dc)
  }

  /**
   * Coverage: every on-board four-in-a-row is, as a set of cells, a coord set
   * of one of its own cells, namely its lowest cell when it is vertical or
   * diagonal, and its first cell (the leftmost or the rightmost) when it is
   * horizontal.
   */
  lemma Coverage(l: seq<Coord>, dr: int, dc: int, width: int, height: int) returns (owner: nat, j: nat)
    requires StraightFour(l, dr, dc) && LineInBounds(l, width, height)
    ensures owner == (if dr > 0 then 3 else 0)
    ensures dr != 0 ==> forall c :: c in l ==> c.row <= l[owner].row
    ensures j < |CoordSets(l[owner].row, l[owner].col, width, height)|
    ensures forall c :: c in CoordSets(l[owner].row, l[owner].col, width, height)[j] <==> c in l
  {
    owner := if dr > 0 then 3 else 0;
    var o := l[owner];
    var d := DirectionFrom(l, dr, dc);
    var line := Line(o, d);
    SameCells(l, line, dr > 0);
    assert l[owner] in l;
    CoordSetsExactlyLines(o.row, o.col, width, height, line);
    var sets := CoordSets(o.row, o.col, width, height);
    j :| 0 <= j < |sets| && sets[j] == line;
  }

  /**
   * The direction a coord set takes to cover `l`: walking from its first cell
   * when it runs up or sideways, from its last cell (walking back) when it runs
   * down.
   */
  lemma DirectionFrom(l: seq<Coord>, dr: int, dc: int) returns (d: Direction)
    requires StraightFour(l, dr, dc)
    ensures dr > 0 ==> Line(l[3], d) == [l[3], l[2], l[1], l[0]]
    ensures dr <= 0 ==> Line(l[0], d) == l
  {
    d := if dr == 0 then (if dc < 0 then Left else Right)
         else if dc == 0 then Up
         else if dr * dc > 0 then UpLeft
         else UpRight;
  }

  lemma SameCells(l: seq<Coord>, line: seq<Coord>, reversed: bool)
    requires |l| == 4
    requires reversed ==> line == [l[3], l[2], l[1], l[0]]
    requires !reversed ==> line == l
    ensures forall c :: c in line <==> c in l
  {
  }
}
