/** Grid geometry shared by the engine: the interior of the board, adjacency and the scan table. */
module Grid {
  import opened Tiles

  /** The neighbour scan order the engine uses, as two parallel offset tables. */
  const DROWS: seq<int> := [0, 1, -1, 0, 1, -1, 1, -1]
  const DCOLS: seq<int> := [1, 0, 0, -1, 1, -1, -1, 1]

  /** `isValid`: strictly inside the wall ring of a width x height grid. */
  predicate Interior(width: int, height: int, x: int, y: int) {
    x > 0 && y > 0 && x < width - 1 && y < height - 1
  }

  predicate InBounds(width: int, height: int, x: int, y: int) {
    0 <= x < width && 0 <= y < height
  }

  /** (a, b) is one of the eight cells touching (x, y). */
  predicate Adjacent(x: int, y: int, a: int, b: int) {
    (a, b) != (x, y) && -1 <= a - x <= 1 && -1 <= b - y <= 1
  }

  /** The i-th neighbour of (x, y) in scan order. */
  function Neighbour(x: int, y: int, i: int): (int, int)
    requires 0 <= i < 8
  {
    (x + DROWS[i], y + DCOLS[i])
  }

  /** An interior cell lies on the board and off its border. */
  lemma InteriorIsInBounds(width: int, height: int, x: int, y: int)
    ensures Interior(width, height, x, y) <==>
      InBounds(width, height, x, y) && x != 0 && y != 0 && x != width - 1 && y != height - 1
  {
  }

  /** Every entry of the scan table is an adjacent cell. */
  lemma ScanTableAdjacent(x: int, y: int)
    ensures forall i | 0 <= i < 8 :: Adjacent(x, y, Neighbour(x, y, i).0, Neighbour(x, y, i).1)
  {
  }

  /** No cell appears twice in the scan table. */
  lemma ScanTableDistinct(x: int, y: int)
    ensures forall i, j | 0 <= i < j < 8 :: Neighbour(x, y, i) != Neighbour(x, y, j)
  {
    assert DROWS == [0, 1, -1, 0, 1, -1, 1, -1] && DCOLS == [1, 0, 0, -1, 1, -1, -1, 1];
  }

  /** Every adjacent cell appears in the scan table. */
  lemma ScanTableCovers(x: int, y: int)
    ensures forall a, b | Adjacent(x, y, a, b) :: exists i | 0 <= i < 8 :: Neighbour(x, y, i) == (a, b)
  {
    forall a, b | Adjacent(x, y, a, b)
      ensures exists i | 0 <= i < 8 :: Neighbour(x, y, i) == (a, b)
    {
      var i := if a - x == 0 && b - y == 1 then 0
        else if a - x == 1 && b - y == 0 then 1
        else if a - x == -1 && b - y == 0 then 2
        else if a - x == 0 && b - y == -1 then 3
        else if a - x == 1 && b - y == 1 then 4
        else if a - x == -1 && b - y == -1 then 5
        else if a - x == 1 && b - y == -1 then 6
        else 7;
      assert Neighbour(x, y, i) == (a, b);
    }
  }

  /** The cells of the rectangle [x0, x1) x [y0, y1). */
  ghost function Rect(x0: int, x1: int, y0: int, y1: int): set<(int, int)> {
    set x, y | x0 <= x < x1 && y0 <= y < y1 :: (x, y)
  }

  /** Every cell of a width x height grid. */
  ghost function Positions(width: int, height: int): set<(int, int)> {
    set x, y | 0 <= x < width && 0 <= y < height :: (x, y)
  }

  ghost function Column(x: int, y0: int, y1: int): set<(int, int)> {
    set y | y0 <= y < y1 :: (x, y)
  }

  lemma {:induction false} ColumnCard(x: int, y0: int, y1: int)
    requires y0 <= y1
    ensures |Column(x, y0, y1)| == y1 - y0
    decreases y1 - y0
  {
    if y0 == y1 {
      assert Column(x, y0, y1) == {};
    } else {
      ColumnCard(x, y0 + 1, y1);
      assert Column(x, y0, y1) == {(x, y0)} + Column(x, y0 + 1, y1);
    }
  }

  /** A rectangle of (x1 - x0) columns and (y1 - y0) rows has that many cells. */
  lemma {:induction false} RectCard(x0: int, x1: int, y0: int, y1: int)
    requires x0 <= x1 && y0 <= y1
    ensures |Rect(x0, x1, y0, y1)| == (x1 - x0) * (y1 - y0)
    decreases x1 - x0
  {
    if x0 == x1 {
      assert Rect(x0, x1, y0, y1) == {};
    } else {
      RectCard(x0 + 1, x1, y0, y1);
      ColumnCard(x0, y0, y1);
      assert Rect(x0, x1, y0, y1) == Column(x0, y0, y1) + Rect(x0 + 1, x1, y0, y1);
      assert Column(x0, y0, y1) !! Rect(x0 + 1, x1, y0, y1);
      assert (x1 - x0) * (y1 - y0) == (y1 - y0) + (x1 - (x0 + 1)) * (y1 - y0);
    }
  }

  /** How many interior cells a width x height board has. */
  function InteriorSize(width: int, height: int): nat {
    if width > 2 && height > 2 then (width - 2) * (height - 2) else 0
  }

  ghost function InteriorCells(width: int, height: int): set<(int, int)> {
    set x, y | 0 < x < width - 1 && 0 < y < height - 1 :: (x, y)
  }

  /** The interior has exactly InteriorSize cells. */
  lemma InteriorCellsCard(width: int, height: int)
    ensures |InteriorCells(width, height)| == InteriorSize(width, height)
  {
    if width > 2 && height > 2 {
      assert InteriorCells(width, height) == Rect(1, width - 1, 1, height - 1);
      RectCard(1, width - 1, 1, height - 1);
    } else {
      assert InteriorCells(width, height) == {};
    }
  }

  /** A subset of a finite set has no more elements than the set. */
  lemma {:induction false} SubsetCard<T>(a: set<T>, b: set<T>)
    requires a <= b
    ensures |a| <= |b|
    decreases |a|
  {
    if a != {} {
      var e :| e in a;
      SubsetCard(a - {e}, b - {e});
    }
  }

  /** The kitten cells adjacent to (x, y), among a given set of kitten cells. */
  ghost function KittenNeighbours(kit: set<(int, int)>, width: int, height: int, x: int, y: int): set<(int, int)> {
    set p | p in kit && Adjacent(x, y, p.0, p.1) && Interior(width, height, p.0, p.1)
  }

  /** At most eight kittens can touch a cell. */
  lemma KittenNeighboursAtMostEight(kit: set<(int, int)>, width: int, height: int, x: int, y: int)
    ensures |KittenNeighbours(kit, width, height, x, y)| <= 8
  {
    var ring := {(x + 1, y), (x - 1, y), (x, y + 1), (x, y - 1),
                 (x + 1, y + 1), (x + 1, y - 1), (x - 1, y + 1), (x - 1, y - 1)};
    SubsetCard(KittenNeighbours(kit, width, height, x, y), ring);
  }

  /** The code a reveal writes into an unrevealed, kitten-free cell: its count of neighbouring kittens, or EMPTY. */
  ghost function RevealCode(kit: set<(int, int)>, width: int, height: int, x: int, y: int): int {
    var n := |KittenNeighbours(kit, width, height, x, y)|;
    if n > 0 then n else EMPTY
  }

  lemma RevealCodeRange(kit: set<(int, int)>, width: int, height: int, x: int, y: int)
    ensures var r := RevealCode(kit, width, height, x, y);
      (1 <= r <= 8 && r == |KittenNeighbours(kit, width, height, x, y)|)
      || (r == EMPTY && KittenNeighbours(kit, width, height, x, y) == {})
  {
    KittenNeighboursAtMostEight(kit, width, height, x, y);
  }

  /** The neighbours scanned among the first i directions that are interior kitten cells. */
  ghost function Scanned(kit: set<(int, int)>, width: int, height: int, x: int, y: int, i: int): set<(int, int)>
    requires 0 <= i <= 8
  {
    set j | 0 <= j < i && Interior(width, height, Neighbour(x, y, j).0, Neighbour(x, y, j).1)
                       && Neighbour(x, y, j) in kit :: Neighbour(x, y, j)
  }

  /** Scanning one more direction adds that neighbour exactly when it is an interior kitten, and it is new. */
  lemma ScannedStep(kit: set<(int, int)>, width: int, height: int, x: int, y: int, i: int)
    requires 0 <= i < 8
    ensures var p := Neighbour(x, y, i);
      p !in Scanned(kit, width, height, x, y, i) &&
      Scanned(kit, width, height, x, y, i + 1) ==
        if Interior(width, height, p.0, p.1) && p in kit
        then Scanned(kit, width, height, x, y, i) + {p}
        else Scanned(kit, width, height, x, y, i)
  {
    ScanTableDistinct(x, y);
  }

  /** Scanning all eight directions finds exactly the kitten neighbours. */
  lemma ScannedAll(kit: set<(int, int)>, width: int, height: int, x: int, y: int)
    ensures Scanned(kit, width, height, x, y, 8) == KittenNeighbours(kit, width, height, x, y)
  {
    ScanTableAdjacent(x, y);
    ScanTableCovers(x, y);
    forall p | p in KittenNeighbours(kit, width, height, x, y)
      ensures p in Scanned(kit, width, height, x, y, 8)
    {
      var i :| 0 <= i < 8 && Neighbour(x, y, i) == (p.0, p.1);
    }
  }
}
