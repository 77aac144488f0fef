/** The server-side board: a column-major grid of Tile objects, a wall ring, the flood-fill reveal. */
module Boards {
  import opened Tiles
  import opened Grid
  import opened BoardRules

  class Board {
    var tiles: array2<Tile>
    const width: int
    const height: int
    const numKittens: int
    var gameOver: bool
    var hasWon: bool

    /** The Tile objects of the grid, and where each one sits. */
    ghost var Cells: set<Tile>
    ghost var At: map<Tile, (int, int)>

    /** The grid: width x height Tile objects of Cells, no object in two cells. */
    ghost predicate GridValid()
      reads this`tiles, this`Cells, this`At, tiles
    {
      && tiles.Length0 == width && tiles.Length1 == height
      && (forall x, y | 0 <= x < width && 0 <= y < height ::
            tiles[x, y] in Cells && tiles[x, y] in At && At[tiles[x, y]] == (x, y))
    }

    /** The board invariant: a well-formed grid of tiles that belong to this board, and a won game is over. */
    ghost predicate Valid()
      reads this, tiles
    {
      GridValid() && (forall t | t in Cells :: t.home == this) && (hasWon ==> gameOver)
    }

    /** The value of the grid: every cell to the value of its Tile. */
    ghost function Snap(): Snapshot
      requires GridValid()
      reads this`tiles, this`Cells, this`At, tiles, Cells
    {
      map p | p in Positions(width, height) :: tiles[p.0, p.1].State()
    }

    /** `new Board(width, height, numKittens)`: walls, then kittens. */
    constructor (width: int, height: int, numKittens: int)
      requires 0 <= width && 0 <= height
      requires numKittens <= InteriorSize(width, height)
      ensures Valid() && fresh(tiles) && fresh(Cells)
      ensures this.width == width && this.height == height && this.numKittens == numKittens
      ensures FreshLayout(Snap(), width, height, numKittens)
      ensures !gameOver && !hasWon
    {
      this.width := width;
      this.height := height;
      this.numKittens := numKittens;
      gameOver := false;
      hasWon := false;
      var blank := new Tile(WALL, null);
      tiles := new Tile[0, 0]((_, _) => blank);
      Cells := {};
      At := map[];
      new;
      InitializeBoard();
      PlaceKittens();
    }

    /** A fresh grid: walls on the border, unrevealed cells inside. */
    method InitializeBoard()
      requires 0 <= width && 0 <= height
      requires hasWon ==> gameOver
      modifies this`tiles, this`Cells, this`At
      ensures Valid() && fresh(tiles) && fresh(Cells)
      ensures KittenLayout({})
    {
      // Dafny needs an initial element for an array of non-null objects; every slot is overwritten below.
      var blank := new Tile(WALL, null);
      var grid := new Tile[width, height]((_, _) => blank);
      ghost var at: map<Tile, (int, int)> := map[];
      for x := 0 to width
        invariant forall a, b | 0 <= a < x && 0 <= b < height ::
          && fresh(grid[a, b]) && grid[a, b].home == this && grid[a, b] in at && at[grid[a, b]] == (a, b)
          && grid[a, b].State() == TileState(if Interior(width, height, a, b) then UNREVEALED else WALL, false, 0)
      {
        for y := 0 to height
          invariant forall a, b | 0 <= b < height && (0 <= a < x || (a == x && b < y)) ::
            && fresh(grid[a, b]) && grid[a, b].home == this && grid[a, b] in at && at[grid[a, b]] == (a, b)
            && grid[a, b].State() == TileState(if Interior(width, height, a, b) then UNREVEALED else WALL, false, 0)
        {
          if x == 0 || x == width - 1 || y == 0 || y == height - 1 {
            grid[x, y] := new Tile(WALL, this);
          } else {
            grid[x, y] := new Tile(UNREVEALED, this);
          }
          at := at[grid[x, y] := (x, y)];
        }
      }
      tiles := grid;
      Cells := set x, y | 0 <= x < width && 0 <= y < height :: grid[x, y];
      At := at;
    }

    /** What a cell holds before any kitten is placed. */
    function InitialType(x: int, y: int): int
      reads this
    {
      if Interior(width, height, x, y) then UNREVEALED else WALL
    }

    /** The grid as InitializeBoard left it, except that the cells in kit hold a hidden kitten. */
    ghost predicate KittenLayout(kit: set<(int, int)>)
      requires Valid()
      reads this, tiles, Cells
    {
      && kit <= InteriorCells(width, height)
      && forall x, y | 0 <= x < width && 0 <= y < height ::
           if (x, y) in kit then
             tiles[x, y].tileType == UNREVEALED_KITTEN && !tiles[x, y].flagged && 0 <= tiles[x, y].kittenValue < 8
           else tiles[x, y].State() == TileState(InitialType(x, y), false, 0)
    }

    /** One round of `placeKittens`: a kitten on a cell that has none. */
    method PlaceOneKitten(ghost kit: set<(int, int)>) returns (ghost kit': set<(int, int)>)
      requires Valid() && KittenLayout(kit)
      requires |kit| < InteriorSize(width, height)
      modifies Cells
      ensures Valid() && KittenLayout(kit')
      ensures |kit'| == |kit| + 1
    {
      // The source draws random interior cells until it hits one without a kitten;
      // here the cell it settles on is chosen among those.
      FreeInteriorCell(width, height, kit);
      ghost var a, b :| Interior(width, height, a, b) && (a, b) !in kit;
      assert tiles[a, b].tileType != UNREVEALED_KITTEN;
      var x, y :| Interior(width, height, x, y) && tiles[x, y].tileType != UNREVEALED_KITTEN;
      var value :| 0 <= value < 8;
      var tile := tiles[x, y];
      tile.SetType(UNREVEALED_KITTEN);
      tile.SetKittenValue(value);
      kit' := kit + {(x, y)};
    }

    /** Puts Max0(numKittens) kittens on distinct interior cells, each with a sprite value in [0, 8). */
    method PlaceKittens()
      requires Valid() && KittenLayout({})
      requires numKittens <= InteriorSize(width, height)
      modifies Cells
      ensures Valid()
      ensures FreshLayout(Snap(), width, height, numKittens)
    {
      var kittensPlaced := 0;
      ghost var kit: set<(int, int)> := {};
      while kittensPlaced < numKittens
        invariant Valid() && KittenLayout(kit)
        invariant kittensPlaced == |kit| <= Max0(numKittens)
        decreases numKittens - kittensPlaced
      {
        kit := PlaceOneKitten(kit);
        kittensPlaced := kittensPlaced + 1;
      }
      LaidOut(kit);
    }

    /** A kitten layout with the right number of kittens is a fresh board. */
    lemma LaidOut(kit: set<(int, int)>)
      requires Valid() && KittenLayout(kit) && |kit| == Max0(numKittens)
      ensures FreshLayout(Snap(), width, height, numKittens)
    {
      assert KittensOf(Snap()) == kit;
    }

    /** `reset`: the game is live again on a freshly laid board. */
    method Reset()
      requires Valid()
      requires numKittens <= InteriorSize(width, height)
      modifies this
      ensures Valid() && fresh(tiles) && fresh(Cells)
      ensures FreshLayout(Snap(), width, height, numKittens)
      ensures !gameOver && !hasWon
    {
      gameOver := false;
      hasWon := false;
      InitializeBoard();
      PlaceKittens();
    }

    /** `isValid`: only interior cells can be revealed or flagged. */
    predicate IsValid(x: int, y: int) {
      Interior(width, height, x, y)
    }

    /** The snapshot holds each Tile's value. */
    lemma CellAt(a: int, b: int)
      requires Valid() && 0 <= a < width && 0 <= b < height
      ensures (a, b) in Snap() && Snap()[(a, b)] == tiles[a, b].State()
    {
      assert (a, b) in Positions(width, height);
    }

    lemma KittenAt(a: int, b: int)
      requires Valid() && 0 <= a < width && 0 <= b < height
      ensures (a, b) in KittensOf(Snap()) <==> IsKittenType(tiles[a, b].tileType)
    {
      CellAt(a, b);
    }

    /** Scanning direction i adds one to the count exactly when that neighbour is an interior kitten. */
    lemma ScanOne(kit: set<(int, int)>, x: int, y: int, i: int)
      requires Valid() && kit == KittensOf(Snap()) && 0 <= i < 8
      ensures var n := Neighbour(x, y, i);
        |Scanned(kit, width, height, x, y, i + 1)| ==
          |Scanned(kit, width, height, x, y, i)| +
          if IsValid(n.0, n.1) && IsKittenType(tiles[n.0, n.1].tileType) then 1 else 0
    {
      var n := Neighbour(x, y, i);
      ScannedStep(kit, width, height, x, y, i);
      if IsValid(n.0, n.1) {
        KittenAt(n.0, n.1);
      }
    }

    /** `tiles[x][y].setType(t)`: one cell of the grid takes a new type code. */
    method SetTypeAt(x: int, y: int, t: int)
      requires Valid() && 0 <= x < width && 0 <= y < height
      modifies Cells
      ensures Valid()
      ensures (x, y) in old(Snap()) && Snap() == old(Snap())[(x, y) := old(Snap())[(x, y)].(tileType := t)]
    {
      CellAt(x, y);
      tiles[x, y].SetType(t);
    }

    /** `countNeighboringKittens`: how many of the eight neighbours hold a kitten, hidden or shown. */
    method CountNeighboringKittens(x: int, y: int) returns (count: int)
      requires Valid()
      ensures count == |KittenNeighbours(KittensOf(Snap()), width, height, x, y)|
    {
      ghost var kit := KittensOf(Snap());
      count := 0;
      for i := 0 to 8
        invariant count == |Scanned(kit, width, height, x, y, i)|
      {
        var newX := x + DROWS[i];
        var newY := y + DCOLS[i];
        ScanOne(kit, x, y, i);
        if IsValid(newX, newY) &&
           (tiles[newX, newY].tileType == UNREVEALED_KITTEN || tiles[newX, newY].tileType == REVEALED_KITTEN) {
          count := count + 1;
        }
      }
      ScannedAll(kit, width, height, x, y);
    }

    /** `checkWinCondition`: true exactly when no interior cell is still a hidden non-kitten. */
    method CheckWinCondition() returns (won: bool)
      requires Valid()
      ensures won <==> Won(Snap(), width, height)
    {
      var x := 1;
      while x < width - 1
        invariant 1 <= x
        invariant forall a, b | 1 <= a < x && Interior(width, height, a, b) :: tiles[a, b].tileType != UNREVEALED
      {
        var y := 1;
        while y < height - 1
          invariant 1 <= y
          invariant forall a, b | (1 <= a < x || (a == x && 1 <= b < y)) && Interior(width, height, a, b) ::
            tiles[a, b].tileType != UNREVEALED
        {
          if tiles[x, y].tileType == UNREVEALED {
            InteriorInGrid(Snap(), width, height, x, y);
            return false;
          }
          y := y + 1;
        }
        x := x + 1;
      }
      return true;
    }

    /** `toggleFlag`: flips the flag of a hidden interior cell while the game runs; nothing else changes. */
    method ToggleFlag(x: int, y: int)
      requires Valid()
      modifies Cells
      ensures Valid()
      ensures Snap() == FlagToggled(old(Snap()), width, height, gameOver, x, y)
    {
      if IsValid(x, y) {
        InteriorInGrid(Snap(), width, height, x, y);
      }
      if IsValid(x, y) && !gameOver && !tiles[x, y].IsRevealed() {
        tiles[x, y].ToggleFlag();
      }
    }

    /** `revealAllKittens`: every hidden kitten is shown and every flag is cleared. */
    method RevealAllKittens()
      requires Valid()
      modifies Cells
      ensures Valid()
      ensures Snap() == RevealAll(old(Snap()))
    {
      for x := 0 to width
        invariant forall a, b | 0 <= a < width && 0 <= b < height ::
          tiles[a, b].State() ==
            if a < x then old(tiles[a, b].State()).(tileType := AfterRevealAll(old(tiles[a, b].tileType)), flagged := false)
            else old(tiles[a, b].State())
      {
        for y := 0 to height
          invariant forall a, b | 0 <= a < width && 0 <= b < height ::
            tiles[a, b].State() ==
              if a < x || (a == x && b < y)
              then old(tiles[a, b].State()).(tileType := AfterRevealAll(old(tiles[a, b].tileType)), flagged := false)
              else old(tiles[a, b].State())
        {
          if tiles[x, y].tileType == UNREVEALED_KITTEN {
            tiles[x, y].SetType(REVEALED_KITTEN);
          }
          tiles[x, y].SetFlagged(false);
        }
      }
    }

    /**
     * One step of `bfs`'s neighbour scan: appending neighbour i of (cx, cy) when its tile is interior,
     * hidden, kitten-free and unflagged leaves the rest of the scan still to come.
     */
    lemma ScanStep(cx: int, cy: int, i: int, acc: seq<(int, int)>)
      requires Valid() && 0 <= i < 8
      ensures (if && IsValid(cx + DROWS[i], cy + DCOLS[i])
                  && tiles[cx + DROWS[i], cy + DCOLS[i]].tileType == UNREVEALED
                  && !tiles[cx + DROWS[i], cy + DCOLS[i]].flagged
               then acc + [(cx + DROWS[i], cy + DCOLS[i])] else acc)
              + ToVisit(Snap(), width, height, cx, cy, i + 1)
              == acc + ToVisit(Snap(), width, height, cx, cy, i)
    {
      var n := Neighbour(cx, cy, i);
      if IsValid(n.0, n.1) {
        CellAt(n.0, n.1);
      }
      ToVisitStep(Snap(), width, height, cx, cy, i, acc);
    }

    /** The neighbours of (cx, cy) that the cascade goes on to, appended to the queue in scan order. */
    method EnqueueNeighbours(cx: int, cy: int, queue: seq<(int, int)>) returns (queue': seq<(int, int)>)
      requires Valid()
      ensures Enqueued(Snap(), width, height, cx, cy, queue, queue')
    {
      queue' := queue;
      for i := 0 to 8
        invariant queue' + ToVisit(Snap(), width, height, cx, cy, i) == queue + ToVisit(Snap(), width, height, cx, cy, 0)
      {
        var newX := cx + DROWS[i];
        var newY := cy + DCOLS[i];
        ScanStep(cx, cy, i, queue');
        if IsValid(newX, newY) && tiles[newX, newY].tileType == UNREVEALED && !tiles[newX, newY].flagged {
          queue' := queue' + [(newX, newY)];
        }
      }
      assert queue' + [] == queue';
    }

    /** The losing branch of `bfs`: the hit kitten is shown, the game is lost, and every kitten is shown. */
    method LoseAt(x: int, y: int)
      requires Valid() && HitsKitten(Snap(), x, y)
      modifies this`gameOver, this`hasWon, Cells
      ensures Valid() && gameOver && !hasWon
      ensures Snap() == RevealAll(old(Snap()))
    {
      ghost var before := Snap();
      SetTypeAt(x, y, REVEALED_KITTEN);
      RevealAllAfterHit(before, x, y);
      EndGame(false);
      RevealAllKittens();
    }

    /**
     * The revealing branch of `bfs`: (cx, cy) shows its count of neighbouring kittens, and when that count
     * is zero it shows EMPTY and its hidden, unflagged neighbours join the queue.
     */
    method OpenAt(cx: int, cy: int, queue: seq<(int, int)>) returns (queue': seq<(int, int)>)
      requires Valid() && Interior(width, height, cx, cy)
      modifies Cells
      ensures Valid()
      ensures var g := old(Snap()); var v := RevealCode(KittensOf(g), width, height, cx, cy);
        && (cx, cy) in g
        && Snap() == g[(cx, cy) := g[(cx, cy)].(tileType := v)]
        && if v == EMPTY then Enqueued(Snap(), width, height, cx, cy, queue, queue') else queue' == queue
    {
      var neighboringKittens := CountNeighboringKittens(cx, cy);
      queue' := queue;
      if neighboringKittens > 0 {
        SetTypeAt(cx, cy, neighboringKittens);
      } else {
        SetTypeAt(cx, cy, EMPTY);
        queue' := EnqueueNeighbours(cx, cy, queue');
      }
    }

    /**
     * `bfs`: the queue-driven cascade from (x, y). A hidden kitten at the start ends the game as lost and
     * shows every kitten; otherwise the cascade is a flood fill and the game flags stay as they were.
     */
    method Bfs(x: int, y: int)
      requires Valid() && IsValid(x, y)
      modifies this`gameOver, this`hasWon, Cells
      ensures Valid()
      ensures HitsKitten(old(Snap()), x, y) ==> gameOver && !hasWon && Snap() == RevealAll(old(Snap()))
      ensures !HitsKitten(old(Snap()), x, y) ==>
        gameOver == old(gameOver) && hasWon == old(hasWon) && FloodFilled(old(Snap()), Snap(), width, height, x, y)
    {
      ghost var before := Snap();
      CascadeStart(before, width, height, x, y);
      var queue := [(x, y)];
      while queue != []
        invariant Valid()
        invariant gameOver == old(gameOver) && hasWon == old(hasWon)
        invariant Cascade(before, Snap(), width, height, x, y, queue)
        decreases Hidden(Snap()), |queue|
      {
        ghost var g, popped := Snap(), queue;
        var coordinates := queue[0];
        queue := queue[1..];
        var currentX, currentY := coordinates.0, coordinates.1;
        InteriorInGrid(g, width, height, currentX, currentY);
        var tile := tiles[currentX, currentY];
        assert g[coordinates] == tile.State();

        if tile.IsRevealed() || tile.flagged {
          CascadeSkip(before, g, width, height, x, y, popped);
          continue;
        }

        if tile.tileType == UNREVEALED_KITTEN {
          CascadeHit(before, g, width, height, x, y, popped);
          LoseAt(currentX, currentY);
          return;
        }

        CascadeKeepsKittens(before, g, width, height, x, y);
        queue := OpenAt(currentX, currentY, queue);
        CascadeReveal(before, g, Snap(), width, height, x, y, popped, queue);
      }
      CascadeDone(before, Snap(), width, height, x, y);
    }

    /** `gameOver = true; hasWon = won;`: the game ends, lost or won, and the grid is untouched. */
    method EndGame(won: bool)
      requires Valid()
      modifies this`gameOver, this`hasWon
      ensures Valid() && gameOver && hasWon == won
      ensures Snap() == old(Snap())
    {
      gameOver := true;
      hasWon := won;
    }

    /**
     * `revealTile`: a click on an unflagged interior cell of a running game. Hitting a kitten loses and
     * shows every kitten; anything else floods; then a board with no hidden kitten-free cell is won.
     */
    method RevealTile(x: int, y: int)
      requires Valid()
      modifies this`gameOver, this`hasWon, Cells
      ensures Valid()
      ensures RevealOutcome(old(Snap()), old(gameOver), old(hasWon), Snap(), gameOver, hasWon, width, height, x, y)
    {
      if IsValid(x, y) {
        CellAt(x, y);
      }
      if !IsValid(x, y) || gameOver || tiles[x, y].flagged {
        return;
      }

      Bfs(x, y);
      ghost var after := Snap();

      var won := CheckWinCondition();
      assert Snap() == after;
      if won {
        EndGame(true);
      }
    }
  }
}
