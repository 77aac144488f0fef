/**
 * The board as a value: a snapshot maps every cell (x, y) to the value of its Tile, and each engine
 * operation is specified here as a function or a relation on snapshots.
 */
module BoardRules {
  import opened Tiles
  import opened Grid

  /** A snapshot of the grid: cell (x, y) to the value its Tile holds. */
  type Snapshot = map<(int, int), TileState>

  /** Negative kitten counts place no kittens. */
  function Max0(n: int): nat {
    if n < 0 then 0 else n
  }

  /** What `revealAllKittens` does to one type code. */
  function AfterRevealAll(t: int): (r: int)
    ensures IsKittenType(r) <==> IsKittenType(t)
    ensures r != UNREVEALED_KITTEN
    ensures t != UNREVEALED_KITTEN ==> r == t
  {
    if t == UNREVEALED_KITTEN then REVEALED_KITTEN else t
  }

  /** The cells that hold a kitten, hidden or shown. */
  ghost function KittensOf(g: Snapshot): set<(int, int)> {
    set p | p in g && IsKittenType(g[p].tileType)
  }

  /** The cells still hidden without a kitten: the only ones a reveal can open. */
  ghost function Hidden(g: Snapshot): set<(int, int)> {
    set p | p in g && g[p].tileType == UNREVEALED
  }

  // ---------------------------------------------------------------- construction

  /**
   * The grid as construction and reset leave it: walls on the border, hidden cells inside,
   * exactly Max0(numKittens) of them kittens with a sprite value in [0, 8), and no flags.
   */
  ghost predicate FreshLayout(g: Snapshot, width: int, height: int, numKittens: int) {
    && g.Keys == Positions(width, height)
    && (forall p | p in g ::
          && !g[p].flagged
          && if Interior(width, height, p.0, p.1) then
               || (g[p].tileType == UNREVEALED && g[p].kittenValue == 0)
               || (g[p].tileType == UNREVEALED_KITTEN && 0 <= g[p].kittenValue < 8)
             else
               g[p].tileType == WALL && g[p].kittenValue == 0)
    && |KittensOf(g)| == Max0(numKittens)
  }

  // ---------------------------------------------------------------- winning

  /** `checkWinCondition`: no hidden kitten-free cell is left inside the wall ring. */
  ghost predicate Won(g: Snapshot, width: int, height: int) {
    forall p | p in g && Interior(width, height, p.0, p.1) :: g[p].tileType != UNREVEALED
  }

  /** A fresh board with fewer kittens than interior cells is not already won. */
  lemma FreshNotWon(g: Snapshot, width: int, height: int, numKittens: int)
    requires FreshLayout(g, width, height, numKittens)
    requires Max0(numKittens) < InteriorSize(width, height)
    ensures !Won(g, width, height)
  {
    assert KittensOf(g) <= InteriorCells(width, height);
    FreeInteriorCell(width, height, KittensOf(g));
    var x, y :| Interior(width, height, x, y) && (x, y) !in KittensOf(g);
    assert (x, y) in g;
  }

  /** With fewer marked cells than interior cells, some interior cell is unmarked. */
  lemma FreeInteriorCell(width: int, height: int, kit: set<(int, int)>)
    requires kit <= InteriorCells(width, height)
    requires |kit| < InteriorSize(width, height)
    ensures exists x, y :: Interior(width, height, x, y) && (x, y) !in kit
  {
    InteriorCellsCard(width, height);
    if InteriorCells(width, height) <= kit {
      SubsetCard(InteriorCells(width, height), kit);
    }
    var p :| p in InteriorCells(width, height) && p !in kit;
    assert Interior(width, height, p.0, p.1);
  }

  // ---------------------------------------------------------------- flags

  /** `toggleFlag` acts only on a hidden interior cell while the game runs. */
  predicate CanToggle(g: Snapshot, width: int, height: int, over: bool, x: int, y: int) {
    Interior(width, height, x, y) && !over && (x, y) in g && !IsRevealedType(g[(x, y)].tileType)
  }

  /** The grid after `toggleFlag(x, y)`. */
  function FlagToggled(g: Snapshot, width: int, height: int, over: bool, x: int, y: int): (r: Snapshot)
    ensures r.Keys == g.Keys
    ensures forall p | p in g && p != (x, y) :: r[p] == g[p]
    ensures (x, y) in g ==> r[(x, y)].tileType == g[(x, y)].tileType && r[(x, y)].kittenValue == g[(x, y)].kittenValue
    ensures (x, y) in g ==> (r[(x, y)].flagged != g[(x, y)].flagged <==> CanToggle(g, width, height, over, x, y))
  {
    if CanToggle(g, width, height, over, x, y) then g[(x, y) := Toggled(g[(x, y)])] else g
  }

  /** Toggling the same cell twice gives back the grid it started from. */
  lemma FlagToggledTwice(g: Snapshot, width: int, height: int, over: bool, x: int, y: int)
    ensures FlagToggled(FlagToggled(g, width, height, over, x, y), width, height, over, x, y) == g
  {
    if CanToggle(g, width, height, over, x, y) {
      ToggledTwice(g[(x, y)]);
    }
  }

  // ---------------------------------------------------------------- losing

  /** Revealing (x, y) hits a kitten: it is a hidden, unflagged kitten. */
  predicate HitsKitten(g: Snapshot, x: int, y: int) {
    (x, y) in g && g[(x, y)].tileType == UNREVEALED_KITTEN && !g[(x, y)].flagged
  }

  /** `revealAllKittens` on a snapshot: every hidden kitten is shown and every flag cleared. */
  function RevealAll(g: Snapshot): (r: Snapshot)
    ensures r.Keys == g.Keys
  {
    map p | p in g :: g[p].(tileType := AfterRevealAll(g[p].tileType), flagged := false)
  }

  /** After the loss no kitten is hidden, no flag is left, the kittens are the same, and nothing else changed. */
  lemma RevealAllShowsKittens(g: Snapshot)
    ensures KittensOf(RevealAll(g)) == KittensOf(g)
    ensures forall p | p in g :: var r := RevealAll(g)[p];
      && r.tileType != UNREVEALED_KITTEN && !r.flagged && r.kittenValue == g[p].kittenValue
      && (IsKittenType(g[p].tileType) ==> r.tileType == REVEALED_KITTEN)
      && (!IsKittenType(g[p].tileType) ==> r.tileType == g[p].tileType)
  {
  }

  /** Showing all kittens a second time changes nothing. */
  lemma RevealAllIdempotent(g: Snapshot)
    ensures RevealAll(RevealAll(g)) == RevealAll(g)
  {
  }

  /** Showing the kitten that was hit first, then all of them, is the same as showing all of them. */
  lemma RevealAllAfterHit(g: Snapshot, x: int, y: int)
    requires HitsKitten(g, x, y)
    ensures RevealAll(g[(x, y) := g[(x, y)].(tileType := REVEALED_KITTEN)]) == RevealAll(g)
  {
  }

  // ---------------------------------------------------------------- the cascade

  /** `revealTile` acts only on an unflagged interior cell while the game runs. */
  predicate CanReveal(g: Snapshot, width: int, height: int, over: bool, x: int, y: int) {
    Interior(width, height, x, y) && !over && (x, y) in g && !g[(x, y)].flagged
  }

  /** The reveal would open (x, y): it is hidden, kitten-free and unflagged. */
  predicate StartHidden(g: Snapshot, x: int, y: int) {
    (x, y) in g && g[(x, y)].tileType == UNREVEALED && !g[(x, y)].flagged
  }

  /** Cell n has nothing left for a cascade: it is shown or flagged. */
  predicate Settled(g: Snapshot, n: (int, int)) {
    n in g && (g[n].tileType != UNREVEALED || g[n].flagged)
  }

  /** The cascade turned c from hidden into EMPTY. */
  predicate NewlyEmpty(before: Snapshot, after: Snapshot, c: (int, int)) {
    c in before && c in after && before[c].tileType == UNREVEALED && after[c].tileType == EMPTY
  }

  /**
   * A chain of cells from the start (x, y), each touching the next, in which every cell but the last
   * was emptied by the cascade: the way the queue carries it from the start to the last cell.
   */
  ghost predicate EmptiedPath(before: Snapshot, after: Snapshot, x: int, y: int, path: seq<(int, int)>) {
    && |path| >= 1 && path[0] == (x, y)
    && forall k | 0 <= k < |path| - 1 ::
         NewlyEmpty(before, after, path[k]) && Adjacent(path[k].0, path[k].1, path[k + 1].0, path[k + 1].1)
  }

  /** The cascade can get to p: a chain of cells it emptied links the start (x, y) to p. */
  ghost predicate Reached(before: Snapshot, after: Snapshot, x: int, y: int, p: (int, int)) {
    exists path :: EmptiedPath(before, after, x, y, path) && path[|path| - 1] == p
  }

  /** The start is reached by the one-cell chain. */
  lemma ReachedStart(before: Snapshot, after: Snapshot, x: int, y: int)
    ensures Reached(before, after, x, y, (x, y))
  {
    assert EmptiedPath(before, after, x, y, [(x, y)]);
  }

  /** A cell touching a reached cell that the cascade emptied is reached too. */
  lemma ReachedExtend(before: Snapshot, after: Snapshot, x: int, y: int, c: (int, int), n: (int, int))
    requires Reached(before, after, x, y, c) && NewlyEmpty(before, after, c)
    requires Adjacent(c.0, c.1, n.0, n.1)
    ensures Reached(before, after, x, y, n)
  {
    var path :| EmptiedPath(before, after, x, y, path) && path[|path| - 1] == c;
    var path' := path + [n];
    forall k | 0 <= k < |path'| - 1
      ensures NewlyEmpty(before, after, path'[k]) && Adjacent(path'[k].0, path'[k].1, path'[k + 1].0, path'[k + 1].1)
    {
      if k < |path| - 1 {
        assert path'[k] == path[k] && path'[k + 1] == path[k + 1];
      }
    }
    assert EmptiedPath(before, after, x, y, path');
  }

  /**
   * Cell p was kept, or revealed: it was a hidden, unflagged, kitten-free interior cell and now shows
   * its count of neighbouring kittens (EMPTY for none); its flag and kitten value never change.
   */
  ghost predicate RevealedOrKept(before: Snapshot, after: Snapshot, width: int, height: int, p: (int, int))
    requires p in before && p in after
  {
    && after[p].flagged == before[p].flagged
    && after[p].kittenValue == before[p].kittenValue
    && (|| after[p].tileType == before[p].tileType
        || (&& before[p].tileType == UNREVEALED && !before[p].flagged
            && Interior(width, height, p.0, p.1)
            && after[p].tileType == RevealCode(KittensOf(before), width, height, p.0, p.1)))
  }

  /** Every cell was kept or revealed, and every revealed cell was reached from the start. */
  ghost predicate OnlyReveals(before: Snapshot, after: Snapshot, width: int, height: int, x: int, y: int) {
    && after.Keys == before.Keys
    && forall p | p in after ::
         && RevealedOrKept(before, after, width, height, p)
         && (after[p].tileType != before[p].tileType ==> Reached(before, after, x, y, p))
  }

  /**
   * A reveal from (x, y) that met no kitten: it only revealed cells it could reach, the start is shown
   * if it was hidden, and no cell it emptied has a hidden, unflagged interior neighbour left.
   */
  ghost predicate FloodFilled(before: Snapshot, after: Snapshot, width: int, height: int, x: int, y: int) {
    && OnlyReveals(before, after, width, height, x, y)
    && (StartHidden(before, x, y) ==> after[(x, y)].tileType != UNREVEALED)
    && (forall p, i | p in after && 0 <= i < 8 && NewlyEmpty(before, after, p)
          && Interior(width, height, Neighbour(p.0, p.1, i).0, Neighbour(p.0, p.1, i).1) ::
          Settled(after, Neighbour(p.0, p.1, i)))
  }

  /** Cell n is one the cascade goes on to: interior, hidden, kitten-free and unflagged. */
  predicate Picked(g: Snapshot, width: int, height: int, n: (int, int)) {
    Interior(width, height, n.0, n.1) && StartHidden(g, n.0, n.1)
  }

  /**
   * The scan `bfs` makes of the eight neighbours of an emptied (cx, cy), from scan entry i on: in scan
   * order, the neighbours that are interior, hidden, kitten-free and unflagged.
   */
  function ToVisit(g: Snapshot, width: int, height: int, cx: int, cy: int, i: int): seq<(int, int)>
    requires 0 <= i <= 8
    decreases 8 - i
  {
    if i == 8 then []
    else
      (if Picked(g, width, height, Neighbour(cx, cy, i)) then [Neighbour(cx, cy, i)] else [])
      + ToVisit(g, width, height, cx, cy, i + 1)
  }

  /** One step of the scan: appending entry i's pick to what came before leaves the rest of the scan. */
  lemma ToVisitStep(g: Snapshot, width: int, height: int, cx: int, cy: int, i: int, acc: seq<(int, int)>)
    requires 0 <= i < 8
    ensures (if Picked(g, width, height, Neighbour(cx, cy, i)) then acc + [Neighbour(cx, cy, i)] else acc)
        + ToVisit(g, width, height, cx, cy, i + 1)
      == acc + ToVisit(g, width, height, cx, cy, i)
  {
    var n := Neighbour(cx, cy, i);
    var rest := ToVisit(g, width, height, cx, cy, i + 1);
    var pick := if Picked(g, width, height, n) then [n] else [];
    assert ToVisit(g, width, height, cx, cy, i) == pick + rest;
    ConcatAssoc(acc, pick, rest);
    assert acc + [] == acc;
  }

  lemma ConcatAssoc<T>(a: seq<T>, b: seq<T>, c: seq<T>)
    ensures (a + b) + c == a + (b + c)
  {
  }

  /** The queue after `bfs` empties (cx, cy): the old queue followed by the scan's picks, in scan order. */
  ghost predicate Enqueued(g: Snapshot, width: int, height: int, cx: int, cy: int,
                           queue: seq<(int, int)>, queue': seq<(int, int)>) {
    queue' == queue + ToVisit(g, width, height, cx, cy, 0)
  }

  /** The scan from entry i picks only hidden, unflagged interior cells touching (cx, cy). */
  lemma {:induction false} ToVisitOnlyPicks(g: Snapshot, width: int, height: int, cx: int, cy: int, i: int)
    requires 0 <= i <= 8
    ensures forall n | n in ToVisit(g, width, height, cx, cy, i) :: Picked(g, width, height, n) && Adjacent(cx, cy, n.0, n.1)
    decreases 8 - i
  {
    if i < 8 {
      ToVisitOnlyPicks(g, width, height, cx, cy, i + 1);
      ScanTableAdjacent(cx, cy);
      var n := Neighbour(cx, cy, i);
      var rest := ToVisit(g, width, height, cx, cy, i + 1);
      var pick := if Picked(g, width, height, n) then [n] else [];
      assert ToVisit(g, width, height, cx, cy, i) == pick + rest;
      assert forall m | m in pick :: m == n && Picked(g, width, height, n);
    }
  }

  /** The scan from entry i picks every hidden, unflagged interior neighbour from entry i on. */
  lemma {:induction false} ToVisitAllPicks(g: Snapshot, width: int, height: int, cx: int, cy: int, i: int)
    requires 0 <= i <= 8
    ensures forall j | i <= j < 8 && Picked(g, width, height, Neighbour(cx, cy, j)) ::
      Neighbour(cx, cy, j) in ToVisit(g, width, height, cx, cy, i)
    decreases 8 - i
  {
    if i < 8 {
      ToVisitAllPicks(g, width, height, cx, cy, i + 1);
      var n := Neighbour(cx, cy, i);
      var rest := ToVisit(g, width, height, cx, cy, i + 1);
      var pick := if Picked(g, width, height, n) then [n] else [];
      assert ToVisit(g, width, height, cx, cy, i) == pick + rest;
      forall j | i <= j < 8 && Picked(g, width, height, Neighbour(cx, cy, j))
        ensures Neighbour(cx, cy, j) in pick + rest
      {
        if j == i {
          assert Neighbour(cx, cy, j) in pick;
        } else {
          assert Neighbour(cx, cy, j) in rest;
        }
      }
    }
  }

  /**
   * What `bfs` relies on after emptying (cx, cy): the old queue is kept in front, every new entry is
   * a hidden, unflagged interior cell touching (cx, cy), and every interior neighbour is now shown,
   * flagged or queued.
   */
  lemma EnqueuedFacts(g: Snapshot, width: int, height: int, cx: int, cy: int,
                      queue: seq<(int, int)>, queue': seq<(int, int)>)
    requires g.Keys == Positions(width, height)
    requires Enqueued(g, width, height, cx, cy, queue, queue')
    ensures |queue'| >= |queue| && queue'[..|queue|] == queue
    ensures forall k | |queue| <= k < |queue'| ::
      && Interior(width, height, queue'[k].0, queue'[k].1)
      && Adjacent(cx, cy, queue'[k].0, queue'[k].1)
      && StartHidden(g, queue'[k].0, queue'[k].1)
    ensures forall i | 0 <= i < 8 && Interior(width, height, Neighbour(cx, cy, i).0, Neighbour(cx, cy, i).1) ::
      Settled(g, Neighbour(cx, cy, i)) || Neighbour(cx, cy, i) in queue'
  {
    var picks := ToVisit(g, width, height, cx, cy, 0);
    ToVisitOnlyPicks(g, width, height, cx, cy, 0);
    ToVisitAllPicks(g, width, height, cx, cy, 0);
    forall k | |queue| <= k < |queue'|
      ensures Interior(width, height, queue'[k].0, queue'[k].1) && Adjacent(cx, cy, queue'[k].0, queue'[k].1)
      ensures StartHidden(g, queue'[k].0, queue'[k].1)
    {
      assert queue'[k] == picks[k - |queue|];
      assert queue'[k] in picks;
    }
    forall i | 0 <= i < 8 && Interior(width, height, Neighbour(cx, cy, i).0, Neighbour(cx, cy, i).1)
      ensures Settled(g, Neighbour(cx, cy, i)) || Neighbour(cx, cy, i) in queue'
    {
      InteriorInGrid(g, width, height, Neighbour(cx, cy, i).0, Neighbour(cx, cy, i).1);
    }
  }

  /**
   * The state of `bfs` between two rounds: a partial flood fill whose frontier is the queue. Until the
   * first round has changed something the queue holds only the start; after that the start was no
   * kitten and no queued cell is a hidden kitten.
   */
  ghost predicate Cascade(before: Snapshot, g: Snapshot, width: int, height: int, x: int, y: int, queue: seq<(int, int)>) {
    && before.Keys == Positions(width, height)
    && Interior(width, height, x, y)
    && OnlyReveals(before, g, width, height, x, y)
    && (forall k | 0 <= k < |queue| ::
          Interior(width, height, queue[k].0, queue[k].1) && Reached(before, g, x, y, queue[k]))
    && (|| (queue == [(x, y)] && forall p | p in g :: g[p].tileType == before[p].tileType)
        || (&& !HitsKitten(before, x, y)
            && forall k | 0 <= k < |queue| :: queue[k] in g && g[queue[k]].tileType != UNREVEALED_KITTEN))
    && (StartHidden(before, x, y) ==> (x, y) in queue || g[(x, y)].tileType != UNREVEALED)
    && (forall p, i | p in g && 0 <= i < 8 && NewlyEmpty(before, g, p)
          && Interior(width, height, Neighbour(p.0, p.1, i).0, Neighbour(p.0, p.1, i).1) ::
          Settled(g, Neighbour(p.0, p.1, i)) || Neighbour(p.0, p.1, i) in queue)
  }

  lemma InteriorInGrid(g: Snapshot, width: int, height: int, x: int, y: int)
    requires g.Keys == Positions(width, height)
    requires Interior(width, height, x, y)
    ensures (x, y) in g
  {
    assert (x, y) in Positions(width, height);
  }

  /** The cascade starts with the start cell queued and nothing changed. */
  lemma CascadeStart(before: Snapshot, width: int, height: int, x: int, y: int)
    requires before.Keys == Positions(width, height)
    requires Interior(width, height, x, y)
    ensures Cascade(before, before, width, height, x, y, [(x, y)])
  {
    ReachedStart(before, before, x, y);
  }

  /** A cascade changes neither flags nor kittens. */
  lemma CascadeKeepsKittens(before: Snapshot, g: Snapshot, width: int, height: int, x: int, y: int)
    requires OnlyReveals(before, g, width, height, x, y)
    ensures KittensOf(g) == KittensOf(before)
  {
    forall p | p in g
      ensures IsKittenType(g[p].tileType) <==> IsKittenType(before[p].tileType)
    {
      RevealCodeRange(KittensOf(before), width, height, p.0, p.1);
    }
  }

  /** A round that pops a shown or flagged cell drops it and changes nothing. */
  lemma CascadeSkip(before: Snapshot, g: Snapshot, width: int, height: int, x: int, y: int, queue: seq<(int, int)>)
    requires Cascade(before, g, width, height, x, y, queue)
    requires queue != [] && queue[0] in g && (IsRevealedType(g[queue[0]].tileType) || g[queue[0]].flagged)
    ensures Cascade(before, g, width, height, x, y, queue[1..])
  {
  }

  /** A hidden, unflagged kitten can only be popped in the first round, as the start cell, on the untouched grid. */
  lemma CascadeHit(before: Snapshot, g: Snapshot, width: int, height: int, x: int, y: int, queue: seq<(int, int)>)
    requires Cascade(before, g, width, height, x, y, queue)
    requires queue != [] && HitsKitten(g, queue[0].0, queue[0].1)
    ensures queue[0] == (x, y) && g == before && HitsKitten(before, x, y)
  {
    InteriorInGrid(g, width, height, queue[0].0, queue[0].1);
    assert forall p | p in g :: g[p] == before[p];
  }

  /** A round that reveals the popped cell keeps the cascade going and opens one hidden cell fewer. */
  lemma CascadeReveal(before: Snapshot, g: Snapshot, g': Snapshot, width: int, height: int, x: int, y: int,
                      queue: seq<(int, int)>, queue': seq<(int, int)>)
    requires Cascade(before, g, width, height, x, y, queue)
    requires queue != [] && StartHidden(g, queue[0].0, queue[0].1)
    requires g' == g[queue[0] := g[queue[0]].(tileType := RevealCode(KittensOf(before), width, height, queue[0].0, queue[0].1))]
    requires if g'[queue[0]].tileType == EMPTY then Enqueued(g', width, height, queue[0].0, queue[0].1, queue[1..], queue')
             else queue' == queue[1..]
    ensures Cascade(before, g', width, height, x, y, queue')
    ensures Hidden(g') < Hidden(g)
  {
    var c := queue[0];
    var v := g'[c].tileType;
    RevealCodeRange(KittensOf(before), width, height, c.0, c.1);
    assert before[c].tileType == UNREVEALED && !before[c].flagged;
    assert Hidden(g') == Hidden(g) - {c};
    CascadeRevealKeeps(before, g, g', width, height, x, y, c);
    CascadeRevealQueue(before, g, g', width, height, x, y, queue, queue');
    if v == EMPTY {
      EnqueuedFacts(g', width, height, c.0, c.1, queue[1..], queue');
    }
    assert forall n | n in queue[1..] :: n in queue';
    CascadeRevealClosed(before, g, g', width, height, c, queue, queue');
    assert queue == [c] + queue[1..];
  }

  /** Revealing a hidden cell c keeps every cell kept or revealed, and every reached cell stays reached. */
  lemma CascadeRevealKeeps(before: Snapshot, g: Snapshot, g': Snapshot, width: int, height: int, x: int, y: int,
                           c: (int, int))
    requires OnlyReveals(before, g, width, height, x, y)
    requires StartHidden(g, c.0, c.1) && Interior(width, height, c.0, c.1) && Reached(before, g, x, y, c)
    requires g' == g[c := g[c].(tileType := RevealCode(KittensOf(before), width, height, c.0, c.1))]
    ensures OnlyReveals(before, g', width, height, x, y)
    ensures forall p | Reached(before, g, x, y, p) :: Reached(before, g', x, y, p)
  {
    RevealCodeRange(KittensOf(before), width, height, c.0, c.1);
    ReachedKept(before, g, g', x, y, c);
    forall p | p in g'
      ensures RevealedOrKept(before, g', width, height, p)
      ensures g'[p].tileType != before[p].tileType ==> Reached(before, g', x, y, p)
    {
      if p != c {
        assert g'[p] == g[p];
        assert RevealedOrKept(before, g, width, height, p);
      }
    }
  }

  /** Reaching survives opening a hidden cell: no cell the cascade emptied is touched again. */
  lemma ReachedKept(before: Snapshot, g: Snapshot, g': Snapshot, x: int, y: int, c: (int, int))
    requires c in g && g[c].tileType == UNREVEALED
    requires c in g' && g' == g[c := g'[c]]
    ensures forall p | Reached(before, g, x, y, p) :: Reached(before, g', x, y, p)
  {
    forall p | Reached(before, g, x, y, p)
      ensures Reached(before, g', x, y, p)
    {
      var path :| EmptiedPath(before, g, x, y, path) && path[|path| - 1] == p;
      forall k | 0 <= k < |path| - 1
        ensures NewlyEmpty(before, g', path[k])
      {
        assert path[k] != c;
      }
      assert EmptiedPath(before, g', x, y, path);
    }
  }

  /** After revealing the head of the queue, every queued cell is interior and reached, and no kitten is queued. */
  lemma CascadeRevealQueue(before: Snapshot, g: Snapshot, g': Snapshot, width: int, height: int, x: int, y: int,
                           queue: seq<(int, int)>, queue': seq<(int, int)>)
    requires Cascade(before, g, width, height, x, y, queue)
    requires queue != [] && StartHidden(g, queue[0].0, queue[0].1)
    requires g' == g[queue[0] := g[queue[0]].(tileType := RevealCode(KittensOf(before), width, height, queue[0].0, queue[0].1))]
    requires if g'[queue[0]].tileType == EMPTY then Enqueued(g', width, height, queue[0].0, queue[0].1, queue[1..], queue')
             else queue' == queue[1..]
    requires forall p | Reached(before, g, x, y, p) :: Reached(before, g', x, y, p)
    ensures forall k | 0 <= k < |queue'| ::
      Interior(width, height, queue'[k].0, queue'[k].1) && Reached(before, g', x, y, queue'[k])
    ensures !HitsKitten(before, x, y)
    ensures forall k | 0 <= k < |queue'| :: queue'[k] in g' && g'[queue'[k]].tileType != UNREVEALED_KITTEN
  {
    var c := queue[0];
    RevealCodeRange(KittensOf(before), width, height, c.0, c.1);
    assert before[c].tileType == UNREVEALED;
    var rest := queue[1..];
    if g'[c].tileType == EMPTY {
      EnqueuedFacts(g', width, height, c.0, c.1, rest, queue');
    }
    forall k | 0 <= k < |queue'|
      ensures Interior(width, height, queue'[k].0, queue'[k].1) && Reached(before, g', x, y, queue'[k])
      ensures queue'[k] in g' && g'[queue'[k]].tileType != UNREVEALED_KITTEN
    {
      if k < |rest| {
        assert queue'[k] == queue[k + 1];
      } else {
        assert NewlyEmpty(before, g', c);
        ReachedExtend(before, g', x, y, c, queue'[k]);
      }
    }
  }

  /** After revealing c, every cell the cascade emptied is still closed off by the shown cells and the queue. */
  lemma CascadeRevealClosed(before: Snapshot, g: Snapshot, g': Snapshot, width: int, height: int,
                            c: (int, int), queue: seq<(int, int)>, queue': seq<(int, int)>)
    requires forall p, i | p in g && 0 <= i < 8 && NewlyEmpty(before, g, p)
          && Interior(width, height, Neighbour(p.0, p.1, i).0, Neighbour(p.0, p.1, i).1) ::
          Settled(g, Neighbour(p.0, p.1, i)) || Neighbour(p.0, p.1, i) in queue
    requires queue != [] && queue[0] == c && c in g && g[c].tileType == UNREVEALED
    requires c in g' && g'[c].tileType != UNREVEALED && g' == g[c := g'[c]]
    requires forall n | n in queue[1..] :: n in queue'
    requires g'[c].tileType == EMPTY ==>
      forall i | 0 <= i < 8 && Interior(width, height, Neighbour(c.0, c.1, i).0, Neighbour(c.0, c.1, i).1) ::
        Settled(g', Neighbour(c.0, c.1, i)) || Neighbour(c.0, c.1, i) in queue'
    ensures forall p, i | p in g' && 0 <= i < 8 && NewlyEmpty(before, g', p)
          && Interior(width, height, Neighbour(p.0, p.1, i).0, Neighbour(p.0, p.1, i).1) ::
          Settled(g', Neighbour(p.0, p.1, i)) || Neighbour(p.0, p.1, i) in queue'
  {
    forall p, i | p in g' && 0 <= i < 8 && NewlyEmpty(before, g', p)
          && Interior(width, height, Neighbour(p.0, p.1, i).0, Neighbour(p.0, p.1, i).1)
      ensures Settled(g', Neighbour(p.0, p.1, i)) || Neighbour(p.0, p.1, i) in queue'
    {
      var n := Neighbour(p.0, p.1, i);
      if p != c {
        assert NewlyEmpty(before, g, p);
        if n != c && n in queue {
          assert n in queue[1..];
        }
      }
    }
  }

  /** An empty queue is a finished flood fill. */
  lemma CascadeDone(before: Snapshot, g: Snapshot, width: int, height: int, x: int, y: int)
    requires Cascade(before, g, width, height, x, y, [])
    ensures FloodFilled(before, g, width, height, x, y)
  {
  }

  /**
   * Two flood fills from the same click open the same cells: a cell one of them changed at the end of
   * a chain of emptied cells is opened by the other too, since each cell on the chain is emptied by
   * both and so leaves its hidden neighbours no way to stay hidden.
   */
  lemma {:induction false} ChainOpened(before: Snapshot, a1: Snapshot, a2: Snapshot, width: int, height: int,
                                       x: int, y: int, path: seq<(int, int)>)
    requires FloodFilled(before, a1, width, height, x, y) && FloodFilled(before, a2, width, height, x, y)
    requires EmptiedPath(before, a1, x, y, path)
    requires path[|path| - 1] in a1 && a1[path[|path| - 1]].tileType != before[path[|path| - 1]].tileType
    ensures a2[path[|path| - 1]].tileType != before[path[|path| - 1]].tileType
    decreases |path|
  {
    var p := path[|path| - 1];
    assert RevealedOrKept(before, a1, width, height, p);
    if |path| > 1 {
      var q := path[|path| - 2];
      var prefix := path[..|path| - 1];
      assert prefix[|prefix| - 1] == q;
      forall k | 0 <= k < |prefix| - 1
        ensures NewlyEmpty(before, a1, prefix[k]) && Adjacent(prefix[k].0, prefix[k].1, prefix[k + 1].0, prefix[k + 1].1)
      {
        assert prefix[k] == path[k] && prefix[k + 1] == path[k + 1];
      }
      assert NewlyEmpty(before, a1, q) && Adjacent(q.0, q.1, p.0, p.1);
      ChainOpened(before, a1, a2, width, height, x, y, prefix);
      assert RevealedOrKept(before, a2, width, height, q);
      assert NewlyEmpty(before, a2, q);
      ScanTableCovers(q.0, q.1);
      var i :| 0 <= i < 8 && Neighbour(q.0, q.1, i) == p;
      assert Settled(a2, Neighbour(q.0, q.1, i));
    } else {
      assert StartHidden(before, x, y);
    }
  }

  /** The flood fill from a click is unique: two grids that both satisfy it are the same grid. */
  lemma FloodFilledUnique(before: Snapshot, a1: Snapshot, a2: Snapshot, width: int, height: int, x: int, y: int)
    requires FloodFilled(before, a1, width, height, x, y) && FloodFilled(before, a2, width, height, x, y)
    ensures a1 == a2
  {
    forall p | p in a1
      ensures a1[p] == a2[p]
    {
      assert RevealedOrKept(before, a1, width, height, p) && RevealedOrKept(before, a2, width, height, p);
      if a1[p].tileType != before[p].tileType {
        var path :| EmptiedPath(before, a1, x, y, path) && path[|path| - 1] == p;
        ChainOpened(before, a1, a2, width, height, x, y, path);
      }
      if a2[p].tileType != before[p].tileType {
        var path :| EmptiedPath(before, a2, x, y, path) && path[|path| - 1] == p;
        ChainOpened(before, a2, a1, width, height, x, y, path);
      }
    }
  }

  // ---------------------------------------------------------------- one click

  /**
   * What `revealTile(x, y)` does to a board with grid g and flags over, won, leaving g', over', won':
   * nothing unless the click can reveal; otherwise a kitten hit shows every kitten and any other
   * click floods, the game is won exactly when no kitten-free interior cell is left hidden, and it is
   * over after a hit or a win.
   */
  ghost predicate RevealOutcome(g: Snapshot, over: bool, won: bool, g': Snapshot, over': bool, won': bool,
                                width: int, height: int, x: int, y: int) {
    if !CanReveal(g, width, height, over, x, y) then
      g' == g && over' == over && won' == won
    else
      && (if HitsKitten(g, x, y) then g' == RevealAll(g) else FloodFilled(g, g', width, height, x, y))
      && (won' <==> Won(g', width, height))
      && (over' <==> HitsKitten(g, x, y) || Won(g', width, height))
  }

  /** A click has one outcome: any two results that satisfy RevealOutcome agree on grid and flags. */
  lemma RevealOutcomeDeterministic(g: Snapshot, over: bool, won: bool, width: int, height: int, x: int, y: int,
                                   g1: Snapshot, over1: bool, won1: bool, g2: Snapshot, over2: bool, won2: bool)
    requires RevealOutcome(g, over, won, g1, over1, won1, width, height, x, y)
    requires RevealOutcome(g, over, won, g2, over2, won2, width, height, x, y)
    ensures g1 == g2 && over1 == over2 && won1 == won2
  {
    if CanReveal(g, width, height, over, x, y) && !HitsKitten(g, x, y) {
      FloodFilledUnique(g, g1, g2, width, height, x, y);
    }
  }

  /**
   * A click never hides anything again: a shown cell keeps its type, every cell hidden afterwards was
   * hidden before, the kittens stay where they are, and no flag is set.
   */
  lemma RevealMonotone(g: Snapshot, over: bool, won: bool, g': Snapshot, over': bool, won': bool,
                       width: int, height: int, x: int, y: int)
    requires RevealOutcome(g, over, won, g', over', won', width, height, x, y)
    ensures g'.Keys == g.Keys
    ensures forall p | p in g :: IsRevealedType(g[p].tileType) ==> g'[p].tileType == g[p].tileType
    ensures forall p | p in g :: g'[p].flagged ==> g[p].flagged
    ensures Hidden(g') <= Hidden(g)
    ensures KittensOf(g') == KittensOf(g)
  {
    if CanReveal(g, width, height, over, x, y) && !HitsKitten(g, x, y) {
      forall p | p in g
        ensures g'[p].tileType == g[p].tileType || (g[p].tileType == UNREVEALED && IsRevealedType(g'[p].tileType)
                                                    && !IsKittenType(g'[p].tileType))
      {
        RevealCodeRange(KittensOf(g), width, height, p.0, p.1);
      }
    }
  }
}
