/**
 * What the page announces against what the server did: for a reveal and for a clock tick, the game
 * the page ends, and the outcome it shows, compared with the game the server returns.
 */
module Agreement {
  import opened Tiles
  import opened Grid
  import opened BoardRules
  import opened GameStates
  import opened GameServices
  import opened Wire
  import opened ClientView

  /** The grid of g covers every tile of a width x height board. */
  ghost predicate Covers(g: Snapshot, width: int, height: int) {
    forall x, y | InBounds(width, height, x, y) :: (x, y) in g
  }

  /** Rewriting a response to a loss at a tile that already is a shown kitten of a finished game changes nothing. */
  lemma ForceLossIdle(data: GameJson, x: int, y: int)
    requires TileAt(data, x, y).Some?
    requires data.board.tiles[x][y].tileType == REVEALED_KITTEN && data.board.tiles[x][y].revealed
    requires data.board.gameOver && !data.gameActive
    ensures ForceLoss(data, x, y) == data
  {
    var t := data.board.tiles[x][y];
    assert data.board.tiles[x][y := t] == data.board.tiles[x];
    assert data.board.tiles[x := data.board.tiles[x]] == data.board.tiles;
  }

  /**
   * After the server's answer to a reveal of an on-board tile of a running game, the returned tile
   * is a shown kitten exactly when the reveal was allowed and hit a hidden kitten; when it is, the
   * game is over. (The tile was not a shown kitten before.)
   */
  lemma ShownKittenMeansHit(v: GameView, v': GameView, width: nat, height: nat, x: int, y: int)
    requires Running(v) && InBounds(width, height, x, y) && (x, y) in v.cells
    requires v.cells[(x, y)].tileType != REVEALED_KITTEN
    requires RevealForwarded(v, v', width, height, x, y)
    ensures (x, y) in v'.cells
    ensures v'.cells[(x, y)].tileType == REVEALED_KITTEN <==>
      CanReveal(v.cells, width, height, v.gameOver, x, y) && HitsKitten(v.cells, x, y)
    ensures v'.cells[(x, y)].tileType == REVEALED_KITTEN ==> v'.gameOver && !Running(v')
  {
    var g, g' := v.cells, v'.cells;
    RevealMonotone(g, v.gameOver, v.hasWon, g', v'.gameOver, v'.hasWon, width, height, x, y);
    if CanReveal(g, width, height, v.gameOver, x, y) && HitsKitten(g, x, y) {
      RevealAllShowsKittens(g);
    }
  }

  /**
   * Finding, as written: the server ignores a click on a flagged hidden kitten and the game goes on,
   * but the page's kitten check, which also fires on a hidden tile whose `kitten` is true, ends the
   * game on the page and announces a loss.
   */
  lemma FlaggedKittenClickEndsPageGame(id: string, d: Difficulty, v: GameView, v': GameView,
                                       width: nat, height: nat, numKittens: int, x: int, y: int)
    requires Covers(v.cells, width, height) && Covers(v'.cells, width, height) && 0 <= v'.timeRemaining
    requires Running(v) && Interior(width, height, x, y) && (x, y) in v.cells
    requires v.cells[(x, y)].tileType == UNREVEALED_KITTEN && v.cells[(x, y)].flagged
    requires RevealForwarded(v, v', width, height, x, y)
    ensures v' == v && Running(v')
    ensures var page := CheckedAsWritten(GameJsonAsWritten(id, d, v', width, height, numKittens), x, y);
      && !page.gameActive && page.board.gameOver
      && RevealGameOver(true, page) == Some(false)
  {
    InteriorIsInBounds(width, height, x, y);
    var j := GameJsonAsWritten(id, d, v', width, height, numKittens);
    assert TileAt(j, x, y).Some? && KittenClickAsWritten(j.board.tiles[x][y]);
  }

  /**
   * Finding, corrected: with the check reduced to a shown kitten, the page never rewrites the
   * server's answer to a reveal; it finds a kitten exactly when the server's reveal hit one.
   */
  lemma KittenCheckMatchesServer(id: string, d: Difficulty, v: GameView, v': GameView,
                                 width: nat, height: nat, numKittens: int, hasWon: Option<bool>, x: int, y: int)
    requires Covers(v.cells, width, height) && Covers(v'.cells, width, height) && 0 <= v'.timeRemaining
    requires Running(v) && InBounds(width, height, x, y)
    requires v.cells[(x, y)].tileType != REVEALED_KITTEN
    requires RevealForwarded(v, v', width, height, x, y)
    ensures var j := GameJsonWith(id, d, v', width, height, numKittens, hasWon);
      && (KittenClick(j.board.tiles[x][y]) <==>
            CanReveal(v.cells, width, height, v.gameOver, x, y) && HitsKitten(v.cells, x, y))
      && Checked(j, x, y) == j
  {
    ShownKittenMeansHit(v, v', width, height, x, y);
    var j := GameJsonWith(id, d, v', width, height, numKittens, hasWon);
    if KittenClick(j.board.tiles[x][y]) {
      ForceLossIdle(j, x, y);
    }
  }

  /**
   * Finding, as written: `hasWon` never reaches the page, so a reveal that wins the game is
   * announced as a loss (with the loss sounds and "You Lost!").
   */
  lemma WinAnnouncedAsLoss(id: string, d: Difficulty, v: GameView, v': GameView,
                           width: nat, height: nat, numKittens: int, x: int, y: int)
    requires Covers(v'.cells, width, height) && 0 <= v'.timeRemaining
    requires Running(v) && !v.hasWon
    requires RevealForwarded(v, v', width, height, x, y) && v'.hasWon
    ensures !Running(v')
    ensures var page := CheckedAsWritten(GameJsonAsWritten(id, d, v', width, height, numKittens), x, y);
      RevealGameOver(true, page) == Some(false)
  {
    assert CanReveal(v.cells, width, height, v.gameOver, x, y);
    EndedWithoutWinFlag(GameJsonAsWritten(id, d, v', width, height, numKittens), x, y);
  }

  /** A response for a game that is over and carries no `hasWon` is announced as a loss, kitten check or not. */
  lemma EndedWithoutWinFlag(data: GameJson, x: int, y: int)
    requires !data.gameActive && data.board.hasWon == None
    ensures RevealGameOver(true, CheckedAsWritten(data, x, y)) == Some(false)
  {
  }

  /**
   * Finding, corrected: with `hasWon` in the JSON and the corrected kitten check, a reveal of a
   * running game is announced exactly when it ends the game on the server, with the server's outcome.
   */
  lemma RevealOutcomeAnnounced(id: string, d: Difficulty, v: GameView, v': GameView,
                               width: nat, height: nat, numKittens: int, x: int, y: int)
    requires Covers(v.cells, width, height) && Covers(v'.cells, width, height) && 0 <= v'.timeRemaining
    requires Running(v) && InBounds(width, height, x, y)
    requires v.cells[(x, y)].tileType != REVEALED_KITTEN
    requires RevealForwarded(v, v', width, height, x, y)
    ensures var page := Checked(GameJsonOf(id, d, v', width, height, numKittens), x, y);
      RevealGameOver(true, page) == if Running(v') then None else Some(v'.hasWon)
  {
    KittenCheckMatchesServer(id, d, v, v', width, height, numKittens, Some(v'.hasWon), x, y);
  }

  /**
   * The answer to a clock tick of a running game makes the page announce a loss exactly when the
   * clock ran out, and announces nothing otherwise.
   */
  lemma TimeOutAnnouncedAsLoss(id: string, d: Difficulty, v: GameView, s: int,
                               width: nat, height: nat, numKittens: int, hasWon: Option<bool>)
    requires Covers(v.cells, width, height)
    requires 0 <= v.timeRemaining <= INT32_MAX && IsInt32(s) && Running(v)
    ensures Covers(Tick(v, s).cells, width, height)
    ensures var page := GameJsonWith(id, d, Tick(v, s), width, height, numKittens, hasWon);
      TimeGameOver(page) == if Tick(v, s).timeRemaining == 0 then Some(false) else None
  {
  }

  /** A click in the square where the board drew tile (x, y) asks the server to reveal (x, y). */
  lemma ClickHitsDrawnTile(data: GameJson, x: int, y: int, clickX: real, clickY: real)
    requires WellFormed(data.board) && data.gameActive && InBounds(data.board.width, data.board.height, x, y)
    ensures var b := data.board; var i := y * b.width + x;
      && 0 <= i < |Rows(b, b.height)|
      && var p := Rows(b, b.height)[i];
      && p.look == RenderTile(b.tiles[x][y])
      && (p.left as real <= clickX < (p.left + TILE_SIZE) as real && p.top as real <= clickY < (p.top + TILE_SIZE) as real
          <==> ClickTarget(Some(data), clickX, clickY) == Some((x, y)))
  {
    var b := data.board;
    RowsAt(b, b.height, x, y);
    ClickTargetIff(Some(data), clickX, clickY, x, y);
  }

  /**
   * The flag endpoint: the form fields x and y are bound to `int`s, and the service's `toggleFlag`
   * runs only when both bind; otherwise the request fails and the stored game stays as it was. The
   * game changes only when both fields bind and it is running.
   */
  function FlagRequest(xField: string, yField: string, v: GameView, width: int, height: int): (r: GameView)
    ensures r != v ==> BindInt(xField).Some? && BindInt(yField).Some? && Running(v)
  {
    match (BindInt(xField), BindInt(yField))
    case (Some(x), Some(y)) => ToggleForwarded(v, width, height, x, y)
    case _ => v
  }

  /** As written: no press of the space bar changes a stored game, whatever the game and wherever the pointer. */
  lemma SpaceNeverFlags(data: Option<GameJson>, code: string, left: real, top: real,
                        v: GameView, width: int, height: int)
    requires FlagFieldsAsWritten(data, code, left, top).Some?
    ensures var (xField, yField) := FlagFieldsAsWritten(data, code, left, top).value;
      FlagRequest(xField, yField, v, width, height) == v
  {
  }

  /**
   * As intended: the request for the tile under the pointer binds to that tile, and the server
   * toggles its flag as `toggleFlag` does.
   */
  lemma PointerFlagReachesServer(data: Option<GameJson>, code: string, pointerX: real, pointerY: real,
                                 v: GameView, width: int, height: int)
    requires FlagTarget(data, code, pointerX, pointerY).Some?
    requires var (x, y) := FlagTarget(data, code, pointerX, pointerY).value; IsInt32(x) && IsInt32(y)
    ensures var (x, y) := FlagTarget(data, code, pointerX, pointerY).value;
      FlagRequest(NumberText(Int(x)), NumberText(Int(y)), v, width, height) == ToggleForwarded(v, width, height, x, y)
  {
  }
}
