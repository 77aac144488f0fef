/** The registry of games: id to game, and the guarded forwarding of every player action. */
module GameServices {
  import opened Tiles
  import opened Grid
  import opened BoardRules
  import opened Boards
  import opened GameStates

  /** The objects an action on game g may change: the game, its board and the board's tiles. */
  ghost function Footprint(g: GameState): set<object>
    reads g.board
  {
    {g, g.board} + g.board.Cells
  }

  /**
   * What `revealTile` does to a stored game: the board's reveal when the game is active, with the
   * clock untouched, and nothing otherwise.
   */
  ghost predicate RevealForwarded(v: GameView, v': GameView, width: int, height: int, x: int, y: int) {
    if Running(v) then
      && RevealOutcome(v.cells, v.gameOver, v.hasWon, v'.cells, v'.gameOver, v'.hasWon, width, height, x, y)
      && v'.timeRemaining == v.timeRemaining && v'.gameActive == v.gameActive
    else
      v' == v
  }

  /** What `toggleFlag` does to a stored game: the board's toggle when the game is active, nothing otherwise. */
  function ToggleForwarded(v: GameView, width: int, height: int, x: int, y: int): (r: GameView)
    ensures !Running(v) ==> r == v
    ensures Running(v) ==> r == v.(cells := FlagToggled(v.cells, width, height, false, x, y))
  {
    if Running(v) then v.(cells := FlagToggled(v.cells, width, height, v.gameOver, x, y)) else v
  }

  /**
   * After a time-out the board alone still takes clicks, since its own game-over flag is not set, so
   * only the service's activity guard keeps a timed-out game frozen: a hidden interior cell the board
   * would flag or open is left as it is.
   */
  lemma GuardFreezesTimedOut(v: GameView, s: int, width: int, height: int, x: int, y: int)
    requires 0 <= v.timeRemaining <= INT32_MAX && IsInt32(s) && Running(v)
    requires Interior(width, height, x, y) && (x, y) in v.cells
    requires v.cells[(x, y)].tileType == UNREVEALED
    requires Tick(v, s).timeRemaining == 0
    ensures var t := Tick(v, s);
      && CanToggle(t.cells, width, height, t.gameOver, x, y)
      && CanReveal(t.cells, width, height, t.gameOver, x, y)
      && ToggleForwarded(t, width, height, x, y) == t
      && forall t' :: RevealForwarded(t, t', width, height, x, y) ==> t' == t
  {
    var t := Tick(v, s);
    RevealAllShowsKittens(v.cells);
    assert t.cells == RevealAll(v.cells);
  }

  class GameService {
    var activeGames: map<string, GameState>

    /** The boards of the stored games. */
    ghost function Boards(): set<Board>
      reads this
    {
      set k | k in activeGames :: activeGames[k].board
    }

    /** Every object the stored games are made of: games, boards, grids and tiles. */
    ghost function Objects(): set<object>
      reads this, Boards()
    {
      activeGames.Values + Boards() + (set b | b in Boards() :: b.tiles) + (set b, t | b in Boards() && t in b.Cells :: t)
    }

    /** Game k is stored under its own id and is valid. */
    ghost predicate Holds(k: string)
      requires k in activeGames
      reads this, activeGames[k], activeGames[k].board, activeGames[k].board.tiles
    {
      activeGames[k].id == k && activeGames[k].Valid()
    }

    /**
     * Every stored game holds, and no two games share a board; as every tile belongs to one board,
     * acting on one game leaves the others alone.
     */
    ghost predicate Valid()
      reads this, Boards(), Objects()
    {
      && (forall k | k in activeGames :: Holds(k))
      && (forall k, j | k in activeGames && j in activeGames && k != j :: activeGames[k].board != activeGames[j].board)
    }

    /** The objects an action on game `gameId` may change. */
    ghost function Owned(gameId: string): set<object>
      reads this, Boards()
    {
      if gameId in activeGames then Footprint(activeGames[gameId]) else {}
    }

    /** No object another game is made of is one that an action on `gameId` may change. */
    lemma Separate(gameId: string)
      requires Valid()
      ensures forall k | k in activeGames && k != gameId ::
        && activeGames[k] !in Owned(gameId) && activeGames[k].board !in Owned(gameId)
        && (forall t | t in activeGames[k].board.Cells :: t !in Owned(gameId))
    {
    }

    /** Every game other than `gameId` has the value it had before. */
    twostate predicate OthersKept(gameId: string)
      requires old(Valid()) && Valid() && activeGames == old(activeGames)
      reads this, Boards(), Objects()
    {
      forall k | k in activeGames && k != gameId :: activeGames[k].View() == old(activeGames[k].View())
    }

    /**
     * A step that kept every other game under its id, with its game, board, grid and tiles
     * unchanged, leaves each other game holding, with the same value.
     */
    twostate lemma OthersUntouched(gameId: string)
      requires old(Valid())
      requires forall k | k in old(activeGames) && k != gameId ::
        && k in activeGames && activeGames[k] == old(activeGames[k])
        && unchanged(activeGames[k], activeGames[k].board, old(activeGames[k].board.tiles))
        && (forall t | t in old(activeGames[k].board.Cells) :: unchanged(t))
      ensures forall k | k in old(activeGames) && k != gameId ::
        k in activeGames && Holds(k) && activeGames[k].View() == old(activeGames[k].View())
    {
      forall k | k in old(activeGames) && k != gameId
        ensures k in activeGames && Holds(k) && activeGames[k].View() == old(activeGames[k].View())
      {
        assert old(Holds(k));
        GameKept(activeGames[k]);
      }
    }

    /**
     * A step that changed nothing but game `gameId`, and left that one holding, keeps the registry
     * valid and every other game's value.
     */
    twostate lemma OnlyOneChanged(gameId: string)
      requires old(Valid()) && activeGames == old(activeGames)
      requires gameId in activeGames ==> Holds(gameId)
      requires forall k | k in activeGames && k != gameId ::
        && unchanged(activeGames[k], activeGames[k].board, old(activeGames[k].board.tiles))
        && (forall t | t in old(activeGames[k].board.Cells) :: unchanged(t))
      ensures Valid() && OthersKept(gameId)
    {
      OthersUntouched(gameId);
    }

    /** `getGame`: the game stored under the id, or null. */
    function GetGame(gameId: string): (game: GameState?)
      requires Valid()
      reads this, Boards(), Objects()
      ensures game == null <==> gameId !in activeGames
      ensures game != null ==> game.id == gameId && game in activeGames.Values
    {
      if gameId in activeGames then activeGames[gameId] else null
    }

    /** `createGame(difficulty)`, with the id the caller draws: a started game, stored under its id. */
    method CreateGame(difficulty: Difficulty, gameId: string) returns (game: GameState)
      requires Valid()
      modifies this
      ensures Valid() && fresh(game)
      ensures activeGames == old(activeGames)[gameId := game]
      ensures game.Valid() && game.difficulty == difficulty && Started(game.View(), difficulty)
      ensures GetGame(gameId) == game
    {
      game := new GameState(difficulty, gameId);
      label Made:
      activeGames := activeGames[game.id := game];
      GameKept@Made(game);
      OthersUntouched(gameId);
      assert Holds(gameId);
    }

    /** `revealTile`: forwarded to the board only while the game is active. */
    method RevealTile(gameId: string, x: int, y: int) returns (game: GameState?)
      requires Valid()
      modifies Owned(gameId)
      ensures Valid() && activeGames == old(activeGames) && game == old(GetGame(gameId))
      ensures game != null ==>
        RevealForwarded(old(game.View()), game.View(), game.board.width, game.board.height, x, y)
      ensures OthersKept(gameId)
    {
      Separate(gameId);
      game := GetGame(gameId);
      if game != null && game.IsGameActive() {
        ghost var v := game.View();
        game.board.RevealTile(x, y);
        assert game.Valid();
        assert game.View() == v.(cells := game.board.Snap(), gameOver := game.board.gameOver, hasWon := game.board.hasWon);
        assert Holds(gameId);
      }
      OnlyOneChanged(gameId);
    }

    /** `toggleFlag`: forwarded to the board only while the game is active. */
    method ToggleFlag(gameId: string, x: int, y: int) returns (game: GameState?)
      requires Valid()
      modifies Owned(gameId)
      ensures Valid() && activeGames == old(activeGames) && game == old(GetGame(gameId))
      ensures game != null ==>
        game.View() == ToggleForwarded(old(game.View()), game.board.width, game.board.height, x, y)
      ensures OthersKept(gameId)
    {
      Separate(gameId);
      game := GetGame(gameId);
      if game != null && game.IsGameActive() {
        game.board.ToggleFlag(x, y);
        assert Holds(gameId);
      }
      OnlyOneChanged(gameId);
    }

    /** `updateGameTime`: forwarded whenever the game exists; the game itself ignores a stopped clock. */
    method UpdateGameTime(gameId: string, secondsElapsed: int) returns (game: GameState?)
      requires Valid() && IsInt32(secondsElapsed)
      modifies Owned(gameId)
      ensures Valid() && activeGames == old(activeGames) && game == old(GetGame(gameId))
      ensures game != null ==> game.View() == Tick(old(game.View()), secondsElapsed)
      ensures OthersKept(gameId)
    {
      Separate(gameId);
      game := GetGame(gameId);
      if game != null {
        game.UpdateTime(secondsElapsed);
        assert Holds(gameId);
      }
      OnlyOneChanged(gameId);
    }

    /** `resetGame`: forwarded whenever the game exists, over or not. */
    method ResetGame(gameId: string) returns (game: GameState?)
      requires Valid()
      modifies Owned(gameId)
      ensures Valid() && activeGames == old(activeGames) && game == old(GetGame(gameId))
      ensures game != null ==> Started(game.View(), game.difficulty)
      ensures OthersKept(gameId)
    {
      Separate(gameId);
      game := GetGame(gameId);
      if game != null {
        game.Reset();
        assert Holds(gameId);
      }
      OnlyOneChanged(gameId);
    }

    /** `removeGame`: that entry goes, every other one stays. */
    method RemoveGame(gameId: string)
      requires Valid()
      modifies this
      ensures Valid() && activeGames == old(activeGames) - {gameId}
      ensures GetGame(gameId) == null
    {
      activeGames := activeGames - {gameId};
    }
  }
}
