/**
 * The JSON a game travels in: what default bean serialisation makes of GameState, Board and Tile,
 * one property per `getX()` / `isX()` accessor.
 */
module Wire {
  import opened Tiles
  import opened Grid
  import opened BoardRules
  import opened GameStates
  import opened Numerals

  datatype Option<T> = None | Some(value: T)

  /**
   * A form field bound to a Java `int`, as `@RequestParam int` binds it: an optional sign and at
   * least one decimal digit, of a value that fits in 32 bits. Any other text ("NaN" among it) does
   * not bind, and the request fails before the controller method runs.
   */
  function BindInt(s: string): (r: Option<int>)
    ensures r.Some? ==> IsInt32(r.value)
    ensures r.Some? ==> 0 < |s| && (s[0] == '+' || s[0] == '-' || IsDigit(s[0]))
  {
    if |s| > 0 && (s[0] == '+' || s[0] == '-') then
      var digits := s[1..];
      if |digits| == 0 || !AllDigits(digits) then None
      else
        var v: int := if s[0] == '-' then -(ParseDecimal(digits) as int) else ParseDecimal(digits);
        if IsInt32(v) then Some(v) else None
    else if |s| > 0 && AllDigits(s) && IsInt32(ParseDecimal(s)) then Some(ParseDecimal(s))
    else None
  }

  /** The text a page writes for a 32-bit integer binds back to that integer. */
  lemma BindIntText(n: int)
    requires IsInt32(n)
    ensures BindInt(IntText(n)) == Some(n)
  {
    var s := IntText(n);
    if n >= 0 {
      assert IsDigit(s[0]);
    }
  }

  /** A tile: `type`, `flagged` and `kittenValue`, plus the derived `revealed` and `kitten`. */
  datatype TileJson = TileJson(tileType: int, flagged: bool, kittenValue: int, revealed: bool, kitten: bool)

  /** A board; `hasWon` is `None` when the property is missing from the JSON object. */
  datatype BoardJson = BoardJson(width: int, height: int, numKittens: int, gameOver: bool,
                                 hasWon: Option<bool>, tiles: seq<seq<TileJson>>)

  /** A game; `gameActive` is what `isGameActive()` returns, not the field of that name. */
  datatype GameJson = GameJson(id: string, difficulty: Difficulty, board: BoardJson,
                               timeRemaining: int, gameActive: bool, formattedTime: string)

  function TileJsonOf(s: TileState): TileJson {
    TileJson(s.tileType, s.flagged, s.kittenValue, IsRevealedType(s.tileType), IsKittenType(s.tileType))
  }

  /**
   * A hidden kitten goes out with `kitten` true and `revealed` false, and it is the only code that
   * does; `kitten` alone does not tell a hidden kitten from a shown one.
   */
  lemma HiddenKittenJson(s: TileState)
    requires IsTileCode(s.tileType)
    ensures var j := TileJsonOf(s); j.kitten && !j.revealed <==> s.tileType == UNREVEALED_KITTEN
    ensures var j := TileJsonOf(s); j.kitten <==> s.tileType == UNREVEALED_KITTEN || s.tileType == REVEALED_KITTEN
  {
    KittenCodes(s.tileType);
  }

  /** The tiles of a width x height board form an array of `width` columns of `height` tiles. */
  predicate WellFormed(b: BoardJson) {
    && 0 <= b.width && 0 <= b.height
    && |b.tiles| == b.width
    && forall x | 0 <= x < |b.tiles| :: |b.tiles[x]| == b.height
  }

  /** `getTiles()` of a grid: column x holds cells (x, 0) .. (x, height - 1). */
  function TilesJson(g: Snapshot, width: nat, height: nat): (t: seq<seq<TileJson>>)
    requires forall x, y | InBounds(width, height, x, y) :: (x, y) in g
    ensures |t| == width && forall x | 0 <= x < width :: |t[x]| == height
    ensures forall x, y | InBounds(width, height, x, y) :: t[x][y] == TileJsonOf(g[(x, y)])
  {
    seq(width, x requires 0 <= x < width =>
      seq(height, y requires 0 <= y < height =>
        assert InBounds(width, height, x, y); TileJsonOf(g[(x, y)])))
  }

  function BoardJsonOf(v: GameView, width: nat, height: nat, numKittens: int, hasWon: Option<bool>): BoardJson
    requires forall x, y | InBounds(width, height, x, y) :: (x, y) in v.cells
  {
    BoardJson(width, height, numKittens, v.gameOver, hasWon, TilesJson(v.cells, width, height))
  }

  /** The serialised board and clock of a game, given the `hasWon` property its board shows. */
  function GameJsonWith(id: string, d: Difficulty, v: GameView, width: nat, height: nat, numKittens: int,
                        hasWon: Option<bool>): (j: GameJson)
    requires forall x, y | InBounds(width, height, x, y) :: (x, y) in v.cells
    requires 0 <= v.timeRemaining
    ensures WellFormed(j.board) && j.board.width == width && j.board.height == height
    ensures forall x, y | InBounds(width, height, x, y) :: j.board.tiles[x][y] == TileJsonOf(v.cells[(x, y)])
    ensures j.gameActive <==> Running(v)
    ensures j.board.gameOver == v.gameOver && j.board.hasWon == hasWon
    ensures j.timeRemaining == v.timeRemaining && j.formattedTime == FormatClock(v.timeRemaining)
  {
    GameJson(id, d, BoardJsonOf(v, width, height, numKittens, hasWon), v.timeRemaining, Running(v),
             FormatClock(v.timeRemaining))
  }

  /**
   * The JSON of a game as the server writes it. `Board.hasWon()` is neither a `get` nor an `is`
   * accessor, so the board object has no `hasWon` property.
   */
  function GameJsonAsWritten(id: string, d: Difficulty, v: GameView, width: nat, height: nat, numKittens: int): (j: GameJson)
    requires forall x, y | InBounds(width, height, x, y) :: (x, y) in v.cells
    requires 0 <= v.timeRemaining
    ensures j.board.hasWon == None
  {
    GameJsonWith(id, d, v, width, height, numKittens, None)
  }

  /** The JSON of a game with the board's win flag exported, as the client reads it. */
  function GameJsonOf(id: string, d: Difficulty, v: GameView, width: nat, height: nat, numKittens: int): (j: GameJson)
    requires forall x, y | InBounds(width, height, x, y) :: (x, y) in v.cells
    requires 0 <= v.timeRemaining
    ensures j.board.hasWon == Some(v.hasWon)
  {
    GameJsonWith(id, d, v, width, height, numKittens, Some(v.hasWon))
  }
}
