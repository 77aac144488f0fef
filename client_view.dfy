/**
 * The browser side of a game, as values: where a click or a key lands, what each tile looks like,
 * which kitten frame shows at each tick, the text of the timer and counter, and what a server
 * response makes the page announce.
 */
module ClientView {
  import opened Tiles
  import opened Grid
  import opened BoardRules
  import opened Numerals
  import opened GameStates
  import opened Wire

  /** The side of a tile on screen, in pixels. */
  const TILE_SIZE: int := 32

  // ---------------------------------------------------------------- clicks and keys

  /** The tile index of a pixel offset into the board: `Math.floor(offset / TILE_SIZE)`. */
  function TileIndex(offset: real): int {
    (offset / TILE_SIZE as real).Floor
  }

  /** Every pixel of the strip [i * 32, i * 32 + 32) falls on index i, and no other pixel does. */
  lemma TileIndexOf(offset: real, i: int)
    ensures TileIndex(offset) == i <==> (i * TILE_SIZE) as real <= offset < (i * TILE_SIZE + TILE_SIZE) as real
  {
  }

  /** Whether the page takes board input: it holds a game and that game is still active. */
  predicate Accepting(data: Option<GameJson>) {
    data.Some? && data.value.gameActive
  }

  /**
   * The tile a board click asks the server to reveal, or None when the click is ignored: no game,
   * an inactive game, or a point off the board's width x height tiles.
   */
  function ClickTarget(data: Option<GameJson>, clickX: real, clickY: real): (r: Option<(int, int)>)
    ensures !Accepting(data) ==> r.None?
    ensures r.Some? ==> Accepting(data) && InBounds(data.value.board.width, data.value.board.height, r.value.0, r.value.1)
  {
    if !Accepting(data) then None
    else
      var tileX, tileY := TileIndex(clickX), TileIndex(clickY);
      var board := data.value.board;
      if tileX < 0 || tileX >= board.width || tileY < 0 || tileY >= board.height then None
      else Some((tileX, tileY))
  }

  /**
   * A click asks to reveal tile (x, y) exactly when the game accepts input, (x, y) is on the board,
   * and the click lies in the 32 x 32 square drawn for that tile.
   */
  lemma ClickTargetIff(data: Option<GameJson>, clickX: real, clickY: real, x: int, y: int)
    ensures ClickTarget(data, clickX, clickY) == Some((x, y)) <==>
      && Accepting(data) && InBounds(data.value.board.width, data.value.board.height, x, y)
      && (x * TILE_SIZE) as real <= clickX < (x * TILE_SIZE + TILE_SIZE) as real
      && (y * TILE_SIZE) as real <= clickY < (y * TILE_SIZE + TILE_SIZE) as real
  {
    TileIndexOf(clickX, x);
    TileIndexOf(clickY, y);
  }

  /** A number the key handler gets from `Math.floor`: an integer, or NaN. */
  datatype JsNumber = Int(value: int) | NaN

  /**
   * `Math.floor((offset - origin) / TILE_SIZE)`, where a missing offset is `undefined`: arithmetic on
   * `undefined` gives NaN, and `Math.floor` keeps it.
   */
  function FloorTile(offset: Option<real>, origin: real): (n: JsNumber)
    ensures n.NaN? <==> offset.None?
  {
    if offset.None? then NaN else Int(TileIndex(offset.value - origin))
  }

  /** `${n}` in a form body: the decimal text of an integer, which binds back to it when it fits in 32 bits, or "NaN", which never binds. */
  function NumberText(n: JsNumber): (s: string)
    ensures n.NaN? ==> BindInt(s).None?
    ensures n.Int? && IsInt32(n.value) ==> BindInt(s) == Some(n.value)
  {
    match n
    case NaN => "NaN"
    case Int(v) =>
      if IsInt32(v) then BindIntText(v); IntText(v) else IntText(v)
  }

  /**
   * `handleKeyPress` as written: the form fields x and y of the flag request a key press sends, or
   * None when it sends none. Given the board's on-screen left and top, it reads the pointer position
   * from the event, but a `keydown` event is a KeyboardEvent, which has no `clientX` or `clientY`.
   */
  function FlagFieldsAsWritten(data: Option<GameJson>, code: string, left: real, top: real): (r: Option<(string, string)>)
    ensures r.Some? <==> Accepting(data) && code == "Space"
    ensures r.Some? ==> BindInt(r.value.0).None? && BindInt(r.value.1).None?
  {
    if !Accepting(data) || code != "Space" then None
    else
      var clientX: Option<real>, clientY: Option<real> := None, None;
      Some((NumberText(FloorTile(clientX, left)), NumberText(FloorTile(clientY, top))))
  }

  /**
   * The tile the space bar is meant to flag: the one under the last pointer position over the board
   * (offsets from its left and top), with no check against the board.
   */
  function FlagTarget(data: Option<GameJson>, code: string, pointerX: real, pointerY: real): (r: Option<(int, int)>)
    ensures r.Some? <==> Accepting(data) && code == "Space"
    ensures r.Some? ==>
      && (r.value.0 * TILE_SIZE) as real <= pointerX < (r.value.0 * TILE_SIZE + TILE_SIZE) as real
      && (r.value.1 * TILE_SIZE) as real <= pointerY < (r.value.1 * TILE_SIZE + TILE_SIZE) as real
  {
    if !Accepting(data) || code != "Space" then None
    else
      TileIndexOf(pointerX, TileIndex(pointerX));
      TileIndexOf(pointerY, TileIndex(pointerY));
      Some((TileIndex(pointerX), TileIndex(pointerY)))
  }

  /**
   * The missing bounds check costs nothing: a flag request for a cell outside the board's interior,
   * wherever the pointer is, leaves the grid as it was, since the board refuses it.
   */
  lemma FlagOffBoardIgnored(data: Option<GameJson>, code: string, pointerX: real, pointerY: real,
                            v: GameView, width: int, height: int)
    requires FlagTarget(data, code, pointerX, pointerY).Some?
    requires var (x, y) := FlagTarget(data, code, pointerX, pointerY).value; !Interior(width, height, x, y)
    ensures var (x, y) := FlagTarget(data, code, pointerX, pointerY).value;
      FlagToggled(v.cells, width, height, v.gameOver, x, y) == v.cells
  {
  }

  // ---------------------------------------------------------------- sprites

  /** A cell of a sprite sheet; the CSS background offset of cell (col, row) is (-32 col, -32 row) px. */
  datatype Sprite = Sprite(col: int, row: int)

  const WALL_SPRITE := Sprite(0, 2)
  const UNREVEALED_SPRITE := Sprite(2, 0)
  const EMPTY_SPRITE := Sprite(5, 0)
  const FLAG_SPRITE := Sprite(1, 0)

  /** The overlay for a count of n neighbouring kittens, 1 <= n <= 8. */
  function NumberSprite(n: int): Sprite {
    Sprite(n - 1, 1)
  }

  /** A kitten drawn on a tile: the value stored with it and the frame of the kitten sheet it shows. */
  datatype KittenFace = KittenFace(value: int, cell: Sprite)

  /** What a rendered tile shows: a base sprite, then a number, a kitten and a flag layered on it. */
  datatype Look = Look(base: Option<Sprite>, number: Option<Sprite>, kitten: Option<KittenFace>, flag: bool)

  /** A tile element placed on the board, at (left, top) pixels. */
  datatype Placed = Placed(left: int, top: int, look: Look)

  /** `renderTile`: the look of one JSON tile, the kitten drawn at animation frame 0. */
  function RenderTile(t: TileJson): (l: Look)
    ensures l.flag == t.flagged
    ensures l.base.Some? <==> IsTileCode(t.tileType)
    ensures IsHiddenCode(t.tileType) ==> l.base == Some(UNREVEALED_SPRITE) && l.number.None? && l.kitten.None?
    ensures l.number.Some? <==> 1 <= t.tileType <= 8
    ensures l.kitten.Some? <==> t.tileType == REVEALED_KITTEN
    ensures l.kitten.Some? ==> l.kitten.value.value == t.kittenValue
  {
    var face :=
      if t.tileType == WALL then Look(Some(WALL_SPRITE), None, None, false)
      else if t.tileType == UNREVEALED || t.tileType == UNREVEALED_KITTEN then Look(Some(UNREVEALED_SPRITE), None, None, false)
      else if t.tileType == EMPTY then Look(Some(EMPTY_SPRITE), None, None, false)
      else if 1 <= t.tileType <= 8 then Look(Some(EMPTY_SPRITE), Some(NumberSprite(t.tileType)), None, false)
      else if t.tileType == REVEALED_KITTEN then
        Look(Some(EMPTY_SPRITE), None, Some(KittenFace(t.kittenValue, Sprite(0, t.kittenValue))), false)
      else Look(None, None, None, false);
    face.(flag := t.flagged)
  }

  /** Hidden cells, kitten or not. */
  predicate IsHiddenCode(t: int) {
    t == UNREVEALED || t == UNREVEALED_KITTEN
  }

  /**
   * Two tiles of server codes look alike exactly when they carry the same flag and either both are
   * hidden or they have the same code (and, for a shown kitten, the same kitten): the page never
   * shows where a hidden kitten is, and it tells every shown code apart.
   */
  lemma LooksTellCodesApart(a: TileJson, b: TileJson)
    requires IsTileCode(a.tileType) && IsTileCode(b.tileType)
    ensures RenderTile(a) == RenderTile(b) <==>
      && a.flagged == b.flagged
      && ((IsHiddenCode(a.tileType) && IsHiddenCode(b.tileType))
          || (a.tileType == b.tileType && (a.tileType == REVEALED_KITTEN ==> a.kittenValue == b.kittenValue)))
  {
    if RenderTile(a) == RenderTile(b) && !IsHiddenCode(a.tileType) && 1 <= a.tileType <= 8 {
      assert RenderTile(a).number == Some(NumberSprite(a.tileType));
    }
  }

  /** The rendered tiles of board row y, left to right. */
  function Row(board: BoardJson, y: int): (r: seq<Placed>)
    requires WellFormed(board) && 0 <= y < board.height
    ensures |r| == board.width
  {
    seq(board.width, x requires 0 <= x < board.width =>
      Placed(x * TILE_SIZE, y * TILE_SIZE, RenderTile(board.tiles[x][y])))
  }

  /** `renderBoard`'s tile elements for rows 0 .. n - 1, in the order they are appended. */
  function Rows(board: BoardJson, n: int): seq<Placed>
    requires WellFormed(board) && 0 <= n <= board.height
  {
    if n == 0 then [] else Rows(board, n - 1) + Row(board, n - 1)
  }

  /** There is one rendered element per tile of rows 0 .. n - 1. */
  lemma {:induction false} RowsLength(board: BoardJson, n: int)
    requires WellFormed(board) && 0 <= n <= board.height
    ensures |Rows(board, n)| == n * board.width
  {
    if n > 0 {
      RowsLength(board, n - 1);
      assert n * board.width == (n - 1) * board.width + board.width;
    }
  }

  /**
   * The rendered board is row-major: element y * width + x is tile (x, y), drawn at (32 x, 32 y)
   * with that tile's look.
   */
  lemma {:induction false} RowsAt(board: BoardJson, n: int, x: int, y: int)
    requires WellFormed(board) && 0 <= n <= board.height
    requires 0 <= x < board.width && 0 <= y < n
    ensures y * board.width + x < |Rows(board, n)|
    ensures Rows(board, n)[y * board.width + x] == Placed(x * TILE_SIZE, y * TILE_SIZE, RenderTile(board.tiles[x][y]))
  {
    RowsLength(board, n - 1);
    if y == n - 1 {
      assert Rows(board, n)[y * board.width + x] == Row(board, n - 1)[x];
    } else {
      RowsAt(board, n - 1, x, y);
    }
  }

  // ---------------------------------------------------------------- kitten animation

  /** How many frames a kitten of value v cycles through. */
  function MaxFrames(v: int): (m: nat)
    ensures m == 4 || m == 6 || m == 8
  {
    if v <= 3 || v == 6 then 4
    else if v == 4 || v == 5 then 8
    else 6
  }

  /** The frame index at animation tick `counter`: one step every 15 ticks, wrapping at MaxFrames. */
  function BaseFrame(counter: nat, v: int): (f: nat)
    ensures f < MaxFrames(v)
  {
    (counter / 15) % MaxFrames(v)
  }

  /** The kitten sheet cell shown for a kitten of value v at tick `counter`. */
  function KittenCell(counter: nat, v: int): (c: Sprite)
    ensures 0 <= c.col < MaxFrames(v)
    ensures v <= 9 ==> c.row == v
    ensures v > 9 ==> c.row == 0 && c.col < 4
  {
    var f := BaseFrame(counter, v);
    if v <= 9 then Sprite(f, v) else Sprite(f % 4, 0)
  }

  /** The layout of the 256 x 320 kitten sheet: how many frames each of its ten rows holds. */
  function SheetColumns(row: int): int {
    if 0 <= row <= 3 || row == 6 then 4
    else if row == 4 || row == 5 || row == 9 then 8
    else if row == 7 then 6
    else if row == 8 then 7
    else 0
  }

  /**
   * For every kitten value the server hands out, and any other non-negative one, the frame shown
   * lies on the sheet: in an existing row, at a column that row holds, within 8 x 10 cells of 32 px.
   */
  lemma KittenCellOnSheet(counter: nat, v: int)
    requires 0 <= v
    ensures var c := KittenCell(counter, v);
      && 0 <= c.row < 10 && 0 <= c.col < SheetColumns(c.row) <= 8
      && (v <= 9 ==> c.row == v)
  {
  }

  /** Frame f of a kitten shows during ticks 15 f .. 15 f + 14 of the first cycle. */
  lemma KittenFrameAt(f: nat, r: nat, v: int)
    requires f < MaxFrames(v) && r < 15
    ensures BaseFrame(15 * f + r, v) == f
  {
    assert (15 * f + r) / 15 == f;
  }

  /** The animation is periodic: after 15 * MaxFrames(v) ticks the same frame shows again. */
  lemma KittenFramePeriodic(counter: nat, v: int)
    ensures BaseFrame(counter + 15 * MaxFrames(v), v) == BaseFrame(counter, v)
  {
    var q := counter / 15;
    if MaxFrames(v) == 4 {
      assert (counter + 60) / 15 == q + 4;
      assert BaseFrame(counter + 60, v) == (q + 4) % 4 && BaseFrame(counter, v) == q % 4;
    } else if MaxFrames(v) == 6 {
      assert (counter + 90) / 15 == q + 6;
      assert BaseFrame(counter + 90, v) == (q + 6) % 6 && BaseFrame(counter, v) == q % 6;
    } else {
      assert (counter + 120) / 15 == q + 8;
      assert BaseFrame(counter + 120, v) == (q + 8) % 8 && BaseFrame(counter, v) == q % 8;
    }
  }

  /** A freshly rendered kitten shows the frame the animation shows during the first 15 ticks. */
  lemma RenderedKittenIsFirstFrame(t: TileJson, counter: nat)
    requires t.tileType == REVEALED_KITTEN && 0 <= t.kittenValue <= 9 && counter < 15
    ensures RenderTile(t).kitten == Some(KittenFace(t.kittenValue, KittenCell(counter, t.kittenValue)))
  {
  }

  /** A tile element after an animation step at tick `counter`: its kitten, if any, moves to that frame. */
  function Animated(p: Placed, counter: nat): (r: Placed)
    ensures r.left == p.left && r.top == p.top && r.look.base == p.look.base && r.look.flag == p.look.flag
    ensures r.look.kitten.Some? <==> p.look.kitten.Some?
    ensures p.look.kitten.Some? ==> r.look.kitten.value.cell == KittenCell(counter, p.look.kitten.value.value)
  {
    match p.look.kitten
    case None => p
    case Some(k) => p.(look := p.look.(kitten := Some(k.(cell := KittenCell(counter, k.value)))))
  }

  // ---------------------------------------------------------------- timer, counter, overlay

  /** The timer turns to its warning style at ten seconds or less. */
  predicate TimerWarning(timeRemaining: int) {
    timeRemaining <= 10
  }

  /** The kitten counter: "`numKittens` kittens". */
  function CounterText(numKittens: int): (s: string)
    ensures |s| > 8 && s[|s| - 8..] == " kittens"
  {
    IntText(numKittens) + " kittens"
  }

  /** The counter of a board with n >= 0 kittens reads back as n. */
  lemma CounterReadsBack(numKittens: int)
    requires 0 <= numKittens
    ensures var s := CounterText(numKittens);
      AllDigits(s[..|s| - 8]) && ParseDecimal(s[..|s| - 8]) == numKittens
  {
    var s := CounterText(numKittens);
    assert s[..|s| - 8] == IntText(numKittens);
  }

  /** The game-over overlay's text. */
  function OverlayText(hasWon: bool): (s: string)
    ensures s == "You Won!" <==> hasWon
    ensures s == "You Lost!" <==> !hasWon
  {
    if hasWon then "You Won!" else "You Lost!"
  }

  // ---------------------------------------------------------------- responses

  /** JavaScript truthiness of a property that may be missing: only a present `true` counts. */
  predicate Truthy(b: Option<bool>) {
    b == Some(true)
  }

  /** The tile at (x, y) of a JSON board, or None where `tiles[x][y]` would be missing. */
  function TileAt(data: GameJson, x: int, y: int): (r: Option<TileJson>)
    ensures r.Some? <==> 0 <= x < |data.board.tiles| && 0 <= y < |data.board.tiles[x]|
    ensures r.Some? ==> r.value == data.board.tiles[x][y]
  {
    if 0 <= x < |data.board.tiles| && 0 <= y < |data.board.tiles[x]| then Some(data.board.tiles[x][y]) else None
  }

  /** A response rewritten to a loss at (x, y): the tile shown as a kitten and the game over. */
  function ForceLoss(data: GameJson, x: int, y: int): (r: GameJson)
    requires TileAt(data, x, y).Some?
    ensures TileAt(r, x, y) == Some(data.board.tiles[x][y].(tileType := REVEALED_KITTEN, revealed := true))
    ensures r == data.(board := r.board, gameActive := false)
    ensures r.board == data.board.(tiles := r.board.tiles, gameOver := true)
    ensures forall a, b | TileAt(data, a, b).Some? && (a, b) != (x, y) :: TileAt(r, a, b) == TileAt(data, a, b)
  {
    var t := data.board.tiles[x][y].(tileType := REVEALED_KITTEN, revealed := true);
    var column := data.board.tiles[x][y := t];
    data.(board := data.board.(tiles := data.board.tiles[x := column], gameOver := true), gameActive := false)
  }

  /** The reveal handler's kitten test as written: a shown kitten, or a hidden one marked `kitten`. */
  predicate KittenClickAsWritten(t: TileJson) {
    t.tileType == REVEALED_KITTEN || (t.tileType == UNREVEALED_KITTEN && t.kitten)
  }

  /** The kitten test that matches the server: only a shown kitten means the click hit one. */
  predicate KittenClick(t: TileJson) {
    t.tileType == REVEALED_KITTEN
  }

  /** The corrected test fires on fewer tiles: the two differ exactly on a hidden kitten marked `kitten`. */
  lemma KittenChecksDiffer(t: TileJson)
    ensures KittenClick(t) ==> KittenClickAsWritten(t)
    ensures KittenClickAsWritten(t) && !KittenClick(t) <==> t.tileType == UNREVEALED_KITTEN && t.kitten
  {
  }

  /** A reveal response after the handler's kitten check as written; a missing tile leaves it alone. */
  function CheckedAsWritten(data: GameJson, x: int, y: int): (r: GameJson)
    ensures r.gameActive ==> r == data
    ensures TileAt(data, x, y).Some? && KittenClickAsWritten(TileAt(data, x, y).value) ==> !r.gameActive && r.board.gameOver
    ensures !r.gameActive ==> !data.gameActive || (TileAt(data, x, y).Some? && KittenClickAsWritten(TileAt(data, x, y).value))
  {
    match TileAt(data, x, y)
    case None => data
    case Some(t) => if KittenClickAsWritten(t) then ForceLoss(data, x, y) else data
  }

  /** A reveal response after the corrected kitten check. */
  function Checked(data: GameJson, x: int, y: int): (r: GameJson)
    ensures r.gameActive ==> r == data
    ensures TileAt(data, x, y).Some? && KittenClick(TileAt(data, x, y).value) ==> !r.gameActive && r.board.gameOver
    ensures !r.gameActive ==> !data.gameActive || (TileAt(data, x, y).Some? && KittenClick(TileAt(data, x, y).value))
  {
    match TileAt(data, x, y)
    case None => data
    case Some(t) => if KittenClick(t) then ForceLoss(data, x, y) else data
  }

  /**
   * Whether a reveal response ends the game on the page, and with what outcome: the game was active
   * before and is not now, and then `handleGameOver` gets the board's `hasWon`.
   */
  function RevealGameOver(wasGameActive: bool, data: GameJson): (r: Option<bool>)
    ensures r.Some? <==> wasGameActive && !data.gameActive
    ensures r.Some? ==> (r.value <==> Truthy(data.board.hasWon))
  {
    if wasGameActive && !data.gameActive then Some(Truthy(data.board.hasWon)) else None
  }

  /** Whether a clock response ends the game on the page: play stopped without the board being over, always a loss. */
  function TimeGameOver(data: GameJson): (r: Option<bool>)
    ensures r.Some? <==> !data.gameActive && !data.board.gameOver
    ensures r.Some? ==> !r.value
  {
    if !data.gameActive && !data.board.gameOver then Some(false) else None
  }
}
