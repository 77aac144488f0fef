/** One game: a board, its difficulty, a countdown clock in 32-bit seconds, and whether play goes on. */
module GameStates {
  import opened Tiles
  import opened Grid
  import opened BoardRules
  import opened Boards
  import opened Numerals

  // ---------------------------------------------------------------- 32-bit arithmetic

  const INT32_MIN: int := -0x8000_0000
  const INT32_MAX: int := 0x7fff_ffff

  predicate IsInt32(v: int) {
    INT32_MIN <= v <= INT32_MAX
  }

  /** Java's `a - b` on two ints: the difference wrapped into 32 bits, exact when it fits. */
  function Int32Sub(a: int, b: int): (r: int)
    requires IsInt32(a) && IsInt32(b)
    ensures IsInt32(r) && (a - b - r) % 0x1_0000_0000 == 0
    ensures IsInt32(a - b) ==> r == a - b
  {
    var d := a - b;
    if d > INT32_MAX then d - 0x1_0000_0000
    else if d < INT32_MIN then d + 0x1_0000_0000
    else d
  }

  // ---------------------------------------------------------------- difficulty

  datatype Difficulty = Easy | Medium | Hard

  datatype Setup = Setup(width: int, height: int, kittens: int, seconds: int)

  /** The board and clock a new game of each difficulty gets. */
  function SetupFor(d: Difficulty): (c: Setup)
    ensures 0 < c.kittens < InteriorSize(c.width, c.height)
    ensures 0 < c.seconds <= INT32_MAX
  {
    match d
    case Easy => Setup(11, 11, 9, 4 * 60)
    case Medium => Setup(14, 11, 13, 3 * 60)
    case Hard => Setup(17, 11, 16, 3 * 60)
  }

  /** The clock `reset` restores: the one the game started with. */
  function ResetSeconds(d: Difficulty): (s: int)
    ensures s == SetupFor(d).seconds
  {
    match d
    case Easy => 4 * 60
    case Medium | Hard => 3 * 60
  }

  // ---------------------------------------------------------------- the clock

  /** `getFormattedTime` of t seconds: "m:ss", whose two fields read back as t / 60 and t % 60. */
  function FormatClock(t: nat): (s: string)
    ensures |s| >= 4 && s[|s| - 3] == ':'
    ensures AllDigits(s[..|s| - 3]) && AllDigits(s[|s| - 2..])
    ensures ParseDecimal(s[..|s| - 3]) == t / 60 && ParseDecimal(s[|s| - 2..]) == t % 60
    ensures s[0] != '0' || t / 60 == 0
  {
    ParseDecimalOfDecimal(t / 60);
    var m := Decimal(t / 60);
    var ss := ZeroPad2(t % 60);
    var s := m + ":" + ss;
    assert s[..|s| - 3] == m && s[|s| - 2..] == ss;
    s
  }

  /** A game as a value: its grid, the board's flags, the clock and whether play goes on. */
  datatype GameView = GameView(cells: Snapshot, gameOver: bool, hasWon: bool, timeRemaining: int, gameActive: bool)

  /** `isGameActive`: play goes on and the board is not over. */
  predicate Running(v: GameView) {
    v.gameActive && !v.gameOver
  }

  /**
   * What `updateTime(s)` does to a game: nothing unless it is running; otherwise the clock loses s
   * seconds (in 32-bit arithmetic) and, once it is at or below zero, stops at zero, every kitten is
   * shown and play ends. The clock stays within 0..INT32_MAX.
   */
  function Tick(v: GameView, s: int): (r: GameView)
    requires 0 <= v.timeRemaining <= INT32_MAX && IsInt32(s)
    ensures 0 <= r.timeRemaining <= INT32_MAX
    ensures r.gameOver == v.gameOver && r.hasWon == v.hasWon
    ensures !Running(v) ==> r == v
  {
    if !Running(v) then v
    else
      var t := Int32Sub(v.timeRemaining, s);
      if t <= 0 then v.(timeRemaining := 0, gameActive := false, cells := RevealAll(v.cells))
      else v.(timeRemaining := t)
  }

  /** A tick shorter than the time left only counts the clock down. */
  lemma TickCountsDown(v: GameView, s: int)
    requires 0 <= v.timeRemaining <= INT32_MAX && Running(v)
    requires 0 <= s < v.timeRemaining
    ensures Tick(v, s) == v.(timeRemaining := v.timeRemaining - s)
  {
  }

  /**
   * A tick of at least the time left ends the game at 0:00, not won and no longer running, with
   * every kitten shown and every flag cleared.
   */
  lemma TickTimesOut(v: GameView, s: int)
    requires 0 <= v.timeRemaining <= INT32_MAX && Running(v) && !v.hasWon
    requires v.timeRemaining <= s <= INT32_MAX
    ensures var r := Tick(v, s);
      && r.timeRemaining == 0 && !Running(r) && !r.hasWon
      && KittensOf(r.cells) == KittensOf(v.cells)
      && (forall p | p in r.cells :: r.cells[p].tileType != UNREVEALED_KITTEN && !r.cells[p].flagged)
      && FormatClock(r.timeRemaining) == "0:00"
  {
    RevealAllShowsKittens(v.cells);
    var r := Tick(v, s);
    assert r.cells == RevealAll(v.cells);
    assert FormatClock(0) == Decimal(0) + ":" + ZeroPad2(0);
  }

  /**
   * A negative tick whose result leaves 32 bits wraps below zero: it ends the game like a time-out
   * instead of adding time.
   */
  lemma TickWrapEndsGame(v: GameView, s: int)
    requires 0 <= v.timeRemaining <= INT32_MAX && Running(v) && IsInt32(s)
    requires v.timeRemaining - s > INT32_MAX
    ensures Tick(v, s).timeRemaining == 0 && !Tick(v, s).gameActive
  {
  }

  /** Once a tick has stopped the game, later ticks change nothing. */
  lemma TickAfterStop(v: GameView, s: int, s': int)
    requires 0 <= v.timeRemaining <= INT32_MAX && IsInt32(s) && IsInt32(s')
    requires !Running(Tick(v, s))
    ensures Tick(Tick(v, s), s') == Tick(v, s)
  {
  }

  /** A game as construction and reset leave it for difficulty d. */
  ghost predicate Started(v: GameView, d: Difficulty) {
    var c := SetupFor(d);
    && FreshLayout(v.cells, c.width, c.height, c.kittens)
    && !v.gameOver && !v.hasWon
    && v.timeRemaining == c.seconds && v.gameActive
  }

  /** A started game is running, not yet won, and its clock reads the difficulty's full time. */
  lemma StartedIsPlayable(v: GameView, d: Difficulty)
    requires Started(v, d)
    ensures Running(v) && !Won(v.cells, SetupFor(d).width, SetupFor(d).height)
    ensures FormatClock(v.timeRemaining) == if d == Easy then "4:00" else "3:00"
  {
    var c := SetupFor(d);
    FreshNotWon(v.cells, c.width, c.height, c.kittens);
    FullClockText(d);
  }

  /** The clock text of a difficulty's full time. */
  lemma FullClockText(d: Difficulty)
    ensures FormatClock(SetupFor(d).seconds) == if d == Easy then "4:00" else "3:00"
  {
    var t := SetupFor(d).seconds;
    var m := if d == Easy then 4 else 3;
    assert t / 60 == m && t % 60 == 0;
    assert Decimal(m) == [DigitChar(m)] && ZeroPad2(0) == "00";
    assert FormatClock(t) == Decimal(m) + ":" + ZeroPad2(0);
  }

  // ---------------------------------------------------------------- the game object

  class GameState {
    const id: string
    const difficulty: Difficulty
    const board: Board
    var timeRemaining: int
    var gameActive: bool

    /** A valid board of the difficulty's size and a clock within 0..INT32_MAX. */
    ghost predicate Valid()
      reads this, board, board.tiles
    {
      var c := SetupFor(difficulty);
      && board.Valid()
      && board.width == c.width && board.height == c.height && board.numKittens == c.kittens
      && 0 <= timeRemaining <= INT32_MAX
    }

    ghost function View(): GameView
      requires Valid()
      reads this, board, board.tiles, board.Cells
    {
      GameView(board.Snap(), board.gameOver, board.hasWon, timeRemaining, gameActive)
    }

    /** `new GameState(difficulty)`, with the id the caller draws. */
    constructor (difficulty: Difficulty, id: string)
      ensures Valid() && fresh(board) && fresh(board.tiles) && fresh(board.Cells)
      ensures this.id == id && this.difficulty == difficulty
      ensures Started(View(), difficulty)
    {
      this.id := id;
      this.difficulty := difficulty;
      gameActive := true;
      var c := SetupFor(difficulty);
      board := new Board(c.width, c.height, c.kittens);
      timeRemaining := c.seconds;
    }

    /** `isGameActive`. */
    predicate IsGameActive()
      reads this, board
    {
      gameActive && !board.gameOver
    }

    /** An active game is `Running` as a value, and a running game is not won, since a won board is over. */
    lemma ActiveIsRunning()
      requires Valid()
      ensures IsGameActive() <==> Running(View())
      ensures IsGameActive() ==> !View().hasWon
    {
    }

    /** `updateTime(secondsElapsed)`. */
    method UpdateTime(secondsElapsed: int)
      requires Valid() && IsInt32(secondsElapsed)
      modifies this`timeRemaining, this`gameActive, board.Cells
      ensures Valid()
      ensures View() == Tick(old(View()), secondsElapsed)
    {
      ghost var v := View();
      if gameActive && !board.gameOver {
        timeRemaining := Int32Sub(timeRemaining, secondsElapsed);
        assert board.Snap() == v.cells;
        if timeRemaining <= 0 {
          timeRemaining := 0;
          assert board.Snap() == v.cells;
          board.RevealAllKittens();
          ghost var shown := board.Snap();
          gameActive := false;
          assert board.Snap() == shown;
          assert View() == v.(timeRemaining := 0, gameActive := false, cells := RevealAll(v.cells));
        } else {
          assert View() == v.(timeRemaining := timeRemaining);
        }
      }
    }

    /** `getFormattedTime`: the clock as `FormatClock` renders it. */
    function FormattedTime(): (s: string)
      requires Valid()
      reads this, board, board.tiles
      ensures s == FormatClock(timeRemaining)
    {
      var minutes := timeRemaining / 60;
      var seconds := timeRemaining % 60;
      Decimal(minutes) + ":" + ZeroPad2(seconds)
    }

    /** `reset`: a new layout on the same board, the starting clock, and play on. */
    method Reset()
      requires Valid()
      modifies this`timeRemaining, this`gameActive, board
      ensures Valid() && fresh(board.tiles) && fresh(board.Cells)
      ensures Started(View(), difficulty)
    {
      board.Reset();
      timeRemaining := ResetSeconds(difficulty);
      gameActive := true;
    }
  }

  /** A step that left a game's objects alone leaves it valid, with the same value. */
  twostate lemma GameKept(g: GameState)
    requires old(g.Valid())
    requires unchanged(g, g.board, old(g.board.tiles))
    requires forall t | t in old(g.board.Cells) :: unchanged(t)
    ensures g.Valid() && g.View() == old(g.View())
  {
    assert g.board.tiles == old(g.board.tiles) && g.board.Cells == old(g.board.Cells);
  }
}
