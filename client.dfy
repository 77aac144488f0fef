/**
 * The page's game controller: the variables the game script keeps between events, and what each
 * event (an animation frame, a server response, the overlay's delayed display) does to them.
 * Requests to the server are left to the caller; their responses arrive as method calls.
 */
module Client {
  import opened Tiles
  import opened Numerals
  import opened GameStates
  import opened Wire
  import opened ClientView

  datatype Sound = Meow(n: int) | Soundtrack | GameOverTrack

  /** What the page asks of its audio elements, in order. */
  datatype AudioEvent = Play(sound: Sound) | Pause(sound: Sound) | Rewind(sound: Sound)

  /** The camera's offset and velocity, in tiles, that the shake animates. */
  datatype Camera = Camera(x: real, y: real, velocityX: real, velocityY: real)

  const AT_REST := Camera(0.0, 0.0, 0.0, 0.0)

  /** The sounds of a loss: the four meows, then the game-over music. */
  const LOSS_SOUNDS: seq<AudioEvent> := [Play(Meow(1)), Play(Meow(2)), Play(Meow(3)), Play(Meow(4)), Play(GameOverTrack)]

  class GameClient {
    var gameData: Option<GameJson>
    var lastTimestamp: real
    var animationCounter: nat
    var cameraShake: bool
    var camera: Camera
    /** The board element's size in pixels and its tile elements, in document order. */
    var boardWidthPx: int
    var boardHeightPx: int
    var rendered: seq<Placed>
    var timerText: string
    var timerWarning: bool
    var counterText: string
    var overlayVisible: bool
    var resultText: string
    var audio: seq<AudioEvent>
    /** The game-over overlays scheduled by `handleGameOver` and not shown yet, oldest first. */
    var pendingOverlays: seq<bool>

    /** The page as it loads: no game yet, the clock and camera at rest, the soundtrack playing. */
    constructor ()
      ensures gameData == None && lastTimestamp == 0.0 && animationCounter == 0
      ensures !cameraShake && camera == AT_REST
      ensures rendered == [] && !overlayVisible && pendingOverlays == []
      ensures audio == [Play(Soundtrack)]
    {
      gameData := None;
      lastTimestamp := 0.0;
      animationCounter := 0;
      cameraShake := false;
      camera := AT_REST;
      boardWidthPx, boardHeightPx := 0, 0;
      rendered := [];
      timerText, timerWarning, counterText := "", false, "";
      overlayVisible, resultText := false, "";
      audio := [Play(Soundtrack)];
      pendingOverlays := [];
    }

    /** `updateKittenAnimations`: every kitten element moves to the frame of the current tick. */
    method UpdateKittenAnimations()
      modifies this`rendered
      ensures |rendered| == |old(rendered)|
      ensures forall i | 0 <= i < |rendered| :: rendered[i] == Animated(old(rendered[i]), animationCounter)
    {
      var i := 0;
      while i < |rendered|
        invariant 0 <= i <= |rendered| == |old(rendered)|
        invariant forall j | 0 <= j < i :: rendered[j] == Animated(old(rendered[j]), animationCounter)
        invariant forall j | i <= j < |rendered| :: rendered[j] == old(rendered[j])
      {
        if rendered[i].look.kitten.Some? {
          rendered := rendered[i := Animated(rendered[i], animationCounter)];
        }
        i := i + 1;
      }
    }

    /**
     * `gameLoop(timestamp)`: once more than a second has passed since the last tick, a one-second
     * clock request goes out if a game is active (`tickSent`); the shake of a game that is active
     * again stops; every 15th frame the kittens move on.
     */
    method GameLoop(timestamp: real) returns (tickSent: bool)
      modifies this`lastTimestamp, this`cameraShake, this`animationCounter, this`rendered
      ensures var start := if old(lastTimestamp) == 0.0 then timestamp else old(lastTimestamp);
        && lastTimestamp == (if timestamp - start > 1000.0 then timestamp else start)
        && (tickSent <==> timestamp - start > 1000.0 && Accepting(gameData))
      ensures cameraShake == (old(cameraShake) && !(gameData.None? || gameData.value.gameActive))
      ensures animationCounter == old(animationCounter) + 1
      ensures animationCounter % 15 != 0 ==> rendered == old(rendered)
      ensures animationCounter % 15 == 0 ==>
        |rendered| == |old(rendered)| &&
        forall i | 0 <= i < |rendered| :: rendered[i] == Animated(old(rendered[i]), animationCounter)
    {
      if lastTimestamp == 0.0 {
        lastTimestamp := timestamp;
      }
      var elapsed := timestamp - lastTimestamp;
      tickSent := false;
      if elapsed > 1000.0 {
        lastTimestamp := timestamp;
        tickSent := Accepting(gameData);
      }
      if cameraShake && (gameData.None? || gameData.value.gameActive) {
        cameraShake := false;
      }
      animationCounter := animationCounter + 1;
      if animationCounter % 15 == 0 {
        UpdateKittenAnimations();
      }
    }

    /** `renderBoard`: one tile element per tile, row by row, and the board sized to fit them. */
    method RenderBoard()
      requires gameData.Some? ==> WellFormed(gameData.value.board)
      modifies this`rendered, this`boardWidthPx, this`boardHeightPx
      ensures gameData.None? ==>
        rendered == old(rendered) && boardWidthPx == old(boardWidthPx) && boardHeightPx == old(boardHeightPx)
      ensures gameData.Some? ==> var board := gameData.value.board;
        && rendered == Rows(board, board.height)
        && boardWidthPx == board.width * TILE_SIZE && boardHeightPx == board.height * TILE_SIZE
    {
      if gameData.None? {
        return;
      }
      var board := gameData.value.board;
      boardWidthPx := board.width * TILE_SIZE;
      boardHeightPx := board.height * TILE_SIZE;
      rendered := [];
      var y := 0;
      while y < board.height
        invariant 0 <= y <= board.height
        invariant rendered == Rows(board, y)
        invariant boardWidthPx == board.width * TILE_SIZE && boardHeightPx == board.height * TILE_SIZE
      {
        var x := 0;
        while x < board.width
          invariant 0 <= x <= board.width
          invariant rendered == Rows(board, y) + Row(board, y)[..x]
          invariant boardWidthPx == board.width * TILE_SIZE && boardHeightPx == board.height * TILE_SIZE
        {
          rendered := rendered + [Placed(x * TILE_SIZE, y * TILE_SIZE, RenderTile(board.tiles[x][y]))];
          x := x + 1;
        }
        y := y + 1;
      }
    }

    /** The camera back at rest: no shake, no offset, no velocity. */
    method StopCamera()
      modifies this`cameraShake, this`camera
      ensures !cameraShake && camera == AT_REST
    {
      cameraShake := false;
      camera := AT_REST;
    }

    /** `updateUI`: the clock text, its warning style, and the kitten counter. */
    method UpdateUI()
      modifies this`timerText, this`timerWarning, this`counterText
      ensures gameData.None? ==> timerText == old(timerText) && timerWarning == old(timerWarning) && counterText == old(counterText)
      ensures gameData.Some? ==>
        && timerText == gameData.value.formattedTime
        && timerWarning == TimerWarning(gameData.value.timeRemaining)
        && counterText == CounterText(gameData.value.board.numKittens)
    {
      if gameData.None? {
        return;
      }
      timerText := gameData.value.formattedTime;
      timerWarning := TimerWarning(gameData.value.timeRemaining);
      counterText := CounterText(gameData.value.board.numKittens);
    }

    /** `handleGameOver(hasWon)`: the camera shakes, the soundtrack stops, a loss meows, and the overlay is scheduled. */
    method HandleGameOver(hasWon: bool)
      modifies this`cameraShake, this`audio, this`pendingOverlays
      ensures cameraShake
      ensures audio == old(audio) + [Pause(Soundtrack)] + (if hasWon then [] else LOSS_SOUNDS)
      ensures pendingOverlays == old(pendingOverlays) + [hasWon]
    {
      cameraShake := true;
      audio := audio + [Pause(Soundtrack)];
      if !hasWon {
        var n := 1;
        while n <= 4
          invariant 1 <= n <= 5
          invariant audio == old(audio) + [Pause(Soundtrack)] + LOSS_SOUNDS[..n - 1]
          invariant cameraShake && pendingOverlays == old(pendingOverlays)
        {
          audio := audio + [Play(Meow(n))];
          n := n + 1;
        }
        audio := audio + [Play(GameOverTrack)];
      }
      pendingOverlays := pendingOverlays + [hasWon];
    }

    /** The overlay's two-second delay running out: the oldest scheduled result shows. */
    method ShowOverlay()
      requires pendingOverlays != []
      modifies this`resultText, this`overlayVisible, this`pendingOverlays
      ensures resultText == OverlayText(old(pendingOverlays[0])) && overlayVisible
      ensures pendingOverlays == old(pendingOverlays[1..])
    {
      resultText := OverlayText(pendingOverlays[0]);
      overlayVisible := true;
      pendingOverlays := pendingOverlays[1..];
    }

    /** A game received from the server becomes the page's game, is drawn, and fills the timer and counter. */
    method Show(data: GameJson)
      requires WellFormed(data.board)
      modifies this`gameData, this`rendered, this`boardWidthPx, this`boardHeightPx, this`timerText, this`timerWarning, this`counterText
      ensures gameData == Some(data) && rendered == Rows(data.board, data.board.height)
      ensures timerText == data.formattedTime && timerWarning == TimerWarning(data.timeRemaining)
      ensures counterText == CounterText(data.board.numKittens)
      ensures boardWidthPx == data.board.width * TILE_SIZE && boardHeightPx == data.board.height * TILE_SIZE
    {
      gameData := Some(data);
      RenderBoard();
      UpdateUI();
    }

    /** A game fetched on load: stored, drawn and shown. */
    method OnGameFetched(data: GameJson)
      requires WellFormed(data.board)
      modifies this`gameData, this`rendered, this`boardWidthPx, this`boardHeightPx, this`timerText, this`timerWarning, this`counterText
      ensures gameData == Some(data) && rendered == Rows(data.board, data.board.height)
      ensures boardWidthPx == data.board.width * TILE_SIZE && boardHeightPx == data.board.height * TILE_SIZE
      ensures timerText == data.formattedTime && timerWarning == TimerWarning(data.timeRemaining)
      ensures counterText == CounterText(data.board.numKittens)
      ensures audio == old(audio) && pendingOverlays == old(pendingOverlays) && cameraShake == old(cameraShake)
    {
      Show(data);
    }

    /**
     * A clock response: stored and shown in the timer, but not drawn; a game that stopped without its
     * board being over has timed out, and that is announced as a loss.
     */
    method OnTimeResponse(data: GameJson)
      modifies this`gameData, this`timerText, this`timerWarning, this`counterText
      modifies this`cameraShake, this`audio, this`pendingOverlays
      ensures gameData == Some(data) && rendered == old(rendered)
      ensures timerText == data.formattedTime && timerWarning == TimerWarning(data.timeRemaining)
      ensures counterText == CounterText(data.board.numKittens)
      ensures TimeGameOver(data).Some? ==>
        && cameraShake
        && audio == old(audio) + [Pause(Soundtrack)] + LOSS_SOUNDS
        && pendingOverlays == old(pendingOverlays) + [false]
      ensures TimeGameOver(data).None? ==>
        audio == old(audio) && pendingOverlays == old(pendingOverlays) && cameraShake == old(cameraShake)
    {
      gameData := Some(data);
      UpdateUI();
      if !data.gameActive && !data.board.gameOver {
        HandleGameOver(false);
      }
    }

    /**
     * A reveal response for the tile clicked at (x, y), with the corrected kitten check: stored, drawn
     * and shown; if it ends a game that was active, the outcome is announced with the board's `hasWon`.
     */
    method OnRevealResponse(x: int, y: int, data: GameJson)
      requires gameData.Some? && WellFormed(data.board)
      modifies this`gameData, this`rendered, this`boardWidthPx, this`boardHeightPx, this`timerText, this`timerWarning, this`counterText
      modifies this`cameraShake, this`audio, this`pendingOverlays
      ensures var d := Checked(data, x, y);
        && gameData == Some(d) && rendered == Rows(d.board, d.board.height)
        && boardWidthPx == d.board.width * TILE_SIZE && boardHeightPx == d.board.height * TILE_SIZE
        && timerText == d.formattedTime && timerWarning == TimerWarning(d.timeRemaining)
        && counterText == CounterText(d.board.numKittens)
      ensures var over := RevealGameOver(old(gameData.value.gameActive), Checked(data, x, y));
        && (over.Some? ==>
              cameraShake && pendingOverlays == old(pendingOverlays) + [over.value]
              && audio == old(audio) + [Pause(Soundtrack)] + (if over.value then [] else LOSS_SOUNDS))
        && (over.None? ==> audio == old(audio) && pendingOverlays == old(pendingOverlays) && cameraShake == old(cameraShake))
    {
      var checked := data;
      var clicked := TileAt(data, x, y);
      if clicked.Some? && KittenClick(clicked.value) {
        checked := ForceLoss(data, x, y);
      }
      assert WellFormed(checked.board);
      var wasGameActive := gameData.value.gameActive;
      Show(checked);
      if wasGameActive && !checked.gameActive {
        HandleGameOver(Truthy(checked.board.hasWon));
      }
    }

    /** A flag response: stored, drawn and shown. */
    method OnFlagResponse(data: GameJson)
      requires WellFormed(data.board)
      modifies this`gameData, this`rendered, this`boardWidthPx, this`boardHeightPx, this`timerText, this`timerWarning, this`counterText
      ensures gameData == Some(data) && rendered == Rows(data.board, data.board.height)
      ensures boardWidthPx == data.board.width * TILE_SIZE && boardHeightPx == data.board.height * TILE_SIZE
      ensures timerText == data.formattedTime && timerWarning == TimerWarning(data.timeRemaining)
      ensures counterText == CounterText(data.board.numKittens)
      ensures audio == old(audio) && pendingOverlays == old(pendingOverlays) && cameraShake == old(cameraShake)
    {
      Show(data);
    }

    /**
     * A reset response: stored, drawn and shown; the camera comes to rest, the overlay hides, the
     * game-over music stops and rewinds and the soundtrack plays again.
     */
    method OnResetResponse(data: GameJson)
      requires WellFormed(data.board)
      modifies this`gameData, this`rendered, this`boardWidthPx, this`boardHeightPx, this`timerText, this`timerWarning, this`counterText
      modifies this`cameraShake, this`camera
      modifies this`overlayVisible, this`audio
      ensures gameData == Some(data) && rendered == Rows(data.board, data.board.height)
      ensures timerText == data.formattedTime && counterText == CounterText(data.board.numKittens)
      ensures timerWarning == TimerWarning(data.timeRemaining)
      ensures boardWidthPx == data.board.width * TILE_SIZE && boardHeightPx == data.board.height * TILE_SIZE
      ensures !cameraShake && camera == AT_REST
      ensures !overlayVisible && pendingOverlays == old(pendingOverlays)
      ensures audio == old(audio) + [Pause(GameOverTrack), Rewind(GameOverTrack), Play(Soundtrack)]
    {
      Show(data);
      StopCamera();
      overlayVisible := false;
      audio := audio + [Pause(GameOverTrack), Rewind(GameOverTrack), Play(Soundtrack)];
    }
  }
}
