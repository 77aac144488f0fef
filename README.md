# Kitten Minesweeper, modelled in Dafny

A Minesweeper variant in which the mines are kittens. A Spring server keeps every game in memory:

- `GameService` maps game ids to `GameState` objects.
- Each `GameState` owns a `Board`. The board is a column-major grid of `Tile` objects inside a ring of walls.
- The board opens cells with a queue-driven breadth-first flood fill.
- `GameState` also keeps the countdown clock, in seconds, as a 32-bit `int`.

The browser script `game.js` does the rest:

- It turns clicks into reveal requests, and the space bar into flag requests whose coordinates, as written, never bind (see the findings).
- It draws the board from sprite sheets and animates the kittens that are shown.
- It announces the end of a game with sounds, a camera shake and an overlay.

The model has three layers.

- **The server as imperative code.**
  - `Tile` and `Board` are classes. The board's grid is an `array2<Tile>`.
  - The flood fill is a `while` loop over a queue. Its invariant is the `Cascade` predicate.
  - `GameState` and `GameService` are classes as well. The service keeps its games in a `map`.
  - Every method is proved against a value-level specification: the `BoardRules` module for the board, and `Tick` for the clock.
- **The client as a class.**
  - `GameClient` holds the variables the script keeps between events.
  - Each event handler is a method proved against pure functions. Those functions cover click mapping, sprite looks, the row-major layout, animation frames and the game-over decision.
- **The JSON between them.**
  - The `Wire` module says what bean serialisation makes of the three server classes.
  - The `Agreement` module compares what the page announces with what the server did. Two findings come from that comparison.

## Model

| member | source | states |
|---|---|---|
| Tiles.RevealedCodes | src/main/java/com/olgagol/minesweeper/model/Tile.java:51-53 | Over the engine's codes, a tile counts as revealed exactly when it is a wall, empty, a number or a shown kitten. It counts as not revealed exactly when it is UNREVEALED or UNREVEALED_KITTEN. |
| Tiles.KittenCodes | src/main/java/com/olgagol/minesweeper/model/Tile.java:55-57 | A tile is a kitten exactly for codes -3 and -4. Only -3 is both hidden and a kitten. Only -1 is hidden and kitten-free. |
| Tiles.Toggled | src/main/java/com/olgagol/minesweeper/model/Tile.java:39-41 | Toggling negates the flag and keeps the type and the kitten value. |
| Tiles.ToggledTwice | src/main/java/com/olgagol/minesweeper/model/Tile.java:39-41 | Toggling twice gives back the original tile. |
| Tiles.Tile.constructor | src/main/java/com/olgagol/minesweeper/model/Tile.java:16-20 | A new tile has the given type, no flag and kitten value 0. |
| Tiles.Tile.SetType | src/main/java/com/olgagol/minesweeper/model/Tile.java:27-29 | Only the type changes, to the given one. |
| Tiles.Tile.SetFlagged | src/main/java/com/olgagol/minesweeper/model/Tile.java:35-37 | Only the flag changes, to the given one. |
| Tiles.Tile.ToggleFlag | src/main/java/com/olgagol/minesweeper/model/Tile.java:39-41 | The tile's new value is `Toggled` of its old value, and only the flag field is written. |
| Tiles.Tile.SetKittenValue | src/main/java/com/olgagol/minesweeper/model/Tile.java:47-49 | Only the kitten value changes, to the given one. |
| Grid.InteriorIsInBounds | src/main/java/com/olgagol/minesweeper/model/Board.java:171-173 | `isValid` holds exactly for in-bounds cells that are off all four borders. |
| Grid.ScanTableAdjacent | src/main/java/com/olgagol/minesweeper/model/Board.java:16-17 | Every entry of the DROWS/DCOLS table names a cell touching the centre. |
| Grid.ScanTableDistinct | src/main/java/com/olgagol/minesweeper/model/Board.java:16-17 | No neighbour appears twice in the table. |
| Grid.ScanTableCovers | src/main/java/com/olgagol/minesweeper/model/Board.java:16-17 | Each of the eight touching cells appears in the table. |
| Grid.KittenNeighboursAtMostEight | src/main/java/com/olgagol/minesweeper/model/Board.java:125-140 | At most eight kittens touch a cell. |
| Grid.RevealCodeRange | src/main/java/com/olgagol/minesweeper/model/Board.java:100-108 | An opened cell gets its kitten count in 1..8, or EMPTY exactly when no kitten touches it. |
| Grid.ScannedStep | src/main/java/com/olgagol/minesweeper/model/Board.java:128-136 | Scanning one more direction adds that neighbour exactly when it is an interior kitten, and that neighbour was not counted before. |
| Grid.ScannedAll | src/main/java/com/olgagol/minesweeper/model/Board.java:128-137 | The eight-direction scan finds exactly the interior kitten cells touching the centre. |
| BoardRules.AfterRevealAll | src/main/java/com/olgagol/minesweeper/model/Board.java:163-165 | Showing all kittens leaves no hidden kitten. It keeps which cells are kittens and changes no other code. |
| BoardRules.FreshNotWon | src/main/java/com/olgagol/minesweeper/model/Board.java:142-152 | A freshly laid board with fewer kittens than interior cells does not pass the win check. |
| BoardRules.FreeInteriorCell | src/main/java/com/olgagol/minesweeper/model/Board.java:50-58 | While fewer kittens than interior cells are placed, some interior cell is still free for the next one. |
| BoardRules.FlagToggled | src/main/java/com/olgagol/minesweeper/model/Board.java:154-158 | Only (x, y) can change, and only its flag. The flag flips exactly when (x, y) is interior, hidden and the game is not over. |
| BoardRules.FlagToggledTwice | src/main/java/com/olgagol/minesweeper/model/Board.java:154-158 | Toggling the same cell twice gives back the grid. |
| BoardRules.RevealAllShowsKittens | src/main/java/com/olgagol/minesweeper/model/Board.java:160-169 | After showing all kittens, the same cells are kittens, no cell is a hidden kitten, no flag is left, and every non-kitten code is unchanged. |
| BoardRules.RevealAllIdempotent | src/main/java/com/olgagol/minesweeper/model/Board.java:160-169 | Showing all kittens twice is the same as doing it once. |
| BoardRules.RevealAllAfterHit | src/main/java/com/olgagol/minesweeper/model/Board.java:91-96 | Marking the hit kitten shown and then showing all kittens is the same as showing all kittens. |
| BoardRules.FreshLayout | src/main/java/com/olgagol/minesweeper/model/Board.java:31-60 | The grid construction and reset leave: walls on the border and hidden cells inside, exactly `numKittens` of them kittens with values in [0, 8), and no flags. |
| BoardRules.Won | src/main/java/com/olgagol/minesweeper/model/Board.java:142-152 | The win check: no interior cell is UNREVEALED. |
| BoardRules.RevealAll | src/main/java/com/olgagol/minesweeper/model/Board.java:160-169 | Showing all kittens keeps the set of cells. `RevealAllShowsKittens` states the rest. |
| BoardRules.ReachedStart | src/main/java/com/olgagol/minesweeper/model/Board.java:77-78 | The click itself is reached, by the one-cell chain. |
| BoardRules.ReachedExtend | src/main/java/com/olgagol/minesweeper/model/Board.java:109-120 | A cell touching a reached cell that the cascade emptied is reached too: the chain grows by one cell. |
| BoardRules.ReachedKept | src/main/java/com/olgagol/minesweeper/model/Board.java:104-107 | Opening one more hidden cell breaks no chain of emptied cells, so every reached cell stays reached. |
| BoardRules.ToVisitStep | src/main/java/com/olgagol/minesweeper/model/Board.java:109-120 | One step of the neighbour scan appends entry i's pick, and the rest of the scan is still to come. |
| BoardRules.ToVisitOnlyPicks | src/main/java/com/olgagol/minesweeper/model/Board.java:109-120 | The scan picks only interior, hidden, kitten-free, unflagged cells that touch the emptied cell. |
| BoardRules.ToVisitAllPicks | src/main/java/com/olgagol/minesweeper/model/Board.java:109-120 | The scan picks every such neighbour. |
| BoardRules.EnqueuedFacts | src/main/java/com/olgagol/minesweeper/model/Board.java:109-120 | After an emptied cell enqueues its neighbours, the old queue is kept in front, and each new entry is a hidden, unflagged interior cell touching it. Every interior neighbour is then shown, flagged or queued. |
| BoardRules.CascadeStart | src/main/java/com/olgagol/minesweeper/model/Board.java:77-78 | The queue holding only the start cell satisfies the cascade invariant. |
| BoardRules.CascadeKeepsKittens | src/main/java/com/olgagol/minesweeper/model/Board.java:99-121 | A cascade moves no kitten. |
| BoardRules.CascadeSkip | src/main/java/com/olgagol/minesweeper/model/Board.java:85-88 | Dropping a shown or flagged cell from the queue keeps the invariant. |
| BoardRules.CascadeHit | src/main/java/com/olgagol/minesweeper/model/Board.java:90-97 | A hidden kitten can only come off the queue as the start cell, on the untouched grid. |
| BoardRules.CascadeReveal | src/main/java/com/olgagol/minesweeper/model/Board.java:99-121 | Opening the popped cell keeps the invariant and strictly shrinks the set of hidden cells. This set is the termination measure of the fill. |
| BoardRules.CascadeRevealKeeps | src/main/java/com/olgagol/minesweeper/model/Board.java:99-107 | Opening a reached hidden cell keeps every cell either kept or revealed from a reached cell. |
| BoardRules.CascadeRevealQueue | src/main/java/com/olgagol/minesweeper/model/Board.java:109-120 | After an opening, every queued cell is interior and none is a hidden kitten. Each is linked to the click by a chain of cells the cascade emptied, each cell touching the next. |
| BoardRules.CascadeRevealClosed | src/main/java/com/olgagol/minesweeper/model/Board.java:109-120 | Every neighbour of an emptied cell is either settled or still queued. |
| BoardRules.CascadeDone | src/main/java/com/olgagol/minesweeper/model/Board.java:80-122 | An empty queue means the flood fill is complete. Every changed cell is linked to the click by a chain of emptied cells, and no emptied cell has a hidden, unflagged interior neighbour left. |
| BoardRules.ChainOpened | src/main/java/com/olgagol/minesweeper/model/Board.java:80-122 | Given two flood fills from the same click, a cell one opens at the end of a chain of emptied cells is opened by the other too. |
| BoardRules.FloodFilledUnique | src/main/java/com/olgagol/minesweeper/model/Board.java:80-122 | Exactly one grid is a flood fill from a given click: two grids that both are one are equal. |
| BoardRules.RevealOutcome | src/main/java/com/olgagol/minesweeper/model/Board.java:62-74 | The reveal relation: nothing changes unless the click can reveal. A hit shows all kittens and any other click floods. Won holds iff no interior UNREVEALED cell is left, and the game is over after a hit or a win. |
| BoardRules.RevealOutcomeDeterministic | src/main/java/com/olgagol/minesweeper/model/Board.java:62-74 | A click has one outcome: two results of the reveal relation agree on the grid, `gameOver` and `hasWon`. |
| BoardRules.RevealMonotone | src/main/java/com/olgagol/minesweeper/model/Board.java:62-122 | A reveal never hides anything again: shown codes stay, no flag is set, the hidden cells only shrink, and the kittens stay. |
| Boards.Board.constructor | src/main/java/com/olgagol/minesweeper/model/Board.java:19-29 | A new board has walls on the border, hidden cells inside, and exactly `numKittens` distinct interior kittens with values in [0, 8). It has no flags, and the game is neither over nor won. |
| Boards.Board.InitializeBoard | src/main/java/com/olgagol/minesweeper/model/Board.java:31-44 | A fresh grid of fresh tiles: WALL on the border, UNREVEALED inside. |
| Boards.Board.PlaceOneKitten | src/main/java/com/olgagol/minesweeper/model/Board.java:50-58 | One more interior cell becomes a hidden kitten. |
| Boards.Board.PlaceKittens | src/main/java/com/olgagol/minesweeper/model/Board.java:46-60 | The grid ends up in the fresh layout with `numKittens` kittens. |
| Boards.Board.LaidOut | src/main/java/com/olgagol/minesweeper/model/Board.java:46-60 | The initial grid with the right number of kittens placed is a fresh layout. |
| Boards.Board.Reset | src/main/java/com/olgagol/minesweeper/model/Board.java:200-205 | After a reset: a freshly laid grid, not over, not won. |
| Boards.Board.ScanOne | src/main/java/com/olgagol/minesweeper/model/Board.java:128-136 | One direction of the scan adds 1 exactly when that neighbour is an interior kitten. |
| Boards.Board.SetTypeAt | src/main/java/com/olgagol/minesweeper/model/Board.java:104-107 | The grid changes in one cell's type only. |
| Boards.Board.CountNeighboringKittens | src/main/java/com/olgagol/minesweeper/model/Board.java:125-140 | Returns the number of interior kittens touching (x, y). |
| Boards.Board.CheckWinCondition | src/main/java/com/olgagol/minesweeper/model/Board.java:142-152 | Returns true exactly when no interior cell is UNREVEALED. |
| Boards.Board.ToggleFlag | src/main/java/com/olgagol/minesweeper/model/Board.java:154-158 | The new grid is `FlagToggled` of the old one. |
| Boards.Board.RevealAllKittens | src/main/java/com/olgagol/minesweeper/model/Board.java:160-169 | The new grid is `RevealAll` of the old one. |
| Boards.Board.IsValid | src/main/java/com/olgagol/minesweeper/model/Board.java:171-173 | `isValid`: the cell is strictly inside the wall ring. `Grid.InteriorIsInBounds` relates it to the board's bounds. |
| Boards.Board.ScanStep | src/main/java/com/olgagol/minesweeper/model/Board.java:109-120 | The test on one scan entry, made on the tiles, is the scan's pick on the snapshot. |
| Boards.Board.EnqueueNeighbours | src/main/java/com/olgagol/minesweeper/model/Board.java:109-120 | The queue becomes the old queue followed by `ToVisit`: in scan order, exactly the interior, UNREVEALED, unflagged neighbours. |
| Boards.Board.LoseAt | src/main/java/com/olgagol/minesweeper/model/Board.java:91-96 | A hit ends the game as lost, with every kitten shown and every flag cleared. |
| Boards.Board.OpenAt | src/main/java/com/olgagol/minesweeper/model/Board.java:99-121 | The cell takes its count or EMPTY, and only an EMPTY cell enqueues its neighbours. |
| Boards.Board.Bfs | src/main/java/com/olgagol/minesweeper/model/Board.java:76-123 | The fill terminates. A hit at the start loses and shows every kitten. Any other start gives the flood fill, the only grid that `FloodFilledUnique` allows. |
| Boards.Board.EndGame | src/main/java/com/olgagol/minesweeper/model/Board.java:71-72 | The game is over with the given outcome, and the grid is untouched. |
| Boards.Board.RevealTile | src/main/java/com/olgagol/minesweeper/model/Board.java:62-74 | The reveal relation holds. Nothing changes off the interior, after the game is over or on a flag. Otherwise a hit shows all kittens and ends the game, any other click floods, and won holds iff no interior UNREVEALED cell is left. |
| Numerals.Decimal | src/main/java/com/olgagol/minesweeper/model/GameState.java:79 | `%d` gives digits with no leading zero, one digit exactly below ten. |
| Numerals.ParseDecimalOfDecimal | src/main/java/com/olgagol/minesweeper/model/GameState.java:79 | Reading the `%d` text back gives the number. |
| Numerals.ZeroPad2 | src/main/java/com/olgagol/minesweeper/model/GameState.java:79 | `%02d` gives at least two digits, exactly two below 100, that read back as the number. |
| Numerals.IntText | src/main/resources/static/js/game.js:532 | `${n}` gives the digits of n, with a '-' before them when n < 0, and it reads back as n. |
| GameStates.Int32Sub | src/main/java/com/olgagol/minesweeper/model/GameState.java:45 | Java int subtraction: a 32-bit result congruent to the true difference mod 2^32, and exact when the difference fits. |
| GameStates.SetupFor | src/main/java/com/olgagol/minesweeper/model/GameState.java:23-40 | Each difficulty gets fewer kittens than interior cells (at least one) and a positive clock that fits in 32 bits. |
| GameStates.ResetSeconds | src/main/java/com/olgagol/minesweeper/model/GameState.java:86-97 | A reset restores the clock the constructor gives the difficulty. |
| GameStates.FormatClock | src/main/java/com/olgagol/minesweeper/model/GameState.java:76-80 | The text is "m:ss": the part before ':' reads back as t / 60 and has no leading zero, and the two digits after it read back as t % 60. |
| GameStates.Tick | src/main/java/com/olgagol/minesweeper/model/GameState.java:43-53 | The clock stays in 0..INT32_MAX, the board's flags are kept, and a game that is not running is unchanged. |
| GameStates.TickCountsDown | src/main/java/com/olgagol/minesweeper/model/GameState.java:45-46 | A tick shorter than the time left only subtracts it. |
| GameStates.TickTimesOut | src/main/java/com/olgagol/minesweeper/model/GameState.java:47-51 | A tick of at least the time left clamps the clock to 0 and stops play, with every kitten shown, no flag left, and the clock reading "0:00". |
| GameStates.TickWrapEndsGame | src/main/java/com/olgagol/minesweeper/model/GameState.java:45-51 | A negative tick that overflows 32 bits ends the game instead of adding time. |
| GameStates.TickAfterStop | src/main/java/com/olgagol/minesweeper/model/GameState.java:43-44 | Once stopped, later ticks change nothing. |
| GameStates.StartedIsPlayable | src/main/java/com/olgagol/minesweeper/model/GameState.java:17-41 | A new or reset game is running, not already won, and its clock reads "4:00" (EASY) or "3:00". |
| GameStates.FullClockText | src/main/java/com/olgagol/minesweeper/model/GameState.java:76-80 | The full clock of EASY formats as "4:00", and that of the other difficulties as "3:00". |
| GameStates.GameState.constructor | src/main/java/com/olgagol/minesweeper/model/GameState.java:17-41 | A game of difficulty d is started: d's board size, kitten count and clock, and play on. |
| GameStates.GameState.IsGameActive | src/main/java/com/olgagol/minesweeper/model/GameState.java:72-74 | `isGameActive`: the game flag is on and the board is not over. `ActiveIsRunning` ties it to the value model. |
| GameStates.GameState.ActiveIsRunning | src/main/java/com/olgagol/minesweeper/model/GameState.java:72-74 | `isGameActive` is `gameActive && !gameOver`, and an active game is not won. |
| GameStates.GameState.UpdateTime | src/main/java/com/olgagol/minesweeper/model/GameState.java:43-53 | The new game is `Tick` of the old game. |
| GameStates.GameState.FormattedTime | src/main/java/com/olgagol/minesweeper/model/GameState.java:76-80 | The text is the "m:ss" rendering of the clock. |
| GameStates.GameState.Reset | src/main/java/com/olgagol/minesweeper/model/GameState.java:82-100 | After a reset the game is started again for its own difficulty. |
| GameServices.ToggleForwarded | src/main/java/com/olgagol/minesweeper/service/GameService.java:34-40 | A flag request changes the grid by `FlagToggled` while the game is running, and changes nothing otherwise. |
| GameServices.GuardFreezesTimedOut | src/main/java/com/olgagol/minesweeper/service/GameService.java:26-40 | After a time-out the board alone would still flag or open a hidden cell, but the service's guard keeps the game unchanged. |
| GameServices.GameService.GetGame | src/main/java/com/olgagol/minesweeper/service/GameService.java:22-24 | Returns null exactly for an unknown id. Otherwise it returns the game stored under that id, whose own id is that id. |
| GameServices.GameService.CreateGame | src/main/java/com/olgagol/minesweeper/service/GameService.java:16-20 | A fresh started game is stored under its id, `getGame` returns it, and the other entries are kept. |
| GameServices.GameService.RevealTile | src/main/java/com/olgagol/minesweeper/service/GameService.java:26-32 | Returns the stored game (null if unknown). The game's reveal is forwarded only while it is active. The map and every other game are unchanged. |
| GameServices.GameService.ToggleFlag | src/main/java/com/olgagol/minesweeper/service/GameService.java:34-40 | As for reveal, with the game changed by `ToggleForwarded`. |
| GameServices.GameService.UpdateGameTime | src/main/java/com/olgagol/minesweeper/service/GameService.java:42-48 | The game becomes `Tick` of itself whenever it exists, and the other games are kept. |
| GameServices.GameService.ResetGame | src/main/java/com/olgagol/minesweeper/service/GameService.java:50-56 | An existing game is started again, over or not, and the other games are kept. |
| GameServices.GameService.RemoveGame | src/main/java/com/olgagol/minesweeper/service/GameService.java:58-60 | Only that entry goes, and the id is unknown afterwards. |
| Wire.BindInt | src/main/java/com/olgagol/minesweeper/controller/GameController.java:55-56 | A form field binds to `int` only if it is a sign and digits of a 32-bit value, so text that does not start with a sign or digit, such as "NaN", never binds. |
| Wire.BindIntText | src/main/java/com/olgagol/minesweeper/controller/GameController.java:55-56 | The decimal text of any 32-bit integer binds back to that integer. |
| Wire.HiddenKittenJson | src/main/java/com/olgagol/minesweeper/model/Tile.java:51-57 | In the JSON, `kitten && !revealed` marks exactly a hidden kitten. `kitten` alone holds for both kitten codes. |
| Wire.TilesJson | src/main/java/com/olgagol/minesweeper/model/Board.java:207-210 | `tiles` has `width` columns of `height` tiles, and `tiles[x][y]` is cell (x, y). |
| Wire.GameJsonWith | src/main/java/com/olgagol/minesweeper/model/GameState.java:56-80 | The serialised game is well formed: its tiles are the grid, `gameActive` is `isGameActive()`, and `formattedTime` is the "m:ss" clock. |
| Wire.GameJsonAsWritten | src/main/java/com/olgagol/minesweeper/model/Board.java:196-198 | The board object carries no `hasWon` property. |
| Wire.GameJsonOf | src/main/java/com/olgagol/minesweeper/model/Board.java:192-198 | With the win flag exported, the board carries the server's `hasWon`. |
| ClientView.TileIndexOf | src/main/resources/static/js/game.js:201-202 | `floor(offset / 32)` is i exactly on the strip [32 i, 32 i + 32). |
| ClientView.ClickTarget | src/main/resources/static/js/game.js:195-210 | A click is ignored unless the page takes input, and a tile it asks for is on the board. |
| ClientView.ClickTargetIff | src/main/resources/static/js/game.js:195-210 | A click asks to reveal (x, y) exactly when a game is active, (x, y) is on the board, and the click lies in that tile's 32 x 32 square. |
| ClientView.FloorTile | src/main/resources/static/js/game.js:275-276 | `Math.floor((offset - origin) / 32)` is NaN exactly when the offset is `undefined`. |
| ClientView.NumberText | src/main/resources/static/js/game.js:284 | A number written into the form body binds back to itself when it is a 32-bit integer, and never binds when it is NaN. |
| ClientView.FlagFieldsAsWritten | src/main/resources/static/js/game.js:268-285 | As written: a key press sends a flag request exactly when the game takes input and the key is the space bar, and neither of its fields x and y binds to `int`, because a `keydown` event has no `clientX` or `clientY`. |
| ClientView.FlagTarget | src/main/resources/static/js/game.js:272-276 | As intended (the code's comment: "mouse position over board"): the space bar asks for a flag exactly when the game takes input, and the tile is the one under the pointer, with no bounds check. |
| ClientView.FlagOffBoardIgnored | src/main/java/com/olgagol/minesweeper/model/Board.java:154-158 | The board's own guard makes the missing bounds check harmless: a flag request for a cell outside the interior leaves the grid unchanged. |
| ClientView.RenderTile | src/main/resources/static/js/game.js:442-517 | The flag overlay follows the tile's flag. A hidden tile, kitten or not, shows only the hidden sprite. A number shows exactly for 1..8, a kitten (with its value) exactly for a shown kitten, and a base sprite exactly for the engine's codes. |
| ClientView.LooksTellCodesApart | src/main/resources/static/js/game.js:442-517 | Two tiles look alike exactly when their flags agree and either both are hidden or they have the same code (and, for a shown kitten, the same value). A hidden kitten is never told apart from a hidden cell. |
| ClientView.Row | src/main/resources/static/js/game.js:424-437 | A row renders one element per column. |
| ClientView.RowsLength | src/main/resources/static/js/game.js:423-438 | The board renders width x height elements. |
| ClientView.RowsAt | src/main/resources/static/js/game.js:423-434 | Element y * width + x is tile (x, y), placed at (32 x, 32 y) with that tile's look. |
| ClientView.MaxFrames | src/main/resources/static/js/game.js:107-115 | A kitten cycles through 4, 6 or 8 frames. |
| ClientView.BaseFrame | src/main/resources/static/js/game.js:117 | The frame index lies in [0, maxFrames). |
| ClientView.KittenCell | src/main/resources/static/js/game.js:119-151 | The frame column is below maxFrames. Values 0..9 use their own row, and any larger value uses row 0 with at most 4 frames. |
| ClientView.KittenCellOnSheet | src/main/resources/static/js/game.js:119-151 | For every non-negative value, the frame shown lies on the 8 x 10 kitten sheet, in a column its row holds. Its row is the value for 0..9. |
| ClientView.KittenFrameAt | src/main/resources/static/js/game.js:117 | Frame f shows during ticks 15 f .. 15 f + 14. |
| ClientView.KittenFramePeriodic | src/main/resources/static/js/game.js:117 | The frame repeats after 15 x maxFrames ticks. |
| ClientView.RenderedKittenIsFirstFrame | src/main/resources/static/js/game.js:496-502 | A freshly drawn kitten shows frame 0 of its row, the frame the animation shows in the first 15 ticks. |
| ClientView.Animated | src/main/resources/static/js/game.js:105-155 | An animation step keeps an element's place, base and flag, and moves its kitten, if any, to the current frame. |
| ClientView.TimerWarning | src/main/resources/static/js/game.js:525-529 | The timer warns exactly at 10 seconds or less. |
| ClientView.CounterText | src/main/resources/static/js/game.js:532 | The counter ends in " kittens". |
| ClientView.CounterReadsBack | src/main/resources/static/js/game.js:532 | For n ≥ 0, the counter's number reads back as n. |
| ClientView.OverlayText | src/main/resources/static/js/game.js:344 | The text is "You Won!" exactly on a win and "You Lost!" exactly on a loss. |
| ClientView.ForceLoss | src/main/resources/static/js/game.js:240-245 | The clicked tile becomes a shown kitten and the game becomes over and inactive. Every other tile and field is kept. |
| ClientView.KittenClickAsWritten | src/main/resources/static/js/game.js:237-238 | The handler's kitten test as written: a shown kitten, or a hidden kitten whose JSON `kitten` is true. |
| ClientView.KittenClick | src/main/resources/static/js/game.js:237-238 | The corrected test: only a shown kitten. |
| ClientView.KittenChecksDiffer | src/main/resources/static/js/game.js:237-238 | The corrected test fires only where the written one does. The two differ exactly on a hidden kitten with `kitten` true, and the server sends that for every hidden kitten. |
| ClientView.CheckedAsWritten | src/main/resources/static/js/game.js:236-246 | The check as written only ever ends the game. It ends it whenever the written test fires on the clicked tile, and at no other time. |
| ClientView.Checked | src/main/resources/static/js/game.js:236-246 | The corrected check only ever ends the game. It ends it whenever the clicked tile is a shown kitten, and at no other time. |
| ClientView.RevealGameOver | src/main/resources/static/js/game.js:251-260 | A reveal response ends the game on the page exactly when the game was active and is not now. The outcome is the truthiness of `board.hasWon`. |
| ClientView.TimeGameOver | src/main/resources/static/js/game.js:186-189 | A clock response ends the game exactly when play stopped without the board being over, and always as a loss. |
| Client.GameClient.constructor | src/main/resources/static/js/game.js:3-11 | The page starts with no game, the counters at 0, the camera at rest, nothing drawn, and only the soundtrack requested. |
| Client.GameClient.UpdateKittenAnimations | src/main/resources/static/js/game.js:103-156 | Every element becomes `Animated` at the current tick, and the number of elements is kept. |
| Client.GameClient.GameLoop | src/main/resources/static/js/game.js:74-100 | A clock tick is sent exactly when more than 1000 ms passed and a game is active. The first frame sets the start time, the shake of a missing or active game stops, and the kittens move every 15th frame. |
| Client.GameClient.RenderBoard | src/main/resources/static/js/game.js:395-439 | The board's elements are exactly `Rows(board, height)` (row-major), and its size is width·32 x height·32 pixels. Without a game nothing changes. |
| Client.GameClient.StopCamera | src/main/resources/static/js/game.js:308-312 | The shake stops and the camera's offset and velocity are zero. |
| Client.GameClient.UpdateUI | src/main/resources/static/js/game.js:520-533 | The timer shows `formattedTime` and warns exactly at ≤ 10 s, and the counter reads "n kittens". |
| Client.GameClient.HandleGameOver | src/main/resources/static/js/game.js:325-347 | The shake starts and the soundtrack pauses. A loss adds the four meows and the game-over music, in order. The overlay with this outcome is scheduled. |
| Client.GameClient.ShowOverlay | src/main/resources/static/js/game.js:343-346 | The oldest scheduled outcome is shown as the overlay's text. |
| Client.GameClient.Show | src/main/resources/static/js/game.js:162-166 | The response becomes the page's game, is drawn, and fills the timer and counter. |
| Client.GameClient.OnGameFetched | src/main/resources/static/js/game.js:159-168 | The fetched game is stored, drawn at its pixel size, and shown in the timer (with its warning) and the counter. Nothing is announced, and no other field changes. |
| Client.GameClient.OnTimeResponse | src/main/resources/static/js/game.js:171-192 | The response is stored, and the timer, its warning and the counter are refreshed, but the board is not redrawn. A time-out is announced as a loss, and anything else announces nothing. No other field changes. |
| Client.GameClient.OnRevealResponse | src/main/resources/static/js/game.js:230-261 | The checked response is stored, drawn and shown in the timer and counter. A game-over is announced exactly when the game was active and is not now, with the board's outcome. The kitten check is the corrected one. No other field changes. |
| Client.GameClient.OnFlagResponse | src/main/resources/static/js/game.js:287-291 | For a response that carries a game: it is stored, drawn and shown in the timer and counter. Nothing is announced, and no other field changes. As written, every flag request fails to bind (see the findings), so the response is the server's error body, which these lines store without checking `response.ok`. |
| Client.GameClient.OnResetResponse | src/main/resources/static/js/game.js:297-322 | The new game is shown, with its timer warning and pixel size, the camera rests, the overlay hides, and the game-over music pauses and rewinds while the soundtrack plays. Scheduled overlays are kept. |
| Agreement.ForceLossIdle | src/main/resources/static/js/game.js:236-246 | Forcing a loss on a response that already shows it changes nothing. |
| Agreement.ShownKittenMeansHit | src/main/java/com/olgagol/minesweeper/model/Board.java:91-96 | After a reveal, the clicked tile is a shown kitten exactly when the reveal was allowed and hit a hidden kitten, and then the game is over. |
| Agreement.FlaggedKittenClickEndsPageGame | src/main/resources/static/js/game.js:236-260 | As written: a click on a flagged hidden kitten leaves the server's game unchanged and running, yet the page ends the game and announces a loss. |
| Agreement.KittenCheckMatchesServer | src/main/resources/static/js/game.js:237-238 | Corrected check: it fires exactly when the server's reveal hit a kitten, and it never rewrites the response. |
| Agreement.WinAnnouncedAsLoss | src/main/java/com/olgagol/minesweeper/model/Board.java:196-198 | As written: a reveal that wins the game is announced on the page as a loss. |
| Agreement.EndedWithoutWinFlag | src/main/resources/static/js/game.js:257-259 | A finished game whose JSON lacks `hasWon` is announced as a loss. |
| Agreement.RevealOutcomeAnnounced | src/main/resources/static/js/game.js:251-260 | With `hasWon` exported and the corrected check, a reveal is announced exactly when it ends the server's game, with the server's outcome. |
| Agreement.TimeOutAnnouncedAsLoss | src/main/resources/static/js/game.js:186-189 | The page announces a loss after a clock tick exactly when the server's clock ran out. |
| Agreement.FlagRequest | src/main/java/com/olgagol/minesweeper/controller/GameController.java:51-57 | The flag endpoint changes a stored game only when both fields bind to `int` and the game is running. |
| Agreement.SpaceNeverFlags | src/main/resources/static/js/game.js:275-285 | As written: no press of the space bar changes a stored game, whatever the game and the board's position on screen. |
| Agreement.PointerFlagReachesServer | src/main/java/com/olgagol/minesweeper/service/GameService.java:34-40 | As intended: the request for the tile under the pointer binds to that tile, and the stored game changes as `toggleFlag` changes it. |
| Agreement.ClickHitsDrawnTile | src/main/resources/static/js/game.js:201-210 | A click lands in the square where tile (x, y) was drawn exactly when it asks the server to reveal (x, y). |

## Left out

- Camera spring physics (`updateCameraShake`, src/main/resources/static/js/game.js:350-392): it is floating point and uses `Math.random`, `cos` and `sin`. The model keeps the flag and the zeroing on reset.
- Client.GameClient.GameLoop: the shake stops only when the game is missing or active again. The physics step that also stops it once the motion dies down is not modelled.
- HTTP and `fetch` are not modelled: the requests, error responses, JSON parsing, out-of-order responses and console logging. A response enters the model as a method call with the parsed game.
- `GameLoop` returns whether it sends a clock request, and the caller delivers the response.
- `setTimeout` and `requestAnimationFrame` timing are not modelled. The overlay's two-second delay is a queue of scheduled outcomes that `ShowOverlay` drains.
- Audio playback is not modelled. The model records the play, pause and rewind requests in order.
- DOM elements and CSS strings are not modelled. Sprites are kept as sheet cells (col, row), whose CSS offset is (-32 col, -32 row) px, and tile elements as their pixel position and look.
- `UUID.randomUUID()` is not modelled: the caller supplies the id.
- `java.util.Random` is not modelled. Each kitten goes on a free interior cell chosen without further constraint, with a value in [0, 8). The retry loop of rejection sampling collapses into that one choice.
- `GameController.java` is modelled only for how the flag endpoint binds x and y (`Wire.BindInt`, `Agreement.FlagRequest`). Its other endpoints and `menu.js` are not part of this model.
- Wire.BindInt: models decimal text only. Spring also strips whitespace and reads hexadecimal forms, and the page never sends either.
- Client.GameClient.OnFlagResponse: models a response that carries a game, as in the corrected key handler. As written, the response is the server's error body, and game.js:287-291 store it as `gameData` without checking `response.ok`. Then `renderBoard` throws on `gameData.board`. Until `resetGame` replaces `gameData`, the page ignores board clicks, key presses and clock ticks, because `gameActive` is missing from the error body (game.js:172, 196, 269). The Play Again button is the only caller of `resetGame` (game.js:67). A page holding an error body is not modelled.
- Boards.Board.constructor: requires `numKittens <= InteriorSize`. Without it, `placeKittens` never terminates. All three difficulties meet the bound.
- Boards.Board.constructor: also requires `0 <= width && 0 <= height`. For a negative size, Java throws `NegativeArraySizeException` when it allocates the tiles, and that exception is not modelled.
- Boards.Board.Reset: requires `numKittens <= InteriorSize`, for the same reason.
- GameStates.FormatClock: takes t ≥ 0 only. The clock never goes negative, which `Tick` proves, so Java's formatting of negative values is not modelled.
- GameStates.GameState.UpdateTime: `secondsElapsed` is required to be a 32-bit int, as the Java parameter is. Board sizes and kitten counts are unbounded integers, since the only values used are small constants.
- Agreement.ShownKittenMeansHit: requires that the clicked tile was not already a shown kitten and that the game is running. Those are the only situations in which the page sends a reveal and the check matters.
- Agreement.KittenCheckMatchesServer: has the same two preconditions.
- Agreement.RevealOutcomeAnnounced: has the same two preconditions.
- Client.GameClient.OnRevealResponse: models the handler with the corrected kitten check (`Checked`, game.js:237-238). The check as written is `CheckedAsWritten`, and its effect on a page is shown by `Agreement.FlaggedKittenClickEndsPageGame`.
- Client.GameClient.OnRevealResponse: requires that the page holds a game. It does whenever a reveal was sent, and the code reads `gameData.gameActive` without a null check.
- ClientView.MaxFrames: follows the code, which gives 6 frames for values 7, 8, 9 and above (game.js:107-115). The code's own layout notes (game.js:136-147) say that rows 8 and 9 of the 256 x 320 sheet (game.js:151) hold 7 and 8 frames, so the last frames of those rows are never shown.
- Client.GameClient.OnTimeResponse: `updateGameTime`'s response updates the timer but does not redraw the board, as in the code. A timed-out board's shown kittens appear only at the next redraw.
- game.js:259 reads `gameData.board.hasWon`, but the board JSON carries no such property (Board.java:196-198). The model follows the code; see the findings.
- The JSON `kittenValue || 0` default in `renderTile` is not modelled separately. The server always sends an integer, and 0 is its own default.

## Findings

| source | as written | input that shows it | evidently intended | confidence | as-written member | corrected member |
|---|---|---|---|---|---|---|
| src/main/resources/static/js/game.js:237-238 | The kitten check also fires on a hidden kitten whose JSON `kitten` flag is true. `isKitten()` is true for every hidden kitten, so a click on a flagged hidden kitten ends the game on the page and announces a loss. The server ignored that click and the game goes on. | A running game, with a click on an interior cell of type -3 that is flagged. | End the game on the page only when the server shows the clicked tile as a revealed kitten (-4). | medium, not executed | Agreement.FlaggedKittenClickEndsPageGame | Agreement.KittenCheckMatchesServer (used by Client.GameClient.OnRevealResponse) |
| src/main/resources/static/js/game.js:275-276 | The flag coordinates are read from `event.clientX` and `event.clientY`, but the handler is registered on `keydown` (game.js:66). A KeyboardEvent has neither property, so both become NaN and the body is `x=NaN&y=NaN`. `@RequestParam int x` (GameController.java:55-56) does not bind "NaN", so `toggleFlag` is never called and no tile is ever flagged. | Any press of the space bar while a game is active. | Flag the tile under the pointer, using the last pointer position over the board (for example, from a `mousemove` listener). | high, not executed | Agreement.SpaceNeverFlags (over ClientView.FlagFieldsAsWritten) | Agreement.PointerFlagReachesServer (over ClientView.FlagTarget, used by ClientView.FlagOffBoardIgnored) |
| src/main/java/com/olgagol/minesweeper/model/Board.java:196-198 | `hasWon()` is neither a `get` nor an `is` accessor, so bean serialisation leaves `hasWon` out of the board JSON. The page's `handleGameOver(gameData.board.hasWon)` (game.js:259) therefore gets `undefined` and announces every win as a loss. | A running game, with a reveal that opens the last kitten-free interior cell. | Send the board's win flag, so that a win shows "You Won!" with no loss sounds. | medium, not executed | Agreement.WinAnnouncedAsLoss | Agreement.RevealOutcomeAnnounced (over Wire.GameJsonOf) |
