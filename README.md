# Admiral Sink: a verified model of the game engine

This project models the engine of a self-playing Battleship game. Two sides, the parent and the child, each own an 8×8 grid holding a fleet of five ships. The fleet has lengths 4, 3, 3, 2 and 2. No two ships may touch, not even diagonally. The sides take turns attacking each other's grid. Each side keeps a tracker of the cells it has already attacked. Each side also remembers its last hit: it probes that cell's neighbours Left, Right, Up, Down before falling back to a random cell. The game ends when a hit leaves the defender with no ship cell.

Cells use the program's own codes: 0 empty, 1 ship, 2 hit, -1 miss. A tracker cell is 0 (open) or 1 (attacked). Grids are `array2<int>` indexed `[y, x]`, as in the C code.

Modules, one per component:

- `Board` (board.dfy): the cell codes and coordinates. It defines `IsValidAttack`, the win condition `NoShipsLeft`, and `Tracks`, the invariant linking a tracker to the defender's grid. `Contents` reads a grid as a value, and `Blank` is the cleared board.
- `Placement` (placement.dfy): `isValidPlacement`, `placeShip`, `placeAllShips` and the fleet table.
- `Targeting` (targeting.dfy): hunt targeting and attack resolution. It holds one `Attack` that both `parentAttack` and `childAttack` call, each with its own grids and hunt memory.
- `Game` (game.dfy): `initializeGrid` and `checkGameOver`. It also holds the `GameState` class, with four grids, status, turn, two per-side hunt memories and the move log. Its methods are the set-up in `main`, `onPlaceShips`, the reset in `startGame`, the two attacks, and the engine part of `playGame`.

Randomness is a parameter. Ship placement takes `draws`, a sequence of (x, y, horizontal) attempts, consumed in order, one per attempt. An attack takes `pick`, the cell the random rejection loop settles on. `pick` must be open in the attacker's tracker. This excludes no state in which the C loop terminates: if the hunt finds a target, that neighbour is itself an open cell.

The main invariant is `GameState.Consistent`. In it, each side's tracker marks a cell exactly when the other side's grid shows a hit or a miss there. The constructor and `PlaceShips` establish it, and `PlayGame` preserves it. Every attack targets an open cell. So no cell is ever attacked twice, and no hit or miss is overwritten.

Points where the code's behaviour is easy to misread; the model follows the code:

- A move that wins is not added to the move history. `playGame` returns before it appends the move.
- The hunt memory is active when `lastHitX != -1 && lastHitY != -1`. It is not checked against the grid bounds; each probe is checked instead.
- The hunt memories are function-local statics in C. Placing new fleets does not reset them, so `PlaceShips` leaves them unchanged.
- A miss writes -1 whatever the cell held. Under `Consistent` the cell was empty: `Tracks` keeps every defender cell among the four codes, and `OpenCellIsFresh` shows that an open cell holds 0 or 1.
- `status` and `turn` are kept as integers. When the game is not over and `turn` names neither side, `playGame` does nothing and returns TRUE. The model does the same.

## Model

| member | source | states |
|---|---|---|
| `Board.OpenCellIsFresh` | admiral-sink-game.c:203-212 | under a consistent tracker, a cell that is open to attack is empty or an untouched ship cell, so an attack never revisits a cell and a miss overwrites only an empty cell |
| `Board.ValidAttackIffUnresolved` | admiral-sink-game.c:161-167 | under a consistent tracker, a cell on the board passes isValidAttack exactly when the defender's cell shows neither a hit nor a miss |
| `Board.ShipCellIsOpen` | admiral-sink-game.c:161-167 | under a consistent tracker, a remaining ship cell is always a valid attack, so a defender with ships left always has an open cell |
| `Placement.IsValidPlacement` | admiral-sink-game.c:93-125 | the nested loops with early returns answer true iff every cell of the segment is on the board, empty, and has no occupied in-bounds 8-neighbour (`Fits`) |
| `Placement.FitsIffClear` | admiral-sink-game.c:94-122 | a segment is accepted iff it lies on the board and none of its cells equals or touches (even diagonally) any occupied cell |
| `Placement.FitsOnLaidIff` | admiral-sink-game.c:93-125 | on a grid that holds a board with some ships laid, isValidPlacement's test `Fits` accepts exactly the segments that fit the board with those ships laid (`FitsOnLaid`), so each round of placeAllShips can be stated against the board it started from |
| `Placement.LayShip` | admiral-sink-game.c:138-142 | writes 1 into exactly the `length` cells of the segment; every other cell keeps its value |
| `Placement.PlaceShip` | admiral-sink-game.c:128-151 | uses between 1 and 1000 attempts. It places at the first attempt that fits, and every earlier attempt did not fit. Failure means 1000 attempts, none fitting. On success exactly the segment's cells become 1, and they touch no cell that was occupied before. Nothing else changes |
| `Placement.PlaceNext` | admiral-sink-game.c:155-157 | one round of the loop, on a grid holding a board with the earlier ships laid. Every draw read before the last did not fit. On success the new ship is the last draw read and fits that board; it lies on empty cells, is apart from every ship already laid, and exactly its cells become 1. On failure 1000 draws were read, none fitting, and the grid is unchanged |
| `Placement.PlaceAllShips` | admiral-sink-game.c:154-158 | lays the ships of lengths 4, 3, 3, 2, 2 (lines 31-37) in order, reading the draws in order. Each ship's round starts right after the draw that laid the previous ship; the ship is the first draw of its round, within 1000, that fits the old grid with the earlier ships laid (`FirstFits`). It succeeds iff all five are laid; then the draws used end right after the last ship's. On failure exactly 1000 draws of the next ship's round were read, none fitting. The laid ships are on the board and pairwise apart, not even diagonal neighbours. Each was laid on cells that were empty. The grid is the old grid with exactly the ships' cells set to 1 |
| `Placement.FirstFitsTakesFirst` | admiral-sink-game.c:131-146 | under `FirstFits`, a draw of ship m's round that fits the board with the earlier ships laid is never skipped: ship m is that draw or an earlier one, and it is that draw when the draw opens the round |
| `Targeting.FirstOpen` | admiral-sink-game.c:182-188 | gives the first direction (Left, Right, Up, Down) whose neighbour is a valid attack, or 4 when there is none. Every earlier direction is not a valid attack |
| `Targeting.ChooseTarget` | admiral-sink-game.c:175-198 | the direction loop with its early exit, then the random fallback. It always returns a valid attack. It returns the first open neighbour of the remembered hit, or the pick. The memory is reset to (-1, -1) exactly when a hunt finds all four neighbours closed |
| `Targeting.HuntTakesFirstOpen` | admiral-sink-game.c:175-188 | with a hit remembered, if direction k is open and all earlier ones are closed, the target is the neighbour in direction k and the memory is kept |
| `Targeting.HuntExhausted` | admiral-sink-game.c:189-198 | with a hit remembered and all four neighbours closed, the memory becomes (-1, -1) and the random pick is attacked |
| `Targeting.HuntFromThreeThreeGoesUp` | admiral-sink-game.c:176-188 | hunting from (3, 3) with Left, Right and Down attacked and Up open targets (3, 2) |
| `Targeting.Attack` | admiral-sink-game.c:170-216 | the target is the chosen one and was open. The tracker gets 1 there and nowhere else. The defender cell becomes 2 if it held 1 (a hit), otherwise -1, and nothing else changes. A hit becomes the hunt memory; a miss keeps the memory as the choice left it. The tracker/grid agreement is preserved |
| `Game.InitializeGrid` | admiral-sink-game.c:88-90 | every cell of the grid becomes 0 |
| `Game.CheckGameOver` | admiral-sink-game.c:333-342 | the scan answers true iff no cell holds 1 |
| `Game.GameState.constructor` | admiral-sink-game.c:550-557 | four empty, distinct grids. Status is continue and the parent moves. No hunt memory, empty move log; the state is consistent |
| `Game.PlaceFleets` | admiral-sink-game.c:351-356 | clears the two fleet grids and lays the parent's fleet, then the child's, on a blank board. Each ship is the first fitting draw of its round; the child's draws start right after the parent's last, and the child is not placed when the parent fails. It succeeds iff both fleets are complete. On failure either the parent's next ship, or (with the parent's fleet complete) the child's next ship, fitted at none of the last 1000 draws. On success each grid holds exactly its fleet, pairwise apart |
| `Game.GameState.PlaceShips` | admiral-sink-game.c:350-368 | clears the four grids and lays both fleets as `PlaceFleets` states (`FleetsDrawn`, `FleetsOnGrids`). On success the trackers are empty, status is continue, the parent moves, the log is empty and the state is consistent. The hunt memories are untouched |
| `Game.GameState.StartGame` | admiral-sink-game.c:439-452 | any status other than continue is reset to continue with the parent to move. A game in progress keeps its turn. Nothing else changes |
| `Game.GameState.ParentAttack` | admiral-sink-game.c:170-216 | the parent's tracker and the child's grid change as in `Attack`, and so does the parent's hunt memory. Nothing else of the state changes |
| `Game.GameState.ChildAttack` | admiral-sink-game.c:219-265 | the mirror image: the child's tracker, the parent's grid and the child's hunt memory |
| `Game.GameState.PlayGame` | admiral-sink-game.c:459-522 | a game that is over returns false and changes nothing. Otherwise the side to move attacks. A hit that leaves the defender with no 1-cell sets the game over and returns false. It does not flip the turn or log the move. Any other move is logged, flips the turn and returns true. Consistency is preserved |

## Left out

- Rendering, labels, the text buffer, CSS and menu wiring (refreshGrid, createGameGrid, displayMessage, main's widgets). These are presentation only. The moves history is kept as a sequence of (side, x, y, hit) records instead of text.
- The shared-memory segment holding the state. A plain heap object plays its role.
- The periodic timer that calls playGame. One call of `PlayGame` is one tick.
- saveGameState and loadGameState. They dump and read back the raw struct with no format and no length check.
- rand() and srand(). Draws and picks are parameters. The termination of the random attack loop is not modelled; the pick is the cell it ends on.
- printf output, and exit(1) after placeShip fails. The failure is a false result.
- The shipsPlaced and gameStarted flags. They gate menu actions, and `StartGame` models only the reset that runs once they let startGame through. gameStarted also decides whether a finished game can be restarted, as the `Game.GameState.PlayGame` line below describes.
- The hunt memories are not saved or loaded, just as the statics are not part of the saved struct.
- Game.GameState.PlayGame: requires an open pick for the side to move, so it leaves out the case where the random attack loop (admiral-sink-game.c:195-198) never ends. That case is reachable through a saved game. Saving a finished game (onSaveGame, lines 371-377, which quits after saving) and loading it again (onLoadGame, lines 406-409, which clears gameStarted) lets Start Game reach the reset at lines 447-450. That reset restarts the finished game without clearing the grids. The winner then attacks a grid with no ship left and every attack misses. Unless the loser sinks the winner's last ship first, the winner's tracker fills up and the loop spins forever. Within one session the reset is not reached after a game ends, because gameStarted stays TRUE and startGame returns at lines 432-435.
