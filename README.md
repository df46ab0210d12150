# Snake game engine, modelled in Dafny

This project models the simulation engine of a browser snake game (the
`Snake` component of `pages/index.js`). A body of cells, head first, moves
one cell per tick across a 25 × 22 board that wraps around at its edges.
It grows when the head lands on the food. It resets to the starting body,
with the score at 0, when the head runs into its own body. Food is placed
by rejection sampling on a timer, removed on another timer, and respawned
when eaten. Arrow keys turn the snake, but never straight back. Each
render classifies every board cell as food, snake or empty.

Modules:

- `Grid` (`grid.dfy`): the board size, positions, the four direction
  vectors, `isFood`/`isSnake`, and the wrap-around clamp `Wrap`.
- `Movement` (`movement.dfy`): the default body, the self-collision scan
  `ScanBody`, and `Advance`. `Advance` is the specification function of one
  movement tick: a collision, or the new body and whether food was eaten.
- `Steering` (`steering.dfy`): the arrow-key table `KeyVector` and the
  turning rule `Turn`, which is the specification of the key handler.
- `Spawning` (`spawning.dfy`): `getRandomCell` over explicit random
  samples, and the rejection loop. `FirstFreeDraw` and `Spawned` specify the
  loop.
- `Board` (`board.dfy`): `Classify` and the nested loops that build the
  render snapshot.
- `Game` (`game.dfy`): the class `GameState` holding the four pieces of
  state (`snake`, `direction`, `food`, and the score as `halfPoints`). It has
  one method per timer or handler. `Valid()` is the invariant every method
  keeps: a non-empty body on the board, a unit direction, and food inside
  the square it is drawn from.

Behaviour of the code as written that the model keeps and proves:

- The collision scan runs on the new head before it is wrapped. A head
  that leaves the board can therefore never collide
  (`OffGridHeadNeverCollides`), and a head that wraps onto its own body is
  not a collision (`WrapOntoBodyNotDetected`).
- The tail counts as a segment, so moving onto the cell the tail is about
  to leave resets the game (`TailIsACollision`).
- The food's row is drawn from the board's width (25), not its height
  (22). Food can therefore be placed in rows 22 to 24, below the board
  (`SpawnBelowBoard`). Such food is never eaten (`OffGridFoodNeverEaten`)
  and never shown (`FoodCells`). `pages/index.js:63` scales the row sample
  by `Config.width` (25) although the board has `Config.height` (22) rows
  (lines 6-7); the model keeps the code as written.
- The clamp repairs only the first violated bound (an `else if` chain). A
  unit step from the board violates at most one bound, so this is enough
  (`WrapStep`, `WrapRepairsOneAxis`).

## Model

| member | source | states |
|---|---|---|
| `Grid.Wrap` | pages/index.js:105-115 | the clamp changes at most one coordinate and leaves a position on the board unchanged |
| `Grid.IsFood` | pages/index.js:201 | a cell matches only the food that is present at that cell; absent food matches no cell |
| `Grid.IsSnake` | pages/index.js:203-204 | a cell is occupied exactly when some segment index holds it |
| `Grid.WrapStep` | pages/index.js:105-115 | a unit step from the board, then the clamp, lands on the board; leaving left gives x = 24, right x = 0, top y = 21, bottom y = 0, the other coordinate unchanged; a step that stays on the board is not clamped |
| `Grid.WrapRepairsOneAxis` | pages/index.js:111-114 | with both coordinates out of range only x is clamped, so the result is still off the board |
| `Movement.DefaultSnake` | pages/index.js:67-71 | the reset body has three segments on the board, head (8,12), tail (6,12) |
| `Movement.ScanBody` | pages/index.js:97-102 | the loop reports a hit exactly when the unclamped new head equals some segment 1 .. n-1 |
| `Movement.Advance` | pages/index.js:93-128 | a tick collides exactly when the unclamped head hits segment 1 .. n-1; otherwise the clamped head is first, the old body follows, and the length grows by one exactly when food was eaten |
| `Movement.CollisionExactly` | pages/index.js:96-101 | a tick collides if and only if head + direction, before wrapping, equals a segment at index ≥ 1, tail included |
| `Movement.SingleSegmentNeverCollides` | pages/index.js:97-102 | a one-segment body never collides |
| `Movement.AdvanceShape` | pages/index.js:118-126 | without food the length is unchanged, the clamped head is first and segment i+1 is old segment i; food is eaten exactly when it equals the clamped head, and then the body is the new head followed by the whole old body |
| `Movement.OffGridHeadNeverCollides` | pages/index.js:96-115 | for a body on the board, an unclamped head off the board never collides |
| `Movement.AdvanceStaysOnGrid` | pages/index.js:105-126 | a body on the board moving along a unit vector is still on the board after the tick |
| `Movement.OffGridFoodNeverEaten` | pages/index.js:105-118 | food off the board is never eaten by a body on the board |
| `Movement.WrapOntoBodyNotDetected` | pages/index.js:96-126 | a head that wraps onto segment 3 is not a collision; the new body holds (0,12) twice |
| `Movement.TailIsACollision` | pages/index.js:97-101 | stepping onto the current tail cell resets the body |
| `Movement.ExampleMove` | pages/index.js:119-126 | from the start, one tick right gives [(9,12),(8,12),(7,12)] |
| `Movement.ExampleEat` | pages/index.js:118-122 | eating food at (10,12) gives a four-segment body headed by (10,12) |
| `Movement.ExampleWrapRight` | pages/index.js:112 | a head at (24,12) moving right continues at (0,12) |
| `Steering.KeyVector` | pages/index.js:166-185 | exactly the four arrow keys name a vector, and it is a unit vector |
| `Steering.Turn` | pages/index.js:162-191 | a non-arrow key leaves the direction alone; otherwise the direction either stays or becomes the key's vector |
| `Steering.TurnRule` | pages/index.js:187-191 | for a unit direction: other keys change nothing, the reversing key changes nothing, any other arrow key sets its vector |
| `Steering.TurnKeepsUnit` | pages/index.js:187-191 | the direction stays a unit vector and never becomes the reverse of the old one |
| `Spawning.RandomCell` | pages/index.js:61-64 | both coordinates are the floor of sample × 25, so both lie in [0,25) |
| `Spawning.FirstFreeDraw` | pages/index.js:85-87 | the index of the first draw whose cell is not occupied: every earlier draw is occupied, that one is free |
| `Spawning.Spawned` | pages/index.js:83-88 | a spawned cell is never occupied and lies in [0,25)²; nothing is spawned only when every draw is occupied |
| `Spawning.DrawFreeCell` | pages/index.js:85-87 | the retry loop returns exactly the cell of the first free draw |
| `Spawning.SpawnBelowBoard` | pages/index.js:63 | a draw can give food at (0,22), which is off the board |
| `Board.Classify` | pages/index.js:209-214 | a cell is Food exactly when it is the food, Snake exactly when it is a segment and not the food, Empty otherwise |
| `Board.Snapshot` | pages/index.js:206-217 | 25 × 22 cells; cell k is position (x,y) on the board with k = x·22 + y, classified food, else snake, else empty |
| `Board.SnapshotCoversBoard` | pages/index.js:207-215 | every board position appears exactly once, with its classification |
| `Board.FoodCells` | pages/index.js:201-211 | only the food's own cell is Food, and only when the food is on the board; absent food marks no cell |
| `Board.SnakeAndEmptyCells` | pages/index.js:203-214 | a Snake cell holds a segment and not the food; an Empty cell holds neither |
| `Game.GameState.constructor` | pages/index.js:75-78 | the game starts with the default body, direction right, food at (4,10) and score 0 |
| `Game.GameState.GenerateNewFood` | pages/index.js:83-89 | the first free drawn cell replaces the food; the invariant is kept |
| `Game.GameState.Step` | pages/index.js:93-128 | the new state is `Advance` of the old body, the direction and the food the tick captured (`stepFood`): on collision the default body and score 0, with food and direction untouched; otherwise the advanced body, one more half point and food respawned away from `occupied` when `stepFood` was eaten |
| `Game.GameState.RemoveFood` | pages/index.js:130 | the food becomes absent, whatever it was |
| `Game.GameState.GrowIfHeadOnFood` | pages/index.js:139-159 | with the head on the food, a copy of the tail is appended and the food respawns away from the body; otherwise nothing changes |
| `Game.GameState.ChangeDirection` | pages/index.js:162-191 | the direction becomes `Turn` of the old direction and the key, and stays a unit vector |

`Advance`, `Turn` and `Classify` are the specification functions of the
tick, the key handler and the snapshot; the lemmas and methods above state
their further properties.

## Left out

- Rendering: the `Cell` component, its styles, pixel positions from the 32-unit cell size, and the markup. These are presentation only.
- Page bootstrapping through `next/dynamic` with server rendering off. This is host plumbing.
- Timers and the key listener: their registration, intervals (200, 3000 and 10000) and teardown. Each handler is a method a caller invokes; time is not modelled.
- React state semantics: batched setters, updater functions and effect re-runs. The interleaving of the movement tick with the growth pass is not modelled. Each pathway is a separate method.
- Stale closures: the movement tick and the spawn timer are created by the effect that re-runs on each direction change (`pages/index.js:136`), so they read `food` and `snake` as they were at that render. The model makes both explicit inputs: `Step` takes the captured food as `stepFood` and the captured body as `occupied`, and `GenerateNewFood` takes `occupied`. Which values a caller passes (how stale they are) is not modelled: no timeline relates them to the current state.
- `Math.random`: replaced by a caller-supplied sequence of draws, each two samples in [0,1).
- Game.GameState.GenerateNewFood: when every supplied draw lands on an occupied cell the food is left as it was; the source keeps drawing without bound.
- Game.GameState.GrowIfHeadOnFood: the same cut-off of the retry loop applies to its respawn.
- Game.GameState.Step: the same cut-off applies to its respawn after eating.
- The score is a count of half points (`halfPoints`, with `Score()` giving it as a real), not a floating-point number.
