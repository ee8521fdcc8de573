# Snake game engine — a Dafny model

This project models the game engine inside the React component
`src/components/Game.js` of a browser snake game. The model covers:

- the board and the four headings;
- the direction gate used by the arrow keys and the on-screen buttons;
- the tick step `moveSnake`, with its wall check, its check against the
  whole body, eating and the tail drop;
- the food spawner `generateFood`;
- the score, high-score and speed progressions;
- the pause toggle, the tick guard, the restart and the key handler.

There are three modules:

- `Rules` (`rules.dfy`): the rules as pure functions. `Gate`, `Step`,
  `SpawnFood`, `NextSpeed` and `NextHighScore`, with lemmas about them.
- `Engine` (`engine.dfy`): the whole state as a `World` value. Every event
  is a function from the state before to the state after: `Ticked`,
  `DirectionRequested`, `DirectionButtonPressed`, `Toggled`, `Restarted` and
  `KeyPressed`. `Consistent` holds of every state the corrected transitions
  reach, and the lemmas show that every corrected event keeps it. Under the
  code as written the food can land on the snake (see "## Findings").
- `Game` (`game.dfy`): the class `GameState`. Its fields are the component's
  state, and its methods update them in place in the same order the
  component does. Each method's `ensures` says that the new `Snapshot()` is
  the matching `Engine` transition of the old one, and that `Valid()` holds.

`Math.random` is replaced by a finite list of `Draw`s. Each draw holds a
column, a row and a palette index, each in the range the source's
`Math.floor(Math.random() * n)` produces. The source's spawner calls itself
again (`return generateFood()`, line 63) whenever a draw hits the body. On
draws that keep hitting the body, the recursion overflows the stack, a
`RangeError` is thrown and no food is produced. The error takes one of two
paths:

- On a tick, `generateFood` runs inside the `setSnake` updater (lines 127
  and 161), and the error is thrown out of that updater.
- On a restart, `generateFood()` is evaluated directly in `resetGame`
  (line 331). The error leaves `resetGame`, and with it the restart button's
  click handler, after `setSnake([{x:10,y:10}])` (line 330) has already been
  queued.

The transitions that spawn food return `None`, meaning "no food produced",
exactly when no draw of the given list misses the body. The class methods
require a list on which food is produced.

Behaviour of the component worth knowing:

- Self collision is checked against the whole pre-move body, tail included.
  Moving into the cell the tail is about to leave is therefore a death.
- The gate compares each request with the last *accepted* request, not with
  the heading of the last move. Two requests between ticks can therefore
  turn the snake onto its neck (`Engine.ReversalByTwoRequests`).
- Arrow keys still act while the game is paused. The on-screen direction
  buttons do not.
- The first game's food is fixed at (5, 5); it is not spawned.
- A board with no free cell is not a separate end state. The spawner keeps
  calling itself until the stack overflows.
- `Engine.ScenarioRefusedReverse` is a worked example: a three-cell snake
  `(5,5),(6,5),(7,5)` heading Left asks for Right, is refused, and moves on to
  (4, 5).

## Model

| member | source | states |
|---|---|---|
| `Rules.Opposite` | src/components/Game.js:11-16 | the reverse heading's unit step is the negation of the heading's, and it differs from the heading |
| `Rules.OppositeInvolution` | src/components/Game.js:11-16 | reversing a heading twice gives it back |
| `Rules.Gate` | src/components/Game.js:74-98 | a request whose step is the negation of the last accepted heading's leaves that heading; any other request becomes the new heading |
| `Rules.GateNeverReverses` | src/components/Game.js:76-97 | the heading the gate returns is never the reverse of the heading it replaces |
| `Rules.TwoRequestsReverse` | src/components/Game.js:76-97 | Up then Left, while heading Right, ends on Left, the reverse of Right |
| `Rules.NextHead` | src/components/Game.js:128-130 | the new head is a different cell, and the reverse heading's step from it leads back to the old head |
| `Rules.StepBackReturns` | src/components/Game.js:128-130 | moving one step and then one step along the reverse heading returns to the start cell, the neck |
| `Rules.SpawnFood` | src/components/Game.js:55-67 | food is found exactly when some draw misses the occupied cells; it lies on the board, off the occupied cells, with a palette colour; it comes from the first draw that misses |
| `Rules.Step` | src/components/Game.js:126-172 | wall death exactly when the head leaves the board; self death exactly when it is on the board and on any body cell; eating exactly when it is on a free cell with the food; eating keeps the whole body behind the head, a plain move drops the tail |
| `Rules.WallCheckedFirst` | src/components/Game.js:132-137 | a head off the board is a wall death whatever else is true |
| `Rules.TailIsDeadly` | src/components/Game.js:139-144 | a head on the cell of the current tail is a self death |
| `Rules.StepGrowthLaw` | src/components/Game.js:146-170 | eating adds exactly one cell, the food cell, in front of the old body; a plain move keeps the length and drops the last cell |
| `Rules.StepKeepsBodyWellFormed` | src/components/Game.js:133-146 | a successful step keeps every cell on the board and all cells distinct |
| `Rules.MoveAvoidsFood` | src/components/Game.js:146-170 | a plain move keeps the body off food that lay off it |
| `Rules.NextSpeed` | src/components/Game.js:164-166 | the interval never rises; it falls exactly when it was above the floor, and then by exactly 5 |
| `Rules.SpeedAfterFeedsClosedForm` | src/components/Game.js:6-8 | after k pieces of food the interval is 100 - 5k for k up to 10, and 50 after that |
| `Rules.SpeedAfterFeedsBounds` | src/components/Game.js:6-8 | the speed curve stays between 50 and 100, on multiples of 5, and never rises |
| `Rules.SpeedStepKeepsFloor` | src/components/Game.js:164-166 | from a multiple of 5 at or above 50, a step stays at or above 50, on a multiple of 5, and does not rise |
| `Rules.SpeedStepCanPassFloorOffGrid` | src/components/Game.js:164-166 | from 52 a step gives 47: the guard tests the value before the decrement |
| `Rules.NextHighScore` | src/components/Game.js:155-158 | the high score becomes the new score exactly when the new score reaches it, and never falls |
| `Engine.InitialConsistent` | src/components/Game.js:39-48 | the component's initial state meets the invariant, with the one-cell snake at (10, 10) and score 0 |
| `Engine.TickedHaltedIsNoOp` | src/components/Game.js:124 | no tick changes anything while the game is over or paused |
| `Engine.TickedCollision` | src/components/Game.js:128-144 | a head off the board, or on any pre-move body cell, sets game over and changes nothing else |
| `Engine.TickedGrowthLaw` | src/components/Game.js:146-172 | eating: the body is head plus old body and the score rises by 10; plain move: the body is head plus old body minus its tail, and nothing but the body changes |
| `Engine.TickedHighScore` | src/components/Game.js:151-158 | after a tick the high score is the larger of the old high score and the score, so it never falls |
| `Engine.TickedSpeed` | src/components/Game.js:163-166 | a tick never raises the interval; it lowers it by 5 exactly when food is eaten above the floor |
| `Engine.TickedReturns` | src/components/Game.js:160-161 | a tick fails to return only when the snake eats and no draw misses the new body |
| `Engine.TickedConsistent` | src/components/Game.js:126-172 | a tick keeps the invariant: body on the board and distinct, length and speed in step with the score, food off the body, high score at least the score |
| `Engine.DirectionRequestedSpec` | src/components/Game.js:72-98 | an arrow key changes only the heading, to the request unless the game is over or the request reverses the last accepted heading |
| `Engine.DirectionButtonPressedSpec` | src/components/Game.js:380-429 | a direction button does the same but is also inert while paused |
| `Engine.ReversalByTwoRequests` | src/components/Game.js:76-97 | a two-cell snake heading Right, given Up then Left, dies on the next tick |
| `Engine.ToggledSpec` | src/components/Game.js:99-103 | the pause toggle flips only the pause flag, undoes itself, and is inert once the game is over |
| `Engine.RequestsKeepConsistent` | src/components/Game.js:72-98 | arrow keys and direction buttons keep the invariant |
| `Engine.ToggledConsistent` | src/components/Game.js:99-103 | the pause toggle keeps the invariant |
| `Engine.RestartedSpec` | src/components/Game.js:329-340 | a restart gives snake (10, 10), heading Right, score 0, speed 100, neither paused nor over, food off the snake, the same high score, and a state that meets the invariant |
| `Engine.RestartedReturns` | src/components/Game.js:331 | a restart returns exactly when some draw misses the start cell |
| `Engine.KeyPressedRestart` | src/components/Game.js:104-110 | with the restart case first, R restarts a game that is over and is ignored while playing; other keys are ignored once over |
| `Engine.KeyPressedAgreesElsewhere` | src/components/Game.js:71-114 | for every key but R the reordered handler equals the written one |
| `Engine.KeyPressedConsistent` | src/components/Game.js:71-114 | every key keeps the invariant |
| `Engine.RestartKeyIgnoredAsWritten` | src/components/Game.js:72-110 | as written, R and r leave every state unchanged |
| `Engine.StaleTickFoodOnHeadAsWritten` | src/components/Game.js:160-161 | as written, eating can spawn the new food under the new head, breaking the invariant |
| `Engine.StaleRestartFoodOnSnakeAsWritten` | src/components/Game.js:330-331 | as written, restarting a running game can spawn the food on the start cell under the new snake |
| `Engine.ScenarioEatFromStart` | src/components/Game.js:146-161 | from (10, 10) heading Right onto food at (11, 10): body (11, 10), (10, 10), score 10, food at the first free draw, still running |
| `Engine.ScenarioWall` | src/components/Game.js:132-137 | a snake at the left edge heading Left dies and stays in place |
| `Engine.ScenarioRefusedReverse` | src/components/Game.js:87-97 | from a state meeting the invariant, a reverse request on a three-cell snake is refused, and the next tick moves the head on to (4, 5) |
| `Game.GameState.constructor` | src/components/Game.js:39-52 | the fields start as the initial state, with the loaded high score, and meet the invariant |
| `Game.GameState.Tick` | src/components/Game.js:123-174 | the fields become the tick transition of their old values, and the invariant holds |
| `Game.GameState.RequestDirection` | src/components/Game.js:72-98 | the fields become the arrow-key transition of their old values |
| `Game.GameState.PressDirectionButton` | src/components/Game.js:380-429 | the fields become the direction-button transition of their old values |
| `Game.GameState.TogglePause` | src/components/Game.js:99-103 | the fields become the pause-toggle transition of their old values |
| `Game.GameState.Reset` | src/components/Game.js:329-340 | the fields become the restart transition of their old values, keeping the high score |
| `Game.GameState.PressKey` | src/components/Game.js:71-114 | the fields become the reordered key-handler transition of their old values |

## Left out

- Canvas drawing: grid lines, the gradient body, the eyes and the food glow (src/components/Game.js:180-326). This is drawing with floating-point arithmetic.
- The JSX layout (src/components/Game.js:342-432). Only the logic of the buttons' `onClick` handlers and their `disabled` conditions is modelled.
- `localStorage`: the high-score load (lines 46-48) becomes the constructor's `nat` parameter, and the save at line 157 is left out. This is browser storage.
- `setInterval`, `clearInterval`, effect re-subscription and React's batching of state updates (lines 70-120, 176-178). One `Tick` call is modelled as one atomic step.
- Stale closures in general. The body the spawner sees is the only stale value modelled, in `Engine.TickedAsWritten` and `Engine.RestartedAsWritten`. The corrected model uses the current values throughout.
- The `direction` React state. Nothing reads it after it seeds `directionRef` at line 50: the tick and the drawing of the eyes (lines 254-264) both read `directionRef.current`, which is the model's `direction` field.
- `isPausedRef`. The pause button never updates it, and nothing else reads it. The model keeps the `isPaused` state, which the tick guard reads.
- `Math.random`. It becomes the explicit list of draws.
- `CELL_SIZE`. It is a drawing constant.
- `src/App.js`. It is a static wrapper with no logic.
- Rules.SpawnFood: the model does not capture that the source's random draws hit a free cell with probability 1 on a board that is not full. It states what happens on a given finite list of draws instead.
- The stack overflow that the spawner's recursion ends in when no draw misses the body. The model records it only as `None`, no food produced. The thrown `RangeError` is not modelled, on either path: out of the `setSnake` updater on a tick, or out of `resetGame` after the new snake was queued on a restart. What React does with it is not modelled either.

## Findings

| source | as written | input that shows it | evidently intended | confidence | as-written member | corrected member |
|---|---|---|---|---|---|---|
| src/components/Game.js:72-110 | the key handler returns at once when the game is over. Its R/r case then resets only when the game is over, so it never resets | game over, press `r` | R restarts a finished game, as the on-screen help says | high, not executed | `Engine.KeyPressedAsWritten`, shown by `Engine.RestartKeyIgnoredAsWritten` | `Engine.KeyPressed`, proved in `Engine.KeyPressedRestart` and used by `Game.GameState.PressKey` |
| src/components/Game.js:160-161 | after eating, `generateFood` (line 61) checks the body captured by the game loop's closure. That body at best is the body before the move, so it lacks the new head | snake `[(10,10)]` heading Right, food at (11, 10), next draw (11, 10) | new food never lies on the snake | medium, not executed | `Engine.TickedAsWritten`, shown by `Engine.StaleTickFoodOnHeadAsWritten` | `Engine.Ticked`, proved in `Engine.TickedConsistent` and used by `Game.GameState.Tick` |
| src/components/Game.js:330-331 | `resetGame` calls `generateFood` while the closure still holds the old body, not the new one-cell snake | running game with snake `[(3,3)]`, restart button pressed, next draw (10, 10) | the food of a new game is not on the start cell | medium, not executed | `Engine.RestartedAsWritten`, shown by `Engine.StaleRestartFoodOnSnakeAsWritten` | `Engine.Restarted`, proved in `Engine.RestartedSpec` and used by `Game.GameState.Reset` |
