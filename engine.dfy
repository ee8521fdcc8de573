/** The whole game state as a value, and each thing that can happen to it as a
    function from the state before to the state after: a tick, a key press, a
    press of an on-screen button. Food spawning can fail to produce food: the
    spawner calls itself again on every draw that hits the body, so a stream of
    draws that keeps hitting it ends in a stack overflow, and no food. On a
    tick the error leaves the snake updater; on a restart it leaves the restart
    handler after the new one-cell snake has been queued. The transitions that
    spawn food return None exactly when no draw of the given stream misses the
    body. */
module Engine {
  import opened Wrappers
  import opened Rules

  /** Where a new game puts the one-cell snake. */
  const START: Cell := Cell(10, 10)
  /** The food of the very first game: fixed, not spawned. */
  const INITIAL_FOOD: Food := Food(Cell(5, 5), FOOD_COLORS[0])

  /** A snapshot of the game: the body (head first), the last accepted
      heading, the food, the score, the high score, the tick interval, and the
      game-over and pause flags. */
  datatype World = World(
    snake: seq<Cell>,
    dir: Direction,
    food: Food,
    score: int,
    highScore: int,
    speed: int,
    gameOver: bool,
    paused: bool)

  /** The state of a fresh component, given the high score it loaded. */
  function Initial(storedHighScore: nat): World {
    World([START], Right, INITIAL_FOOD, 0, storedHighScore, INITIAL_SPEED, false, false)
  }

  /** What holds of every state the corrected transitions reach (under the
      transitions as written the food can land on the snake, see
      TickedAsWritten and RestartedAsWritten): the body is on the board,
      free of repeats and one cell longer than the food eaten; the food lies on
      the board off the body; the score counts the food eaten; the speed
      follows the speed curve; the high score is at least the score. */
  predicate Consistent(w: World) {
    && |w.snake| >= 1
    && AllInGrid(w.snake)
    && Distinct(w.snake)
    && InGrid(w.food.cell)
    && w.food.cell !in w.snake
    && w.food.color in FOOD_COLORS
    && w.score >= 0
    && w.score % FOOD_REWARD == 0
    && |w.snake| == 1 + w.score / FOOD_REWARD
    && w.speed == SpeedAfterFeeds(w.score / FOOD_REWARD)
    && w.highScore >= w.score
  }

  /** No tick runs while the game is over or paused. */
  predicate Halted(w: World) {
    w.gameOver || w.paused
  }

  /** The state after eating: the longer body, ten more points, the high score
      raised if passed, the new food, one speed step. None when the spawner
      found no food. */
  function Eaten(w: World, body: seq<Cell>, spawned: Option<Food>): Option<World> {
    match spawned
    case None => None
    case Some(f) =>
      var newScore := w.score + FOOD_REWARD;
      Some(w.(snake := body, score := newScore, highScore := NextHighScore(w.highScore, newScore),
              food := f, speed := NextSpeed(w.speed)))
  }

  /** One tick of the game loop, with the spawner checking the new body. */
  function Ticked(w: World, draws: seq<Draw>): Option<World>
    requires |w.snake| > 0
  {
    if Halted(w) then Some(w)
    else
      match Step(w.snake, w.dir, w.food.cell)
      case Blocked => Some(w.(gameOver := true))
      case SelfHit => Some(w.(gameOver := true))
      case Fed(body) => Eaten(w, body, SpawnFood(body, draws))
      case Moved(body) => Some(w.(snake := body))
  }

  /** One tick as the component's code has it: the spawner checks the body
      `seen` that the game loop's closure captured when it was set up, which is
      at best the body before the move. */
  function TickedAsWritten(w: World, draws: seq<Draw>, seen: seq<Cell>): Option<World>
    requires |w.snake| > 0
  {
    if !Halted(w) && Step(w.snake, w.dir, w.food.cell).Fed? then
      Eaten(w, Step(w.snake, w.dir, w.food.cell).body, SpawnFood(seen, draws))
    else Ticked(w, draws)
  }

  /** The pause toggle, from the space bar or the pause button; both are
      inert once the game is over. */
  function Toggled(w: World): World {
    if w.gameOver then w else w.(paused := !w.paused)
  }

  /** An arrow key: refused once the game is over, passed through the gate
      otherwise, while paused too. */
  function DirectionRequested(w: World, d: Direction): World {
    if w.gameOver then w else w.(dir := Gate(w.dir, d))
  }

  /** An on-screen direction button: disabled while over or paused, passed
      through the gate otherwise. */
  function DirectionButtonPressed(w: World, d: Direction): World {
    if w.gameOver || w.paused then w else w.(dir := Gate(w.dir, d))
  }

  /** A new game on the restart button, with the spawner checking the new
      one-cell body; the high score is kept. */
  function Restarted(w: World, draws: seq<Draw>): Option<World> {
    match SpawnFood([START], draws)
    case None => None
    case Some(f) => Some(World([START], Right, f, 0, w.highScore, INITIAL_SPEED, false, false))
  }

  /** A new game as the component's code has it: the spawner checks the body
      of the game being discarded. */
  function RestartedAsWritten(w: World, draws: seq<Draw>): Option<World> {
    match SpawnFood(w.snake, draws)
    case None => None
    case Some(f) => Some(World([START], Right, f, 0, w.highScore, INITIAL_SPEED, false, false))
  }

  /** The key handler as the component's code has it. The handler returns at
      once when the game is over, so its restart case, which acts only when
      the game is over, never acts. */
  function KeyPressedAsWritten(w: World, key: string, draws: seq<Draw>): Option<World> {
    if w.gameOver then Some(w)
    else if key == "ArrowUp" then Some(DirectionRequested(w, Up))
    else if key == "ArrowDown" then Some(DirectionRequested(w, Down))
    else if key == "ArrowLeft" then Some(DirectionRequested(w, Left))
    else if key == "ArrowRight" then Some(DirectionRequested(w, Right))
    else if key == " " then Some(Toggled(w))
    else if key == "r" || key == "R" then
      (if w.gameOver then RestartedAsWritten(w, draws) else Some(w))
    else Some(w)
  }

  /** The key handler with the restart case ahead of the game-over return, so
      that R restarts a game that is over, as the on-screen help promises. */
  function KeyPressed(w: World, key: string, draws: seq<Draw>): Option<World> {
    if key == "r" || key == "R" then
      (if w.gameOver then Restarted(w, draws) else Some(w))
    else if w.gameOver then Some(w)
    else if key == "ArrowUp" then Some(DirectionRequested(w, Up))
    else if key == "ArrowDown" then Some(DirectionRequested(w, Down))
    else if key == "ArrowLeft" then Some(DirectionRequested(w, Left))
    else if key == "ArrowRight" then Some(DirectionRequested(w, Right))
    else if key == " " then Some(Toggled(w))
    else Some(w)
  }

  // ---------------------------------------------------------------------
  // The start state

  lemma InitialConsistent(storedHighScore: nat)
    ensures Consistent(Initial(storedHighScore))
    ensures Initial(storedHighScore).snake == [START] && Initial(storedHighScore).score == 0
  {
  }

  // ---------------------------------------------------------------------
  // The tick

  /** A tick does nothing while the game is over or paused. */
  lemma TickedHaltedIsNoOp(w: World, draws: seq<Draw>)
    requires |w.snake| > 0 && Halted(w)
    ensures Ticked(w, draws) == Some(w)
  {
  }

  /** A head off the board, or on any cell of the body as it was (tail
      included), ends the game and changes nothing else. The wall test comes
      first, so this holds whatever the body is. */
  lemma TickedCollision(w: World, draws: seq<Draw>)
    requires |w.snake| > 0 && !Halted(w)
    requires var h := NextHead(w.snake[0], w.dir); !InGrid(h) || h in w.snake
    ensures Ticked(w, draws) == Some(w.(gameOver := true))
  {
  }

  /** The growth law. With the head on the food, the body keeps all its cells
      behind the new head and the score rises by 10; with the head on an empty
      cell, the tail goes, and score, high score, food and speed stay. */
  lemma TickedGrowthLaw(w: World, draws: seq<Draw>)
    requires |w.snake| > 0 && !Halted(w)
    requires var h := NextHead(w.snake[0], w.dir); InGrid(h) && h !in w.snake
    requires Ticked(w, draws).Some?
    ensures var h := NextHead(w.snake[0], w.dir);
      var r := Ticked(w, draws).value;
      && !r.gameOver && r.dir == w.dir && r.paused == w.paused
      && (h == w.food.cell ==>
            r.snake == [h] + w.snake && |r.snake| == |w.snake| + 1 &&
            r.score == w.score + FOOD_REWARD && r.food.cell !in r.snake)
      && (h != w.food.cell ==>
            r.snake == [h] + w.snake[..|w.snake| - 1] && |r.snake| == |w.snake| &&
            r == w.(snake := r.snake))
  {
  }

  /** A tick never lowers the high score, and leaves it at the larger of the
      old high score and the new score. */
  lemma TickedHighScore(w: World, draws: seq<Draw>)
    requires Consistent(w) && Ticked(w, draws).Some?
    ensures var r := Ticked(w, draws).value;
      && r.highScore >= w.highScore
      && r.highScore == (if r.score > w.highScore then r.score else w.highScore)
  {
  }

  /** A tick never raises the speed interval; eating lowers it by 5 exactly
      when it was above the floor. */
  lemma TickedSpeed(w: World, draws: seq<Draw>)
    requires |w.snake| > 0 && Ticked(w, draws).Some?
    ensures var r := Ticked(w, draws).value;
      && r.speed <= w.speed
      && (r.speed < w.speed <==> r.score != w.score && w.speed > MAX_SPEED)
      && (r.speed < w.speed ==> r.speed == w.speed - SPEED_INCREMENT)
  {
  }

  /** The tick fails to return only when the head eats and no draw misses the
      new body. */
  lemma TickedReturns(w: World, draws: seq<Draw>)
    requires |w.snake| > 0
    ensures Ticked(w, draws).None? <==>
      !Halted(w) && Step(w.snake, w.dir, w.food.cell).Fed? &&
      !HasFreeDraw(Step(w.snake, w.dir, w.food.cell).body, draws)
  {
  }

  /** A tick keeps every reachable-state property: body on the board and free
      of repeats, length and speed in step with the score, food off the body,
      high score at least the score. */
  lemma TickedConsistent(w: World, draws: seq<Draw>)
    requires Consistent(w) && Ticked(w, draws).Some?
    ensures Consistent(Ticked(w, draws).value)
  {
  }

  // ---------------------------------------------------------------------
  // Direction requests and the pause toggle

  /** An arrow key makes its heading the new one unless it is the reverse of
      the last accepted heading or the game is over; nothing else changes. */
  lemma DirectionRequestedSpec(w: World, d: Direction)
    ensures var r := DirectionRequested(w, d);
      && r == w.(dir := r.dir)
      && r.dir == (if w.gameOver || d == Opposite(w.dir) then w.dir else d)
  {
  }

  /** A direction button acts as the arrow key does, except that it is also
      inert while paused. */
  lemma DirectionButtonPressedSpec(w: World, d: Direction)
    ensures var r := DirectionButtonPressed(w, d);
      && r == w.(dir := r.dir)
      && r.dir == (if w.gameOver || w.paused || d == Opposite(w.dir) then w.dir else d)
      && (!w.paused ==> r == DirectionRequested(w, d))
  {
  }

  /** Two arrow keys between ticks turn a two-cell snake onto its own neck:
      Up then Left while heading Right, and the next tick ends the game. */
  lemma ReversalByTwoRequests()
    ensures var w := World([Cell(5, 5), Cell(4, 5)], Right, Food(Cell(0, 0), FOOD_COLORS[0]),
                           10, 10, 95, false, false);
      var turned := DirectionRequested(DirectionRequested(w, Up), Left);
      turned.dir == Left && Ticked(turned, []) == Some(turned.(gameOver := true))
  {
  }

  /** The pause toggle flips the pause flag of a running or paused game and
      nothing else; toggling twice restores the state; a game that is over
      ignores it. */
  lemma ToggledSpec(w: World)
    ensures var r := Toggled(w);
      && (w.gameOver ==> r == w)
      && (!w.gameOver ==> r == w.(paused := !w.paused))
      && Toggled(r) == w
  {
  }

  /** Neither direction requests nor the toggle disturb the reachable-state
      properties. */
  lemma RequestsKeepConsistent(w: World, d: Direction)
    requires Consistent(w)
    ensures Consistent(DirectionRequested(w, d))
    ensures Consistent(DirectionButtonPressed(w, d))
  {
  }

  /** The pause toggle keeps the invariant. */
  lemma ToggledConsistent(w: World)
    requires Consistent(w)
    ensures Consistent(Toggled(w))
  {
  }

  // ---------------------------------------------------------------------
  // Restart

  /** A restart gives the one-cell snake at the start heading Right, score 0,
      the initial speed, neither paused nor over, food off the new snake, and
      the old high score. */
  lemma RestartedSpec(w: World, draws: seq<Draw>)
    requires w.highScore >= 0
    requires Restarted(w, draws).Some?
    ensures var r := Restarted(w, draws).value;
      && r.snake == [START] && r.dir == Right && r.score == 0
      && r.speed == INITIAL_SPEED && !r.paused && !r.gameOver
      && r.highScore == w.highScore
      && r.food.cell != START
      && Consistent(r)
  {
  }

  /** The restart fails to return only when no draw misses the start cell. */
  lemma RestartedReturns(w: World, draws: seq<Draw>)
    ensures Restarted(w, draws).Some? <==> HasFreeDraw([START], draws)
  {
  }

  // ---------------------------------------------------------------------
  // The key handler

  /** With the guard reordered, R restarts a game that is over and is ignored
      during play; every other key is ignored once the game is over. */
  lemma KeyPressedRestart(w: World, key: string, draws: seq<Draw>)
    ensures (key == "r" || key == "R") && w.gameOver ==> KeyPressed(w, key, draws) == Restarted(w, draws)
    ensures (key == "r" || key == "R") && !w.gameOver ==> KeyPressed(w, key, draws) == Some(w)
    ensures key != "r" && key != "R" && w.gameOver ==> KeyPressed(w, key, draws) == Some(w)
  {
  }

  /** Apart from R, the reordered handler does what the written one does. */
  lemma KeyPressedAgreesElsewhere(w: World, key: string, draws: seq<Draw>)
    requires key != "r" && key != "R"
    ensures KeyPressed(w, key, draws) == KeyPressedAsWritten(w, key, draws)
  {
  }

  /** Any key keeps the reachable-state properties. */
  lemma KeyPressedConsistent(w: World, key: string, draws: seq<Draw>)
    requires Consistent(w) && KeyPressed(w, key, draws).Some?
    ensures Consistent(KeyPressed(w, key, draws).value)
  {
  }

  // ---------------------------------------------------------------------
  // The code as written

  /** As written, R never restarts: in every state the handler leaves the
      game as it is. */
  lemma RestartKeyIgnoredAsWritten(w: World, draws: seq<Draw>)
    ensures KeyPressedAsWritten(w, "r", draws) == Some(w)
    ensures KeyPressedAsWritten(w, "R", draws) == Some(w)
  {
  }

  /** As written, the spawner can put the new food under the new head: a
      one-cell snake heading Right onto the food, with the closure holding the
      body before the move and the next draw on the cell just entered. */
  lemma StaleTickFoodOnHeadAsWritten()
    ensures var w := World([START], Right, Food(Cell(11, 10), FOOD_COLORS[0]), 0, 0, INITIAL_SPEED, false, false);
      var r := TickedAsWritten(w, [Draw(11, 10, 0)], w.snake);
      && Consistent(w)
      && r.Some? && r.value.food.cell == r.value.snake[0]
      && !Consistent(r.value)
  {
  }

  /** As written, a restart can put the food on the start cell, under the new
      snake: the discarded body does not cover it, and the next draw is it.
      The restart button is never disabled, so a running game is restarted
      here. */
  lemma StaleRestartFoodOnSnakeAsWritten()
    ensures var w := World([Cell(3, 3)], Up, Food(Cell(4, 4), FOOD_COLORS[1]), 0, 0, INITIAL_SPEED, false, false);
      var r := RestartedAsWritten(w, [Draw(10, 10, 2)]);
      && Consistent(w)
      && r.Some? && r.value.food.cell in r.value.snake
      && !Consistent(r.value)
  {
  }

  // ---------------------------------------------------------------------
  // Worked scenarios

  /** Heading Right from the start onto food at (11, 10): the snake grows to
      two cells, the score is 10, new food lies elsewhere, the game runs on. */
  lemma ScenarioEatFromStart(d: Draw)
    requires DrawCell(d) != Cell(11, 10) && DrawCell(d) != START
    ensures var w := World([START], Right, Food(Cell(11, 10), FOOD_COLORS[0]), 0, 0, INITIAL_SPEED, false, false);
      var r := Ticked(w, [d]);
      && r.Some? && r.value.snake == [Cell(11, 10), START] && r.value.score == 10
      && r.value.food.cell == DrawCell(d) && !r.value.gameOver
  {
  }

  /** Heading Left at the left edge: wall collision, the snake stays put. */
  lemma ScenarioWall()
    ensures var w := World([Cell(0, 10), Cell(1, 10)], Left, INITIAL_FOOD, 10, 10, 95, false, false);
      Ticked(w, []) == Some(w.(gameOver := true))
  {
  }

  /** A reverse request on a three-cell snake is refused, and the next tick
      carries on the old way. */
  lemma ScenarioRefusedReverse()
    ensures var w := World([Cell(5, 5), Cell(6, 5), Cell(7, 5)], Left, Food(Cell(0, 0), FOOD_COLORS[0]), 20, 20, 90, false, false);
      var r := DirectionRequested(w, Right);
      && Consistent(w)
      && r.dir == Left && Ticked(r, []) == Some(r.(snake := [Cell(4, 5), Cell(5, 5), Cell(6, 5)]))
  {
    var body := [Cell(5, 5), Cell(6, 5), Cell(7, 5)];
    assert Cell(4, 5) !in body;
    assert ([Cell(4, 5)] + body)[..3] == [Cell(4, 5), Cell(5, 5), Cell(6, 5)];
  }
}
