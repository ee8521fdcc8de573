/** Small Option type for the food spawner, which may find no free cell in a
    finite stream of random draws. */
module Wrappers {
  datatype Option<+T> = None | Some(value: T)
}

/** The rules of the snake game, one per function: the board, the four
    headings and the direction gate, one movement/collision step, the food
    spawner, and the score and speed progressions. Nothing here has state. */
module Rules {
  import opened Wrappers

  // Board and progression constants of the game component.
  const GRID_SIZE: int := 20
  const INITIAL_SPEED: int := 100
  const SPEED_INCREMENT: int := 5
  const MAX_SPEED: int := 50     // the smallest tick interval: the fastest the game gets
  const FOOD_REWARD: int := 10   // points for one piece of food

  /** The palette a new piece of food takes its colour from. */
  const FOOD_COLORS: seq<string> := [
    "#FF5252", "#FF4081", "#E040FB", "#7C4DFF", "#536DFE",
    "#448AFF", "#40C4FF", "#18FFFF", "#64FFDA", "#69F0AE",
    "#B2FF59", "#EEFF41", "#FFFF00", "#FFD740", "#FFAB40"
  ]

  /** A board cell; x grows to the right and y grows downwards. The head of a
      moving snake can leave the board, so coordinates are unbounded. */
  datatype Cell = Cell(x: int, y: int)

  predicate InGrid(c: Cell) {
    0 <= c.x < GRID_SIZE && 0 <= c.y < GRID_SIZE
  }

  /** Every cell of the body lies on the board. */
  predicate AllInGrid(body: seq<Cell>) {
    forall i :: 0 <= i < |body| ==> InGrid(body[i])
  }

  /** No cell occurs twice in the body. */
  predicate Distinct(body: seq<Cell>) {
    forall i, j :: 0 <= i < j < |body| ==> body[i] != body[j]
  }

  datatype Direction = Up | Down | Left | Right

  /** The unit step of a heading, as (dx, dy). */
  function Delta(d: Direction): (int, int) {
    match d
    case Up => (0, -1)
    case Down => (0, 1)
    case Left => (-1, 0)
    case Right => (1, 0)
  }

  /** The heading that undoes d. */
  function Opposite(d: Direction): (r: Direction)
    ensures Delta(r) == (-Delta(d).0, -Delta(d).1)
    ensures r != d
  {
    match d
    case Up => Down
    case Down => Up
    case Left => Right
    case Right => Left
  }

  /** The direction gate: the handler for each arrow accepts its heading
      unless the last accepted heading is that arrow's reverse, and otherwise
      keeps the last accepted heading. */
  function Gate(current: Direction, requested: Direction): (r: Direction)
    ensures Delta(requested) == (-Delta(current).0, -Delta(current).1) ==> r == current
    ensures Delta(requested) != (-Delta(current).0, -Delta(current).1) ==> r == requested
  {
    match requested
    case Up => if current != Down then Up else current
    case Down => if current != Up then Down else current
    case Left => if current != Right then Left else current
    case Right => if current != Left then Right else current
  }

  /** The cell one step from head along d: a different cell, from which the
      reverse heading's step leads back to head. */
  function NextHead(head: Cell, d: Direction): (r: Cell)
    ensures r != head
    ensures Cell(r.x + Delta(Opposite(d)).0, r.y + Delta(Opposite(d)).1) == head
  {
    Cell(head.x + Delta(d).0, head.y + Delta(d).1)
  }

  /** Stepping along a heading and then along its reverse comes back: the
      reverse step from the new head lands on the old head, the neck. */
  lemma StepBackReturns(head: Cell, d: Direction)
    ensures NextHead(NextHead(head, d), Opposite(d)) == head
  {
  }

  /** A piece of food: where it lies and its colour. */
  datatype Food = Food(cell: Cell, color: string)

  type Coord = i: int | 0 <= i < GRID_SIZE
  type ColorIndex = i: int | 0 <= i < |FOOD_COLORS|

  /** One attempt of the food spawner: the random column, row and palette
      index it draws. */
  datatype Draw = Draw(x: Coord, y: Coord, colorIndex: ColorIndex)

  function DrawCell(d: Draw): Cell {
    Cell(d.x, d.y)
  }

  /** Some draw of the stream lands off the occupied cells. */
  predicate HasFreeDraw(occupied: seq<Cell>, draws: seq<Draw>) {
    exists i :: 0 <= i < |draws| && DrawCell(draws[i]) !in occupied
  }

  /** The food spawner: take draws until one misses the occupied cells, and
      make food from it. None when the stream runs out first. */
  function SpawnFood(occupied: seq<Cell>, draws: seq<Draw>): (r: Option<Food>)
    ensures r.Some? <==> HasFreeDraw(occupied, draws)
    ensures r.Some? ==> InGrid(r.value.cell) && r.value.cell !in occupied
    ensures r.Some? ==> r.value.color in FOOD_COLORS
    ensures r.Some? ==> exists i :: (0 <= i < |draws| &&
      r.value == Food(DrawCell(draws[i]), FOOD_COLORS[draws[i].colorIndex]) &&
      forall j :: 0 <= j < i ==> DrawCell(draws[j]) in occupied)
    decreases |draws|
  {
    if |draws| == 0 then None
    else if DrawCell(draws[0]) in occupied then
      var r := SpawnFood(occupied, draws[1..]);
      assert forall i :: 0 < i < |draws| ==> draws[i] == draws[1..][i - 1];
      r
    else Some(Food(DrawCell(draws[0]), FOOD_COLORS[draws[0].colorIndex]))
  }

  /** The outcome of one movement step. */
  datatype Outcome =
    | Blocked                   // the new head would leave the board
    | SelfHit                   // the new head would land on the body as it was
    | Fed(body: seq<Cell>)      // the new head lands on the food
    | Moved(body: seq<Cell>)    // the new head lands on an empty cell

  /** One movement step: the wall check first, then the check against the
      whole pre-move body (tail included), then the food check. */
  function Step(body: seq<Cell>, d: Direction, food: Cell): (r: Outcome)
    requires |body| > 0
    ensures var h := NextHead(body[0], d);
      && (r.Blocked? <==> !InGrid(h))
      && (r.SelfHit? <==> InGrid(h) && h in body)
      && (r.Fed? <==> InGrid(h) && h !in body && h == food)
      && (r.Fed? ==> r.body == [h] + body)
      && (r.Moved? ==> r.body == [h] + body[..|body| - 1])
  {
    var head := NextHead(body[0], d);
    if !InGrid(head) then Blocked
    else if head in body then SelfHit
    else
      var grown := [head] + body;
      if head == food then Fed(grown) else Moved(grown[..|grown| - 1])
  }

  /** The speed step taken on eating: the interval shrinks by one increment
      while it is above the floor. */
  function NextSpeed(speed: int): (r: int)
    ensures r <= speed
    ensures speed > MAX_SPEED <==> r < speed
    ensures speed > MAX_SPEED ==> r == speed - SPEED_INCREMENT
  {
    if speed > MAX_SPEED then speed - SPEED_INCREMENT else speed
  }

  /** The high score after a new score is reached. */
  function NextHighScore(highScore: int, newScore: int): (r: int)
    ensures r >= highScore && r >= newScore
    ensures r == newScore <==> newScore >= highScore
  {
    if newScore > highScore then newScore else highScore
  }

  /** The interval after k pieces of food, from the initial one. */
  function SpeedAfterFeeds(k: nat): int {
    if k == 0 then INITIAL_SPEED else NextSpeed(SpeedAfterFeeds(k - 1))
  }

  /** Closed form of the speed curve: 5 less per piece of food, never below
      the floor. */
  lemma {:induction false} SpeedAfterFeedsClosedForm(k: nat)
    ensures SpeedAfterFeeds(k) == if k <= 10 then INITIAL_SPEED - SPEED_INCREMENT * k else MAX_SPEED
  {
    if k > 0 {
      SpeedAfterFeedsClosedForm(k - 1);
    }
  }

  /** The speed curve is bounded by the initial speed and the floor, stays on
      the multiples of the increment, and never rises. */
  lemma SpeedAfterFeedsBounds(k: nat)
    ensures MAX_SPEED <= SpeedAfterFeeds(k) <= INITIAL_SPEED
    ensures SpeedAfterFeeds(k) % SPEED_INCREMENT == 0
    ensures SpeedAfterFeeds(k + 1) <= SpeedAfterFeeds(k)
  {
    SpeedAfterFeedsClosedForm(k);
    SpeedAfterFeedsClosedForm(k + 1);
  }

  /** On the multiples of 5 from the floor up, a speed step stays on them and
      never passes the floor. */
  lemma SpeedStepKeepsFloor(speed: int)
    requires speed >= MAX_SPEED && speed % SPEED_INCREMENT == 0
    ensures MAX_SPEED <= NextSpeed(speed) <= speed
    ensures NextSpeed(speed) % SPEED_INCREMENT == 0
  {
  }

  /** Off the multiples of 5 the floor can be passed: the guard tests the old
      value only. */
  lemma SpeedStepCanPassFloorOffGrid()
    ensures NextSpeed(52) == 47 < MAX_SPEED
  {
  }

  /** Reversing twice gives back the heading. */
  lemma OppositeInvolution(d: Direction)
    ensures Opposite(Opposite(d)) == d
  {
  }

  /** The accepted heading is never the reverse of the one it replaces. */
  lemma GateNeverReverses(current: Direction, requested: Direction)
    ensures Gate(current, requested) != Opposite(current)
  {
  }

  /** The gate compares with the last accepted request, not with the heading
      of the last move: two requests between moves turn the snake around. */
  lemma TwoRequestsReverse()
    ensures Gate(Gate(Right, Up), Left) == Left == Opposite(Right)
  {
  }

  /** Wall before self: a head that leaves the board is a wall death even when
      the body is in its way too. */
  lemma WallCheckedFirst(body: seq<Cell>, d: Direction, food: Cell)
    requires |body| > 0 && !InGrid(NextHead(body[0], d))
    ensures Step(body, d, food) == Blocked
  {
  }

  /** Moving into the cell the tail is about to leave is a death. */
  lemma TailIsDeadly(body: seq<Cell>, d: Direction, food: Cell)
    requires |body| > 0 && InGrid(body[|body| - 1])
    requires NextHead(body[0], d) == body[|body| - 1]
    ensures Step(body, d, food) == SelfHit
  {
  }

  /** The growth law: a fed step puts the head on the food and keeps the whole
      body; a plain move keeps the length and drops the tail. */
  lemma StepGrowthLaw(body: seq<Cell>, d: Direction, food: Cell)
    requires |body| > 0
    ensures Step(body, d, food).Fed? ==>
      |Step(body, d, food).body| == |body| + 1 && Step(body, d, food).body[0] == food &&
      Step(body, d, food).body[1..] == body
    ensures Step(body, d, food).Moved? ==>
      |Step(body, d, food).body| == |body| && Step(body, d, food).body[0] != food &&
      Step(body, d, food).body[1..] == body[..|body| - 1]
  {
  }

  /** A successful step keeps the body on the board and free of repeats. */
  lemma StepKeepsBodyWellFormed(body: seq<Cell>, d: Direction, food: Cell)
    requires |body| > 0 && AllInGrid(body) && Distinct(body)
    requires Step(body, d, food).Fed? || Step(body, d, food).Moved?
    ensures AllInGrid(Step(body, d, food).body)
    ensures Distinct(Step(body, d, food).body)
  {
  }

  /** A plain move keeps the body off food that lay off the body. */
  lemma MoveAvoidsFood(body: seq<Cell>, d: Direction, food: Cell)
    requires |body| > 0 && food !in body
    requires Step(body, d, food).Moved?
    ensures food !in Step(body, d, food).body
  {
  }
}
