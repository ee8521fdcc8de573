/** The game component's state, updated in place: one field per piece of
    state the game loop and the input handlers read and write. Every method
    leaves the snapshot of the fields equal to the matching transition of
    module Engine applied to the snapshot before, and keeps the invariant
    Engine.Consistent. */
module Game {
  import opened Wrappers
  import opened Rules
  import opened Engine

  class GameState {
    var snake: seq<Cell>       // head first
    var direction: Direction   // the last accepted heading, read by the tick
    var food: Food
    var score: int
    var highScore: int
    var speed: int             // the tick interval
    var gameOver: bool
    var paused: bool

    /** The fields as one value. */
    function Snapshot(): World
      reads this
    {
      World(snake, direction, food, score, highScore, speed, gameOver, paused)
    }

    predicate Valid()
      reads this
    {
      Consistent(Snapshot())
    }

    /** A fresh component, with the high score loaded from storage. */
    constructor (storedHighScore: nat)
      ensures Snapshot() == Initial(storedHighScore)
      ensures Valid()
    {
      snake := [START];
      food := INITIAL_FOOD;
      direction := Right;
      gameOver := false;
      score := 0;
      speed := INITIAL_SPEED;
      paused := false;
      highScore := storedHighScore;
      new;
      InitialConsistent(storedHighScore);
    }

    /** One tick of the game loop: nothing while over or paused; otherwise the
        wall check, the check against the whole body, then either eating
        (score, high score, new food, speed) or dropping the tail. */
    method Tick(draws: seq<Draw>)
      requires Valid() && Ticked(Snapshot(), draws).Some?
      modifies this
      ensures Snapshot() == Ticked(old(Snapshot()), draws).value
      ensures Valid()
    {
      TickedConsistent(Snapshot(), draws);
      if gameOver || paused {
        return;
      }
      var head := NextHead(snake[0], direction);
      if !InGrid(head) {
        gameOver := true;
        return;
      }
      if head in snake {
        gameOver := true;
        return;
      }
      var newSnake := [head] + snake;
      if head == food.cell {
        var newScore := score + FOOD_REWARD;
        score := newScore;
        if newScore > highScore {
          highScore := newScore;
        }
        food := SpawnFood(newSnake, draws).value;
        if speed > MAX_SPEED {
          speed := speed - SPEED_INCREMENT;
        }
      } else {
        newSnake := newSnake[..|newSnake| - 1];
      }
      snake := newSnake;
    }

    /** An arrow key: ignored once the game is over, otherwise through the
        direction gate. */
    method RequestDirection(d: Direction)
      requires Valid()
      modifies this
      ensures Snapshot() == DirectionRequested(old(Snapshot()), d)
      ensures Valid()
    {
      RequestsKeepConsistent(Snapshot(), d);
      if gameOver {
        return;
      }
      direction := Gate(direction, d);
    }

    /** An on-screen direction button: disabled while over or paused. */
    method PressDirectionButton(d: Direction)
      requires Valid()
      modifies this
      ensures Snapshot() == DirectionButtonPressed(old(Snapshot()), d)
      ensures Valid()
    {
      if !gameOver && !paused {
        RequestDirection(d);
      }
    }

    /** The space bar or the pause button: flips the pause flag unless the
        game is over. */
    method TogglePause()
      requires Valid()
      modifies this
      ensures Snapshot() == Toggled(old(Snapshot()))
      ensures Valid()
    {
      ToggledConsistent(Snapshot());
      if !gameOver {
        paused := !paused;
      }
    }

    /** The restart button: a new game, keeping the high score. */
    method Reset(draws: seq<Draw>)
      requires Valid() && Restarted(Snapshot(), draws).Some?
      modifies this
      ensures Snapshot() == Restarted(old(Snapshot()), draws).value
      ensures Valid()
    {
      RestartedSpec(Snapshot(), draws);
      snake := [START];
      food := SpawnFood(snake, draws).value;
      direction := Right;
      gameOver := false;
      score := 0;
      speed := INITIAL_SPEED;
      paused := false;
    }

    /** The key handler, with R handled ahead of the game-over return. */
    method PressKey(key: string, draws: seq<Draw>)
      requires Valid() && KeyPressed(Snapshot(), key, draws).Some?
      modifies this
      ensures Snapshot() == KeyPressed(old(Snapshot()), key, draws).value
      ensures Valid()
    {
      if key == "r" || key == "R" {
        if gameOver {
          Reset(draws);
        }
        return;
      }
      if gameOver {
        return;
      }
      if key == "ArrowUp" {
        RequestDirection(Up);
      } else if key == "ArrowDown" {
        RequestDirection(Down);
      } else if key == "ArrowLeft" {
        RequestDirection(Left);
      } else if key == "ArrowRight" {
        RequestDirection(Right);
      } else if key == " " {
        TogglePause();
      }
    }
  }
}
