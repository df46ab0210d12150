/** The game state owned by the snake component and the handlers that
    overwrite it: the movement tick, the food spawn and removal ticks, the
    growth pass run when the head sits on the food, and the key handler. */
module Game {
  import opened Grid
  import opened Movement
  import opened Steering
  import opened Spawning

  class GameState {
    /** Head first, tail last. */
    var snake: seq<Pos>
    var direction: Pos
    var food: Option<Pos>
    /** The score counts half points: each food is worth 0.5. */
    var halfPoints: nat

    /** What every handler preserves: a non-empty body on the board, a unit
        direction, and food (when present) inside the square it is drawn
        from. */
    ghost predicate Valid()
      reads this
    {
      && |snake| >= 1
      && OnGrid(snake)
      && IsUnit(direction)
      && (food.Some? ==> InSpawnRange(food.value))
    }

    function Score(): real
      reads this
    {
      halfPoints as real / 2.0
    }

    /** The initial state: the default body heading right, food at (4, 10)
        and a score of 0. */
    constructor ()
      ensures Valid()
      ensures snake == DefaultSnake() && direction == Right
      ensures food == Some(Pos(4, 10)) && halfPoints == 0
    {
      snake := DefaultSnake();
      direction := Right;
      food := Some(Pos(4, 10));
      halfPoints := 0;
    }

    /** `generateNewFood`: install the first free drawn cell, overwriting
        any food; the cells in `occupied` are the ones it must avoid. */
    method GenerateNewFood(occupied: seq<Pos>, draws: seq<Draw>)
      requires Valid() && AllDraws(draws)
      modifies this`food
      ensures Valid()
      ensures Spawned(occupied, draws).Some? ==> food == Spawned(occupied, draws)
      ensures Spawned(occupied, draws).None? ==> food == old(food)
    {
      var newFood := DrawFreeCell(occupied, draws);
      if newFood.Some? {
        food := newFood;
      }
    }

    /** `runSingleStep`: one movement tick. The food the step tests and
        the cells a respawn must avoid are the ones the tick's closure
        captured when the direction last changed: `stepFood` and
        `occupied`, which may differ from the current `food` and `snake`.
        A collision resets the body and the score and leaves food and
        direction alone; otherwise the body advances, and eating
        `stepFood` adds a half point and respawns the food away from
        `occupied`, overwriting whatever food is current. */
    method Step(stepFood: Option<Pos>, occupied: seq<Pos>, draws: seq<Draw>)
      requires Valid() && AllDraws(draws)
      modifies this`snake, this`food, this`halfPoints
      ensures Valid() && direction == old(direction)
      ensures Advance(old(snake), direction, stepFood).Collided? ==>
                snake == DefaultSnake() && halfPoints == 0 && food == old(food)
      ensures Advance(old(snake), direction, stepFood).Advanced? ==>
                var o := Advance(old(snake), direction, stepFood);
                && snake == o.body
                && halfPoints == old(halfPoints) + (if o.ate then 1 else 0)
                && food == (if o.ate && Spawned(occupied, draws).Some? then Spawned(occupied, draws) else old(food))
    {
      AdvanceStaysOnGrid(snake, direction, stepFood);
      var newHead := Add(snake[0], direction);
      var hit := ScanBody(snake, newHead);
      if hit {
        halfPoints := 0;
        snake := DefaultSnake();
        return;
      }
      newHead := Wrap(newHead);
      var isHeadOnFood := IsFood(stepFood, newHead);
      var newSnake := [newHead] + snake;
      if isHeadOnFood {
        GenerateNewFood(occupied, draws);
        halfPoints := halfPoints + 1;
      } else {
        newSnake := newSnake[..|newSnake| - 1];
      }
      snake := newSnake;
    }

    /** The removal tick: the food becomes absent, whatever it was. */
    method RemoveFood()
      requires Valid()
      modifies this`food
      ensures Valid() && food == None
    {
      food := None;
    }

    /** The growth pass: when the head is on the food, a copy of the tail is
        appended and the food is respawned away from the body. */
    method GrowIfHeadOnFood(draws: seq<Draw>)
      requires Valid() && AllDraws(draws)
      modifies this`snake, this`food
      ensures Valid()
      ensures IsFood(old(food), old(snake)[0]) ==>
                && snake == old(snake) + [old(snake)[|old(snake)| - 1]]
                && food == (if Spawned(old(snake), draws).Some? then Spawned(old(snake), draws) else old(food))
      ensures !IsFood(old(food), old(snake)[0]) ==> snake == old(snake) && food == old(food)
    {
      if IsFood(food, snake[0]) {
        var occupied := snake;
        snake := snake + [snake[|snake| - 1]];
        GenerateNewFood(occupied, draws);
      }
    }

    /** `handleNavigation`: an arrow key turns the snake unless it points
        straight back; any other key is ignored. The body keeps the
        handler's own form (a component per axis, then one test per axis);
        `Turn` is its specification, and `TurnRule` says what that means. */
    method ChangeDirection(key: string)
      requires Valid()
      modifies this`direction
      ensures Valid() && direction == Turn(old(direction), key)
    {
      var dx, dy := 0, 0;
      if key == "ArrowUp" {
        dy := -1;
      } else if key == "ArrowDown" {
        dy := 1;
      } else if key == "ArrowLeft" {
        dx := -1;
      } else if key == "ArrowRight" {
        dx := 1;
      } else {
        return;
      }
      if dx != 0 && direction.x != -dx {
        direction := Pos(dx, 0);
      } else if dy != 0 && direction.y != -dy {
        direction := Pos(0, dy);
      }
    }
  }
}
