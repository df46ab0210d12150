/** The movement rule run on every game tick: a new head one step along
    the current direction, the self-collision scan on the unclamped head,
    the wrap-around, and growth or translation depending on the food. */
module Movement {
  import opened Grid

  /** `getDefaultSnake`: the body the game starts with and resets to. */
  function DefaultSnake(): (s: seq<Pos>)
    ensures |s| == 3 && OnGrid(s)
    ensures s[0] == Pos(8, 12) && s[|s| - 1] == Pos(6, 12)
  {
    [Pos(8, 12), Pos(7, 12), Pos(6, 12)]
  }

  /** The new head equals a segment other than the head, the tail included. */
  predicate HitsBody(snake: seq<Pos>, p: Pos) {
    exists i :: 1 <= i < |snake| && snake[i] == p
  }

  /** The scan over segments 1 .. n-1 that stops at the first match. */
  method ScanBody(snake: seq<Pos>, newHead: Pos) returns (hit: bool)
    requires |snake| >= 1
    ensures hit <==> HitsBody(snake, newHead)
  {
    var i := 1;
    while i < |snake|
      invariant 1 <= i <= |snake|
      invariant forall j :: 1 <= j < i ==> snake[j] != newHead
    {
      if snake[i] == newHead {
        return true;
      }
      i := i + 1;
    }
    return false;
  }

  /** What one tick does to the body: a collision, or the new body and
      whether the food was eaten. */
  datatype Outcome = Collided | Advanced(body: seq<Pos>, ate: bool)

  /** `runSingleStep` on the body, given the direction and the food. */
  function Advance(snake: seq<Pos>, dir: Pos, food: Option<Pos>): (o: Outcome)
    requires |snake| >= 1
    ensures o.Collided? <==> HitsBody(snake, Add(snake[0], dir))
    ensures o.Advanced? ==> |o.body| == |snake| + (if o.ate then 1 else 0)
    ensures o.Advanced? ==> o.body[0] == Wrap(Add(snake[0], dir)) && o.body[1..] == snake[..|o.body| - 1]
  {
    var newHead := Add(snake[0], dir);
    if HitsBody(snake, newHead) then Collided
    else
      var head := Wrap(newHead);
      var grown := [head] + snake;
      if IsFood(food, head) then Advanced(grown, true)
      else Advanced(grown[..|grown| - 1], false)
  }

  /** A collision happens exactly when the unclamped new head equals one of
      segments 1 .. n-1. */
  lemma CollisionExactly(snake: seq<Pos>, dir: Pos, food: Option<Pos>)
    requires |snake| >= 1
    ensures Advance(snake, dir, food) == Collided
            <==> exists i :: 1 <= i < |snake| && snake[i] == Add(snake[0], dir)
  {
  }

  /** A body of one segment never collides. */
  lemma SingleSegmentNeverCollides(p: Pos, dir: Pos, food: Option<Pos>)
    ensures Advance([p], dir, food).Advanced?
  {
  }

  /** Without food under the clamped head the body translates: same length,
      the clamped head in front, every old segment but the tail shifted one
      place back. With food under it the body grows by exactly the new head. */
  lemma AdvanceShape(snake: seq<Pos>, dir: Pos, food: Option<Pos>)
    requires |snake| >= 1
    requires Advance(snake, dir, food).Advanced?
    ensures var o := Advance(snake, dir, food);
            var head := Wrap(Add(snake[0], dir));
            && o.body[0] == head
            && (o.ate <==> food == Some(head))
            && (!o.ate ==> |o.body| == |snake| && forall i :: 0 <= i < |snake| - 1 ==> o.body[i + 1] == snake[i])
            && (o.ate ==> |o.body| == |snake| + 1 && o.body[1..] == snake)
  {
  }

  /** A clamped head is on the board, so a new head that is off the board
      before the clamp can never match a segment of a body on the board:
      the scan runs before the clamp. */
  lemma OffGridHeadNeverCollides(snake: seq<Pos>, p: Pos)
    requires OnGrid(snake) && !InGrid(p)
    ensures !HitsBody(snake, p)
  {
  }

  /** A body on the board moving along a unit vector stays on the board. */
  lemma AdvanceStaysOnGrid(snake: seq<Pos>, dir: Pos, food: Option<Pos>)
    requires |snake| >= 1 && OnGrid(snake) && IsUnit(dir)
    ensures Advance(snake, dir, food).Advanced? ==> OnGrid(Advance(snake, dir, food).body)
  {
    WrapStep(snake[0], dir);
  }

  /** Food placed below the last row can never be eaten: the clamped head
      of a body on the board is always on the board. */
  lemma OffGridFoodNeverEaten(snake: seq<Pos>, dir: Pos, f: Pos)
    requires |snake| >= 1 && OnGrid(snake) && IsUnit(dir) && !InGrid(f)
    ensures Advance(snake, dir, Some(f)).Advanced? ==> !Advance(snake, dir, Some(f)).ate
  {
    WrapStep(snake[0], dir);
  }

  /** Because the scan looks at the unclamped head, a head that wraps onto
      a segment of its own body is not a collision: here the head lands on
      (0, 12), which segment 4 of the new body still occupies. */
  lemma WrapOntoBodyNotDetected()
    ensures var snake := [Pos(24, 12), Pos(24, 13), Pos(0, 13), Pos(0, 12), Pos(1, 12)];
            var o := Advance(snake, Right, None);
            o == Advanced([Pos(0, 12), Pos(24, 12), Pos(24, 13), Pos(0, 13), Pos(0, 12)], false)
            && o.body[0] == o.body[4]
  {
    var snake := [Pos(24, 12), Pos(24, 13), Pos(0, 13), Pos(0, 12), Pos(1, 12)];
    assert !HitsBody(snake, Pos(25, 12)) by {
      OffGridHeadNeverCollides(snake, Pos(25, 12));
    }
  }

  /** The tail counts as a segment: moving onto the cell the tail is about
      to leave resets the game. */
  lemma TailIsACollision()
    ensures Advance([Pos(5, 5), Pos(5, 6), Pos(6, 6), Pos(6, 5)], Right, None) == Collided
  {
    var snake := [Pos(5, 5), Pos(5, 6), Pos(6, 6), Pos(6, 5)];
    assert snake[3] == Add(snake[0], Right);
  }

  /** A plain move from the start position: the body translates right. */
  lemma ExampleMove()
    ensures Advance(DefaultSnake(), Right, Some(Pos(4, 10)))
            == Advanced([Pos(9, 12), Pos(8, 12), Pos(7, 12)], false)
  {
    var snake := DefaultSnake();
    assert !HitsBody(snake, Pos(9, 12)) by {
      assert forall i :: 1 <= i < |snake| ==> snake[i].x < 9;
    }
  }

  /** Eating the food straight ahead grows the body by the new head. */
  lemma ExampleEat()
    ensures Advance([Pos(9, 12), Pos(8, 12), Pos(7, 12)], Right, Some(Pos(10, 12)))
            == Advanced([Pos(10, 12), Pos(9, 12), Pos(8, 12), Pos(7, 12)], true)
  {
    var snake := [Pos(9, 12), Pos(8, 12), Pos(7, 12)];
    assert !HitsBody(snake, Pos(10, 12)) by {
      assert forall i :: 1 <= i < |snake| ==> snake[i].x < 10;
    }
  }

  /** Leaving through the right edge enters at column 0 of the same row. */
  lemma ExampleWrapRight()
    ensures Advance([Pos(24, 12), Pos(23, 12), Pos(22, 12)], Right, None)
            == Advanced([Pos(0, 12), Pos(24, 12), Pos(23, 12)], false)
  {
    var snake := [Pos(24, 12), Pos(23, 12), Pos(22, 12)];
    assert !HitsBody(snake, Pos(25, 12)) by {
      OffGridHeadNeverCollides(snake, Pos(25, 12));
    }
  }
}
