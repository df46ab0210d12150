/** The keyboard rule for changing direction: the four arrow keys name a
    unit vector, other keys are ignored, and a key that would reverse the
    snake onto itself is rejected. */
module Steering {
  import opened Grid

  /** The switch on `event.key`: the vector an arrow key names. */
  function KeyVector(key: string): (r: Option<Pos>)
    ensures r.Some? <==> key in {"ArrowUp", "ArrowDown", "ArrowLeft", "ArrowRight"}
    ensures r.Some? ==> IsUnit(r.value)
  {
    if key == "ArrowUp" then Some(Top)
    else if key == "ArrowDown" then Some(Bottom)
    else if key == "ArrowLeft" then Some(Left)
    else if key == "ArrowRight" then Some(Right)
    else None
  }

  function Reverse(d: Pos): Pos {
    Pos(-d.x, -d.y)
  }

  /** `handleNavigation`: the direction after a key press; it either stays
      or becomes the vector of the key pressed. A horizontal key
      is taken unless the current x component is its opposite; a vertical
      key unless the current y component is its opposite. */
  function Turn(dir: Pos, key: string): (r: Pos)
    ensures KeyVector(key).None? ==> r == dir
    ensures r == dir || Some(r) == KeyVector(key)
  {
    match KeyVector(key)
    case None => dir
    case Some(d) =>
      if d.x != 0 && dir.x != -d.x then Pos(d.x, 0)
      else if d.y != 0 && dir.y != -d.y then Pos(0, d.y)
      else dir
  }

  /** For a unit direction the rule is: ignore other keys, reject exactly
      the reversal, and otherwise take the key's vector (pressing the
      current direction re-sets it). */
  lemma TurnRule(dir: Pos, key: string)
    requires IsUnit(dir)
    ensures KeyVector(key).None? ==> Turn(dir, key) == dir
    ensures KeyVector(key).Some? && KeyVector(key).value == Reverse(dir) ==> Turn(dir, key) == dir
    ensures KeyVector(key).Some? && KeyVector(key).value != Reverse(dir) ==> Turn(dir, key) == KeyVector(key).value
  {
  }

  /** The direction stays one of the four unit vectors and never becomes
      the reverse of what it was. */
  lemma TurnKeepsUnit(dir: Pos, key: string)
    requires IsUnit(dir)
    ensures IsUnit(Turn(dir, key))
    ensures Turn(dir, key) != Reverse(dir)
  {
  }
}
