/** The board of the snake game: its fixed size, positions, the four
    movement vectors and the toroidal wrap-around of a head that steps
    off an edge. */
module Grid {

  /** Number of columns (`Config.width`). */
  const Width: int := 25
  /** Number of rows (`Config.height`). */
  const Height: int := 22

  datatype Option<T> = None | Some(value: T)

  /** A cell coordinate, or a movement vector. */
  datatype Pos = Pos(x: int, y: int)

  /** The four movement vectors (`Direction`). */
  const Left: Pos := Pos(-1, 0)
  const Right: Pos := Pos(1, 0)
  const Top: Pos := Pos(0, -1)
  const Bottom: Pos := Pos(0, 1)

  predicate IsUnit(d: Pos) {
    d == Left || d == Right || d == Top || d == Bottom
  }

  predicate InGrid(p: Pos) {
    0 <= p.x < Width && 0 <= p.y < Height
  }

  /** Every segment of a body lies on the board. */
  predicate OnGrid(s: seq<Pos>) {
    forall i :: 0 <= i < |s| ==> InGrid(s[i])
  }

  function Add(p: Pos, d: Pos): Pos {
    Pos(p.x + d.x, p.y + d.y)
  }

  /** `isFood`: the cell holds the food; an absent food matches nothing. */
  predicate IsFood(food: Option<Pos>, p: Pos)
    ensures IsFood(food, p) ==> food.Some? && food.value == p
    ensures food.None? ==> !IsFood(food, p)
  {
    food == Some(p)
  }

  /** `isSnake`: some segment of the body occupies the cell. */
  predicate IsSnake(snake: seq<Pos>, p: Pos)
    ensures IsSnake(snake, p) <==> exists i :: 0 <= i < |snake| && snake[i] == p
  {
    p in snake
  }

  /** The clamp of the movement step: the first violated bound, tested in
      the order left, right, top, bottom, sends that coordinate to the
      opposite edge; at most one coordinate changes. */
  function Wrap(p: Pos): (r: Pos)
    ensures r.x == p.x || r.y == p.y
    ensures InGrid(p) ==> r == p
  {
    if p.x < 0 then Pos(Width - 1, p.y)
    else if p.x >= Width then Pos(0, p.y)
    else if p.y < 0 then Pos(p.x, Height - 1)
    else if p.y >= Height then Pos(p.x, 0)
    else p
  }

  /** One unit step from a cell on the board, followed by the clamp, lands
      on the board: leaving on the left enters at the right edge and so on,
      with the other coordinate unchanged; a step that stays on the board
      is not clamped. */
  lemma WrapStep(q: Pos, d: Pos)
    requires InGrid(q) && IsUnit(d)
    ensures InGrid(Wrap(Add(q, d)))
    ensures InGrid(Add(q, d)) ==> Wrap(Add(q, d)) == Add(q, d)
    ensures d == Left && q.x == 0 ==> Wrap(Add(q, d)) == Pos(Width - 1, q.y)
    ensures d == Right && q.x == Width - 1 ==> Wrap(Add(q, d)) == Pos(0, q.y)
    ensures d == Top && q.y == 0 ==> Wrap(Add(q, d)) == Pos(q.x, Height - 1)
    ensures d == Bottom && q.y == Height - 1 ==> Wrap(Add(q, d)) == Pos(q.x, 0)
  {
  }

  /** Only the first violated bound is repaired: a point off the board on
      both axes stays off the board after the clamp. */
  lemma WrapRepairsOneAxis(p: Pos)
    requires (p.x < 0 || p.x >= Width) && (p.y < 0 || p.y >= Height)
    ensures !InGrid(Wrap(p))
    ensures Wrap(p).y == p.y
  {
  }
}
