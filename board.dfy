/** The snapshot handed to the renderer: one classified cell per board
    position, built column by column. */
module Board {
  import opened Grid

  datatype CellType = Snake | Food | Empty

  datatype Cell = Cell(x: int, y: int, kind: CellType)

  /** Food wins over the snake, the snake over an empty cell. */
  function Classify(food: Option<Pos>, snake: seq<Pos>, p: Pos): (t: CellType)
    ensures t == Food <==> food == Some(p)
    ensures t == Snake <==> food != Some(p) && p in snake
    ensures t == Empty <==> food != Some(p) && p !in snake
  {
    if IsFood(food, p) then Food
    else if IsSnake(snake, p) then Snake
    else Empty
  }

  /** A snapshot has one cell per board position; cell k is the position
      (x, y) with k == x * Height + y, classified against the food and the
      body. */
  predicate IsSnapshot(food: Option<Pos>, snake: seq<Pos>, cells: seq<Cell>) {
    && |cells| == Width * Height
    && forall k :: 0 <= k < |cells| ==> CellAt(food, snake, cells[k], k)
  }

  predicate CellAt(food: Option<Pos>, snake: seq<Pos>, c: Cell, k: int) {
    && InGrid(Pos(c.x, c.y))
    && k == c.x * Height + c.y
    && c.kind == Classify(food, snake, Pos(c.x, c.y))
  }

  /** The nested loops over columns and rows that push one cell each. */
  method Snapshot(food: Option<Pos>, snake: seq<Pos>) returns (cells: seq<Cell>)
    ensures IsSnapshot(food, snake, cells)
  {
    cells := [];
    var x := 0;
    while x < Width
      invariant 0 <= x <= Width
      invariant |cells| == x * Height
      invariant forall k :: 0 <= k < |cells| ==> CellAt(food, snake, cells[k], k)
    {
      var y := 0;
      while y < Height
        invariant 0 <= y <= Height
        invariant |cells| == x * Height + y
        invariant forall k :: 0 <= k < |cells| ==> CellAt(food, snake, cells[k], k)
      {
        var kind := Empty;
        if IsFood(food, Pos(x, y)) {
          kind := Food;
        } else if IsSnake(snake, Pos(x, y)) {
          kind := Snake;
        }
        cells := cells + [Cell(x, y, kind)];
        y := y + 1;
      }
      x := x + 1;
    }
  }

  lemma IndexUnique(a: int, b: int, c: int, d: int)
    requires 0 <= b < Height && 0 <= d < Height
    requires a * Height + b == c * Height + d
    ensures a == c && b == d
  {
  }

  /** Every board position appears in a snapshot exactly once, at index
      x * Height + y, with its classification. */
  lemma SnapshotCoversBoard(food: Option<Pos>, snake: seq<Pos>, cells: seq<Cell>, p: Pos)
    requires IsSnapshot(food, snake, cells) && InGrid(p)
    ensures var k := p.x * Height + p.y;
            0 <= k < |cells| && cells[k] == Cell(p.x, p.y, Classify(food, snake, p))
    ensures forall k :: 0 <= k < |cells| && cells[k].x == p.x && cells[k].y == p.y ==> k == p.x * Height + p.y
  {
    var k := p.x * Height + p.y;
    assert 0 <= k < |cells|;
    assert CellAt(food, snake, cells[k], k);
    IndexUnique(cells[k].x, cells[k].y, p.x, p.y);
    forall j | 0 <= j < |cells| && cells[j].x == p.x && cells[j].y == p.y
      ensures j == p.x * Height + p.y
    {
      assert CellAt(food, snake, cells[j], j);
    }
  }

  /** Food on the board is shown in exactly its own cell; food off the
      board, or no food at all, is shown nowhere. */
  lemma FoodCells(food: Option<Pos>, snake: seq<Pos>, cells: seq<Cell>)
    requires IsSnapshot(food, snake, cells)
    ensures forall k :: 0 <= k < |cells| && cells[k].kind == Food ==>
              food.Some? && InGrid(food.value) && k == food.value.x * Height + food.value.y
    ensures food.Some? && InGrid(food.value) ==> cells[food.value.x * Height + food.value.y].kind == Food
  {
    forall k | 0 <= k < |cells| && cells[k].kind == Food
      ensures food.Some? && InGrid(food.value) && k == food.value.x * Height + food.value.y
    {
      assert CellAt(food, snake, cells[k], k);
    }
    if food.Some? && InGrid(food.value) {
      SnapshotCoversBoard(food, snake, cells, food.value);
    }
  }

  /** A cell marked Snake holds a segment of the body and not the food; a
      cell marked Empty holds neither. */
  lemma SnakeAndEmptyCells(food: Option<Pos>, snake: seq<Pos>, cells: seq<Cell>, k: int)
    requires IsSnapshot(food, snake, cells) && 0 <= k < |cells|
    ensures cells[k].kind == Snake <==> Pos(cells[k].x, cells[k].y) in snake && food != Some(Pos(cells[k].x, cells[k].y))
    ensures cells[k].kind == Empty <==> Pos(cells[k].x, cells[k].y) !in snake && food != Some(Pos(cells[k].x, cells[k].y))
  {
    assert CellAt(food, snake, cells[k], k);
  }
}
