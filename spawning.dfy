/** Food placement: a random cell is drawn from two uniform samples in
    [0, 1), and draws are rejected while they land on an occupied cell.
    Both coordinates are scaled by the board's width, so a food cell may
    lie in rows 22 to 24, below the board. */
module Spawning {
  import opened Grid

  /** Two successive results of the random source, each in [0, 1). */
  datatype Draw = Draw(rx: real, ry: real)

  predicate IsDraw(d: Draw) {
    0.0 <= d.rx < 1.0 && 0.0 <= d.ry < 1.0
  }

  predicate AllDraws(draws: seq<Draw>) {
    forall i :: 0 <= i < |draws| ==> IsDraw(draws[i])
  }

  /** The square a food cell can be drawn from: both coordinates in
      [0, Width). */
  predicate InSpawnRange(p: Pos) {
    0 <= p.x < Width && 0 <= p.y < Width
  }

  /** `getRandomCell`: both coordinates are the floor of a sample times the
      width. */
  function RandomCell(d: Draw): (p: Pos)
    requires IsDraw(d)
    ensures InSpawnRange(p)
    ensures p.x as real <= d.rx * Width as real < p.x as real + 1.0
    ensures p.y as real <= d.ry * Width as real < p.y as real + 1.0
  {
    Pos((d.rx * Width as real).Floor, (d.ry * Width as real).Floor)
  }

  /** The index of the first draw whose cell is free, or |draws| when every
      draw lands on an occupied cell. */
  function FirstFreeDraw(occupied: seq<Pos>, draws: seq<Draw>): (k: nat)
    requires AllDraws(draws)
    ensures k <= |draws|
    ensures forall j :: 0 <= j < k ==> RandomCell(draws[j]) in occupied
    ensures k < |draws| ==> RandomCell(draws[k]) !in occupied
  {
    if |draws| == 0 then 0
    else if RandomCell(draws[0]) !in occupied then 0
    else 1 + FirstFreeDraw(occupied, draws[1..])
  }

  /** The cell the rejection loop settles on, if any draw is free. */
  function Spawned(occupied: seq<Pos>, draws: seq<Draw>): (r: Option<Pos>)
    requires AllDraws(draws)
    ensures r.Some? ==> r.value !in occupied && InSpawnRange(r.value)
    ensures r.None? <==> forall j :: 0 <= j < |draws| ==> RandomCell(draws[j]) in occupied
  {
    var k := FirstFreeDraw(occupied, draws);
    if k < |draws| then Some(RandomCell(draws[k])) else None
  }

  /** The retry loop of `generateNewFood` and of the growth effect: draw
      until the cell is not occupied. */
  method DrawFreeCell(occupied: seq<Pos>, draws: seq<Draw>) returns (r: Option<Pos>)
    requires AllDraws(draws)
    ensures r == Spawned(occupied, draws)
  {
    var i := 0;
    while i < |draws|
      invariant 0 <= i <= |draws|
      invariant forall j :: 0 <= j < i ==> RandomCell(draws[j]) in occupied
    {
      var candidate := RandomCell(draws[i]);
      if candidate !in occupied {
        return Some(candidate);
      }
      i := i + 1;
    }
    return None;
  }

  /** Draws whose cells all fall in rows 22 to 24 give food that is off the
      board: `RandomCell(Draw(0.0, 0.9))` is (0, 22). */
  lemma SpawnBelowBoard()
    ensures RandomCell(Draw(0.0, 0.9)) == Pos(0, 22)
    ensures !InGrid(RandomCell(Draw(0.0, 0.9)))
  {
  }
}
