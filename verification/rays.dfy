/** The eight compass directions and the squares a ray from a given square
    passes through (the `directions` list of othello.py and the r += dr,
    c += dc walks that use it). */
module Rays {
  import opened Cells
  import opened Boards

  datatype Step = Step(dr: int, dc: int)

  /** One square in one of the eight compass directions. */
  predicate IsUnit(s: Step) {
    -1 <= s.dr <= 1 && -1 <= s.dc <= 1 && (s.dr != 0 || s.dc != 0)
  }

  type Direction = s: Step | IsUnit(s) witness Step(0, 1)

  /** The directions in the order the source tries them. */
  const Directions: seq<Direction> :=
    [Step(-1, -1), Step(-1, 0), Step(-1, 1), Step(0, -1),
     Step(0, 1), Step(1, -1), Step(1, 0), Step(1, 1)]

  /** x moved k squares along a step of -1, 0 or +1: where k repetitions
      of the source's r += dr (or c += dc) lead. */
  function Offset(x: int, step: int, k: int): int {
    x + step * k
  }

  /** The k-th square of the ray from (row, col) in direction d, or None
      once the ray has left the board. */
  function Look(b: Board, row: int, col: int, d: Direction, k: int): Option<Cell>
    requires WellFormed(b)
  {
    var r, c := Offset(row, d.dr, k), Offset(col, d.dc, k);
    if InBounds(b, r, c) then Some(At(b, r, c)) else None
  }

  /** How many steps along d lead from (row, col) to (r, c), if any. */
  function RayIndex(row: int, col: int, d: Direction, r: int, c: int): int {
    if d.dr > 0 then r - row
    else if d.dr < 0 then row - r
    else if d.dc > 0 then c - col
    else col - c
  }

  /** (r, c) is the j-th square of the ray for some lo <= j < hi. */
  predicate OnSegment(row: int, col: int, d: Direction, r: int, c: int, lo: int, hi: int) {
    var j := RayIndex(row, col, d, r, c);
    lo <= j < hi && Offset(row, d.dr, j) == r && Offset(col, d.dc, j) == c
  }

  /** A ray that starts on the board stays on it for fewer than size steps. */
  lemma RayIsShort(b: Board, row: int, col: int, d: Direction, k: int)
    requires WellFormed(b) && InBounds(b, row, col) && k >= 0
    requires InBounds(b, Offset(row, d.dr, k), Offset(col, d.dc, k))
    ensures k < b.size
  {
  }

  /** The k-th square of a ray lies on the segment [lo, hi) exactly when lo <= k < hi. */
  lemma OnSegmentIndex(row: int, col: int, d: Direction, k: int, lo: int, hi: int)
    ensures OnSegment(row, col, d, Offset(row, d.dr, k), Offset(col, d.dc, k), lo, hi) <==> lo <= k < hi
  {
  }

  /** Rays from the same square in two different directions share no square. */
  lemma RaysDisjoint(row: int, col: int, d1: Direction, k1: int, d2: Direction, k2: int)
    requires k1 >= 1 && k2 >= 1
    requires Offset(row, d1.dr, k1) == Offset(row, d2.dr, k2)
    requires Offset(col, d1.dc, k1) == Offset(col, d2.dc, k2)
    ensures d1 == d2 && k1 == k2
  {
  }

  /** The eight directions are pairwise different. */
  lemma DirectionsDistinct(i: int, j: int)
    requires 0 <= i < |Directions| && 0 <= j < |Directions| && i != j
    ensures Directions[i] != Directions[j]
  {
  }
}
