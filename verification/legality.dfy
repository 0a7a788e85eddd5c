/** Move legality (OthelloBoard.is_valid_move and _can_flip_in_direction).

    The operational definitions mirror the source's loops. The declarative
    partner `Brackets` says what a flippable line is: a non-empty run of the
    opponent's discs starting next to the target square and closed by one of
    the mover's own discs before any empty square or the edge.
 */
module Legality {
  import opened Cells
  import opened Boards
  import opened Rays

  /** The walk of _can_flip_in_direction from the k-th square of the ray;
      `found` records whether an opponent disc has been passed. */
  function ScanFrom(b: Board, row: int, col: int, d: Direction, p: Player, k: nat, found: bool): bool
    requires WellFormed(b) && InBounds(b, row, col) && k >= 1
    decreases b.size - k
  {
    match Look(b, row, col, d, k)
    case None => false
    case Some(Empty) => false
    case Some(Disc(q)) =>
      if q == p then found
      else
        RayIsShort(b, row, col, d, k);
        ScanFrom(b, row, col, d, p, k + 1, true)
  }

  /** _can_flip_in_direction. */
  predicate CanFlip(b: Board, row: int, col: int, d: Direction, p: Player)
    requires WellFormed(b) && InBounds(b, row, col)
  {
    ScanFrom(b, row, col, d, p, 1, false)
  }

  /** Squares 1 .. m-1 of the ray hold the opponent's discs and square m
      holds one of p's, with m >= 2. */
  ghost predicate Brackets(b: Board, row: int, col: int, d: Direction, p: Player, m: int)
    requires WellFormed(b)
  {
    && 2 <= m
    && Look(b, row, col, d, m) == Some(Disc(p))
    && forall j | 1 <= j < m :: Look(b, row, col, d, j) == Some(Disc(Opponent(p)))
  }

  /** A ray has at most one bracketing disc: the first of p's discs on it. */
  lemma BracketsUnique(b: Board, row: int, col: int, d: Direction, p: Player, m1: int, m2: int)
    requires WellFormed(b)
    requires Brackets(b, row, col, d, p, m1) && Brackets(b, row, col, d, p, m2)
    ensures m1 == m2
  {
  }

  /** What remains of the walk at square k: p's disc at some m >= k with
      only opponent discs in between, and at least one of those overall. */
  ghost predicate ScanSucceedsAt(b: Board, row: int, col: int, d: Direction, p: Player, k: int, found: bool, m: int)
    requires WellFormed(b)
  {
    && k <= m
    && (found || k < m)
    && Look(b, row, col, d, m) == Some(Disc(p))
    && forall j | k <= j < m :: Look(b, row, col, d, j) == Some(Disc(Opponent(p)))
  }

  lemma {:induction false} ScanFromSpec(b: Board, row: int, col: int, d: Direction, p: Player, k: nat, found: bool)
    requires WellFormed(b) && InBounds(b, row, col) && k >= 1
    ensures ScanFrom(b, row, col, d, p, k, found) <==> exists m :: ScanSucceedsAt(b, row, col, d, p, k, found, m)
    decreases b.size - k
  {
    match Look(b, row, col, d, k)
    case None =>
      forall m ensures !ScanSucceedsAt(b, row, col, d, p, k, found, m) {
        if k < m {
          assert Look(b, row, col, d, k) != Some(Disc(Opponent(p)));
        }
      }
    case Some(Empty) =>
      forall m ensures !ScanSucceedsAt(b, row, col, d, p, k, found, m) {
        if k < m {
          assert Look(b, row, col, d, k) != Some(Disc(Opponent(p)));
        }
      }
    case Some(Disc(q)) =>
      if q == p {
        if found {
          assert ScanSucceedsAt(b, row, col, d, p, k, found, k);
        } else {
          forall m ensures !ScanSucceedsAt(b, row, col, d, p, k, found, m) {
            if k < m {
              assert Look(b, row, col, d, k) != Some(Disc(Opponent(p)));
            }
          }
        }
      } else {
        RayIsShort(b, row, col, d, k);
        ScanFromSpec(b, row, col, d, p, k + 1, true);
        if ScanFrom(b, row, col, d, p, k + 1, true) {
          var m :| ScanSucceedsAt(b, row, col, d, p, k + 1, true, m);
          assert ScanSucceedsAt(b, row, col, d, p, k, found, m);
        } else {
          forall m ensures !ScanSucceedsAt(b, row, col, d, p, k, found, m) {
            if ScanSucceedsAt(b, row, col, d, p, k, found, m) && m != k {
              assert ScanSucceedsAt(b, row, col, d, p, k + 1, true, m);
            }
          }
        }
      }
  }

  /** The scan of one direction succeeds exactly when that direction is bracketed. */
  lemma CanFlipSpec(b: Board, row: int, col: int, d: Direction, p: Player)
    requires WellFormed(b) && InBounds(b, row, col)
    ensures CanFlip(b, row, col, d, p) <==> exists m :: Brackets(b, row, col, d, p, m)
  {
    ScanFromSpec(b, row, col, d, p, 1, false);
    if CanFlip(b, row, col, d, p) {
      var m :| ScanSucceedsAt(b, row, col, d, p, 1, false, m);
      assert Brackets(b, row, col, d, p, m);
    } else {
      forall m ensures !Brackets(b, row, col, d, p, m) {
        if Brackets(b, row, col, d, p, m) {
          assert ScanSucceedsAt(b, row, col, d, p, 1, false, m);
        }
      }
    }
  }

  /** Boards that agree along a ray agree on which discs bracket it. */
  lemma BracketsFrame(b1: Board, b2: Board, row: int, col: int, d: Direction, p: Player)
    requires WellFormed(b1) && WellFormed(b2)
    requires forall k | 1 <= k :: Look(b1, row, col, d, k) == Look(b2, row, col, d, k)
    ensures forall m :: Brackets(b1, row, col, d, p, m) <==> Brackets(b2, row, col, d, p, m)
  {
  }

  /** Whether any direction from index i on can flip: the source's loop
      over `directions` with its early return. */
  predicate FlipsSomeDirection(b: Board, row: int, col: int, p: Player, i: nat)
    requires WellFormed(b) && InBounds(b, row, col) && i <= |Directions|
    decreases |Directions| - i
  {
    i < |Directions| && (CanFlip(b, row, col, Directions[i], p) || FlipsSomeDirection(b, row, col, p, i + 1))
  }

  /** is_valid_move: on the board, onto an empty square, flipping something. */
  predicate IsValidMove(b: Board, row: int, col: int, p: Player)
    requires WellFormed(b)
  {
    InBounds(b, row, col) && At(b, row, col) == Empty && FlipsSomeDirection(b, row, col, p, 0)
  }

  lemma {:induction false} FlipsSomeDirectionSpec(b: Board, row: int, col: int, p: Player, i: nat)
    requires WellFormed(b) && InBounds(b, row, col) && i <= |Directions|
    ensures FlipsSomeDirection(b, row, col, p, i)
        <==> exists j, m :: i <= j < |Directions| && Brackets(b, row, col, Directions[j], p, m)
    decreases |Directions| - i
  {
    if i < |Directions| {
      CanFlipSpec(b, row, col, Directions[i], p);
      FlipsSomeDirectionSpec(b, row, col, p, i + 1);
      if FlipsSomeDirection(b, row, col, p, i) {
        if CanFlip(b, row, col, Directions[i], p) {
          var m :| Brackets(b, row, col, Directions[i], p, m);
          assert i <= i < |Directions| && Brackets(b, row, col, Directions[i], p, m);
        } else {
          var j, m :| i + 1 <= j < |Directions| && Brackets(b, row, col, Directions[j], p, m);
          assert i <= j < |Directions| && Brackets(b, row, col, Directions[j], p, m);
        }
      } else {
        forall j, m | i <= j < |Directions|
          ensures !Brackets(b, row, col, Directions[j], p, m)
        {
          if j == i {
          } else {
            assert i + 1 <= j < |Directions|;
          }
        }
      }
    }
  }

  /** is_valid_move holds exactly for empty on-board squares from which some
      direction is bracketed by the mover. */
  lemma IsValidMoveSpec(b: Board, row: int, col: int, p: Player)
    requires WellFormed(b)
    ensures IsValidMove(b, row, col, p)
        <==> && InBounds(b, row, col) && At(b, row, col) == Empty
             && exists j, m :: 0 <= j < |Directions| && Brackets(b, row, col, Directions[j], p, m)
  {
    if InBounds(b, row, col) {
      FlipsSomeDirectionSpec(b, row, col, p, 0);
    }
  }

  /** A legal move is always next to one of the opponent's discs. */
  lemma ValidMoveTouchesOpponent(b: Board, row: int, col: int, p: Player)
    requires WellFormed(b) && IsValidMove(b, row, col, p)
    ensures exists j :: 0 <= j < |Directions| && Look(b, row, col, Directions[j], 1) == Some(Disc(Opponent(p)))
  {
    IsValidMoveSpec(b, row, col, p);
    var j, m :| 0 <= j < |Directions| && Brackets(b, row, col, Directions[j], p, m);
    assert Look(b, row, col, Directions[j], 1) == Some(Disc(Opponent(p)));
  }
}
