/** Applying a move (OthelloBoard.make_move and _flip_pieces_in_direction).

    The source places the disc, then walks the eight directions in order and,
    for each one that _can_flip_in_direction accepts on the board as it is at
    that moment (earlier directions already flipped), flips that direction.
    The model keeps exactly that order. The lemmas show the result is what the
    rules of the game ask for: the target square and every bracketed run of
    the PRE-move board turn to the mover, and nothing else changes.
 */
module Moves {
  import opened Cells
  import opened Boards
  import opened Rays
  import opened Legality

  /** _flip_pieces_in_direction from the k-th square on: paint squares with
      p until one of p's discs or the edge. Like the source it does not stop
      at an empty square; callers only use it on a bracketed direction. */
  function FlipFrom(b: Board, row: int, col: int, d: Direction, p: Player, k: nat): (b': Board)
    requires WellFormed(b) && InBounds(b, row, col) && k >= 1
    ensures WellFormed(b') && b'.size == b.size
    decreases b.size - k
  {
    var r, c := Offset(row, d.dr, k), Offset(col, d.dc, k);
    if !InBounds(b, r, c) || At(b, r, c) == Disc(p) then b
    else
      RayIsShort(b, row, col, d, k);
      FlipFrom(Set(b, r, c, Disc(p)), row, col, d, p, k + 1)
  }

  /** _flip_pieces_in_direction, called only after _can_flip_in_direction. */
  function FlipDirection(b: Board, row: int, col: int, d: Direction, p: Player): (b': Board)
    requires WellFormed(b) && InBounds(b, row, col) && CanFlip(b, row, col, d, p)
    ensures WellFormed(b') && b'.size == b.size
  {
    FlipFrom(b, row, col, d, p, 1)
  }

  /** The loop of make_move over directions i.. , re-checking each one on
      the current board. */
  function FlipAll(b: Board, row: int, col: int, p: Player, i: nat): (b': Board)
    requires WellFormed(b) && InBounds(b, row, col) && i <= |Directions|
    ensures WellFormed(b') && b'.size == b.size
    decreases |Directions| - i
  {
    if i == |Directions| then b
    else
      var d := Directions[i];
      var next := if CanFlip(b, row, col, d, p) then FlipDirection(b, row, col, d, p) else b;
      FlipAll(next, row, col, p, i + 1)
  }

  /** make_move's boolean and the board it leaves behind. */
  datatype MoveResult = MoveResult(applied: bool, board: Board)

  function MakeMove(b: Board, row: int, col: int, p: Player): (res: MoveResult)
    requires WellFormed(b)
    ensures WellFormed(res.board) && res.board.size == b.size
  {
    if !IsValidMove(b, row, col, p) then MoveResult(false, b)
    else MoveResult(true, FlipAll(Set(b, row, col, Disc(p)), row, col, p, 0))
  }

  // ---------------------------------------------------------------------
  // What a move does

  /** (r, c) lies inside a run bracketed, on board b, in one of the first n
      directions from (row, col). */
  ghost predicate CapturedBefore(b: Board, row: int, col: int, p: Player, r: int, c: int, n: int)
    requires WellFormed(b)
  {
    exists i, m :: 0 <= i < n && i < |Directions| && Brackets(b, row, col, Directions[i], p, m)
                && OnSegment(row, col, Directions[i], r, c, 1, m)
  }

  /** (r, c) is turned over when p plays (row, col) on b. */
  ghost predicate Captured(b: Board, row: int, col: int, p: Player, r: int, c: int)
    requires WellFormed(b)
  {
    CapturedBefore(b, row, col, p, r, c, |Directions|)
  }

  /** Only opponent discs are captured. */
  lemma CapturedIsOpponent(b: Board, row: int, col: int, p: Player, r: int, c: int)
    requires WellFormed(b) && Captured(b, row, col, p, r, c)
    ensures InBounds(b, r, c) && At(b, r, c) == Disc(Opponent(p))
  {
    var i, m :| 0 <= i < |Directions| && Brackets(b, row, col, Directions[i], p, m)
             && OnSegment(row, col, Directions[i], r, c, 1, m);
    var j := RayIndex(row, col, Directions[i], r, c);
    assert Look(b, row, col, Directions[i], j) == Some(Disc(Opponent(p)));
  }

  /** Writing one square leaves every other square of every ray as it was. */
  lemma LookAfterSet(b: Board, r: int, c: int, v: Cell, row: int, col: int, d: Direction, j: int)
    requires WellFormed(b) && InBounds(b, r, c)
    requires (Offset(row, d.dr, j), Offset(col, d.dc, j)) != (r, c)
    ensures Look(Set(b, r, c, v), row, col, d, j) == Look(b, row, col, d, j)
  {
  }

  /** One step of _flip_pieces_in_direction over an opponent disc. */
  lemma FlipFromStep(b: Board, row: int, col: int, d: Direction, p: Player, k: nat)
    requires WellFormed(b) && InBounds(b, row, col) && k >= 1
    requires Look(b, row, col, d, k) == Some(Disc(Opponent(p)))
    ensures InBounds(b, Offset(row, d.dr, k), Offset(col, d.dc, k))
    ensures FlipFrom(b, row, col, d, p, k)
         == FlipFrom(Set(b, Offset(row, d.dr, k), Offset(col, d.dc, k), Disc(p)), row, col, d, p, k + 1)
  {
  }

  /** Flipping square k of a ray leaves the squares beyond it as they were. */
  lemma LaterSquaresKept(b: Board, row: int, col: int, d: Direction, p: Player, k: nat, m: int)
    requires WellFormed(b) && InBounds(b, row, col) && 1 <= k
    requires InBounds(b, Offset(row, d.dr, k), Offset(col, d.dc, k))
    ensures var b1 := Set(b, Offset(row, d.dr, k), Offset(col, d.dc, k), Disc(p));
      forall j | k + 1 <= j <= m :: Look(b1, row, col, d, j) == Look(b, row, col, d, j)
  {
    var rk, ck := Offset(row, d.dr, k), Offset(col, d.dc, k);
    forall j | k + 1 <= j <= m
      ensures Look(Set(b, rk, ck, Disc(p)), row, col, d, j) == Look(b, row, col, d, j)
    {
      OnSegmentIndex(row, col, d, j, k, k + 1);
      LookAfterSet(b, rk, ck, Disc(p), row, col, d, j);
    }
  }

  /** The squares FlipFrom(b, .., k) changes when squares k .. m-1 of the ray
      are to be flipped: exactly those, each to p. */
  ghost predicate FlipsSegment(b: Board, b': Board, row: int, col: int, d: Direction, p: Player, k: int, m: int)
    requires WellFormed(b) && WellFormed(b') && b'.size == b.size
  {
    forall r, c | InBounds(b, r, c) ::
      At(b', r, c) == if OnSegment(row, col, d, r, c, k, m) then Disc(p) else At(b, r, c)
  }

  /** Flipping the squares k .. m-1 of a ray ending at p's disc m: which squares change. */
  lemma {:induction false} FlipFromEffect(b: Board, row: int, col: int, d: Direction, p: Player, k: nat, m: int)
    requires WellFormed(b) && InBounds(b, row, col) && 1 <= k <= m
    requires Look(b, row, col, d, m) == Some(Disc(p))
    requires forall j | k <= j < m :: Look(b, row, col, d, j) == Some(Disc(Opponent(p)))
    ensures FlipsSegment(b, FlipFrom(b, row, col, d, p, k), row, col, d, p, k, m)
    decreases m - k
  {
    if k == m {
      FlipFromEnd(b, row, col, d, p, k);
    } else {
      var b1 := FlipOne(b, row, col, d, p, k, m);
      FlipFromEffect(b1, row, col, d, p, k + 1, m);
      SegmentGrows(b, b1, FlipFrom(b, row, col, d, p, k), row, col, d, p, k, m);
    }
  }

  /** Flipping the first square of the run k .. m-1: the board b1 it leaves
      still has the run k+1 .. m-1 closed by p's disc at m. */
  lemma FlipOne(b: Board, row: int, col: int, d: Direction, p: Player, k: nat, m: int) returns (b1: Board)
    requires WellFormed(b) && InBounds(b, row, col) && 1 <= k < m
    requires Look(b, row, col, d, m) == Some(Disc(p))
    requires forall j | k <= j < m :: Look(b, row, col, d, j) == Some(Disc(Opponent(p)))
    ensures InBounds(b, Offset(row, d.dr, k), Offset(col, d.dc, k))
    ensures At(b, Offset(row, d.dr, k), Offset(col, d.dc, k)) == Disc(Opponent(p))
    ensures b1 == Set(b, Offset(row, d.dr, k), Offset(col, d.dc, k), Disc(p))
    ensures FlipFrom(b, row, col, d, p, k) == FlipFrom(b1, row, col, d, p, k + 1)
    ensures Look(b1, row, col, d, m) == Some(Disc(p))
    ensures forall j | k + 1 <= j < m :: Look(b1, row, col, d, j) == Some(Disc(Opponent(p)))
  {
    assert Look(b, row, col, d, k) == Some(Disc(Opponent(p)));
    FlipFromStep(b, row, col, d, p, k);
    b1 := Set(b, Offset(row, d.dr, k), Offset(col, d.dc, k), Disc(p));
    LaterSquaresKept(b, row, col, d, p, k, m);
  }

  /** FlipFrom stops at p's own disc and changes nothing. */
  lemma FlipFromEnd(b: Board, row: int, col: int, d: Direction, p: Player, k: nat)
    requires WellFormed(b) && InBounds(b, row, col) && 1 <= k
    requires Look(b, row, col, d, k) == Some(Disc(p))
    ensures FlipFrom(b, row, col, d, p, k) == b
    ensures FlipsSegment(b, b, row, col, d, p, k, k)
  {
    forall r, c | InBounds(b, r, c)
      ensures !OnSegment(row, col, d, r, c, k, k)
    {
    }
  }

  /** The inductive step of FlipFromEffect: flipping square k and then
      k+1 .. m-1 flips k .. m-1. */
  lemma SegmentGrows(b: Board, b1: Board, b': Board, row: int, col: int, d: Direction, p: Player, k: int, m: int)
    requires WellFormed(b) && WellFormed(b') && b'.size == b.size && 1 <= k < m
    requires InBounds(b, Offset(row, d.dr, k), Offset(col, d.dc, k))
    requires b1 == Set(b, Offset(row, d.dr, k), Offset(col, d.dc, k), Disc(p))
    requires FlipsSegment(b1, b', row, col, d, p, k + 1, m)
    ensures FlipsSegment(b, b', row, col, d, p, k, m)
  {
    forall r, c | InBounds(b, r, c)
      ensures At(b', r, c) == if OnSegment(row, col, d, r, c, k, m) then Disc(p) else At(b, r, c)
    {
      OnSegmentIndex(row, col, d, k, k, m);
      assert OnSegment(row, col, d, r, c, k, m)
         <==> OnSegment(row, col, d, r, c, k + 1, m) || (r == Offset(row, d.dr, k) && c == Offset(col, d.dc, k));
    }
  }

  /** Flipping the squares k .. m-1 of a ray ending at p's disc m moves
      m - k discs from the opponent's count to p's; every other count stays. */
  lemma {:induction false} FlipFromCountOf(b: Board, row: int, col: int, d: Direction, p: Player, k: nat, m: int, x: Cell)
    requires WellFormed(b) && InBounds(b, row, col) && 1 <= k <= m
    requires Look(b, row, col, d, m) == Some(Disc(p))
    requires forall j | k <= j < m :: Look(b, row, col, d, j) == Some(Disc(Opponent(p)))
    ensures Count(FlipFrom(b, row, col, d, p, k), x) + (if x == Disc(Opponent(p)) then m - k else 0)
         == Count(b, x) + (if x == Disc(p) then m - k else 0)
    decreases m - k
  {
    if k == m {
      assert FlipFrom(b, row, col, d, p, k) == b;
    } else {
      var b1 := FlipOne(b, row, col, d, p, k, m);
      FlipFromCountOf(b1, row, col, d, p, k + 1, m, x);
      CountStep(b, b1, FlipFrom(b1, row, col, d, p, k + 1), Offset(row, d.dr, k), Offset(col, d.dc, k), p, x, m - k - 1);
    }
  }

  /** One step of FlipFromCountOf: turning the opponent disc at (r, c) to
      p, then n more, shifts n + 1 discs. */
  lemma CountStep(b: Board, b1: Board, rest: Board, r: int, c: int, p: Player, x: Cell, n: int)
    requires WellFormed(b) && InBounds(b, r, c) && At(b, r, c) == Disc(Opponent(p))
    requires b1 == Set(b, r, c, Disc(p))
    requires Count(rest, x) + (if x == Disc(Opponent(p)) then n else 0)
          == Count(b1, x) + (if x == Disc(p) then n else 0)
    ensures Count(rest, x) + (if x == Disc(Opponent(p)) then n + 1 else 0)
         == Count(b, x) + (if x == Disc(p) then n + 1 else 0)
  {
    CountSet(b, r, c, Disc(p), x);
  }

  /** FlipFromCountOf for the three cell values. */
  lemma FlipFromCount(b: Board, row: int, col: int, d: Direction, p: Player, k: nat, m: int)
    requires WellFormed(b) && InBounds(b, row, col) && 1 <= k <= m
    requires Look(b, row, col, d, m) == Some(Disc(p))
    requires forall j | k <= j < m :: Look(b, row, col, d, j) == Some(Disc(Opponent(p)))
    ensures Count(FlipFrom(b, row, col, d, p, k), Disc(p)) == Count(b, Disc(p)) + (m - k)
    ensures Count(FlipFrom(b, row, col, d, p, k), Disc(Opponent(p))) + (m - k) == Count(b, Disc(Opponent(p)))
    ensures Count(FlipFrom(b, row, col, d, p, k), Empty) == Count(b, Empty)
  {
    FlipFromCountOf(b, row, col, d, p, k, m, Disc(p));
    FlipFromCountOf(b, row, col, d, p, k, m, Disc(Opponent(p)));
    FlipFromCountOf(b, row, col, d, p, k, m, Empty);
  }

  /** Adding direction i to the directions already examined adds ray i's
      bracketed run (if any) to the captured squares. */
  lemma CapturedStep(b0: Board, row: int, col: int, p: Player, i: nat, m: int)
    requires WellFormed(b0) && i < |Directions| && Brackets(b0, row, col, Directions[i], p, m)
    ensures forall r, c :: CapturedBefore(b0, row, col, p, r, c, i + 1)
              <==> CapturedBefore(b0, row, col, p, r, c, i) || OnSegment(row, col, Directions[i], r, c, 1, m)
  {
    forall r, c
      ensures CapturedBefore(b0, row, col, p, r, c, i + 1)
          <==> CapturedBefore(b0, row, col, p, r, c, i) || OnSegment(row, col, Directions[i], r, c, 1, m)
    {
      if CapturedBefore(b0, row, col, p, r, c, i + 1) {
        var i', m' :| 0 <= i' < i + 1 && i' < |Directions| && Brackets(b0, row, col, Directions[i'], p, m')
                   && OnSegment(row, col, Directions[i'], r, c, 1, m');
        if i' == i {
          BracketsUnique(b0, row, col, Directions[i], p, m, m');
        } else {
          assert 0 <= i' < i;
        }
      }
      if OnSegment(row, col, Directions[i], r, c, 1, m) {
        assert 0 <= i < i + 1 && i < |Directions| && Brackets(b0, row, col, Directions[i], p, m)
            && OnSegment(row, col, Directions[i], r, c, 1, m);
      }
      if CapturedBefore(b0, row, col, p, r, c, i) {
        var i', m' :| 0 <= i' < i && i' < |Directions| && Brackets(b0, row, col, Directions[i'], p, m')
                   && OnSegment(row, col, Directions[i'], r, c, 1, m');
        assert 0 <= i' < i + 1;
      }
    }
  }

  /** A direction without a bracket adds nothing to the captured squares. */
  lemma CapturedSkip(b0: Board, row: int, col: int, p: Player, i: nat)
    requires WellFormed(b0) && i < |Directions|
    requires forall m :: !Brackets(b0, row, col, Directions[i], p, m)
    ensures forall r, c :: CapturedBefore(b0, row, col, p, r, c, i + 1) <==> CapturedBefore(b0, row, col, p, r, c, i)
  {
    forall r, c
      ensures CapturedBefore(b0, row, col, p, r, c, i + 1) <==> CapturedBefore(b0, row, col, p, r, c, i)
    {
      if CapturedBefore(b0, row, col, p, r, c, i + 1) {
        var i', m' :| 0 <= i' < i + 1 && i' < |Directions| && Brackets(b0, row, col, Directions[i'], p, m')
                   && OnSegment(row, col, Directions[i'], r, c, 1, m');
        assert i' != i;
        assert 0 <= i' < i;
      }
      if CapturedBefore(b0, row, col, p, r, c, i) {
        var i', m' :| 0 <= i' < i && i' < |Directions| && Brackets(b0, row, col, Directions[i'], p, m')
                   && OnSegment(row, col, Directions[i'], r, c, 1, m');
        assert 0 <= i' < i + 1;
      }
    }
  }

  /** Flipping along ray i leaves the rays of the later directions untouched. */
  lemma LaterRaysUntouched(b0: Board, b: Board, next: Board, row: int, col: int, i: nat, m: int, v: Cell)
    requires WellFormed(b0) && WellFormed(b) && WellFormed(next)
    requires b.size == b0.size && next.size == b0.size && i < |Directions|
    requires forall r, c | InBounds(b, r, c) ::
               At(next, r, c) == if OnSegment(row, col, Directions[i], r, c, 1, m) then v else At(b, r, c)
    requires forall j, k | i <= j < |Directions| && 1 <= k ::
               Look(b, row, col, Directions[j], k) == Look(b0, row, col, Directions[j], k)
    ensures forall j, k | i + 1 <= j < |Directions| && 1 <= k ::
               Look(next, row, col, Directions[j], k) == Look(b0, row, col, Directions[j], k)
  {
    var d := Directions[i];
    forall j, k | i + 1 <= j < |Directions| && 1 <= k
      ensures Look(next, row, col, Directions[j], k) == Look(b0, row, col, Directions[j], k)
    {
      var r, c := Offset(row, Directions[j].dr, k), Offset(col, Directions[j].dc, k);
      if InBounds(b, r, c) && OnSegment(row, col, d, r, c, 1, m) {
        var t := RayIndex(row, col, d, r, c);
        RaysDisjoint(row, col, d, t, Directions[j], k);
        DirectionsDistinct(i, j);
      }
    }
  }

  /** The invariant of the loop over directions in make_move, at direction
      i: board b agrees with the pre-move board b0 along every ray still to
      be examined, and shows the captures of the directions before i. */
  ghost predicate LoopInvariant(b0: Board, row: int, col: int, p: Player, i: nat, b: Board)
    requires WellFormed(b0) && WellFormed(b)
  {
    && b.size == b0.size
    && i <= |Directions|
    && (forall j, k | i <= j < |Directions| && 1 <= k ::
          Look(b, row, col, Directions[j], k) == Look(b0, row, col, Directions[j], k))
    && (forall r, c | InBounds(b0, r, c) && (r, c) != (row, col) ::
          At(b, r, c) == if CapturedBefore(b0, row, col, p, r, c, i) then Disc(p) else At(b0, r, c))
  }

  /** An iteration of the loop over directions that flips direction i. */
  lemma FlipStepTaken(b0: Board, row: int, col: int, p: Player, i: nat, b: Board, m: int)
    requires WellFormed(b0) && InBounds(b0, row, col) && WellFormed(b)
    requires i < |Directions| && LoopInvariant(b0, row, col, p, i, b)
    requires Brackets(b0, row, col, Directions[i], p, m) && Brackets(b, row, col, Directions[i], p, m)
    requires CanFlip(b, row, col, Directions[i], p)
    ensures var next := FlipDirection(b, row, col, Directions[i], p);
      && LoopInvariant(b0, row, col, p, i + 1, next)
      && At(next, row, col) == At(b, row, col)
      && Count(next, Disc(p)) == Count(b, Disc(p)) + (m - 1)
      && Count(next, Disc(Opponent(p))) + (m - 1) == Count(b, Disc(Opponent(p)))
      && Count(next, Empty) == Count(b, Empty)
  {
    var d := Directions[i];
    FlipFromEffect(b, row, col, d, p, 1, m);
    FlipFromCount(b, row, col, d, p, 1, m);
    var next := FlipDirection(b, row, col, d, p);
    LaterRaysUntouched(b0, b, next, row, col, i, m, Disc(p));
    CapturedStep(b0, row, col, p, i, m);
    OnSegmentIndex(row, col, d, 0, 1, m);
    forall r, c | InBounds(b0, r, c) && (r, c) != (row, col)
      ensures At(next, r, c) == if CapturedBefore(b0, row, col, p, r, c, i + 1) then Disc(p) else At(b0, r, c)
    {
    }
  }

  /** An iteration of the loop over directions that skips direction i. */
  lemma FlipStepSkipped(b0: Board, row: int, col: int, p: Player, i: nat, b: Board)
    requires WellFormed(b0) && InBounds(b0, row, col) && WellFormed(b)
    requires i < |Directions| && LoopInvariant(b0, row, col, p, i, b)
    requires forall m :: !Brackets(b0, row, col, Directions[i], p, m)
    ensures LoopInvariant(b0, row, col, p, i + 1, b)
  {
    CapturedSkip(b0, row, col, p, i);
  }

  /** One iteration of the loop over directions keeps the invariant; it
      turns over `step` discs, at least one when direction i is bracketed. */
  lemma FlipAllStep(b0: Board, row: int, col: int, p: Player, i: nat, b: Board) returns (step: nat)
    requires WellFormed(b0) && InBounds(b0, row, col) && WellFormed(b)
    requires i < |Directions| && LoopInvariant(b0, row, col, p, i, b)
    ensures var next := if CanFlip(b, row, col, Directions[i], p) then FlipDirection(b, row, col, Directions[i], p) else b;
      && LoopInvariant(b0, row, col, p, i + 1, next)
      && At(next, row, col) == At(b, row, col)
      && Count(next, Disc(p)) == Count(b, Disc(p)) + step
      && Count(next, Disc(Opponent(p))) + step == Count(b, Disc(Opponent(p)))
      && Count(next, Empty) == Count(b, Empty)
    ensures (exists m :: Brackets(b0, row, col, Directions[i], p, m)) ==> step >= 1
  {
    var d := Directions[i];
    BracketsFrame(b, b0, row, col, d, p);
    CanFlipSpec(b, row, col, d, p);
    if CanFlip(b, row, col, d, p) {
      var m :| Brackets(b0, row, col, d, p, m);
      FlipStepTaken(b0, row, col, p, i, b, m);
      step := m - 1;
    } else {
      FlipStepSkipped(b0, row, col, p, i, b);
      step := 0;
    }
  }

  /** The loop over directions i.. , started in a state satisfying the
      invariant, ends with exactly the captures of all eight directions;
      `gain` is the number of discs it turns over. */
  lemma {:induction false} FlipAllEffect(b0: Board, row: int, col: int, p: Player, i: nat, b: Board)
    returns (gain: nat)
    requires WellFormed(b0) && InBounds(b0, row, col) && WellFormed(b)
    requires LoopInvariant(b0, row, col, p, i, b)
    ensures var b' := FlipAll(b, row, col, p, i);
      && At(b', row, col) == At(b, row, col)
      && forall r, c | InBounds(b0, r, c) && (r, c) != (row, col) ::
           At(b', r, c) == if Captured(b0, row, col, p, r, c) then Disc(p) else At(b0, r, c)
    ensures Count(FlipAll(b, row, col, p, i), Disc(p)) == Count(b, Disc(p)) + gain
    ensures Count(FlipAll(b, row, col, p, i), Disc(Opponent(p))) + gain == Count(b, Disc(Opponent(p)))
    ensures Count(FlipAll(b, row, col, p, i), Empty) == Count(b, Empty)
    ensures (exists j, m :: i <= j < |Directions| && Brackets(b0, row, col, Directions[j], p, m)) ==> gain >= 1
    decreases |Directions| - i
  {
    if i == |Directions| {
      gain := 0;
      return;
    }
    var d := Directions[i];
    var next := if CanFlip(b, row, col, d, p) then FlipDirection(b, row, col, d, p) else b;
    assert FlipAll(b, row, col, p, i) == FlipAll(next, row, col, p, i + 1);
    var step := FlipAllStep(b0, row, col, p, i, b);
    var rest := FlipAllEffect(b0, row, col, p, i + 1, next);
    gain := step + rest;
    BracketHereOrLater(b0, row, col, p, i);
  }

  /** A bracket in some direction i.. is a bracket in direction i or in some direction i+1.. . */
  lemma BracketHereOrLater(b0: Board, row: int, col: int, p: Player, i: nat)
    requires WellFormed(b0) && InBounds(b0, row, col) && i < |Directions|
    ensures (exists j, m :: i <= j < |Directions| && Brackets(b0, row, col, Directions[j], p, m)) ==>
      || (exists m :: Brackets(b0, row, col, Directions[i], p, m))
      || (exists j, m :: i + 1 <= j < |Directions| && Brackets(b0, row, col, Directions[j], p, m))
  {
  }

  /** The effect of a legal move, with the number of discs it turns over. */
  lemma ApplyLegal(b: Board, row: int, col: int, p: Player) returns (gain: nat)
    requires WellFormed(b) && IsValidMove(b, row, col, p)
    ensures var after := MakeMove(b, row, col, p).board;
      && At(after, row, col) == Disc(p)
      && forall r, c | InBounds(b, r, c) && (r, c) != (row, col) ::
           At(after, r, c) == if Captured(b, row, col, p, r, c) then Disc(p) else At(b, r, c)
    ensures gain >= 1
    ensures Count(MakeMove(b, row, col, p).board, Disc(p)) == Count(b, Disc(p)) + 1 + gain
    ensures Count(MakeMove(b, row, col, p).board, Disc(Opponent(p))) + gain == Count(b, Disc(Opponent(p)))
    ensures Count(MakeMove(b, row, col, p).board, Empty) + 1 == Count(b, Empty)
  {
    var placed := Set(b, row, col, Disc(p));
    forall j, k | 0 <= j < |Directions| && 1 <= k
      ensures Look(placed, row, col, Directions[j], k) == Look(b, row, col, Directions[j], k)
    {
      OnSegmentIndex(row, col, Directions[j], k, 1, k + 1);
    }
    IsValidMoveSpec(b, row, col, p);
    assert LoopInvariant(b, row, col, p, 0, placed);
    gain := FlipAllEffect(b, row, col, p, 0, placed);
    CountSet(b, row, col, Disc(p), Disc(p));
    CountSet(b, row, col, Disc(p), Disc(Opponent(p)));
    CountSet(b, row, col, Disc(p), Empty);
  }

  /** make_move: an illegal move reports failure and changes nothing; a legal
      one reports success, puts p's disc on the target, turns over exactly
      the opponent discs bracketed on the board before the move, and leaves
      every other square alone. */
  lemma MakeMoveEffect(b: Board, row: int, col: int, p: Player)
    requires WellFormed(b)
    ensures var res := MakeMove(b, row, col, p);
      && (!IsValidMove(b, row, col, p) ==> !res.applied && res.board == b)
      && (IsValidMove(b, row, col, p) ==>
            && res.applied
            && At(res.board, row, col) == Disc(p)
            && forall r, c | InBounds(b, r, c) && (r, c) != (row, col) ::
                 At(res.board, r, c) == if Captured(b, row, col, p, r, c) then Disc(p) else At(b, r, c))
  {
    if IsValidMove(b, row, col, p) {
      var _ := ApplyLegal(b, row, col, p);
    }
  }

  /** MakeMoveEffect at one square other than the target. */
  lemma MoveSquare(b: Board, row: int, col: int, p: Player, r: int, c: int)
    requires WellFormed(b) && IsValidMove(b, row, col, p)
    requires InBounds(b, r, c) && (r, c) != (row, col)
    ensures At(MakeMove(b, row, col, p).board, r, c)
         == if Captured(b, row, col, p, r, c) then Disc(p) else At(b, r, c)
  {
    MakeMoveEffect(b, row, col, p);
  }

  /** p gains 1 + k discs, the opponent loses k, one more square is occupied. */
  ghost predicate ScoreShift(b: Board, after: Board, p: Player, k: int) {
    && Count(after, Disc(p)) == Count(b, Disc(p)) + 1 + k
    && Count(after, Disc(Opponent(p))) + k == Count(b, Disc(Opponent(p)))
    && Count(after, Empty) + 1 == Count(b, Empty)
  }

  /** Scores after a legal move: for some k >= 1 the mover gains 1 + k discs,
      the opponent loses k, and one more square is occupied. */
  lemma MakeMoveScore(b: Board, row: int, col: int, p: Player)
    requires WellFormed(b) && IsValidMove(b, row, col, p)
    ensures var after := MakeMove(b, row, col, p).board;
      exists k :: k >= 1 && ScoreShift(b, after, p, k)
  {
    var k := ApplyLegal(b, row, col, p);
    assert ScoreShift(b, MakeMove(b, row, col, p).board, p, k);
  }
}
