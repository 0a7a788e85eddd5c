/** The static evaluator (OthelloCPU._evaluate_board and the position table
    of OthelloCPU.__init__), for boards of at most 8 × 8 squares. */
module Evaluation {
  import opened Cells
  import opened Boards
  import opened Rays
  import opened Legality
  import opened Enumeration

  type Row8 = s: seq<int> | |s| == 8 witness [0, 0, 0, 0, 0, 0, 0, 0]

  /** The positional weights: corners high, squares next to corners low. */
  const PositionValues: seq<Row8> := [
    [100, -20, 10, 5, 5, 10, -20, 100],
    [-20, -50, -2, -2, -2, -2, -50, -20],
    [10, -2, -1, -1, -1, -1, -2, 10],
    [5, -2, -1, -1, -1, -1, -2, 5],
    [5, -2, -1, -1, -1, -1, -2, 5],
    [10, -2, -1, -1, -1, -1, -2, 10],
    [-20, -50, -2, -2, -2, -2, -50, -20],
    [100, -20, 10, 5, 5, 10, -20, 100]
  ]

  /** The value of a finished game that p has won. */
  const WinScore := 1000

  /** A board the evaluator can score: the position table is 8 × 8, so
      its top-left corner serves a smaller board, and a larger one would
      index past it. */
  predicate EvalBoard(b: Board) {
    WellFormed(b) && b.size <= 8
  }

  /** Weight w counted for p's disc, against p for the opponent's, not at all if empty. */
  function CellValue(cell: Cell, p: Player, w: int): int {
    match cell
    case Empty => 0
    case Disc(q) => if q == p then w else -w
  }

  /** Positional term over columns c.. of row r. */
  function RowPosition(b: Board, p: Player, r: int, c: int): int
    requires EvalBoard(b) && 0 <= r < b.size && 0 <= c <= b.size
    decreases b.size - c
  {
    if c == b.size then 0
    else CellValue(At(b, r, c), p, PositionValues[r][c]) + RowPosition(b, p, r, c + 1)
  }

  /** Positional term over rows r.. . */
  function PositionFrom(b: Board, p: Player, r: int): int
    requires EvalBoard(b) && 0 <= r <= b.size
    decreases b.size - r
  {
    if r == b.size then 0 else RowPosition(b, p, r, 0) + PositionFrom(b, p, r + 1)
  }

  /** The positional term: table weights of p's squares minus those of the opponent's. */
  function PositionSum(b: Board, p: Player): int
    requires EvalBoard(b)
  {
    PositionFrom(b, p, 0)
  }

  /** The value of a finished game for p, when a win is worth win. */
  function FinalScore(b: Board, p: Player, win: int): int {
    var mine, theirs := Count(b, Disc(p)), Count(b, Disc(Opponent(p)));
    if mine > theirs then win else if mine < theirs then -win else 0
  }

  /** The value of an unfinished game for p: ten per disc of advantage,
      the positional term, and five per move of mobility advantage. */
  function Heuristic(b: Board, p: Player): int
    requires EvalBoard(b)
  {
    10 * (Count(b, Disc(p)) - Count(b, Disc(Opponent(p))))
    + PositionSum(b, p)
    + 5 * (|ValidMoves(b, p)| - |ValidMoves(b, Opponent(p))|)
  }

  /** _evaluate_board from p's point of view. */
  function Evaluate(b: Board, p: Player): (v: int)
    requires EvalBoard(b)
    ensures IsGameOver(b) ==>
      var mine, theirs := Count(b, Disc(p)), Count(b, Disc(Opponent(p)));
      && (v == WinScore <==> mine > theirs)
      && (v == -WinScore <==> mine < theirs)
      && (v == 0 <==> mine == theirs)
  {
    if IsGameOver(b) then FinalScore(b, p, WinScore) else Heuristic(b, p)
  }

  lemma {:induction false} RowPositionAntisymmetric(b: Board, p: Player, r: int, c: int)
    requires EvalBoard(b) && 0 <= r < b.size && 0 <= c <= b.size
    ensures RowPosition(b, p, r, c) == -RowPosition(b, Opponent(p), r, c)
    decreases b.size - c
  {
    if c < b.size {
      RowPositionAntisymmetric(b, p, r, c + 1);
    }
  }

  lemma {:induction false} PositionFromAntisymmetric(b: Board, p: Player, r: int)
    requires EvalBoard(b) && 0 <= r <= b.size
    ensures PositionFrom(b, p, r) == -PositionFrom(b, Opponent(p), r)
    decreases b.size - r
  {
    if r < b.size {
      RowPositionAntisymmetric(b, p, r, 0);
      PositionFromAntisymmetric(b, p, r + 1);
    }
  }

  /** What is good for one player is exactly as bad for the other: the
      evaluation from Black's side is the negation of White's, on finished
      and unfinished boards alike. */
  lemma EvaluateAntisymmetric(b: Board, p: Player)
    requires EvalBoard(b)
    ensures Evaluate(b, p) == -Evaluate(b, Opponent(p))
  {
    PositionFromAntisymmetric(b, p, 0);
  }

  // ---------------------------------------------------------------------
  // How large the heuristic can get

  /** No weight of the table exceeds 100 either way. */
  lemma WeightBound(r: int, c: int)
    requires 0 <= r < 8 && 0 <= c < 8
    ensures -100 <= PositionValues[r][c] <= 100
  {
  }

  lemma {:induction false} RowPositionBound(b: Board, p: Player, r: int, c: int)
    requires EvalBoard(b) && 0 <= r < b.size && 0 <= c <= b.size
    ensures -100 * (b.size - c) <= RowPosition(b, p, r, c) <= 100 * (b.size - c)
    decreases b.size - c
  {
    if c < b.size {
      WeightBound(r, c);
      RowPositionBound(b, p, r, c + 1);
    }
  }

  lemma {:induction false} PositionFromBound(b: Board, p: Player, r: int)
    requires EvalBoard(b) && 0 <= r <= b.size
    ensures -800 * (b.size - r) <= PositionFrom(b, p, r) <= 800 * (b.size - r)
    decreases b.size - r
  {
    if r < b.size {
      RowPositionBound(b, p, r, 0);
      PositionFromBound(b, p, r + 1);
    }
  }

  lemma SquareAtMost64(n: nat)
    requires n <= 8
    ensures n * n <= 64
  {
    assert n * n <= n * 8;
  }

  /** The largest value the heuristic can reach on a board of at most
      8 × 8 squares: 64 discs of advantage, 100 for every square of the
      table, 64 moves of mobility advantage. */
  const HeuristicLimit := 10 * 64 + 100 * 64 + 5 * 64

  /** On a board the evaluator can score, the heuristic stays within
      HeuristicLimit of zero. */
  lemma HeuristicBounded(b: Board, p: Player)
    requires EvalBoard(b)
    ensures -HeuristicLimit <= Heuristic(b, p) <= HeuristicLimit
  {
    var _ := GetScore(b);
    SquareAtMost64(b.size);
    PositionFromBound(b, p, 0);
    ValidMovesLength(b, p);
    ValidMovesLength(b, Opponent(p));
  }

  // ---------------------------------------------------------------------
  // The terminal value as intended

  /** A terminal value that dominates every heuristic sum. */
  const WinScoreIntended := 10000

  /** _evaluate_board with WinScoreIntended in place of 1000. */
  function EvaluateIntended(b: Board, p: Player): (v: int)
    requires EvalBoard(b)
    ensures IsGameOver(b) ==>
      var mine, theirs := Count(b, Disc(p)), Count(b, Disc(Opponent(p)));
      && (v == WinScoreIntended <==> mine > theirs)
      && (v == -WinScoreIntended <==> mine < theirs)
      && (v == 0 <==> mine == theirs)
  {
    if IsGameOver(b) then FinalScore(b, p, WinScoreIntended) else Heuristic(b, p)
  }

  /** With the intended terminal value, every unfinished position lies
      strictly between a lost game and a won one. */
  lemma UnfinishedBetweenOutcomes(b: Board, p: Player)
    requires EvalBoard(b) && !IsGameOver(b)
    ensures -WinScoreIntended < EvaluateIntended(b, p) < WinScoreIntended
  {
    HeuristicBounded(b, p);
  }

  // ---------------------------------------------------------------------
  // The terminal value as written

  /** The weights of columns c.. of row r of the table. */
  function RowTotal(r: int, c: int): int
    requires 0 <= r < 8 && 0 <= c <= 8
    decreases 8 - c
  {
    if c == 8 then 0 else PositionValues[r][c] + RowTotal(r, c + 1)
  }

  /** The weights of rows r.. of the table. */
  function TableTotal(r: int): int
    requires 0 <= r <= 8
    decreases 8 - r
  {
    if r == 8 then 0 else RowTotal(r, 0) + TableTotal(r + 1)
  }

  lemma TopRowTotals()
    ensures RowTotal(0, 0) == 190 && RowTotal(1, 0) == -148
    ensures RowTotal(2, 0) == 12 && RowTotal(3, 0) == 2
  {
  }

  lemma BottomRowTotals()
    ensures RowTotal(4, 0) == 2 && RowTotal(5, 0) == 12
    ensures RowTotal(6, 0) == -148 && RowTotal(7, 0) == 190
  {
  }

  lemma TableTotalValue()
    ensures TableTotal(0) == 112
  {
    TopRowTotals();
    BottomRowTotals();
  }

  /** A row p owns from column c on scores the table's weights there. */
  lemma {:induction false} RowPositionOwned(b: Board, p: Player, r: int, c: int)
    requires EvalBoard(b) && b.size == 8 && 0 <= r < 8 && 0 <= c <= 8
    requires forall c' | c <= c' < 8 :: At(b, r, c') == Disc(p)
    ensures RowPosition(b, p, r, c) == RowTotal(r, c)
    decreases 8 - c
  {
    if c < 8 {
      RowPositionOwned(b, p, r, c + 1);
    }
  }

  lemma {:induction false} PositionFromOwned(b: Board, p: Player, r: int)
    requires EvalBoard(b) && b.size == 8 && 0 <= r <= 8
    requires forall r', c' | r <= r' < 8 && 0 <= c' < 8 :: At(b, r', c') == Disc(p)
    ensures PositionFrom(b, p, r) == TableTotal(r)
    decreases 8 - r
  {
    if r < 8 {
      RowPositionOwned(b, p, r, 0);
      PositionFromOwned(b, p, r + 1);
    }
  }

  /** What writing v over square (r0, c0) changes in the positional term:
      that square's contribution, and nothing else. */
  function SetDelta(b: Board, p: Player, r0: int, c0: int, v: Cell): int
    requires EvalBoard(b) && InBounds(b, r0, c0)
  {
    CellValue(v, p, PositionValues[r0][c0]) - CellValue(At(b, r0, c0), p, PositionValues[r0][c0])
  }

  lemma {:induction false} RowPositionSet(b: Board, p: Player, r0: int, c0: int, v: Cell, r: int, c: int)
    requires EvalBoard(b) && InBounds(b, r0, c0) && 0 <= r < b.size && 0 <= c <= b.size
    ensures RowPosition(Set(b, r0, c0, v), p, r, c)
         == RowPosition(b, p, r, c) + (if r == r0 && c <= c0 then SetDelta(b, p, r0, c0, v) else 0)
    decreases b.size - c
  {
    if c < b.size {
      RowPositionSet(b, p, r0, c0, v, r, c + 1);
    }
  }

  lemma {:induction false} PositionFromSet(b: Board, p: Player, r0: int, c0: int, v: Cell, r: int)
    requires EvalBoard(b) && InBounds(b, r0, c0) && 0 <= r <= b.size
    ensures PositionFrom(Set(b, r0, c0, v), p, r)
         == PositionFrom(b, p, r) + (if r <= r0 then SetDelta(b, p, r0, c0, v) else 0)
    decreases b.size - r
  {
    if r < b.size {
      RowPositionSet(b, p, r0, c0, v, r, 0);
      PositionFromSet(b, p, r0, c0, v, r + 1);
    }
  }

  /** The four squares diagonally next to the corners rewritten: (1,1)
      emptied, (1,6), (6,1) and (6,6) given to White. */
  function CornerWrites(b: Board): (b': Board)
    requires WellFormed(b) && InBounds(b, 6, 6)
    ensures WellFormed(b') && b'.size == b.size
  {
    var b1 := Set(b, 1, 1, Empty);
    var b2 := Set(b1, 1, 6, Disc(White));
    var b3 := Set(b2, 6, 1, Disc(White));
    Set(b3, 6, 6, Disc(White))
  }

  /** An unfinished 8 × 8 position: White on (1,6), (6,1) and (6,6),
      (1,1) empty, Black everywhere else. */
  function Crowded(): (b: Board)
    ensures EvalBoard(b) && b.size == 8
  {
    CornerWrites(Filled(8, Disc(Black)))
  }

  /** The squares of Crowded. */
  lemma CrowdedSquares(r: int, c: int)
    requires InBounds(Crowded(), r, c)
    ensures At(Crowded(), r, c)
         == if r == 1 && c == 1 then Empty
            else if (r, c) in {(1, 6), (6, 1), (6, 6)} then Disc(White)
            else Disc(Black)
  {
  }

  /** Rewriting four Black squares, one emptied and three given to White,
      takes four discs from Black and gives three to White. */
  lemma CornerWritesCount(b0: Board)
    requires WellFormed(b0) && InBounds(b0, 6, 6)
    requires At(b0, 1, 1) == At(b0, 1, 6) == At(b0, 6, 1) == At(b0, 6, 6) == Disc(Black)
    ensures Count(CornerWrites(b0), Disc(Black)) + 4 == Count(b0, Disc(Black))
    ensures Count(CornerWrites(b0), Disc(White)) == Count(b0, Disc(White)) + 3
  {
    var b1 := Set(b0, 1, 1, Empty);
    var b2 := Set(b1, 1, 6, Disc(White));
    var b3 := Set(b2, 6, 1, Disc(White));
    CountSet(b0, 1, 1, Empty, Disc(Black));
    CountSet(b0, 1, 1, Empty, Disc(White));
    CountSet(b1, 1, 6, Disc(White), Disc(Black));
    CountSet(b1, 1, 6, Disc(White), Disc(White));
    CountSet(b2, 6, 1, Disc(White), Disc(Black));
    CountSet(b2, 6, 1, Disc(White), Disc(White));
    CountSet(b3, 6, 6, Disc(White), Disc(Black));
    CountSet(b3, 6, 6, Disc(White), Disc(White));
  }

  /** Crowded has 60 Black discs and 3 White ones. */
  lemma CrowdedCounts(n: nat)
    requires n == 8
    ensures var b := CornerWrites(Filled(n, Disc(Black)));
      Count(b, Disc(Black)) == 60 && Count(b, Disc(White)) == 3
  {
    CountFilled(n, Disc(Black), Disc(Black));
    CountFilled(n, Disc(Black), Disc(White));
    CornerWritesCount(Filled(n, Disc(Black)));
  }

  /** Writing v over one square changes the positional term by that square's change. */
  lemma PositionSet(b: Board, p: Player, r0: int, c0: int, v: Cell)
    requires EvalBoard(b) && InBounds(b, r0, c0)
    ensures PositionSum(Set(b, r0, c0, v), p) == PositionSum(b, p) + SetDelta(b, p, r0, c0, v)
  {
    PositionFromSet(b, p, r0, c0, v, 0);
  }

  /** A square that held Black's disc, of weight w, now holds v. */
  lemma BlackSquareWritten(b: Board, r0: int, c0: int, v: Cell, w: int, before: int)
    requires EvalBoard(b) && InBounds(b, r0, c0) && At(b, r0, c0) == Disc(Black)
    requires w == PositionValues[r0][c0] && PositionSum(b, Black) == before
    ensures PositionSum(Set(b, r0, c0, v), Black) == before - w + CellValue(v, Black, w)
  {
    PositionSet(b, Black, r0, c0, v);
  }

  /** The four squares diagonally next to the corners weigh -50. */
  lemma CornerNeighbourWeights()
    ensures PositionValues[1][1] == PositionValues[1][6] == PositionValues[6][1] == PositionValues[6][6] == -50
  {
  }

  /** With Black on every square, Black's positional term is the table's total. */
  lemma FilledPosition(n: nat)
    requires n == 8
    ensures PositionSum(Filled(n, Disc(Black)), Black) == 112
  {
    PositionFromOwned(Filled(n, Disc(Black)), Black, 0);
    TableTotalValue();
  }

  /** Black's discs on the four -50 squares next to the corners: emptying
      one and giving three to White gains Black 50 + 3 × 100. */
  lemma CornerWritesPosition(b0: Board, total: int)
    requires EvalBoard(b0) && InBounds(b0, 6, 6)
    requires At(b0, 1, 1) == At(b0, 1, 6) == At(b0, 6, 1) == At(b0, 6, 6) == Disc(Black)
    requires PositionSum(b0, Black) == total
    ensures PositionSum(CornerWrites(b0), Black) == total + 350
  {
    var b1 := Set(b0, 1, 1, Empty);
    var b2 := Set(b1, 1, 6, Disc(White));
    var b3 := Set(b2, 6, 1, Disc(White));
    CornerNeighbourWeights();
    BlackSquareWritten(b0, 1, 1, Empty, -50, total);
    BlackSquareWritten(b1, 1, 6, Disc(White), -50, total + 50);
    BlackSquareWritten(b2, 6, 1, Disc(White), -50, total + 150);
    BlackSquareWritten(b3, 6, 6, Disc(White), -50, total + 250);
  }

  /** Black's positional term on Crowded: the table's total, 112, with the
      four -50 squares next to the corners turned from Black's loss into
      nothing, (1,1), or into White's loss, the other three. */
  lemma CrowdedPosition(n: nat)
    requires n == 8
    ensures PositionSum(CornerWrites(Filled(n, Disc(Black))), Black) == 462
  {
    FilledPosition(n);
    CornerWritesPosition(Filled(n, Disc(Black)), 112);
  }

  /** White's one move on Crowded: (1,1), bracketing (2,2) .. (5,5) against (6,6). */
  lemma CrowdedWhiteMoves()
    ensures ValidMoves(Crowded(), White) == [Move(1, 1)]
  {
    var b := Crowded();
    var d := Directions[7];
    forall j | 1 <= j <= 5
      ensures Look(b, 1, 1, d, j) == Some(Disc(if j == 5 then White else Black))
    {
      CrowdedSquares(1 + j, 1 + j);
    }
    assert Brackets(b, 1, 1, d, White, 5);
    CrowdedSquares(1, 1);
    IsValidMoveSpec(b, 1, 1, White);
    ValidMovesSpec(b, White);
    forall m ensures m in ValidMoves(b, White) <==> m in [Move(1, 1)] {
      if m in ValidMoves(b, White) {
        CrowdedSquares(m.row, m.col);
      }
    }
    RowMajorUnique(ValidMoves(b, White), [Move(1, 1)]);
  }

  /** Every neighbour of (1,1) on Crowded holds a Black disc. */
  lemma CrowdedNeighbour(j: int)
    requires 0 <= j < |Directions|
    ensures Look(Crowded(), 1, 1, Directions[j], 1) == Some(Disc(Black))
  {
    var d := Directions[j];
    var r, c := 1 + d.dr, 1 + d.dc;
    assert 0 <= r <= 2 && 0 <= c <= 2 && (r, c) != (1, 1);
    CrowdedSquares(r, c);
  }

  /** Black cannot play the one empty square of Crowded: it touches no White disc. */
  lemma CrowdedBlackStuck()
    ensures !IsValidMove(Crowded(), 1, 1, Black)
  {
    if IsValidMove(Crowded(), 1, 1, Black) {
      ValidMoveTouchesOpponent(Crowded(), 1, 1, Black);
      var j :| 0 <= j < |Directions| && Look(Crowded(), 1, 1, Directions[j], 1) == Some(Disc(White));
      CrowdedNeighbour(j);
    }
  }

  /** Black has no move on Crowded. */
  lemma CrowdedBlackMoves()
    ensures ValidMoves(Crowded(), Black) == []
  {
    var b := Crowded();
    CrowdedBlackStuck();
    ValidMovesSpec(b, Black);
    forall m ensures m !in ValidMoves(b, Black) {
      if m in ValidMoves(b, Black) {
        CrowdedSquares(m.row, m.col);
      }
    }
    RowMajorUnique(ValidMoves(b, Black), []);
  }

  /** With the terminal value as written, 1000, the unfinished Crowded is
      worth more to Black than any game Black has won. */
  lemma HeuristicOutranksWin()
    ensures !IsGameOver(Crowded())
    ensures Evaluate(Crowded(), Black) == 1027 > WinScore
  {
    CrowdedWhiteMoves();
    CrowdedBlackMoves();
    CrowdedCounts(8);
    CrowdedPosition(8);
  }
}
