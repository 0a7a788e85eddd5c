/** The standard 8 × 8 opening: what the rules allow on a fresh board and
    what the first move does. These are the concrete facts the source's
    own test of the starting position relies on: four moves each, and a
    score of 4 to 1 after Black's first move.

    The work is done for any board laid out like the fresh one (IsStart);
    InitIsStart shows that Init(8) is such a board. */
module Opening {
  import opened Cells
  import opened Boards
  import opened Rays
  import opened Legality
  import opened Moves
  import opened Enumeration

  /** The contents of the fresh 8 × 8 board at (r, c). */
  function StartCell(r: int, c: int): Cell {
    if (r == 3 && c == 3) || (r == 4 && c == 4) then Disc(White)
    else if (r == 3 && c == 4) || (r == 4 && c == 3) then Disc(Black)
    else Empty
  }

  /** The four legal first moves of each player, in row-major order. */
  function StartMoves(p: Player): seq<Move> {
    if p == Black then [Move(2, 3), Move(3, 2), Move(4, 5), Move(5, 4)]
    else [Move(2, 4), Move(3, 5), Move(4, 2), Move(5, 3)]
  }

  /** b is an 8 × 8 board laid out as at the start of a game. */
  predicate IsStart(b: Board) {
    && WellFormed(b) && b.size == 8
    && forall r, c | 0 <= r < 8 && 0 <= c < 8 :: At(b, r, c) == StartCell(r, c)
  }

  /** _setup_initial_position on the 8 × 8 board. */
  lemma InitIsStart()
    ensures IsStart(Init(8))
  {
    InitOfSize(8);
  }

  lemma InitOfSize(n: nat)
    requires n == 8
    ensures IsStart(Init(n))
  {
    assert n / 2 == 4;
  }

  /** A board laid out as at the start is the board a new game builds. */
  lemma StartIsInit(b: Board)
    requires IsStart(b)
    ensures b == Init(8)
  {
    InitIsStart();
    BoardExt(b, Init(8));
  }

  /** A starting board holds two discs of each colour. */
  lemma StartCounts(b: Board)
    requires IsStart(b)
    ensures Count(b, Disc(Black)) == 2 && Count(b, Disc(White)) == 2
  {
    StartIsInit(b);
    InitCounts(8);
  }

  /** The k-th square of any ray on a starting board. */
  lemma StartLook(b: Board, r: int, c: int, d: Direction, k: int)
    requires IsStart(b)
    ensures var r', c' := r + d.dr * k, c + d.dc * k;
      Look(b, r, c, d, k)
        == if 0 <= r' < 8 && 0 <= c' < 8 then Some(StartCell(r', c')) else None
  {
  }

  /** Only the four centre squares are occupied at the start. */
  lemma StartOccupied(r: int, c: int)
    requires StartCell(r, c) != Empty
    ensures 3 <= r <= 4 && 3 <= c <= 4
  {
  }

  /** A disc seen along a ray of a starting board stands in the centre. */
  lemma StartDisc(b: Board, r: int, c: int, d: Direction, k: int, q: Player)
    requires IsStart(b) && Look(b, r, c, d, k) == Some(Disc(q))
    ensures 3 <= r + d.dr * k <= 4 && 3 <= c + d.dc * k <= 4
  {
    StartLook(b, r, c, d, k);
    StartOccupied(r + d.dr * k, c + d.dc * k);
  }

  /** A bracket on a starting board is two squares long: squares 1 and 3
      of a ray lie two apart, so they never both fit in the occupied centre. */
  lemma BracketShort(b: Board, r: int, c: int, d: Direction, p: Player, m: int)
    requires IsStart(b) && Brackets(b, r, c, d, p, m)
    ensures m == 2
  {
    if m != 2 {
      assert 1 <= 1 < m;
      StartDisc(b, r, c, d, 1, Opponent(p));
      if m == 3 {
        StartDisc(b, r, c, d, 3, p);
      } else {
        assert 1 <= 3 < m;
        StartDisc(b, r, c, d, 3, Opponent(p));
      }
    }
  }

  /** On a starting board every bracket is one opponent disc followed by one of p's. */
  lemma BracketOnStart(b: Board, r: int, c: int, d: Direction, p: Player, m: int)
    requires IsStart(b) && Brackets(b, r, c, d, p, m)
    ensures m == 2
    ensures StartCell(r + d.dr, c + d.dc) == Disc(Opponent(p))
    ensures StartCell(r + 2 * d.dr, c + 2 * d.dc) == Disc(p)
  {
    BracketShort(b, r, c, d, p, m);
    assert Look(b, r, c, d, 1) == Some(Disc(Opponent(p)));
    StartLook(b, r, c, d, 1);
    StartLook(b, r, c, d, 2);
  }

  /** A direction whose first square holds an opponent disc and whose second
      holds one of p's is bracketed. */
  lemma BracketOfTwo(b: Board, r: int, c: int, d: Direction, p: Player)
    requires IsStart(b)
    requires && 0 <= r + 2 * d.dr < 8 && 0 <= c + 2 * d.dc < 8
             && StartCell(r + d.dr, c + d.dc) == Disc(Opponent(p))
             && StartCell(r + 2 * d.dr, c + 2 * d.dc) == Disc(p)
    ensures Brackets(b, r, c, d, p, 2)
  {
    StartLook(b, r, c, d, 1);
    StartLook(b, r, c, d, 2);
    forall j | 1 <= j < 2 ensures Look(b, r, c, d, j) == Some(Disc(Opponent(p))) {
      assert j == 1;
    }
  }

  /** The squares from which an opponent disc and then one of p's lie in a line. */
  lemma TwoStepMoves(r: int, c: int, d: Direction, p: Player)
    requires StartCell(r + d.dr, c + d.dc) == Disc(Opponent(p))
    requires StartCell(r + 2 * d.dr, c + 2 * d.dc) == Disc(p)
    ensures Move(r, c) in StartMoves(p)
  {
    StartOccupied(r + d.dr, c + d.dc);
    StartOccupied(r + 2 * d.dr, c + 2 * d.dc);
  }

  /** Each listed opening move is legal: the direction that brackets it. */
  lemma StartMoveSound(b: Board, r: int, c: int, p: Player)
    requires IsStart(b) && Move(r, c) in StartMoves(p)
    ensures IsValidMove(b, r, c, p)
  {
    var j: int;
    if (r, c) == (2, 3) || (r, c) == (2, 4) {
      j := 6;
    } else if (r, c) == (3, 2) || (r, c) == (4, 2) {
      j := 4;
    } else if (r, c) == (4, 5) || (r, c) == (3, 5) {
      j := 3;
    } else {
      j := 1;
    }
    BracketOfTwo(b, r, c, Directions[j], p);
    IsValidMoveSpec(b, r, c, p);
  }

  /** No other square is a legal opening move. */
  lemma StartMoveComplete(b: Board, r: int, c: int, p: Player)
    requires IsStart(b) && IsValidMove(b, r, c, p)
    ensures Move(r, c) in StartMoves(p)
  {
    IsValidMoveSpec(b, r, c, p);
    var j, m :| 0 <= j < |Directions| && Brackets(b, r, c, Directions[j], p, m);
    BracketOnStart(b, r, c, Directions[j], p, m);
    TwoStepMoves(r, c, Directions[j], p);
  }

  /** is_valid_move on a starting board holds exactly for the listed moves. */
  lemma StartValid(b: Board, r: int, c: int, p: Player)
    requires IsStart(b)
    ensures IsValidMove(b, r, c, p) <==> Move(r, c) in StartMoves(p)
  {
    if Move(r, c) in StartMoves(p) {
      StartMoveSound(b, r, c, p);
    }
    if IsValidMove(b, r, c, p) {
      StartMoveComplete(b, r, c, p);
    }
  }

  /** get_valid_moves on a starting board: Black may play (2,3), (3,2),
      (4,5), (5,4) and White (2,4), (3,5), (4,2), (5,3), in that order. */
  lemma StartValidMoves(b: Board, p: Player)
    requires IsStart(b)
    ensures ValidMoves(b, p) == StartMoves(p)
  {
    ValidMovesSpec(b, p);
    forall m ensures m in ValidMoves(b, p) <==> m in StartMoves(p) {
      StartValid(b, m.row, m.col, p);
    }
    StartMovesRowMajor(p);
    RowMajorUnique(ValidMoves(b, p), StartMoves(p));
  }

  /** Any other first move by Black, such as an occupied square, a square
      off the board or a square out of contact, is refused and changes nothing. */
  lemma StartRejects(b: Board, r: int, c: int)
    requires IsStart(b) && Move(r, c) !in StartMoves(Black)
    ensures MakeMove(b, r, c, Black) == MoveResult(false, b)
  {
    StartValid(b, r, c, Black);
  }

  /** A fresh game is not over. */
  lemma StartNotOver(b: Board)
    requires IsStart(b)
    ensures !IsGameOver(b)
  {
    StartValidMoves(b, Black);
  }

  lemma StartMovesRowMajor(p: Player)
    ensures RowMajor(StartMoves(p))
  {
  }

  /** The same for the board a new game builds. */
  lemma InitValidMoves(p: Player)
    ensures ValidMoves(Init(8), p) == StartMoves(p)
  {
    InitIsStart();
    StartValidMoves(Init(8), p);
  }

  /** A square holding x makes the count of x positive. */
  lemma CountPositive(b: Board, r: int, c: int, x: Cell)
    requires WellFormed(b) && InBounds(b, r, c) && At(b, r, c) == x && x != Empty
    ensures Count(b, x) >= 1
  {
    CountSet(b, r, c, Empty, x);
  }

  /** (4, 4) lies on no ray from (2, 3). */
  lemma OffRay(d: Direction, lo: int, hi: int)
    ensures !OnSegment(2, 3, d, 4, 4, lo, hi)
  {
  }

  /** From (2, 3) Black brackets (3, 3) against (4, 3). */
  lemma OpeningCaptures(b: Board)
    requires IsStart(b)
    ensures Captured(b, 2, 3, Black, 3, 3)
  {
    BracketOfTwo(b, 2, 3, Directions[6], Black);
    OnSegmentIndex(2, 3, Directions[6], 1, 1, 2);
    assert 0 <= 6 < |Directions| && Brackets(b, 2, 3, Directions[6], Black, 2)
        && OnSegment(2, 3, Directions[6], 3, 3, 1, 2);
  }

  /** (4, 4) is not on any ray from (2, 3), so it is never captured from there. */
  lemma OpeningSpares(b: Board)
    requires WellFormed(b)
    ensures !Captured(b, 2, 3, Black, 4, 4)
  {
    forall i, m | 0 <= i < |Directions|
      ensures !OnSegment(2, 3, Directions[i], 4, 4, 1, m)
    {
      OffRay(Directions[i], 1, m);
    }
  }

  /** Black's disc lands on (2, 3). */
  lemma OpeningTarget(b: Board)
    requires IsStart(b)
    ensures At(MakeMove(b, 2, 3, Black).board, 2, 3) == Disc(Black)
  {
    StartMoveSound(b, 2, 3, Black);
    MakeMoveEffect(b, 2, 3, Black);
  }

  /** The White disc at (3, 3) turns Black. */
  lemma OpeningFlip(b: Board)
    requires IsStart(b)
    ensures At(MakeMove(b, 2, 3, Black).board, 3, 3) == Disc(Black)
  {
    StartMoveSound(b, 2, 3, Black);
    OpeningCaptures(b);
    MoveSquare(b, 2, 3, Black, 3, 3);
  }

  /** The White disc at (4, 4) stays White. */
  lemma OpeningKeep(b: Board)
    requires IsStart(b)
    ensures At(MakeMove(b, 2, 3, Black).board, 4, 4) == Disc(White)
  {
    StartMoveSound(b, 2, 3, Black);
    OpeningSpares(b);
    MoveSquare(b, 2, 3, Black, 4, 4);
  }

  /** The three squares that decide the opening's score. */
  lemma OpeningCells(b: Board)
    requires IsStart(b)
    ensures var after := MakeMove(b, 2, 3, Black).board;
      && At(after, 2, 3) == Disc(Black) && At(after, 3, 3) == Disc(Black)
      && At(after, 4, 4) == Disc(White)
  {
    OpeningTarget(b);
    OpeningFlip(b);
    OpeningKeep(b);
  }

  /** A legal move that leaves one of two opponent discs standing captures
      exactly one: the mover gains two discs and the opponent keeps one. */
  lemma OneOfTwoCaptured(b: Board, row: int, col: int, p: Player, r: int, c: int)
    requires WellFormed(b) && IsValidMove(b, row, col, p)
    requires Count(b, Disc(Opponent(p))) == 2
    requires InBounds(b, r, c) && At(MakeMove(b, row, col, p).board, r, c) == Disc(Opponent(p))
    ensures var after := MakeMove(b, row, col, p).board;
      Count(after, Disc(p)) == Count(b, Disc(p)) + 2 && Count(after, Disc(Opponent(p))) == 1
  {
    var after := MakeMove(b, row, col, p).board;
    MakeMoveScore(b, row, col, p);
    var k :| k >= 1 && ScoreShift(b, after, p, k);
    CountPositive(after, r, c, Disc(Opponent(p)));
  }

  /** Black's opening (2, 3) on a starting board turns over the White disc
      at (3, 3) and only that one: the score goes from (2, 2) to (4, 1). */
  lemma OpeningMoveOn(b: Board)
    requires IsStart(b)
    ensures var after := MakeMove(b, 2, 3, Black).board;
      && At(after, 2, 3) == Disc(Black) && At(after, 3, 3) == Disc(Black)
      && GetScore(after) == (4, 1)
  {
    StartCounts(b);
    StartMoveSound(b, 2, 3, Black);
    OpeningCells(b);
    OneOfTwoCaptured(b, 2, 3, Black, 4, 4);
  }

  /** The same for the board a new game builds. */
  lemma OpeningMove()
    ensures var after := MakeMove(Init(8), 2, 3, Black).board;
      && At(after, 2, 3) == Disc(Black) && At(after, 3, 3) == Disc(Black)
      && GetScore(after) == (4, 1)
  {
    InitIsStart();
    OpeningMoveOn(Init(8));
  }
}
