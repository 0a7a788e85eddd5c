/** Listing the legal moves (OthelloBoard.get_valid_moves) and detecting the
    end of the game (OthelloBoard.is_game_over). */
module Enumeration {
  import opened Cells
  import opened Boards
  import opened Legality

  /** A (row, col) square, as the source's tuples. */
  datatype Move = Move(row: int, col: int)

  /** Row-major order: the order of get_valid_moves' two nested loops. */
  predicate Precedes(a: Move, b: Move) {
    a.row < b.row || (a.row == b.row && a.col < b.col)
  }

  predicate RowMajor(ms: seq<Move>) {
    forall i, j | 0 <= i < j < |ms| :: Precedes(ms[i], ms[j])
  }

  /** The inner loop of get_valid_moves: columns c.. of row r. */
  function MovesInRow(b: Board, p: Player, r: int, c: int): seq<Move>
    requires WellFormed(b) && 0 <= r < b.size && 0 <= c <= b.size
    decreases b.size - c
  {
    if c == b.size then []
    else (if IsValidMove(b, r, c, p) then [Move(r, c)] else []) + MovesInRow(b, p, r, c + 1)
  }

  /** The outer loop of get_valid_moves: rows r.. . */
  function MovesFromRow(b: Board, p: Player, r: int): seq<Move>
    requires WellFormed(b) && 0 <= r <= b.size
    decreases b.size - r
  {
    if r == b.size then []
    else MovesInRow(b, p, r, 0) + MovesFromRow(b, p, r + 1)
  }

  /** get_valid_moves. */
  function ValidMoves(b: Board, p: Player): seq<Move>
    requires WellFormed(b)
  {
    MovesFromRow(b, p, 0)
  }

  lemma {:induction false} MovesInRowSpec(b: Board, p: Player, r: int, c: int)
    requires WellFormed(b) && 0 <= r < b.size && 0 <= c <= b.size
    ensures var ms := MovesInRow(b, p, r, c);
      && (forall m | m in ms :: m.row == r && c <= m.col && IsValidMove(b, m.row, m.col, p))
      && (forall c' | c <= c' < b.size && IsValidMove(b, r, c', p) :: Move(r, c') in ms)
      && RowMajor(ms)
    decreases b.size - c
  {
    if c < b.size {
      MovesInRowSpec(b, p, r, c + 1);
    }
  }

  lemma {:induction false} MovesFromRowSpec(b: Board, p: Player, r: int)
    requires WellFormed(b) && 0 <= r <= b.size
    ensures var ms := MovesFromRow(b, p, r);
      && (forall m | m in ms :: r <= m.row && IsValidMove(b, m.row, m.col, p))
      && (forall r', c' | r <= r' && IsValidMove(b, r', c', p) :: Move(r', c') in ms)
      && RowMajor(ms)
    decreases b.size - r
  {
    if r < b.size {
      MovesInRowSpec(b, p, r, 0);
      MovesFromRowSpec(b, p, r + 1);
    }
  }

  /** get_valid_moves lists exactly the legal squares, each once, in
      row-major order. */
  lemma ValidMovesSpec(b: Board, p: Player)
    requires WellFormed(b)
    ensures var ms := ValidMoves(b, p);
      && (forall m :: m in ms <==> IsValidMove(b, m.row, m.col, p))
      && RowMajor(ms)
      && (forall i, j | 0 <= i < j < |ms| :: ms[i] != ms[j])
  {
    MovesFromRowSpec(b, p, 0);
  }

  /** Each column contributes at most one move. */
  lemma {:induction false} MovesInRowLength(b: Board, p: Player, r: int, c: int)
    requires WellFormed(b) && 0 <= r < b.size && 0 <= c <= b.size
    ensures |MovesInRow(b, p, r, c)| <= b.size - c
    decreases b.size - c
  {
    if c < b.size {
      MovesInRowLength(b, p, r, c + 1);
    }
  }

  lemma {:induction false} MovesFromRowLength(b: Board, p: Player, r: int)
    requires WellFormed(b) && 0 <= r <= b.size
    ensures |MovesFromRow(b, p, r)| <= (b.size - r) * b.size
    decreases b.size - r
  {
    if r < b.size {
      MovesInRowLength(b, p, r, 0);
      MovesFromRowLength(b, p, r + 1);
      assert (b.size - r) * b.size == b.size + (b.size - (r + 1)) * b.size;
    }
  }

  /** get_valid_moves lists at most one move per square. */
  lemma ValidMovesLength(b: Board, p: Player)
    requires WellFormed(b)
    ensures |ValidMoves(b, p)| <= b.size * b.size
  {
    MovesFromRowLength(b, p, 0);
  }

  /** is_game_over: neither player has a legal move. */
  predicate IsGameOver(b: Board)
    requires WellFormed(b)
  {
    |ValidMoves(b, Black)| == 0 && |ValidMoves(b, White)| == 0
  }

  /** The game is over exactly when no square is a legal move for either player. */
  lemma GameOverSpec(b: Board)
    requires WellFormed(b)
    ensures IsGameOver(b) <==> forall r, c, p :: !IsValidMove(b, r, c, p)
  {
    if !IsGameOver(b) {
      var p := if |ValidMoves(b, Black)| > 0 then Black else White;
      ValidMovesSpec(b, p);
      var m := ValidMoves(b, p)[0];
      assert m in ValidMoves(b, p);
    } else {
      forall r, c, p ensures !IsValidMove(b, r, c, p) {
        ValidMovesSpec(b, p);
        assert Move(r, c) !in ValidMoves(b, p);
      }
    }
  }

  /** A board with no empty square is a finished game. */
  lemma FullBoardIsOver(b: Board)
    requires WellFormed(b)
    requires forall r, c | InBounds(b, r, c) :: At(b, r, c) != Empty
    ensures IsGameOver(b)
  {
    GameOverSpec(b);
  }

  /** The head of a row-major list precedes every other member. */
  lemma HeadIsLeast(xs: seq<Move>, m: Move)
    requires RowMajor(xs) && m in xs
    ensures xs[0] == m || Precedes(xs[0], m)
  {
    var j :| 0 <= j < |xs| && xs[j] == m;
    if j > 0 {
      assert Precedes(xs[0], xs[j]);
    }
  }

  /** Two row-major lists with the same members are the same list. */
  lemma {:induction false} RowMajorUnique(xs: seq<Move>, ys: seq<Move>)
    requires RowMajor(xs) && RowMajor(ys)
    requires forall m :: m in xs <==> m in ys
    ensures xs == ys
  {
    assert xs != [] ==> xs[0] in ys;
    assert ys != [] ==> ys[0] in xs;
    if xs != [] && ys != [] {
      HeadIsLeast(ys, xs[0]);
      HeadIsLeast(xs, ys[0]);
      assert xs[0] == ys[0];
      forall m ensures m in xs[1..] <==> m in ys[1..] {
        if m in xs[1..] {
          var i :| 1 <= i < |xs| && xs[i] == m;
          assert Precedes(xs[0], xs[i]);
          assert m in ys;
          HeadIsLeast(ys, m);
        }
        if m in ys[1..] {
          var i :| 1 <= i < |ys| && ys[i] == m;
          assert Precedes(ys[0], ys[i]);
          assert m in xs;
          HeadIsLeast(xs, m);
        }
      }
      RowMajorUnique(xs[1..], ys[1..]);
      assert xs == [xs[0]] + xs[1..];
      assert ys == [ys[0]] + ys[1..];
    }
  }
}
