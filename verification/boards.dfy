/** The square grid of cells (othello.py, class OthelloBoard): construction,
    single-cell update, copying and piece counting.

    The source stores the grid in a NumPy array and mutates it in place;
    here a board is an immutable value and every update returns a new one.
 */
module Boards {
  import opened Cells

  datatype Board = Board(size: nat, grid: seq<seq<Cell>>)

  /** The grid really is size × size. */
  predicate WellFormed(b: Board) {
    |b.grid| == b.size && forall r | 0 <= r < |b.grid| :: |b.grid[r]| == b.size
  }

  predicate InBounds(b: Board, r: int, c: int) {
    0 <= r < b.size && 0 <= c < b.size
  }

  function At(b: Board, r: int, c: int): Cell
    requires WellFormed(b) && InBounds(b, r, c)
  {
    b.grid[r][c]
  }

  /** The board with square (r, c) replaced by v. */
  function Set(b: Board, r: int, c: int, v: Cell): (b': Board)
    requires WellFormed(b) && InBounds(b, r, c)
    ensures WellFormed(b') && b'.size == b.size
    ensures At(b', r, c) == v
    ensures forall r', c' | InBounds(b, r', c') && (r', c') != (r, c) :: At(b', r', c') == At(b, r', c')
  {
    b.(grid := b.grid[r := b.grid[r][c := v]])
  }

  /** Two well-formed boards of the same size that agree on every square are equal. */
  lemma {:induction false} BoardExt(a: Board, b: Board)
    requires WellFormed(a) && WellFormed(b) && a.size == b.size
    requires forall r, c | InBounds(a, r, c) :: At(a, r, c) == At(b, r, c)
    ensures a == b
  {
    forall r | 0 <= r < a.size
      ensures a.grid[r] == b.grid[r]
    {
      assert forall c | 0 <= c < a.size :: a.grid[r][c] == At(a, r, c);
    }
  }

  /** An independent copy of the board (OthelloBoard.copy). With value
      semantics a copy can never alias the original; what remains to show
      is that rebuilding the grid square by square loses nothing. Since the
      copy is the board itself, callers that copy before trying a move
      (the search's children) apply the move to the board directly. */
  function Copy(b: Board): (b': Board)
    requires WellFormed(b)
    ensures b' == b
  {
    var g := seq(b.size, r requires 0 <= r < b.size =>
                   seq(b.size, c requires 0 <= c < b.size => b.grid[r][c]));
    var b' := Board(b.size, g);
    BoardExt(b', b);
    b'
  }

  // ---------------------------------------------------------------------
  // Counting

  function CountRow(s: seq<Cell>, v: Cell): nat {
    if s == [] then 0 else (if s[0] == v then 1 else 0) + CountRow(s[1..], v)
  }

  function CountGrid(g: seq<seq<Cell>>, v: Cell): nat {
    if g == [] then 0 else CountRow(g[0], v) + CountGrid(g[1..], v)
  }

  /** Number of squares of the board holding v (the source's np.sum over a mask). */
  function Count(b: Board, v: Cell): nat {
    CountGrid(b.grid, v)
  }

  /** OthelloBoard.get_score: (black discs, white discs). */
  function GetScore(b: Board): (s: (nat, nat))
    requires WellFormed(b)
    ensures s.0 + s.1 + Count(b, Empty) == b.size * b.size
  {
    CountGridTotal(b.grid, b.size);
    (Count(b, Disc(Black)), Count(b, Disc(White)))
  }

  lemma {:induction false} CountRowTotal(s: seq<Cell>)
    ensures CountRow(s, Disc(Black)) + CountRow(s, Disc(White)) + CountRow(s, Empty) == |s|
  {
    if s != [] {
      CountRowTotal(s[1..]);
      assert s[0] == Empty || s[0] == Disc(Black) || s[0] == Disc(White) by {
        match s[0]
        case Empty =>
        case Disc(p) => assert p == Black || p == White;
      }
    }
  }

  lemma {:induction false} CountGridTotal(g: seq<seq<Cell>>, n: nat)
    requires forall r | 0 <= r < |g| :: |g[r]| == n
    ensures CountGrid(g, Disc(Black)) + CountGrid(g, Disc(White)) + CountGrid(g, Empty) == |g| * n
  {
    if g != [] {
      CountRowTotal(g[0]);
      CountGridTotal(g[1..], n);
    }
  }

  lemma {:induction false} CountRowUpdate(s: seq<Cell>, i: nat, v: Cell, x: Cell)
    requires i < |s|
    ensures CountRow(s[i := v], x) + (if s[i] == x then 1 else 0)
         == CountRow(s, x) + (if v == x then 1 else 0)
  {
    if i == 0 {
      assert s[i := v][1..] == s[1..];
    } else {
      assert s[i := v][1..] == s[1..][i - 1 := v];
      CountRowUpdate(s[1..], i - 1, v, x);
    }
  }

  lemma {:induction false} CountGridUpdate(g: seq<seq<Cell>>, r: nat, c: nat, v: Cell, x: Cell)
    requires r < |g| && c < |g[r]|
    ensures CountGrid(g[r := g[r][c := v]], x) + (if g[r][c] == x then 1 else 0)
         == CountGrid(g, x) + (if v == x then 1 else 0)
  {
    if r == 0 {
      assert g[r := g[r][c := v]][1..] == g[1..];
      CountRowUpdate(g[0], c, v, x);
    } else {
      assert g[r := g[r][c := v]][1..] == g[1..][r - 1 := g[r][c := v]];
      CountGridUpdate(g[1..], r - 1, c, v, x);
    }
  }

  /** Writing v over square (r, c) moves exactly one square between counts. */
  lemma CountSet(b: Board, r: int, c: int, v: Cell, x: Cell)
    requires WellFormed(b) && InBounds(b, r, c)
    ensures Count(Set(b, r, c, v), x) + (if At(b, r, c) == x then 1 else 0)
         == Count(b, x) + (if v == x then 1 else 0)
  {
    CountGridUpdate(b.grid, r, c, v, x);
  }

  lemma {:induction false} CountRowAbsent(s: seq<Cell>, x: Cell)
    requires forall i | 0 <= i < |s| :: s[i] != x
    ensures CountRow(s, x) == 0
  {
    if s != [] {
      CountRowAbsent(s[1..], x);
    }
  }

  lemma {:induction false} CountGridAbsent(g: seq<seq<Cell>>, x: Cell)
    requires forall r, c | 0 <= r < |g| && 0 <= c < |g[r]| :: g[r][c] != x
    ensures CountGrid(g, x) == 0
  {
    if g != [] {
      CountRowAbsent(g[0], x);
      CountGridAbsent(g[1..], x);
    }
  }

  lemma {:induction false} CountRowAll(s: seq<Cell>, v: Cell)
    requires forall i | 0 <= i < |s| :: s[i] == v
    ensures CountRow(s, v) == |s|
  {
    if s != [] {
      CountRowAll(s[1..], v);
    }
  }

  lemma {:induction false} CountGridAll(g: seq<seq<Cell>>, v: Cell, n: nat)
    requires forall r | 0 <= r < |g| :: |g[r]| == n
    requires forall r, c | 0 <= r < |g| && 0 <= c < |g[r]| :: g[r][c] == v
    ensures CountGrid(g, v) == |g| * n
  {
    if g != [] {
      CountRowAll(g[0], v);
      CountGridAll(g[1..], v, n);
      assert |g| * n == n + (|g| - 1) * n;
    }
  }

  /** The n × n board with v on every square. */
  function Filled(n: nat, v: Cell): (b: Board)
    ensures WellFormed(b) && b.size == n
    ensures forall r, c | InBounds(b, r, c) :: At(b, r, c) == v
  {
    Board(n, seq(n, _ => seq(n, _ => v)))
  }

  /** All n × n squares of Filled(n, v) hold v, and none holds anything else. */
  lemma CountFilled(n: nat, v: Cell, x: Cell)
    ensures Count(Filled(n, v), x) == if x == v then n * n else 0
  {
    var g := Filled(n, v).grid;
    if x == v {
      CountGridAll(g, v, n);
    } else {
      CountGridAbsent(g, x);
    }
  }

  // ---------------------------------------------------------------------
  // The starting position

  /** The all-empty grid the source allocates with np.zeros. */
  function EmptyBoard(n: nat): (b: Board)
    ensures WellFormed(b) && b.size == n
    ensures forall r, c | InBounds(b, r, c) :: At(b, r, c) == Empty
  {
    Board(n, seq(n, _ => seq(n, _ => Empty)))
  }

  /** A fresh board (OthelloBoard.__init__ and _setup_initial_position):
      White on the two centre squares of the main diagonal, Black on the
      other two, everything else empty. */
  function Init(n: nat): (b: Board)
    requires n >= 2
    ensures WellFormed(b) && b.size == n
    ensures var h := n / 2;
      && At(b, h - 1, h - 1) == Disc(White) && At(b, h, h) == Disc(White)
      && At(b, h - 1, h) == Disc(Black) && At(b, h, h - 1) == Disc(Black)
    ensures var h := n / 2;
      forall r, c | InBounds(b, r, c) && !(h - 1 <= r <= h && h - 1 <= c <= h) :: At(b, r, c) == Empty
  {
    var h := n / 2;
    var b0 := EmptyBoard(n);
    var b1 := Set(b0, h - 1, h - 1, Disc(White));
    var b2 := Set(b1, h - 1, h, Disc(Black));
    var b3 := Set(b2, h, h - 1, Disc(Black));
    Set(b3, h, h, Disc(White))
  }

  /** Placing a disc of p on an empty square adds one to p's count and
      leaves the other player's count alone. */
  lemma CountPlaceOnEmpty(b: Board, r: int, c: int, p: Player)
    requires WellFormed(b) && InBounds(b, r, c) && At(b, r, c) == Empty
    ensures Count(Set(b, r, c, Disc(p)), Disc(p)) == Count(b, Disc(p)) + 1
    ensures Count(Set(b, r, c, Disc(p)), Disc(Opponent(p))) == Count(b, Disc(Opponent(p)))
  {
    CountSet(b, r, c, Disc(p), Disc(p));
    CountSet(b, r, c, Disc(p), Disc(Opponent(p)));
  }

  /** A fresh board holds two discs of each colour. */
  lemma InitCounts(n: nat)
    requires n >= 2
    ensures Count(Init(n), Disc(Black)) == 2 && Count(Init(n), Disc(White)) == 2
  {
    var h := n / 2;
    var b0 := EmptyBoard(n);
    CountGridAbsent(b0.grid, Disc(Black));
    CountGridAbsent(b0.grid, Disc(White));
    var b1 := Set(b0, h - 1, h - 1, Disc(White));
    CountPlaceOnEmpty(b0, h - 1, h - 1, White);
    var b2 := Set(b1, h - 1, h, Disc(Black));
    CountPlaceOnEmpty(b1, h - 1, h, Black);
    var b3 := Set(b2, h, h - 1, Disc(Black));
    CountPlaceOnEmpty(b2, h, h - 1, Black);
    var b4 := Set(b3, h, h, Disc(White));
    CountPlaceOnEmpty(b3, h, h, White);
    assert Count(b4, Disc(Black)) == 2 && Count(b4, Disc(White)) == 2;
    assert b4 == Init(n);
  }

  /** A fresh board of any size scores two discs each. */
  lemma InitScore(n: nat)
    requires n >= 2
    ensures GetScore(Init(n)) == (2, 2)
  {
    InitCounts(n);
  }
}
