/** Move choice (OthelloCPU.get_move and its three strategies). */
module Policy {
  import opened Cells
  import opened Boards
  import opened Legality
  import opened Enumeration
  import opened Evaluation
  import opened ExtInts
  import opened Search

  /** k is the first position holding the largest value of s: every
      earlier value is strictly smaller, no later value is larger. */
  predicate FirstArgMax(s: seq<int>, k: int) {
    && 0 <= k < |s|
    && (forall j | 0 <= j < k :: s[j] < s[k])
    && (forall j | k < j < |s| :: s[j] <= s[k])
  }

  /** k holds the largest of s[..i], and is its first position. */
  predicate LeadsUpTo(s: seq<int>, k: int, i: int) {
    && 0 <= k < i <= |s|
    && (forall j | 0 <= j < k :: s[j] < s[k])
    && (forall j | k < j < i :: s[j] <= s[k])
  }

  /** No value of s[..i] exceeds bar. */
  predicate NoneAbove(s: seq<int>, i: int, bar: int)
    requires 0 <= i <= |s|
  {
    forall j | 0 <= j < i :: s[j] <= bar
  }

  lemma LeadsFirst(s: seq<int>, i: int, bar: int)
    requires 0 <= i < |s| && NoneAbove(s, i, bar) && bar < s[i]
    ensures LeadsUpTo(s, i, i + 1)
  {
  }

  lemma LeadsStep(s: seq<int>, k: int, i: int)
    requires LeadsUpTo(s, k, i) && i < |s|
    ensures s[k] < s[i] ==> LeadsUpTo(s, i, i + 1)
    ensures s[i] <= s[k] ==> LeadsUpTo(s, k, i + 1)
  {
  }

  /** The greedy rule with its starting bar of -1: if no score beats -1 the
      first move is kept, otherwise the first move with the largest score. */
  predicate GreedyPick(s: seq<int>, k: int) {
    if forall j | 0 <= j < |s| :: s[j] <= -1 then k == 0 && |s| > 0 else FirstArgMax(s, k)
  }

  /** The evaluation, for me, of the board after each of my moves. */
  function GreedyScores(b: Board, me: Player, moves: seq<Move>): (s: seq<int>)
    requires EvalBoard(b)
    ensures |s| == |moves|
  {
    seq(|moves|, j requires 0 <= j < |moves| => Evaluate(Child(b, me, true, moves[j]), me))
  }

  /** The unpruned value of the child reached by moves[i] at the root. */
  lemma RootChildValue(b: Board, me: Player, difficulty: nat, moves: seq<Move>, i: int)
    requires EvalBoard(b) && 1 <= difficulty && 0 <= i < |moves|
    ensures ChildValues(b, me, difficulty, moves, true)[i]
         == MinimaxValue(Child(b, me, true, moves[i]), me, difficulty - 1, false)
  {
    ChildValuesAt(b, me, difficulty, moves, true, i);
  }

  /** The root searches each child with the full window, so it gets the child's minimax value. */
  lemma RootFullWindow(b: Board, me: Player, difficulty: nat, moves: seq<Move>, i: int)
    requires EvalBoard(b) && 1 <= difficulty && 0 <= i < |moves|
    ensures Minimax(Child(b, me, true, moves[i]), me, difficulty - 1, NegInf, PosInf, false)
         == Fin(MinimaxValue(Child(b, me, true, moves[i]), me, difficulty - 1, false))
  {
    FullWindowIsMinimax(Child(b, me, true, moves[i]), me, difficulty - 1, false);
  }

  /** The score the root loop computes for moves[i] is its minimax value. */
  lemma RootScore(b: Board, me: Player, difficulty: nat, moves: seq<Move>, i: int)
    requires EvalBoard(b) && 1 <= difficulty && 0 <= i < |moves|
    ensures Minimax(Child(b, me, true, moves[i]), me, difficulty - 1, NegInf, PosInf, false)
         == Fin(ChildValues(b, me, difficulty, moves, true)[i])
  {
    RootChildValue(b, me, difficulty, moves, i);
    RootFullWindow(b, me, difficulty, moves, i);
  }

  /** _get_random_move: any one of the moves; the choice of which is left open. */
  method RandomMove(moves: seq<Move>) returns (m: Move)
    requires |moves| > 0
    ensures m in moves
  {
    var i :| 0 <= i < |moves|;
    m := moves[i];
  }

  /** _get_greedy_move as written: ranks moves by the evaluator (not by
      discs flipped), starting from moves[0] with a bar of -1 and keeping
      the first of equal scores. */
  method GreedyMove(b: Board, me: Player, moves: seq<Move>) returns (best: Move)
    requires EvalBoard(b) && |moves| > 0
    ensures exists k :: GreedyPick(GreedyScores(b, me, moves), k) && best == moves[k]
  {
    ghost var s := GreedyScores(b, me, moves);
    best := moves[0];
    var bestScore := -1;
    ghost var k := 0;
    ghost var raised := false;
    var i := 0;
    while i < |moves|
      invariant 0 <= i <= |moves|
      invariant 0 <= k < |moves| && best == moves[k]
      invariant !raised ==> k == 0 && bestScore == -1 && NoneAbove(s, i, -1)
      invariant raised ==> LeadsUpTo(s, k, i) && bestScore == s[k] && bestScore > -1
    {
      var score := Evaluate(Child(b, me, true, moves[i]), me);
      assert score == s[i];
      if raised {
        LeadsStep(s, k, i);
      } else if score > bestScore {
        LeadsFirst(s, i, -1);
      }
      if score > bestScore {
        bestScore := score;
        best := moves[i];
        k := i;
        raised := true;
      }
      i := i + 1;
    }
    if raised {
      assert FirstArgMax(s, k);
      assert s[k] > -1;
    } else {
      assert NoneAbove(s, |s|, -1);
    }
    assert GreedyPick(s, k);
  }

  /** The -1 bar lets a worse move through: with scores -50 and -2 the
      loop never raises its bar and keeps the first move. */
  lemma GreedyBarKeepsWorseMove()
    ensures GreedyPick([-50, -2], 0)
    ensures !FirstArgMax([-50, -2], 0) && FirstArgMax([-50, -2], 1)
  {
    var s := [-50, -2];
    assert s[0] <= -1 && s[1] <= -1 && s[0] < s[1];
  }

  /** The greedy rule with the bar the minimax loop uses, -∞: the first
      move of greatest evaluation, whatever the sign of the scores. */
  method GreedyMoveIntended(b: Board, me: Player, moves: seq<Move>) returns (best: Move)
    requires EvalBoard(b) && |moves| > 0
    ensures exists k :: FirstArgMax(GreedyScores(b, me, moves), k) && best == moves[k]
  {
    ghost var s := GreedyScores(b, me, moves);
    best := moves[0];
    var bestScore := NegInf;
    ghost var k := 0;
    var i := 0;
    while i < |moves|
      invariant 0 <= i <= |moves|
      invariant 0 <= k < |moves| && best == moves[k]
      invariant i == 0 ==> bestScore == NegInf && k == 0
      invariant i > 0 ==> LeadsUpTo(s, k, i) && bestScore == Fin(s[k])
    {
      var score := Evaluate(Child(b, me, true, moves[i]), me);
      assert score == s[i];
      if i == 0 {
        LeadsFirst(s, 0, s[0] - 1);
      } else {
        LeadsStep(s, k, i);
      }
      if Lt(bestScore, Fin(score)) {
        bestScore := Fin(score);
        best := moves[i];
        k := i;
      }
      i := i + 1;
    }
    assert FirstArgMax(s, k);
  }

  /** Whenever some score beats -1 the two greedy rules agree. */
  lemma GreedyRulesAgree(s: seq<int>, k: int, j: int)
    requires GreedyPick(s, k) && 0 <= j < |s| && s[j] > -1
    ensures FirstArgMax(s, k)
  {
  }

  /** A later position than the first best one is never first best. */
  lemma FirstArgMaxNoLater(s: seq<int>, k: int, j: int)
    requires FirstArgMax(s, k) && k < j < |s|
    ensures !FirstArgMax(s, j)
  {
    assert s[j] <= s[k];
  }

  /** There is only one first position of the largest value. */
  lemma FirstArgMaxUnique(s: seq<int>, k1: int, k2: int)
    requires FirstArgMax(s, k1) && FirstArgMax(s, k2)
    ensures k1 == k2
  {
    if k1 < k2 {
      FirstArgMaxNoLater(s, k1, k2);
    } else if k2 < k1 {
      FirstArgMaxNoLater(s, k2, k1);
    }
  }

  /** _get_minimax_move: each move is searched by alpha-beta with the full
      window, and the first move of strictly greatest score wins; by
      FullWindowIsMinimax this is the first best move by plain minimax. */
  method MinimaxMove(b: Board, me: Player, difficulty: nat, moves: seq<Move>) returns (best: Move)
    requires EvalBoard(b) && 1 <= difficulty && |moves| > 0
    ensures exists k :: FirstArgMax(ChildValues(b, me, difficulty, moves, true), k) && best == moves[k]
  {
    ghost var s := ChildValues(b, me, difficulty, moves, true);
    best := moves[0];
    var bestScore := NegInf;
    ghost var k := 0;
    var i := 0;
    while i < |moves|
      invariant 0 <= i <= |moves|
      invariant 0 <= k < |moves| && best == moves[k]
      invariant i == 0 ==> bestScore == NegInf && k == 0
      invariant i > 0 ==> LeadsUpTo(s, k, i) && bestScore == Fin(s[k])
    {
      var score := Minimax(Child(b, me, true, moves[i]), me, difficulty - 1, NegInf, PosInf, false);
      RootScore(b, me, difficulty, moves, i);
      if i == 0 {
        LeadsFirst(s, 0, s[0] - 1);
      } else {
        LeadsStep(s, k, i);
      }
      if Lt(bestScore, score) {
        bestScore := score;
        best := moves[i];
        k := i;
      }
      i := i + 1;
    }
    assert FirstArgMax(s, k);
  }

  /** get_move: no move when the player has none; otherwise difficulty 1
      picks any legal move, 2 the greedy one (with its -1 bar, as
      GreedyMove), and higher levels search to depth difficulty - 1. */
  method GetMove(b: Board, me: Player, difficulty: nat) returns (choice: Option<Move>)
    requires WellFormed(b) && 1 <= difficulty && (2 <= difficulty ==> b.size <= 8)
    ensures choice.None? <==> forall r, c :: !IsValidMove(b, r, c, me)
    ensures choice.Some? ==> IsValidMove(b, choice.value.row, choice.value.col, me)
    ensures choice.Some? && difficulty == 2 ==>
      var moves := ValidMoves(b, me);
      exists k :: GreedyPick(GreedyScores(b, me, moves), k) && choice.value == moves[k]
    ensures choice.Some? && 3 <= difficulty ==>
      var moves := ValidMoves(b, me);
      exists k :: FirstArgMax(ChildValues(b, me, difficulty, moves, true), k) && choice.value == moves[k]
  {
    var moves := ValidMoves(b, me);
    ValidMovesSpec(b, me);
    if |moves| == 0 {
      forall r, c ensures !IsValidMove(b, r, c, me) {
        assert Move(r, c) !in moves;
      }
      return None;
    }
    assert moves[0] in moves;
    var m;
    if difficulty == 1 {
      m := RandomMove(moves);
    } else if difficulty == 2 {
      m := GreedyMove(b, me, moves);
    } else {
      m := MinimaxMove(b, me, difficulty, moves);
    }
    choice := Some(m);
  }

  /** get_move with the greedy bar corrected (see GreedyMoveIntended):
      difficulty 2 returns the first move of largest evaluation, whatever
      its sign; every other difficulty is GetMove's. */
  method GetMoveIntended(b: Board, me: Player, difficulty: nat) returns (choice: Option<Move>)
    requires WellFormed(b) && 1 <= difficulty && (2 <= difficulty ==> b.size <= 8)
    ensures choice.None? <==> forall r, c :: !IsValidMove(b, r, c, me)
    ensures choice.Some? ==> IsValidMove(b, choice.value.row, choice.value.col, me)
    ensures choice.Some? && difficulty == 2 ==>
      var moves := ValidMoves(b, me);
      exists k :: FirstArgMax(GreedyScores(b, me, moves), k) && choice.value == moves[k]
    ensures choice.Some? && 3 <= difficulty ==>
      var moves := ValidMoves(b, me);
      exists k :: FirstArgMax(ChildValues(b, me, difficulty, moves, true), k) && choice.value == moves[k]
  {
    if difficulty != 2 {
      choice := GetMove(b, me, difficulty);
      return;
    }
    var moves := ValidMoves(b, me);
    ValidMovesSpec(b, me);
    if |moves| == 0 {
      forall r, c ensures !IsValidMove(b, r, c, me) {
        assert Move(r, c) !in moves;
      }
      return None;
    }
    assert moves[0] in moves;
    var m := GreedyMoveIntended(b, me, moves);
    choice := Some(m);
  }
}
