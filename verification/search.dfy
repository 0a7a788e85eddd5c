/** The depth-limited search of OthelloCPU._minimax with alpha-beta
    pruning, and the plain minimax it is meant to compute.

    Scores are always finite; the window bounds may be infinite. Passing
    costs one ply: when the side to move has no move, the search recurses
    on the same board with the other side to move and one less depth. */
module Search {
  import opened Cells
  import opened Boards
  import opened Moves
  import opened Enumeration
  import opened Evaluation
  import opened ExtInts

  /** The side to move: the searching player `me` at maximizing nodes. */
  function Actor(me: Player, maximizing: bool): (q: Player)
    ensures maximizing <==> q == me
  {
    if maximizing then me else Opponent(me)
  }

  /** The board after the side to move plays m: the source copies the
      board and calls make_move on the copy, ignoring the success flag.
      Boards are values and Copy(b) == b, so the move is applied to b. */
  function Child(b: Board, me: Player, maximizing: bool, m: Move): (c: Board)
    requires EvalBoard(b)
    ensures EvalBoard(c)
  {
    MakeMove(b, m.row, m.col, Actor(me, maximizing)).board
  }

  /** _minimax(b, depth, alpha, beta, maximizing) for the CPU player `me`. */
  function Minimax(b: Board, me: Player, depth: nat, alpha: ExtInt, beta: ExtInt, maximizing: bool): (v: ExtInt)
    requires EvalBoard(b)
    ensures v.Fin?
    decreases depth, 1, 0
  {
    if depth == 0 || IsGameOver(b) then Fin(Evaluate(b, me))
    else
      var moves := ValidMoves(b, Actor(me, maximizing));
      if |moves| == 0 then Minimax(b, me, depth - 1, alpha, beta, !maximizing)
      else if maximizing then MaxLoop(b, me, depth, moves, 0, alpha, beta, NegInf)
      else MinLoop(b, me, depth, moves, 0, alpha, beta, PosInf)
  }

  /** The maximizing loop from moves[i] on, with the running alpha and the
      best score so far; stops as soon as beta <= alpha. */
  function MaxLoop(b: Board, me: Player, depth: nat, moves: seq<Move>, i: nat,
                   alpha: ExtInt, beta: ExtInt, best: ExtInt): (v: ExtInt)
    requires EvalBoard(b) && 1 <= depth && i <= |moves| && best != PosInf
    ensures best.Fin? || i < |moves| ==> v.Fin?
    ensures Le(best, v)
    decreases depth, 0, |moves| - i
  {
    if i == |moves| then best
    else
      var score := Minimax(Child(b, me, true, moves[i]), me, depth - 1, alpha, beta, false);
      var best' := Max(best, score);
      var alpha' := Max(alpha, score);
      if Le(beta, alpha') then best'
      else MaxLoop(b, me, depth, moves, i + 1, alpha', beta, best')
  }

  /** The minimizing loop, dual to MaxLoop. */
  function MinLoop(b: Board, me: Player, depth: nat, moves: seq<Move>, i: nat,
                   alpha: ExtInt, beta: ExtInt, best: ExtInt): (v: ExtInt)
    requires EvalBoard(b) && 1 <= depth && i <= |moves| && best != NegInf
    ensures best.Fin? || i < |moves| ==> v.Fin?
    ensures Le(v, best)
    decreases depth, 0, |moves| - i
  {
    if i == |moves| then best
    else
      var score := Minimax(Child(b, me, false, moves[i]), me, depth - 1, alpha, beta, true);
      var best' := Min(best, score);
      var beta' := Min(beta, score);
      if Le(beta', alpha) then best'
      else MinLoop(b, me, depth, moves, i + 1, alpha, beta', best')
  }

  /** Plain minimax without pruning: the value the search stands for. */
  function MinimaxValue(b: Board, me: Player, depth: nat, maximizing: bool): int
    requires EvalBoard(b)
    decreases depth, 1, 0
  {
    if depth == 0 || IsGameOver(b) then Evaluate(b, me)
    else
      var moves := ValidMoves(b, Actor(me, maximizing));
      if |moves| == 0 then MinimaxValue(b, me, depth - 1, !maximizing)
      else BestFrom(ChildValues(b, me, depth, moves, maximizing), 0, maximizing)
  }

  /** The minimax values of the children reached by each of the moves. */
  function ChildValues(b: Board, me: Player, depth: nat, moves: seq<Move>, maximizing: bool): (vs: seq<int>)
    requires EvalBoard(b) && 1 <= depth
    ensures |vs| == |moves|
    decreases depth, 0, |moves|
  {
    if |moves| == 0 then []
    else [MinimaxValue(Child(b, me, maximizing, moves[0]), me, depth - 1, !maximizing)]
         + ChildValues(b, me, depth, moves[1..], maximizing)
  }

  /** Entry j of ChildValues is the value of the child reached by moves[j]. */
  lemma {:induction false} ChildValuesAt(b: Board, me: Player, depth: nat, moves: seq<Move>, maximizing: bool, j: int)
    requires EvalBoard(b) && 1 <= depth && 0 <= j < |moves|
    ensures ChildValues(b, me, depth, moves, maximizing)[j]
         == MinimaxValue(Child(b, me, maximizing, moves[j]), me, depth - 1, !maximizing)
    decreases j
  {
    if j > 0 {
      ChildValuesAt(b, me, depth, moves[1..], maximizing, j - 1);
    }
  }

  /** The better of two values for the side to move; the first on a tie. */
  function Prefer(v: int, w: int, maximizing: bool): (r: int)
    ensures r == v || r == w
    ensures maximizing ==> v <= r && w <= r
    ensures !maximizing ==> r <= v && r <= w
  {
    if maximizing then (if v < w then w else v)
    else (if w < v then w else v)
  }

  /** The best of vs[i..] for the side to move. */
  function BestFrom(vs: seq<int>, i: nat, maximizing: bool): int
    requires i < |vs|
    decreases |vs| - i
  {
    if i + 1 == |vs| then vs[i]
    else Prefer(vs[i], BestFrom(vs, i + 1, maximizing), maximizing)
  }

  /** BestFrom is one of the values it ranges over. */
  lemma {:induction false} BestFromAttained(vs: seq<int>, i: nat, maximizing: bool)
    requires i < |vs|
    ensures exists j :: i <= j < |vs| && BestFrom(vs, i, maximizing) == vs[j]
    decreases |vs| - i
  {
    if BestFrom(vs, i, maximizing) == vs[i] {
      assert i <= i < |vs|;
    } else {
      BestFromAttained(vs, i + 1, maximizing);
      var j :| i + 1 <= j < |vs| && BestFrom(vs, i + 1, maximizing) == vs[j];
      assert i <= j < |vs|;
    }
  }

  /** BestFrom bounds every value it ranges over: from above when
      maximizing, from below when minimizing. */
  lemma {:induction false} BestFromBounds(vs: seq<int>, i: nat, maximizing: bool)
    requires i < |vs|
    ensures maximizing ==> forall k | i <= k < |vs| :: vs[k] <= BestFrom(vs, i, maximizing)
    ensures !maximizing ==> forall k | i <= k < |vs| :: BestFrom(vs, i, maximizing) <= vs[k]
    decreases |vs| - i
  {
    if i + 1 < |vs| {
      BestFromBounds(vs, i + 1, maximizing);
    }
  }

  /** The unpruned minimax value is the best child value for the side to
      move: the value of some child, no worse than any other. */
  lemma MinimaxValueIsBest(b: Board, me: Player, depth: nat, maximizing: bool)
    requires EvalBoard(b) && 1 <= depth && !IsGameOver(b)
    requires |ValidMoves(b, Actor(me, maximizing))| > 0
    ensures var vs := ChildValues(b, me, depth, ValidMoves(b, Actor(me, maximizing)), maximizing);
      && (exists j :: 0 <= j < |vs| && MinimaxValue(b, me, depth, maximizing) == vs[j])
      && (maximizing ==> forall j | 0 <= j < |vs| :: vs[j] <= MinimaxValue(b, me, depth, maximizing))
      && (!maximizing ==> forall j | 0 <= j < |vs| :: MinimaxValue(b, me, depth, maximizing) <= vs[j])
  {
    var vs := ChildValues(b, me, depth, ValidMoves(b, Actor(me, maximizing)), maximizing);
    UnfoldValue(b, me, depth, maximizing);
    BestFromAttained(vs, 0, maximizing);
    var j :| 0 <= j < |vs| && BestFrom(vs, 0, maximizing) == vs[j];
    assert MinimaxValue(b, me, depth, maximizing) == vs[j];
    BestFromBounds(vs, 0, maximizing);
  }

  /** The unpruned best of vs[i..] as an extended value; nothing left is
      -∞ for the maximizer. */
  function RestMax(vs: seq<int>, i: nat): ExtInt
    requires i <= |vs|
  {
    if i == |vs| then NegInf else Fin(BestFrom(vs, i, true))
  }

  /** Dual of RestMax: nothing left is +∞ for the minimizer. */
  function RestMin(vs: seq<int>, i: nat): ExtInt
    requires i <= |vs|
  {
    if i == |vs| then PosInf else Fin(BestFrom(vs, i, false))
  }

  /** Alpha-beta is exact inside its window: the pruned score and the
      unpruned minimax value agree once both are clamped to [alpha, beta]. */
  lemma {:induction false} AlphaBetaSound(b: Board, me: Player, depth: nat, alpha: ExtInt, beta: ExtInt, maximizing: bool)
    requires EvalBoard(b) && Lt(alpha, beta)
    ensures Clamp(Minimax(b, me, depth, alpha, beta, maximizing), alpha, beta)
         == Clamp(Fin(MinimaxValue(b, me, depth, maximizing)), alpha, beta)
    decreases depth, 1, 0, 0
  {
    if depth == 0 || IsGameOver(b) {
      UnfoldLeaf(b, me, depth, alpha, beta, maximizing);
    } else if |ValidMoves(b, Actor(me, maximizing))| == 0 {
      PassSound(b, me, depth, alpha, beta, maximizing);
    } else {
      NodeSound(b, me, depth, ValidMoves(b, Actor(me, maximizing)), alpha, beta, maximizing);
    }
  }

  /** AlphaBetaSound when the side to move has to pass. */
  lemma {:induction false} PassSound(b: Board, me: Player, depth: nat, alpha: ExtInt, beta: ExtInt, maximizing: bool)
    requires EvalBoard(b) && Lt(alpha, beta)
    requires depth > 0 && !IsGameOver(b) && |ValidMoves(b, Actor(me, maximizing))| == 0
    ensures Clamp(Minimax(b, me, depth, alpha, beta, maximizing), alpha, beta)
         == Clamp(Fin(MinimaxValue(b, me, depth, maximizing)), alpha, beta)
    decreases depth, 0, 0, 3
  {
    UnfoldPass(b, me, depth, alpha, beta, maximizing);
    AlphaBetaSound(b, me, depth - 1, alpha, beta, !maximizing);
  }

  /** AlphaBetaSound when the side to move has the moves `moves`. */
  lemma {:induction false} NodeSound(b: Board, me: Player, depth: nat, moves: seq<Move>,
                                     alpha: ExtInt, beta: ExtInt, maximizing: bool)
    requires EvalBoard(b) && Lt(alpha, beta)
    requires depth > 0 && !IsGameOver(b) && moves == ValidMoves(b, Actor(me, maximizing)) && |moves| > 0
    ensures Clamp(Minimax(b, me, depth, alpha, beta, maximizing), alpha, beta)
         == Clamp(Fin(MinimaxValue(b, me, depth, maximizing)), alpha, beta)
    decreases depth, 0, |moves|, 2
  {
    UnfoldNode(b, me, depth, alpha, beta, maximizing);
    if maximizing {
      MaxLoopSound(b, me, depth, moves, 0, alpha, beta, NegInf);
    } else {
      MinLoopSound(b, me, depth, moves, 0, alpha, beta, PosInf);
    }
  }

  lemma UnfoldLeaf(b: Board, me: Player, depth: nat, alpha: ExtInt, beta: ExtInt, maximizing: bool)
    requires EvalBoard(b) && (depth == 0 || IsGameOver(b))
    ensures Minimax(b, me, depth, alpha, beta, maximizing) == Fin(MinimaxValue(b, me, depth, maximizing))
  {
  }

  lemma UnfoldPass(b: Board, me: Player, depth: nat, alpha: ExtInt, beta: ExtInt, maximizing: bool)
    requires EvalBoard(b) && depth > 0 && !IsGameOver(b) && |ValidMoves(b, Actor(me, maximizing))| == 0
    ensures Minimax(b, me, depth, alpha, beta, maximizing) == Minimax(b, me, depth - 1, alpha, beta, !maximizing)
    ensures MinimaxValue(b, me, depth, maximizing) == MinimaxValue(b, me, depth - 1, !maximizing)
  {
  }

  lemma UnfoldValue(b: Board, me: Player, depth: nat, maximizing: bool)
    requires EvalBoard(b) && depth > 0 && !IsGameOver(b) && |ValidMoves(b, Actor(me, maximizing))| > 0
    ensures MinimaxValue(b, me, depth, maximizing)
         == BestFrom(ChildValues(b, me, depth, ValidMoves(b, Actor(me, maximizing)), maximizing), 0, maximizing)
  {
  }

  lemma UnfoldNode(b: Board, me: Player, depth: nat, alpha: ExtInt, beta: ExtInt, maximizing: bool)
    requires EvalBoard(b) && depth > 0 && !IsGameOver(b) && |ValidMoves(b, Actor(me, maximizing))| > 0
    ensures var moves := ValidMoves(b, Actor(me, maximizing));
      && Minimax(b, me, depth, alpha, beta, maximizing)
         == (if maximizing then MaxLoop(b, me, depth, moves, 0, alpha, beta, NegInf)
             else MinLoop(b, me, depth, moves, 0, alpha, beta, PosInf))
      && (maximizing ==> Fin(MinimaxValue(b, me, depth, maximizing)) == RestMax(ChildValues(b, me, depth, moves, true), 0))
      && (!maximizing ==> Fin(MinimaxValue(b, me, depth, maximizing)) == RestMin(ChildValues(b, me, depth, moves, false), 0))
  {
    UnfoldValue(b, me, depth, maximizing);
  }

  /** vs[i..] is vs[i] followed by vs[i+1..]. */
  lemma RestMaxStep(vs: seq<int>, i: nat)
    requires i < |vs|
    ensures RestMax(vs, i) == Max(Fin(vs[i]), RestMax(vs, i + 1))
  {
  }

  lemma RestMinStep(vs: seq<int>, i: nat)
    requires i < |vs|
    ensures RestMin(vs, i) == Min(Fin(vs[i]), RestMin(vs, i + 1))
  {
  }

  /** The score the loop gets for moves[i] agrees, inside the window, with
      that child's unpruned value. */
  lemma {:induction false} ChildSound(b: Board, me: Player, depth: nat, moves: seq<Move>, i: nat,
                                      alpha: ExtInt, beta: ExtInt, maximizing: bool)
    requires EvalBoard(b) && 1 <= depth && i < |moves| && Lt(alpha, beta)
    ensures Clamp(Minimax(Child(b, me, maximizing, moves[i]), me, depth - 1, alpha, beta, !maximizing), alpha, beta)
         == Clamp(Fin(ChildValues(b, me, depth, moves, maximizing)[i]), alpha, beta)
    decreases depth, 0, |moves| - i, 0
  {
    ChildValuesAt(b, me, depth, moves, maximizing, i);
    AlphaBetaSound(Child(b, me, maximizing, moves[i]), me, depth - 1, alpha, beta, !maximizing);
  }

  /** The maximizing loop, started with a best score at or below alpha,
      agrees inside the window with the best of that score and the
      unpruned values of the remaining children. */
  lemma {:induction false} MaxLoopSound(b: Board, me: Player, depth: nat, moves: seq<Move>, i: nat,
                                        alpha: ExtInt, beta: ExtInt, best: ExtInt)
    requires EvalBoard(b) && 1 <= depth && i <= |moves| && best != PosInf
    requires Lt(alpha, beta) && Le(best, alpha)
    ensures Clamp(MaxLoop(b, me, depth, moves, i, alpha, beta, best), alpha, beta)
         == Clamp(Max(best, RestMax(ChildValues(b, me, depth, moves, true), i)), alpha, beta)
    decreases depth, 0, |moves| - i, 1
  {
    if i < |moves| {
      var score := Minimax(Child(b, me, true, moves[i]), me, depth - 1, alpha, beta, false);
      var vs := ChildValues(b, me, depth, moves, true);
      ChildSound(b, me, depth, moves, i, alpha, beta, true);
      RestMaxStep(vs, i);
      var best' := Max(best, score);
      var alpha' := Max(alpha, score);
      if Le(beta, alpha') {
        MaxCutoff(alpha, beta, best, score, Fin(vs[i]), RestMax(vs, i + 1));
      } else {
        MaxLoopSound(b, me, depth, moves, i + 1, alpha', beta, best');
        MaxContinue(alpha, beta, best, score, Fin(vs[i]), RestMax(vs, i + 1),
                    MaxLoop(b, me, depth, moves, i + 1, alpha', beta, best'));
      }
    }
  }

  /** Dual of MaxLoopSound for the minimizing loop. */
  lemma {:induction false} MinLoopSound(b: Board, me: Player, depth: nat, moves: seq<Move>, i: nat,
                                        alpha: ExtInt, beta: ExtInt, best: ExtInt)
    requires EvalBoard(b) && 1 <= depth && i <= |moves| && best != NegInf
    requires Lt(alpha, beta) && Le(beta, best)
    ensures Clamp(MinLoop(b, me, depth, moves, i, alpha, beta, best), alpha, beta)
         == Clamp(Min(best, RestMin(ChildValues(b, me, depth, moves, false), i)), alpha, beta)
    decreases depth, 0, |moves| - i, 1
  {
    if i < |moves| {
      var score := Minimax(Child(b, me, false, moves[i]), me, depth - 1, alpha, beta, true);
      var vs := ChildValues(b, me, depth, moves, false);
      ChildSound(b, me, depth, moves, i, alpha, beta, false);
      RestMinStep(vs, i);
      var best' := Min(best, score);
      var beta' := Min(beta, score);
      if Le(beta', alpha) {
        MinCutoff(alpha, beta, best, score, Fin(vs[i]), RestMin(vs, i + 1));
      } else {
        MinLoopSound(b, me, depth, moves, i + 1, alpha, beta', best');
        MinContinue(alpha, beta, best, score, Fin(vs[i]), RestMin(vs, i + 1),
                    MinLoop(b, me, depth, moves, i + 1, alpha, beta', best'));
      }
    }
  }

  /** With the window the CPU opens at the root, (-∞, +∞), pruning changes
      nothing: the search returns exactly the minimax value. */
  lemma FullWindowIsMinimax(b: Board, me: Player, depth: nat, maximizing: bool)
    requires EvalBoard(b)
    ensures Minimax(b, me, depth, NegInf, PosInf, maximizing) == Fin(MinimaxValue(b, me, depth, maximizing))
  {
    AlphaBetaSound(b, me, depth, NegInf, PosInf, maximizing);
    ClampFullWindow(Minimax(b, me, depth, NegInf, PosInf, maximizing));
    ClampFullWindow(Fin(MinimaxValue(b, me, depth, maximizing)));
  }
}
