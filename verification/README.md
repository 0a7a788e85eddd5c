# Othello rules and CPU player, modelled in Dafny

This project models the game engine of `othello.py`. It has two parts.

- The board, `OthelloBoard`: the starting position, move legality, applying a move with its disc flips, the list of legal moves, the score, and the end of the game.
- The computer player, `OthelloCPU`: the static evaluator with its 8 × 8 position table, and the three move-choice strategies.
  - Difficulty 1 picks a random legal move.
  - Difficulty 2 ranks the moves by the evaluation of the board each one leaves. It starts from the first move with a bar of -1. It then looks at every move in order, and a move replaces the current choice when it evaluates strictly above the best evaluation seen so far.
  - Difficulty 3 and above run a depth-limited minimax with alpha-beta pruning, to depth `difficulty - 1`.

Boards are immutable values. An update returns a new board, and a move returns the success flag of `make_move` together with the resulting board.

Each operation follows the structure of the source. The greedy loop and the root loop of the minimax strategy stay `while` loops with invariants. The other loops become recursive functions over the same indices, in the same order, with the same early exits. Each operation is paired with an independent declarative description, and a lemma connects the two:

- Legality is paired with `Brackets`: a run of opponent discs closed by one of the mover's own discs.
- A move is paired with `Captured`: the discs bracketed on the board before the move.
- The move list is paired with membership, row-major order and absence of duplicates.
- The pruned search is paired with plain minimax, `MinimaxValue`. Inside any window the two agree once clamped to it. With the full window they are equal.
- The move choice is paired with "the first position of the largest value" (`FirstArgMax`).

Modules, in dependency order:

- `Cells`: players, squares, the opponent.
- `Boards`: the grid, one-square updates, copying, counting, the starting position.
- `Rays`: the eight directions and the squares a ray passes through.
- `Legality`: `_can_flip_in_direction` and `is_valid_move`.
- `Moves`: `_flip_pieces_in_direction` and `make_move`.
- `Enumeration`: `get_valid_moves` and `is_game_over`.
- `ExtInts`: integers with −∞ and +∞, standing for the search's float bounds.
- `Evaluation`: `_evaluate_board`.
- `Search`: `_minimax`.
- `Policy`: `get_move` and its strategies.
- `Opening`: the concrete facts about the standard 8 × 8 opening.

## Model

| member | source | states |
|---|---|---|
| Cells.Opponent | othello.py:145 | The opponent is never the player itself: Black's opponent is White and White's is Black. |
| Boards.Set | othello.py:79 | Writing a square gives a board of the same size holding the new value there, with every other square unchanged. |
| Boards.Copy | othello.py:123-127 | A board rebuilt square by square from the original equals the original, and is a separate value that later moves cannot share. |
| Boards.GetScore | othello.py:112-116 | Black's count plus White's count plus the number of empty squares is size × size. |
| Boards.CountSet | othello.py:112-116 | Overwriting one square moves exactly one square from the old value's count to the new value's count; every other count stays the same. |
| Boards.Init | othello.py:23-35 | A new board of size n ≥ 2 is n × n. With h = n / 2, White is on (h-1, h-1) and (h, h), Black on (h-1, h) and (h, h-1), and every other square is empty. |
| Boards.InitCounts | othello.py:29-35 | A new board of any size n ≥ 2 holds exactly two discs of each colour. |
| Boards.InitScore | backend/tests/test_othello.py:64-71 | The score of a new board is (2, 2). |
| Rays.RaysDisjoint | othello.py:45-46 | Rays from one square in two different directions share no square, so flips in one direction cannot disturb another. |
| Legality.ScanFromSpec | othello.py:58-72 | The direction walk, resumed at square k, returns true exactly when some later square holds the mover's disc, every square between holds an opponent disc, and at least one opponent disc has been passed. |
| Legality.CanFlipSpec | othello.py:54-72 | `_can_flip_in_direction` is true exactly when the direction is bracketed: one or more opponent discs starting next to the square, closed by one of the mover's discs, with no gap and no edge before it. |
| Legality.BracketsUnique | othello.py:61-67 | A direction has at most one bracketing disc: the first of the mover's discs on it. |
| Legality.BracketsFrame | othello.py:54-72 | Whether a direction is bracketed depends only on the squares of that ray. |
| Legality.FlipsSomeDirectionSpec | othello.py:45-52 | The loop over directions, with its early return, succeeds from direction i on exactly when some direction j ≥ i is bracketed. |
| Legality.IsValidMoveSpec | othello.py:37-52 | A move is legal exactly when the square is on the board, is empty, and has at least one bracketed direction. Off-board and occupied squares are rejected. |
| Legality.ValidMoveTouchesOpponent | othello.py:37-72 | Every legal move is next to an opponent disc. |
| Moves.CapturedIsOpponent | othello.py:61-67 | Every captured square is on the board and holds an opponent disc before the move. |
| Moves.FlipFromEffect | othello.py:90-101 | On a run of opponent discs from square k to square m-1 closed by the mover's disc at m, the flip walk turns exactly those squares to the mover and leaves every other square as it was. |
| Moves.FlipFromCountOf | othello.py:90-101 | Flipping that run moves m - k discs from the opponent's count to the mover's; the empty count is unchanged. |
| Moves.FlipAllEffect | othello.py:84-86 | The direction loop re-checks each direction on the partly flipped board. It still flips exactly the runs bracketed on the board before the move, and reports a gain of at least one when any direction is bracketed. |
| Moves.ApplyLegal | othello.py:74-88 | After a legal move the target holds the mover's disc and every captured square turns to the mover; nothing else changes. For some gain ≥ 1, the mover gains 1 + gain discs, the opponent loses gain, and one empty square fewer remains. |
| Moves.MakeMoveEffect | othello.py:74-88 | An illegal move returns false and leaves the board unchanged. A legal move returns true, places the disc, turns over exactly the opponent discs bracketed before the move, and leaves every other square alone. |
| Moves.MoveSquare | othello.py:74-88 | After a legal move, every square other than the target holds the mover's disc if the move captured it, and otherwise what it held before. |
| Moves.MakeMoveScore | othello.py:74-88 | After a legal move there is some k ≥ 1 such that the mover's score rises by 1 + k and the opponent's falls by k. |
| Enumeration.MovesInRowSpec | othello.py:107-109 | The column loop lists, in increasing column order, exactly the legal squares of its row from the starting column on. |
| Enumeration.MovesFromRowSpec | othello.py:106-109 | The row loop lists, in row-major order, exactly the legal squares from the starting row on. |
| Enumeration.ValidMovesSpec | othello.py:103-110 | A square is in `get_valid_moves` exactly when it is a legal move. The list is in row-major order and has no duplicates. |
| Enumeration.RowMajorUnique | othello.py:103-110 | Two row-major lists with the same members are the same list, so the move list is fixed by which squares are legal. |
| Enumeration.ValidMovesLength | othello.py:103-110 | The move list has at most size × size entries: at most one per square. |
| Enumeration.GameOverSpec | othello.py:118-121 | The game is over exactly when no square is a legal move for either player. |
| Enumeration.FullBoardIsOver | backend/tests/test_othello.py:127-134 | A board with no empty square is a finished game: no player has a move there. |
| ExtInts.LeTotalOrder | othello.py:239-241 | The order on scores extended with ±∞ is a total order, as Python's comparison of these floats is. |
| ExtInts.Max | othello.py:239-240 | Python's `max` returns one of its two arguments and is at least as large as both. |
| ExtInts.Min | othello.py:250-251 | Python's `min` returns one of its two arguments and is no larger than either. |
| ExtInts.ClampFullWindow | othello.py:206-208 | Clamping to the root window (−∞, +∞) leaves every value unchanged. |
| ExtInts.MaxCutoff | othello.py:239-242 | When a maximizing loop breaks because beta ≤ alpha, the skipped children cannot change its value as seen inside the window. |
| ExtInts.MaxContinue | othello.py:239-243 | When a maximizing loop goes on, a result that is exact inside the narrowed window [max(alpha, score), beta] is exact inside [alpha, beta]. |
| ExtInts.MinCutoff | othello.py:250-253 | The break of a minimizing loop cannot change its value as seen inside the window. |
| ExtInts.MinContinue | othello.py:250-254 | When a minimizing loop goes on, a result that is exact inside [alpha, min(beta, score)] is exact inside [alpha, beta]. |
| Evaluation.Evaluate | othello.py:258-273 | On a finished game the evaluation is 1000 exactly when the CPU has more discs, -1000 exactly when it has fewer, and 0 exactly on a tie. |
| Evaluation.PositionFromAntisymmetric | othello.py:284-292 | The position term for one player is the negation of the term for the other. |
| Evaluation.EvaluateAntisymmetric | othello.py:256-299 | The evaluation for one player is the negation of the evaluation for the other, on finished and unfinished boards alike. |
| Evaluation.HeuristicBounded | othello.py:275-299 | On an unfinished board of at most 8 × 8, the heuristic sum lies within ±7360. The disc term contributes at most 10 × 64, the position term 100 × 64 and the mobility term 5 × 64. |
| Evaluation.PositionSet | othello.py:284-292 | Writing one square changes the position term by that square's own change of contribution and nothing else. |
| Evaluation.HeuristicOutranksWin | othello.py:256-299 | The 8 × 8 board with (1,1) empty, White on (1,6), (6,1) and (6,6) and Black everywhere else is not a finished game. On it Black's evaluation is 1027, more than the 1000 that a won game is worth. |
| Evaluation.CrowdedWhiteMoves | othello.py:103-110 | On that board White's only legal move is (1,1), which brackets (2,2) to (5,5) against (6,6). |
| Evaluation.CrowdedBlackMoves | othello.py:103-110 | On that board Black has no legal move: the empty square (1,1) touches no White disc. |
| Evaluation.EvaluateIntended | othello.py:256-273 | The evaluator with 10000 as the value of a finished game: 10000 exactly when the CPU has more discs, -10000 exactly when it has fewer, 0 exactly on a tie. |
| Evaluation.UnfinishedBetweenOutcomes | othello.py:256-299 | With 10000 as the terminal value, every unfinished position is worth strictly less than a won game and strictly more than a lost one. |
| Search.Actor | othello.py:225 | The side to move is the CPU exactly at maximizing nodes. |
| Search.Minimax | othello.py:217-254 | The search terminates: depth falls on every recursive call, including a pass. It always returns a finite score, never one of the infinite bounds. |
| Search.MaxLoop | othello.py:232-243 | The maximizing loop never returns less than the best score so far, and returns a finite score once any move has been searched. |
| Search.MinLoop | othello.py:244-254 | The minimizing loop never returns more than the best score so far, and returns a finite score once any move has been searched. |
| Search.MinimaxValueIsBest | othello.py:232-254 | Without pruning, the value of a node with moves equals the value of one of its children. It is no worse for the side to move than any other child. |
| Search.PassSound | othello.py:228-230 | At a node where the side to move must pass, the pruned search agrees, within its window, with the unpruned value (one ply is spent on the pass). |
| Search.ChildSound | othello.py:234-238 | The score the loop obtains for the i-th move agrees, within the window, with that child's unpruned value. |
| Search.MaxLoopSound | othello.py:232-243 | The maximizing loop with pruning agrees, within its window, with the unpruned best over the remaining children. |
| Search.MinLoopSound | othello.py:244-254 | The minimizing loop with pruning agrees, within its window, with the unpruned worst over the remaining children. |
| Search.NodeSound | othello.py:232-254 | At a node with moves, the pruned search agrees, within its window, with the unpruned value. |
| Search.AlphaBetaSound | othello.py:217-254 | For any window with alpha < beta, the alpha-beta result and the plain minimax value are equal once both are clamped to [alpha, beta]. |
| Search.FullWindowIsMinimax | othello.py:206-208 | With the root's window (−∞, +∞), pruning changes nothing: the search returns exactly the minimax value. |
| Policy.RootScore | othello.py:202-209 | The score the root loop obtains for each move is that child's plain minimax value. |
| Policy.RandomMove | othello.py:173-175 | The random strategy returns a member of the move list. |
| Policy.GreedyMove | othello.py:177-193 | The greedy loop as written keeps the first move when no evaluation beats -1. Otherwise it picks the first move with the largest evaluation. |
| Policy.GreedyBarKeepsWorseMove | othello.py:181-191 | With evaluations -50 and -2 the greedy loop as written keeps the first move, though the second is strictly better. |
| Policy.GreedyMoveIntended | othello.py:177-193 | The greedy choice with a −∞ starting bar is the first move of largest evaluation, whatever the sign of the scores. |
| Policy.GreedyRulesAgree | othello.py:182-191 | When some evaluation exceeds -1, the as-written greedy rule already picks the first move of largest evaluation. |
| Policy.FirstArgMaxUnique | othello.py:211-213 | The strict `>` comparison makes the choice unique: only one position is the first of the largest value. |
| Policy.MinimaxMove | othello.py:195-215 | The minimax strategy returns the first move whose plain minimax value to depth difficulty - 1 is largest. |
| Policy.GetMove | othello.py:160-171 | No move is returned exactly when the CPU has no legal move. Any move returned is legal. Difficulty 2 follows the greedy rule as written: the first move when no evaluation exceeds -1, otherwise the first move of largest evaluation. Difficulty 3 and above return the first move of best minimax value. |
| Policy.GetMoveIntended | othello.py:160-171 | The same entry point with the corrected greedy rule: no move exactly when the CPU has none, any move returned is legal, difficulty 2 returns the first move of largest evaluation whatever its sign, and difficulty 3 and above return the first move of best minimax value. |
| Opening.InitIsStart | backend/tests/test_othello.py:18-28 | A new 8 × 8 board has White on (3,3) and (4,4), Black on (3,4) and (4,3), and every other square empty. |
| Opening.StartValid | othello.py:37-72 | On the starting board, a square is legal for a player exactly when it is one of that player's four opening moves. |
| Opening.StartValidMoves | backend/tests/test_othello.py:30-40 | On a starting board, Black's move list is exactly (2,3), (3,2), (4,5), (5,4) and White's is (2,4), (3,5), (4,2), (5,3), in that order. |
| Opening.InitValidMoves | backend/tests/test_othello.py:30-40 | The same move lists hold for the board a new game builds. |
| Opening.StartRejects | backend/tests/test_othello.py:51-62 | Any other first move by Black returns false and leaves the board unchanged. This covers an occupied square such as (3,3), an off-board square such as (8,8), and an out-of-contact square such as (0,0). |
| Opening.StartNotOver | backend/tests/test_othello.py:79-82 | A fresh game is not over. |
| Opening.OpeningTarget | backend/tests/test_othello.py:42-48 | After Black plays (2,3) on a starting board, (2,3) holds a Black disc. |
| Opening.OpeningFlip | backend/tests/test_othello.py:42-49 | The same move turns White's (3,3) to Black. |
| Opening.OpeningKeep | othello.py:74-88 | The same move leaves White's (4,4) as it was, since no ray from (2,3) brackets it. |
| Opening.OpeningCells | backend/tests/test_othello.py:42-49 | After Black plays (2,3) on a starting board, (2,3) and (3,3) are Black and (4,4) is still White. |
| Opening.OneOfTwoCaptured | othello.py:74-88 | Suppose the opponent has two discs and one of them survives a legal move. Then the mover gains two discs and the opponent keeps one. |
| Opening.StartIsInit | othello.py:29-35 | Any board laid out as at the start is the board a new 8 × 8 game builds. |
| Opening.StartCounts | backend/tests/test_othello.py:64-71 | A starting board holds two discs of each colour. |
| Opening.OpeningMoveOn | backend/tests/test_othello.py:64-77 | From a starting board, Black's (2,3) gives the score (4, 1). |
| Opening.OpeningMove | backend/tests/test_othello.py:73-77 | On the board a new game builds, Black's (2,3) flips (3,3) and the score becomes (4, 1). |

## Left out

- `OthelloGame` (othello.py:302 onwards) is not modelled. It is the console game loop, with keyboard input and turn alternation, and it is I/O.
- `OthelloBoard.__str__` (othello.py:129-136) is not modelled. It only renders text.
- `api_server.py` and `backend/app` are not part of this model. They are the HTTP layer around the engine.
- `random.choice` becomes a nondeterministic choice in `Policy.RandomMove`. The model promises only that the choice is a member of the list.
- NumPy storage is not modelled. The signed-integer cell encoding and the `Player.EMPTY` member become `Cell` and `Player`.
- Python floats are not modelled.
  - Every score the engine computes is an integer, so scores are `int`.
  - `float('-inf')` and `float('inf')` become `ExtInts.ExtInt`.
- Evaluation.EvalBoard limits the evaluator to boards of at most 8 × 8. The source reads the 8 × 8 position table only for squares that hold a disc, and only on unfinished boards. So a larger board evaluates normally, a fresh 10 × 10 board among them, until a disc stands on row or column 8 or beyond of an unfinished game. From then on the source raises `IndexError`. The model does not cover larger boards at all.
  - As a result, `Policy.GetMove` requires size ≤ 8 for difficulty 2 and above.
  - Difficulty 1 never evaluates, so it works on any size.
- Policy.GetMove requires difficulty ≥ 1. With difficulty 0 or below, the source calls `_minimax` with a negative depth. That depth never reaches 0, so the search runs until the game is over. The model's depth is a natural number.
- Boards.Init requires n ≥ 2.
  - For size 1, NumPy's negative indices make all four writes land on the single square.
  - For size 0, the source raises `IndexError`.
- Evaluation.Evaluate: its contract pins down only finished games. For an unfinished game, the formula 10 × disc difference + position term + 5 × mobility difference appears only in the body of Evaluation.Heuristic. EvaluateAntisymmetric states that the value for one player is the negation of the value for the other, and HeuristicBounded bounds it by ±7360.
- The search and the move choice keep the terminal value as written, 1000. The corrected evaluator of the Findings, Evaluation.EvaluateIntended, is not used by the search.
- Search.Minimax: its own contract states only that it terminates and returns a finite score. What the score means is stated by AlphaBetaSound and FullWindowIsMinimax.
- The greedy rule is kept as written, -1 bar included: Policy.GetMove calls Policy.GreedyMove for difficulty 2. The corrected rule of the Findings, Policy.GreedyMoveIntended, is used only by Policy.GetMoveIntended, which is otherwise the same entry point.
- The docstring of `_get_greedy_move` says it picks "the move that flips the most pieces". The code ranks moves by the evaluator instead, and the model follows the code.
- The game-flow test (backend/tests/test_othello.py:185-202) goes through `OthelloGame`, so it is not modelled. Its score bound follows from Boards.GetScore.

## Findings

| source | as written | input that shows it | evidently intended | confidence | as-written member | corrected member |
|---|---|---|---|---|---|---|
| othello.py:182 | The greedy strategy starts with `best_score = -1` and replaces the first move only when an evaluation is strictly greater than -1. | Two legal moves whose boards evaluate to -50 and -2: the first move, the worse one, is returned. | Start from −∞, as `_get_minimax_move` does at othello.py:200, so that the first move of largest evaluation is returned whatever the sign. The -1 bar suits a count of flipped discs, which is always at least 1, and not the evaluator, which is often negative. | medium; not executed | Policy.GreedyMove, Policy.GreedyBarKeepsWorseMove | Policy.GreedyMoveIntended, Policy.GetMoveIntended |
| othello.py:262 | A finished game is worth 1000 to the winner, but the heuristic for an unfinished position is not bounded by 1000, so it can evaluate higher. | The 8 × 8 board with (1,1) empty, White on (1,6), (6,1) and (6,6), Black elsewhere. White can still play (1,1), so the game is not over, and Black's evaluation is 10 × 57 + 462 + 5 × (0 − 1) = 1027. The search then prefers this position to any won game. | A terminal value above every heuristic sum, so that a won game always outranks an unfinished one. The heuristic never leaves ±7360 on an 8 × 8 board, so 10000 suffices. | medium; not executed | Evaluation.Evaluate, Evaluation.HeuristicOutranksWin | Evaluation.EvaluateIntended, Evaluation.UnfinishedBetweenOutcomes |
