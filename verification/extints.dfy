/** Integers extended with -∞ and +∞: the search's float('-inf') and
    float('inf') bounds, over scores that are otherwise always integers. */
module ExtInts {

  datatype ExtInt = NegInf | Fin(n: int) | PosInf

  /** The order of the extended line (Python's <= on these floats). */
  predicate Le(x: ExtInt, y: ExtInt) {
    x.NegInf? || y.PosInf? || (x.Fin? && y.Fin? && x.n <= y.n)
  }

  predicate Lt(x: ExtInt, y: ExtInt) {
    !Le(y, x)
  }

  /** Python's max of two values. */
  function Max(x: ExtInt, y: ExtInt): (r: ExtInt)
    ensures Le(x, r) && Le(y, r) && (r == x || r == y)
  {
    if Le(x, y) then y else x
  }

  /** Python's min of two values. */
  function Min(x: ExtInt, y: ExtInt): (r: ExtInt)
    ensures Le(r, x) && Le(r, y) && (r == x || r == y)
  {
    if Le(x, y) then x else y
  }

  /** x cut down to the window [lo, hi]: what an alpha-beta search with
      that window can tell apart. */
  function Clamp(x: ExtInt, lo: ExtInt, hi: ExtInt): ExtInt {
    Max(lo, Min(x, hi))
  }

  /** Le is a total order. */
  lemma LeTotalOrder(x: ExtInt, y: ExtInt, z: ExtInt)
    ensures Le(x, x)
    ensures Le(x, y) || Le(y, x)
    ensures Le(x, y) && Le(y, x) ==> x == y
    ensures Le(x, y) && Le(y, z) ==> Le(x, z)
  {
  }

  /** The full window leaves every value as it is. */
  lemma ClampFullWindow(x: ExtInt)
    ensures Clamp(x, NegInf, PosInf) == x
  {
  }

  /** One step of a maximizing alpha-beta loop that hits the cutoff: once
      the score reaches beta, the rest of the children cannot change what
      the window shows. */
  lemma MaxCutoff(alpha: ExtInt, beta: ExtInt, best: ExtInt, score: ExtInt, v: ExtInt, rest: ExtInt)
    requires Lt(alpha, beta) && Le(best, alpha)
    requires Clamp(score, alpha, beta) == Clamp(v, alpha, beta)
    requires Le(beta, Max(alpha, score))
    ensures Clamp(Max(best, score), alpha, beta) == Clamp(Max(best, Max(v, rest)), alpha, beta)
  {
  }

  /** One step of a maximizing alpha-beta loop that goes on: the window
      narrows to [max(alpha, score), beta] and what the rest of the loop
      returns inside it is what the whole loop returns inside [alpha, beta]. */
  lemma MaxContinue(alpha: ExtInt, beta: ExtInt, best: ExtInt, score: ExtInt, v: ExtInt, rest: ExtInt, r: ExtInt)
    requires Lt(alpha, beta) && Le(best, alpha) && score.Fin?
    requires Clamp(score, alpha, beta) == Clamp(v, alpha, beta)
    requires !Le(beta, Max(alpha, score))
    requires Le(Max(best, score), r)
    requires Clamp(r, Max(alpha, score), beta) == Clamp(Max(Max(best, score), rest), Max(alpha, score), beta)
    ensures Clamp(r, alpha, beta) == Clamp(Max(best, Max(v, rest)), alpha, beta)
  {
  }

  /** Dual of MaxCutoff for a minimizing loop. */
  lemma MinCutoff(alpha: ExtInt, beta: ExtInt, best: ExtInt, score: ExtInt, v: ExtInt, rest: ExtInt)
    requires Lt(alpha, beta) && Le(beta, best)
    requires Clamp(score, alpha, beta) == Clamp(v, alpha, beta)
    requires Le(Min(beta, score), alpha)
    ensures Clamp(Min(best, score), alpha, beta) == Clamp(Min(best, Min(v, rest)), alpha, beta)
  {
  }

  /** Dual of MaxContinue for a minimizing loop. */
  lemma MinContinue(alpha: ExtInt, beta: ExtInt, best: ExtInt, score: ExtInt, v: ExtInt, rest: ExtInt, r: ExtInt)
    requires Lt(alpha, beta) && Le(beta, best) && score.Fin?
    requires Clamp(score, alpha, beta) == Clamp(v, alpha, beta)
    requires !Le(Min(beta, score), alpha)
    requires Le(r, Min(best, score))
    requires Clamp(r, alpha, Min(beta, score)) == Clamp(Min(Min(best, score), rest), alpha, Min(beta, score))
    ensures Clamp(r, alpha, beta) == Clamp(Min(best, Min(v, rest)), alpha, beta)
  {
  }
}
