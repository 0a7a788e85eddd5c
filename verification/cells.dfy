/** The contents of one board square and the two players who move.

    The source reuses one signed enumeration for both roles (Black = 1,
    White = -1, Empty = 0). Here a mover is always one of the two players,
    and a square is either empty or holds a disc owned by a player.
 */
module Cells {

  datatype Player = Black | White

  datatype Cell = Empty | Disc(owner: Player)

  /** A minimal optional value, used for "no square" and "no move". */
  datatype Option<T> = None | Some(value: T)

  /** The other player: the CPU's opponent, or the side to move after a ply. */
  function Opponent(p: Player): (q: Player)
    ensures q != p
    ensures p == Black <==> q == White
  {
    match p
    case Black => White
    case White => Black
  }
}
