/** Sides of the game and the sign each one carries (team.py). */
module Teams {

  /** RED, BLACK, or the NONE side that an empty square belongs to. */
  datatype Team = Red | Black | NoTeam

  /** The numeric sign of a side: RED = 1, BLACK = -1, NONE = 0. */
  function Value(t: Team): int {
    match t
    case Red => 1
    case Black => -1
    case NoTeam => 0
  }

  /** A side that pieces belong to and that can be to move. */
  type Player = t: Team | t != NoTeam witness Red

  /** The other side; BLACK's opponent is RED and every other side's is BLACK. */
  function Opponent(t: Player): (o: Player)
    ensures Value(o) == -Value(t)
    ensures o != t
  {
    if t == Black then Red else Black
  }
}
