/** The turn rule of the Snake game (legal_move in Snake/Snake.py). */
module Turns {
  import opened Coordinates

  /**
   * legal_move: a turn is allowed only onto the other axis. The source
   * returns True or the falsy None; here that is true or false.
   */
  function LegalMove(eventData: string, direction: string): (r: bool)
    ensures r <==> IsDirection(eventData) && IsDirection(direction)
                   && IsHorizontal(eventData) != IsHorizontal(direction)
  {
    if eventData in {"l", "r"} && direction in {"u", "d"} then true
    else if eventData in {"u", "d"} && direction in {"l", "r"} then true
    else false
  }

  /** Repeating the current heading or reversing it is never a legal turn. */
  lemma NoRepeatNoReversal(direction: string)
    ensures !LegalMove(direction, direction)
    ensures !LegalMove(Opposite(direction), direction)
  {
  }

  /** Heading right, exactly up and down are accepted. */
  lemma TurnsFromRight(eventData: string)
    ensures LegalMove(eventData, "r") <==> eventData == "u" || eventData == "d"
  {
  }

  /**
   * Why reversals are refused: stepping back puts the head onto the cell
   * it came from, while after a legal turn it never lands there.
   */
  lemma LegalTurnLeavesPreviousCell(p: Pos, direction: string, eventData: string)
    requires InGrid(p) && IsDirection(direction)
    ensures Moved(Moved(p, direction), Opposite(direction)) == p
    ensures LegalMove(eventData, direction) ==> Moved(Moved(p, direction), eventData) != p
  {
    MovedOppositeUndoes(p, direction);
  }
}
