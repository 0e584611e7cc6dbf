/** The turn and state machine of `GameContainer`: the four pieces of state it
    keeps, the click handler, the reset handler and the status message. */
module Game {
  import opened Board

  /** A snapshot of the component's state: `field`, `currentPlayer`,
      `isGameEnded` and `isDraw`. */
  datatype GameState = GameState(field: seq<Cell>, currentPlayer: Mark, isGameEnded: bool, isDraw: bool)

  /** The state at mount and after a reset: an empty board, 'X' to move, no flag set. */
  const Initial: GameState := GameState(InitialField, X, false, false)

  /** Whether a click on `index` is taken: the game has not ended and
      `field[index] === ''`, which fails for an occupied cell and for an index
      outside the board (where `field[index]` is undefined). */
  predicate Accepts(s: GameState, index: int) {
    !s.isGameEnded && At(s.field, index) == Some(Empty)
  }

  /** `handleCellClick(index)` as one atomic transition: every setter it calls
      reads the `field` and `currentPlayer` captured at the click, so React's
      batching does not change the outcome. */
  function Click(s: GameState, index: int): GameState {
    if Accepts(s, index) then
      var newField := Placed(s.field, index, s.currentPlayer);
      if CheckWinner(newField, s.currentPlayer) then
        s.(field := newField, isGameEnded := true)
      else if Full(newField) then
        s.(field := newField, isDraw := true)
      else
        s.(field := newField, currentPlayer := Toggle(s.currentPlayer))
    else
      s
  }

  const TurnPrefix: string := "Ходит: "
  const WinPrefix: string := "Победа: "
  const DrawText: string := "Ничья"

  /** The banner text: the draw text when `isDraw` is set (it wins over
      `isGameEnded`), else the winner when `isGameEnded` is set, else whose turn it is.
      The message names the current player in both of the last two cases. */
  function Message(s: GameState): (m: string)
    ensures m == DrawText <==> s.isDraw
    ensures |m| > 0
    ensures !s.isDraw ==> m[|m| - 1] == Glyph(s.currentPlayer)
    ensures !s.isDraw ==> (m[..|m| - 1] == WinPrefix <==> s.isGameEnded)
    ensures !s.isDraw && !s.isGameEnded ==> m[..|m| - 1] == TurnPrefix
  {
    if s.isDraw then DrawText
    else if s.isGameEnded then WinPrefix + [Glyph(s.currentPlayer)]
    else TurnPrefix + [Glyph(s.currentPlayer)]
  }
}
