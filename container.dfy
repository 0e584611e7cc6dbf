/** The mounted `GameContainer` component: its four `useState` hooks as fields,
    its two handlers as methods that assign them. */
module Container {
  import opened Board
  import opened Game
  import opened GameProperties

  /** The state of a mounted `GameContainer`, one field per `useState` hook. */
  class GameContainer {
    var field: seq<Cell>
    var currentPlayer: Mark
    var isGameEnded: bool
    var isDraw: bool

    function State(): GameState
      reads this
    {
      GameState(field, currentPlayer, isGameEnded, isDraw)
    }

    /** Mounting the component: every hook takes its initial value. */
    constructor ()
      ensures State() == Initial && Consistent(State())
    {
      field := InitialField;
      currentPlayer := X;
      isGameEnded := false;
      isDraw := false;
      new;
      assert State() == Initial;
      InitialConsistent();
    }

    /** `handleCellClick(index)`: the setters it calls, in order. */
    method HandleCellClick(index: int)
      modifies this
      ensures State() == Click(old(State()), index)
      ensures Consistent(old(State())) ==> Consistent(State())
    {
      ghost var before := State();
      if Consistent(before) {
        ClickPreservesConsistent(before, index);
      }
      if !isGameEnded && At(field, index) == Some(Empty) {
        var newField := Placed(field, index, currentPlayer);
        field := newField;
        if CheckWinner(newField, currentPlayer) {
          isGameEnded := true;
        } else if Full(newField) {
          isDraw := true;
        } else {
          currentPlayer := Toggle(currentPlayer);
        }
      }
    }

    /** `reset()`: every hook back to its initial value, from any state. */
    method Reset()
      modifies this
      ensures field == InitialField && !isGameEnded && !isDraw && currentPlayer == X
      ensures State() == Initial && Consistent(State())
      ensures Message(State()) == "Ходит: X"
    {
      field := InitialField;
      isGameEnded := false;
      isDraw := false;
      currentPlayer := X;
      assert State() == Initial;
      InitialConsistent();
    }
  }
}
