/** Whole sessions played from the initial state, click by click. */
module Scenarios {
  import opened Board
  import opened Game
  import opened GameProperties

  /** Cells for writing boards compactly: a mark of X, a mark of 0, an empty cell. */
  const x: Cell := Marked(X)
  const z: Cell := Marked(Zero)
  const e: Cell := Empty

  // ---------------------------------------------------------------------------
  // X takes the top row

  const TopRowMoves: seq<int> := [0, 3, 1, 4, 2]

  /** The state before the first click and after each click of `TopRowMoves`. */
  const TopRowStates: seq<GameState> := [
    Initial,
    GameState([x, e, e, e, e, e, e, e, e], Zero, false, false),
    GameState([x, e, e, z, e, e, e, e, e], X, false, false),
    GameState([x, x, e, z, e, e, e, e, e], Zero, false, false),
    GameState([x, x, e, z, z, e, e, e, e], X, false, false),
    GameState([x, x, x, z, z, e, e, e, e], X, true, false)]

  lemma TopRowSteps(k: nat)
    requires k < |TopRowMoves|
    ensures Click(TopRowStates[k], TopRowMoves[k]) == TopRowStates[k + 1]
  {
    ClickEvaluates(TopRowStates[k], TopRowMoves[k], TopRowStates[k + 1]);
  }

  /** Clicks 0, 3, 1, 4, 2 from the initial state: X completes the top row with
      its third mark, the game ends with X to be named the winner, and the board
      is [X, X, X, 0, 0, '', '', '', '']. */
  lemma TopRowScenario()
    ensures Run(Initial, Clicks(TopRowMoves)) ==
      GameState([Marked(X), Marked(X), Marked(X), Marked(Zero), Marked(Zero), Empty, Empty, Empty, Empty],
                X, true, false)
    ensures Message(Run(Initial, Clicks(TopRowMoves))) == "Победа: X"
  {
    forall k | 0 <= k < |TopRowMoves|
      ensures Click(TopRowStates[k], TopRowMoves[k]) == TopRowStates[k + 1]
    {
      TopRowSteps(k);
    }
    RunClicks(Initial, TopRowMoves, TopRowStates);
  }

  // ---------------------------------------------------------------------------
  // Nine clicks that complete a diagonal on the last one

  const DiagonalMoves: seq<int> := [0, 1, 2, 3, 4, 5, 7, 6, 8]

  const DiagonalStates: seq<GameState> := [
    Initial,
    GameState([x, e, e, e, e, e, e, e, e], Zero, false, false),
    GameState([x, z, e, e, e, e, e, e, e], X, false, false),
    GameState([x, z, x, e, e, e, e, e, e], Zero, false, false),
    GameState([x, z, x, z, e, e, e, e, e], X, false, false),
    GameState([x, z, x, z, x, e, e, e, e], Zero, false, false),
    GameState([x, z, x, z, x, z, e, e, e], X, false, false),
    GameState([x, z, x, z, x, z, e, x, e], Zero, false, false),
    GameState([x, z, x, z, x, z, z, x, e], X, false, false),
    GameState([x, z, x, z, x, z, z, x, x], X, true, false)]

  lemma DiagonalSteps(k: nat)
    requires k < |DiagonalMoves|
    ensures Click(DiagonalStates[k], DiagonalMoves[k]) == DiagonalStates[k + 1]
  {
    ClickEvaluates(DiagonalStates[k], DiagonalMoves[k], DiagonalStates[k + 1]);
  }

  /** Clicks 0, 1, 2, 3, 4, 5, 7, 6, 8 fill the board, but they do not end in a
      draw: X's last mark, on 8, completes the diagonal 0-4-8, and the win is
      checked before fullness, so the game ends as X's win and `isDraw` stays false. */
  lemma DiagonalScenario()
    ensures Run(Initial, Clicks(DiagonalMoves)) ==
      GameState([Marked(X), Marked(Zero), Marked(X),
                 Marked(Zero), Marked(X), Marked(Zero),
                 Marked(Zero), Marked(X), Marked(X)],
                X, true, false)
  {
    forall k | 0 <= k < |DiagonalMoves|
      ensures Click(DiagonalStates[k], DiagonalMoves[k]) == DiagonalStates[k + 1]
    {
      DiagonalSteps(k);
    }
    RunClicks(Initial, DiagonalMoves, DiagonalStates);
  }

  // ---------------------------------------------------------------------------
  // A drawn game

  const DrawMoves: seq<int> := [0, 1, 2, 4, 3, 5, 7, 6, 8]

  const DrawStates: seq<GameState> := [
    Initial,
    GameState([x, e, e, e, e, e, e, e, e], Zero, false, false),
    GameState([x, z, e, e, e, e, e, e, e], X, false, false),
    GameState([x, z, x, e, e, e, e, e, e], Zero, false, false),
    GameState([x, z, x, e, z, e, e, e, e], X, false, false),
    GameState([x, z, x, x, z, e, e, e, e], Zero, false, false),
    GameState([x, z, x, x, z, z, e, e, e], X, false, false),
    GameState([x, z, x, x, z, z, e, x, e], Zero, false, false),
    GameState([x, z, x, x, z, z, z, x, e], X, false, false),
    GameState([x, z, x, x, z, z, z, x, x], X, false, true)]

  lemma DrawSteps(k: nat)
    requires k < |DrawMoves|
    ensures Click(DrawStates[k], DrawMoves[k]) == DrawStates[k + 1]
  {
    ClickEvaluates(DrawStates[k], DrawMoves[k], DrawStates[k + 1]);
  }

  /** Clicks 0, 1, 2, 4, 3, 5, 7, 6, 8 fill the board with no line for either
      player, so the last one sets the draw flag; `isGameEnded` stays false, the
      banner reads the draw text, and any further click is ignored. */
  lemma DrawScenario(index: int)
    ensures Run(Initial, Clicks(DrawMoves)) ==
      GameState([Marked(X), Marked(Zero), Marked(X),
                 Marked(X), Marked(Zero), Marked(Zero),
                 Marked(Zero), Marked(X), Marked(X)],
                X, false, true)
    ensures Message(Run(Initial, Clicks(DrawMoves))) == "Ничья"
    ensures Click(Run(Initial, Clicks(DrawMoves)), index) == Run(Initial, Clicks(DrawMoves))
  {
    forall k | 0 <= k < |DrawMoves|
      ensures Click(DrawStates[k], DrawMoves[k]) == DrawStates[k + 1]
    {
      DrawSteps(k);
    }
    RunClicks(Initial, DrawMoves, DrawStates);
    DrawBlocksEveryClick(Clicks(DrawMoves), index);
  }

  // ---------------------------------------------------------------------------
  // Evaluating a session

  /** One click on a nine-cell board, evaluated: `r` is the state it leads to. */
  lemma ClickEvaluates(s: GameState, index: int, r: GameState)
    requires |s.field| == 9 && Accepts(s, index)
    requires r.field == s.field[index := Marked(s.currentPlayer)]
    requires var won := CheckWinnerOnNine(r.field, s.currentPlayer);
      var full := Empty !in r.field;
      r.isGameEnded == (s.isGameEnded || won) &&
      r.isDraw == (s.isDraw || (!won && full)) &&
      r.currentPlayer == (if won || full then s.currentPlayer else Toggle(s.currentPlayer))
    ensures Click(s, index) == r
  {
    CheckWinnerByLine(r.field, s.currentPlayer);
  }

  /** A session of clicks, state by state: if each click leads from one listed
      state to the next, the whole session ends in the last one. */
  lemma {:induction false} RunClicks(s: GameState, indices: seq<int>, states: seq<GameState>)
    requires |states| == |indices| + 1 && states[0] == s
    requires forall k :: 0 <= k < |indices| ==> Click(states[k], indices[k]) == states[k + 1]
    ensures Run(s, Clicks(indices)) == states[|indices|]
    decreases |indices|
  {
    if |indices| > 0 {
      assert Clicks(indices)[1..] == Clicks(indices[1..]);
      RunClicks(Click(s, indices[0]), indices[1..], states[1..]);
    }
  }
}
