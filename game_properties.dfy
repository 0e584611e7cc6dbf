/** What the click and reset handlers guarantee: the effect of one click, the
    invariant every reachable state keeps, and what follows from it. */
module GameProperties {
  import opened Board
  import opened Game

  // ---------------------------------------------------------------------------
  // One click

  /** A click changes the state exactly when it is accepted: a click after the
      game has ended, on an occupied cell, or on an index outside the board
      (where `field[index]` is undefined, not '') is ignored. */
  lemma ClickIgnoredUnlessAccepted(s: GameState, index: int)
    ensures Click(s, index) != s <==> Accepts(s, index)
    ensures s.isGameEnded || index < 0 || index >= |s.field| || s.field[index] != Empty
      ==> Click(s, index) == s
  {
  }

  /** An accepted click writes the current mark into cell `index`, keeps every
      other cell and the board's length, and then takes exactly one of three
      branches: a win ends the game and keeps the player; otherwise a full
      board sets the draw flag and keeps the player; otherwise the turn passes
      to the other mark and both flags stay as they were. */
  lemma ClickAccepted(s: GameState, index: int)
    requires Accepts(s, index)
    ensures var r := Click(s, index);
      |r.field| == |s.field| &&
      r.field[index] == Marked(s.currentPlayer) &&
      (forall j :: 0 <= j < |s.field| && j != index ==> r.field[j] == s.field[j])
    ensures var r := Click(s, index);
      CheckWinner(r.field, s.currentPlayer) ==>
        r.isGameEnded && r.currentPlayer == s.currentPlayer && r.isDraw == s.isDraw
    ensures var r := Click(s, index);
      !CheckWinner(r.field, s.currentPlayer) && Full(r.field) ==>
        r.isDraw && r.currentPlayer == s.currentPlayer && r.isGameEnded == s.isGameEnded
    ensures var r := Click(s, index);
      !CheckWinner(r.field, s.currentPlayer) && !Full(r.field) ==>
        r.currentPlayer == Toggle(s.currentPlayer) &&
        r.isGameEnded == s.isGameEnded && r.isDraw == s.isDraw
  {
  }

  // ---------------------------------------------------------------------------
  // Sessions: clicks and resets from the initial state

  /** The two things a user can do: click a cell, or press the reset button. */
  datatype Event = CellClick(index: int) | ResetClick

  function Step(s: GameState, e: Event): GameState {
    match e
    case CellClick(i) => Click(s, i)
    case ResetClick => Initial
  }

  /** The state after handling `events` one at a time, in order. */
  function Run(s: GameState, events: seq<Event>): GameState
    decreases |events|
  {
    if |events| == 0 then s else Run(Step(s, events[0]), events[1..])
  }

  /** The clicks of a session with no reset. */
  function Clicks(indices: seq<int>): (es: seq<Event>)
    ensures |es| == |indices|
    ensures forall k :: 0 <= k < |es| ==> es[k] == CellClick(indices[k])
  {
    if |indices| == 0 then [] else [CellClick(indices[0])] + Clicks(indices[1..])
  }

  // ---------------------------------------------------------------------------
  // The invariant of reachable states

  /** How many more X marks than 0 marks a board holds: X moves first, so it is
      one when 0 is the next to move and zero when X is. */
  function Lead(b: seq<Cell>): int {
    Count(b, Marked(X)) - Count(b, Marked(Zero))
  }

  /** Every state a session can reach satisfies this. The board has nine
      cells and the two flags are never both set. While the game is live no
      line is complete, the board is not full, and the mark counts agree with
      whose turn it is. Once the game is won, the current player owns a line
      and the other player owns none, and the current player made the last
      move. Once it is drawn, the board is full, nobody owns a line, and the
      current player made the last move. */
  predicate Consistent(s: GameState) {
    |s.field| == 9 &&
    !(s.isGameEnded && s.isDraw) &&
    (if s.isGameEnded then
       CheckWinner(s.field, s.currentPlayer) && !CheckWinner(s.field, Toggle(s.currentPlayer)) &&
       Lead(s.field) == (if s.currentPlayer == X then 1 else 0)
     else if s.isDraw then
       Full(s.field) && !CheckWinner(s.field, X) && !CheckWinner(s.field, Zero) &&
       Lead(s.field) == (if s.currentPlayer == X then 1 else 0)
     else
       !Full(s.field) && !CheckWinner(s.field, X) && !CheckWinner(s.field, Zero) &&
       Lead(s.field) == (if s.currentPlayer == X then 0 else 1))
  }

  /** Writing a cell changes the counts of the old and the new content by one. */
  lemma {:induction false} CountUpdate(b: seq<Cell>, i: int, v: Cell, c: Cell)
    requires 0 <= i < |b|
    ensures Count(b[i := v], c) ==
      Count(b, c) - (if b[i] == c then 1 else 0) + (if v == c then 1 else 0)
  {
    if i == 0 {
      assert b[i := v][1..] == b[1..];
    } else {
      assert b[i := v][1..] == b[1..][i - 1 := v];
      CountUpdate(b[1..], i - 1, v, c);
    }
  }

  /** On a full board every cell holds X or 0. */
  lemma {:induction false} FullCounts(b: seq<Cell>)
    requires Full(b)
    ensures Count(b, Marked(X)) + Count(b, Marked(Zero)) == |b|
  {
    if |b| > 0 {
      assert b[0] != Empty;
      assert b[0] == Marked(b[0].mark) && (b[0].mark == X || b[0].mark == Zero);
      assert Full(b[1..]) by {
        forall j | 0 <= j < |b| - 1 ensures b[1..][j] != Empty {
          assert b[1..][j] == b[j + 1];
        }
      }
      FullCounts(b[1..]);
      assert Count(b, Marked(X)) == (if b[0] == Marked(X) then 1 else 0) + Count(b[1..], Marked(X));
      assert Count(b, Marked(Zero)) == (if b[0] == Marked(Zero) then 1 else 0) + Count(b[1..], Marked(Zero));
    }
  }

  /** A mark written by `p` cannot complete a line for the other player: a line
      `q` owns after the write was already owned before it. */
  lemma PlacingMakesNoLineForOther(b: seq<Cell>, i: int, p: Mark, q: Mark)
    requires 0 <= i < |b| && p != q
    requires CheckWinner(b[i := Marked(p)], q)
    ensures CheckWinner(b, q)
  {
    var nb := b[i := Marked(p)];
    CheckWinnerMeaning(nb, q);
    CheckWinnerMeaning(b, q);
    var k :| 0 <= k < |WinPatterns| &&
      At(nb, WinPatterns[k][0]) == Some(Marked(q)) &&
      At(nb, WinPatterns[k][1]) == Some(Marked(q)) &&
      At(nb, WinPatterns[k][2]) == Some(Marked(q));
    assert At(b, WinPatterns[k][0]) == Some(Marked(q));
  }

  lemma InitialConsistent()
    ensures Consistent(Initial)
  {
    assert !Full(Initial.field) by {
      assert Initial.field[0] == Empty;
    }
    CheckWinnerByLine(Initial.field, X);
    CheckWinnerByLine(Initial.field, Zero);
  }

  /** Every click keeps the invariant. */
  lemma ClickPreservesConsistent(s: GameState, index: int)
    requires Consistent(s)
    ensures Consistent(Click(s, index))
  {
    if Accepts(s, index) {
      var p := s.currentPlayer;
      var nf := Placed(s.field, index, p);
      assert nf == s.field[index := Marked(p)];
      assert !CheckWinner(nf, Toggle(p)) by {
        if CheckWinner(nf, Toggle(p)) {
          PlacingMakesNoLineForOther(s.field, index, p, Toggle(p));
        }
      }
      CountUpdate(s.field, index, Marked(p), Marked(X));
      CountUpdate(s.field, index, Marked(p), Marked(Zero));
    }
  }

  /** Every step of a session, click or reset, keeps the invariant. */
  lemma StepPreservesConsistent(s: GameState, e: Event)
    requires Consistent(s)
    ensures Consistent(Step(s, e))
  {
    match e
    case CellClick(i) => ClickPreservesConsistent(s, i);
    case ResetClick => InitialConsistent();
  }

  lemma {:induction false} RunPreservesConsistent(s: GameState, events: seq<Event>)
    requires Consistent(s)
    ensures Consistent(Run(s, events))
    decreases |events|
  {
    if |events| > 0 {
      StepPreservesConsistent(s, events[0]);
      RunPreservesConsistent(Step(s, events[0]), events[1..]);
    }
  }

  /** Every state reachable from mounting the component is consistent. */
  lemma ReachableConsistent(events: seq<Event>)
    ensures Consistent(Run(Initial, events))
  {
    InitialConsistent();
    RunPreservesConsistent(Initial, events);
  }

  // ---------------------------------------------------------------------------
  // Consequences for reachable states

  /** After a draw `isGameEnded` is still false, yet every click is ignored,
      because no cell is empty. */
  lemma DrawBlocksEveryClick(events: seq<Event>, index: int)
    ensures var s := Run(Initial, events);
      s.isDraw ==> !s.isGameEnded && Full(s.field) && Click(s, index) == s
  {
    ReachableConsistent(events);
  }

  /** A drawn game always ends on X's fifth mark: X moves first and last on a
      full board, so the draw banner is shown while `currentPlayer` is 'X'. */
  lemma DrawIsOnXsMove(events: seq<Event>)
    ensures var s := Run(Initial, events);
      s.isDraw ==>
        s.currentPlayer == X && Count(s.field, Marked(X)) == 5 && Count(s.field, Marked(Zero)) == 4
  {
    var s := Run(Initial, events);
    ReachableConsistent(events);
    if s.isDraw {
      DrawCounts(s);
    }
  }

  lemma DrawCounts(s: GameState)
    requires Consistent(s) && s.isDraw
    ensures s.currentPlayer == X && Count(s.field, Marked(X)) == 5 && Count(s.field, Marked(Zero)) == 4
  {
    FullCounts(s.field);
  }

  /** A won game has exactly one winner, and the banner names it: the current
      player owns a line, the other player owns none, and the message is
      "Победа: " followed by the current player's mark. */
  lemma WinnerIsUnique(events: seq<Event>)
    ensures var s := Run(Initial, events);
      s.isGameEnded ==>
        CheckWinner(s.field, s.currentPlayer) &&
        !CheckWinner(s.field, Toggle(s.currentPlayer)) &&
        Message(s) == WinPrefix + [Glyph(s.currentPlayer)]
  {
    ReachableConsistent(events);
  }

  /** While the game is live some cell accepts a click, so a session never
      gets stuck without a win, a draw or a reset. */
  lemma LiveGameHasMove(events: seq<Event>)
    ensures var s := Run(Initial, events);
      !s.isGameEnded && !s.isDraw ==> exists i :: 0 <= i < 9 && Accepts(s, i)
  {
    var s := Run(Initial, events);
    ReachableConsistent(events);
    if !s.isGameEnded && !s.isDraw {
      var i :| 0 <= i < |s.field| && s.field[i] == Empty;
      assert Accepts(s, i);
    }
  }

  /** The banner tells the states apart: two states with the same message agree
      on the draw flag and, when it is not set, on the ended flag and the
      current player. */
  lemma MessageDeterminesStatus(s: GameState, t: GameState)
    requires Message(s) == Message(t)
    ensures s.isDraw == t.isDraw
    ensures !s.isDraw ==> s.isGameEnded == t.isGameEnded && s.currentPlayer == t.currentPlayer
  {
  }
}
