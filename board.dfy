/** The board of the tic-tac-toe game: the two marks, the nine cells, the eight
    winning lines and the win detector `checkWinner` of `GameContainer`. */
module Board {

  /** The two player marks. The game writes them as the one-letter strings
      'X' and '0' (the digit zero, not the letter O). */
  datatype Mark = X | Zero

  /** A cell holds the empty string '' or one of the two marks. */
  datatype Cell = Empty | Marked(mark: Mark)

  /** What reading `field[index]` yields: a cell, or `undefined` outside the array. */
  datatype Option<T> = None | Some(value: T)

  /** The character the game shows for a mark. */
  function Glyph(m: Mark): (c: char)
    ensures c == 'X' <==> m == X
    ensures c == '0' <==> m == Zero
  {
    match m
    case X => 'X'
    case Zero => '0'
  }

  /** The mark of the other player, `currentPlayer === 'X' ? '0' : 'X'`. */
  function Toggle(m: Mark): (r: Mark)
    ensures r != m
    ensures Glyph(r) == (if Glyph(m) == 'X' then '0' else 'X')
  {
    if m == X then Zero else X
  }

  /** The board at the start of a game and after a reset: nine empty cells. */
  const InitialField: seq<Cell> := [Empty, Empty, Empty, Empty, Empty, Empty, Empty, Empty, Empty]

  /** The three rows, the three columns and the two diagonals of the 3x3 grid,
      cells numbered 0..8 in row-major order, in the order the game lists them. */
  const WinPatterns: seq<seq<int>> :=
    [[0, 1, 2], [3, 4, 5], [6, 7, 8],
     [0, 3, 6], [1, 4, 7], [2, 5, 8],
     [0, 4, 8], [2, 4, 6]]

  /** JavaScript's `field[index]`: the cell, or `undefined` (None) for an index
      outside the array. */
  function At(b: seq<Cell>, i: int): (r: Option<Cell>)
    ensures r.Some? <==> 0 <= i < |b|
    ensures r.Some? ==> r.value == b[i]
  {
    if 0 <= i < |b| then Some(b[i]) else None
  }

  /** `pattern.every(cellIndex => currentField[cellIndex] === currentPlayer)`. */
  predicate LineOwned(b: seq<Cell>, p: Mark, line: seq<int>) {
    if |line| == 0 then true
    else At(b, line[0]) == Some(Marked(p)) && LineOwned(b, p, line[1..])
  }

  /** `patterns.some(pattern => pattern.every(...))`. */
  predicate AnyLineOwned(b: seq<Cell>, p: Mark, lines: seq<seq<int>>) {
    if |lines| == 0 then false
    else LineOwned(b, p, lines[0]) || AnyLineOwned(b, p, lines[1..])
  }

  /** `checkWinner(currentField, currentPlayer)`: some winning line has all
      three of its cells holding `p`. */
  predicate CheckWinner(b: seq<Cell>, p: Mark) {
    AnyLineOwned(b, p, WinPatterns)
  }

  /** `newField.every(cell => cell !== '')`. */
  predicate Full(b: seq<Cell>) {
    forall i :: 0 <= i < |b| ==> b[i] != Empty
  }

  /** `field.map((cell, i) => index === i ? currentPlayer : cell)`: a fresh board
      whose cell `index` holds `p`; the map visits only existing cells, so an
      index outside the board yields an unchanged copy. */
  function Placed(b: seq<Cell>, index: int, p: Mark): (r: seq<Cell>)
    ensures 0 <= index < |b| ==> r == b[index := Marked(p)]
    ensures !(0 <= index < |b|) ==> r == b
  {
    seq(|b|, i requires 0 <= i < |b| => if i == index then Marked(p) else b[i])
  }

  /** The number of cells of `b` that hold `c`. */
  function Count(b: seq<Cell>, c: Cell): (n: nat)
    ensures n <= |b|
  {
    if |b| == 0 then 0
    else (if b[0] == c then 1 else 0) + Count(b[1..], c)
  }

  // ---------------------------------------------------------------------------
  // Properties of the win detector

  /** The win detector in plain terms: `p` wins on `b` exactly when one of the
      eight patterns has all three of its cells, read as `field[index]`, equal to `p`. */
  lemma CheckWinnerMeaning(b: seq<Cell>, p: Mark)
    ensures CheckWinner(b, p) <==>
      exists k :: 0 <= k < |WinPatterns| &&
        At(b, WinPatterns[k][0]) == Some(Marked(p)) &&
        At(b, WinPatterns[k][1]) == Some(Marked(p)) &&
        At(b, WinPatterns[k][2]) == Some(Marked(p))
  {
    AnyLineOwnedMeaning(b, p, WinPatterns);
    forall k | 0 <= k < |WinPatterns|
      ensures LineOwned(b, p, WinPatterns[k]) <==>
        At(b, WinPatterns[k][0]) == Some(Marked(p)) &&
        At(b, WinPatterns[k][1]) == Some(Marked(p)) &&
        At(b, WinPatterns[k][2]) == Some(Marked(p))
    {
      LineOwnedMeaning(b, p, WinPatterns[k]);
      assert |WinPatterns[k]| == 3;
    }
  }

  /** `every`: a line is owned exactly when each of its indices reads `p`. */
  lemma {:induction false} LineOwnedMeaning(b: seq<Cell>, p: Mark, line: seq<int>)
    ensures LineOwned(b, p, line) <==> forall j :: 0 <= j < |line| ==> At(b, line[j]) == Some(Marked(p))
  {
    if |line| > 0 {
      LineOwnedMeaning(b, p, line[1..]);
      assert forall j :: 0 < j < |line| ==> line[1..][j - 1] == line[j];
    }
  }

  /** `some`: some line is owned exactly when one of the listed lines is. */
  lemma {:induction false} AnyLineOwnedMeaning(b: seq<Cell>, p: Mark, lines: seq<seq<int>>)
    ensures AnyLineOwned(b, p, lines) <==> exists k :: 0 <= k < |lines| && LineOwned(b, p, lines[k])
  {
    if |lines| > 0 {
      AnyLineOwnedMeaning(b, p, lines[1..]);
      assert forall k :: 0 < k < |lines| ==> lines[1..][k - 1] == lines[k];
    }
  }

  /** The eight lines of a nine-cell board spelled out one by one. */
  predicate CheckWinnerOnNine(b: seq<Cell>, p: Mark)
    requires |b| == 9
  {
    (b[0] == b[1] == b[2] == Marked(p)) || (b[3] == b[4] == b[5] == Marked(p)) ||
    (b[6] == b[7] == b[8] == Marked(p)) || (b[0] == b[3] == b[6] == Marked(p)) ||
    (b[1] == b[4] == b[7] == Marked(p)) || (b[2] == b[5] == b[8] == Marked(p)) ||
    (b[0] == b[4] == b[8] == Marked(p)) || (b[2] == b[4] == b[6] == Marked(p))
  }

  /** The win detector on a nine-cell board agrees with the lines spelled out. */
  lemma CheckWinnerByLine(b: seq<Cell>, p: Mark)
    requires |b| == 9
    ensures CheckWinner(b, p) <==> CheckWinnerOnNine(b, p)
  {
    CheckWinnerMeaning(b, p);
    if CheckWinner(b, p) {
      var k :| 0 <= k < |WinPatterns| &&
        At(b, WinPatterns[k][0]) == Some(Marked(p)) &&
        At(b, WinPatterns[k][1]) == Some(Marked(p)) &&
        At(b, WinPatterns[k][2]) == Some(Marked(p));
      var line := WinPatterns[k];
      assert b[line[0]] == b[line[1]] == b[line[2]] == Marked(p);
      assert line in WinPatterns;
    } else {
      forall k | 0 <= k < |WinPatterns|
        ensures !(b[WinPatterns[k][0]] == b[WinPatterns[k][1]] == b[WinPatterns[k][2]] == Marked(p))
      {
        assert At(b, WinPatterns[k][0]) == Some(b[WinPatterns[k][0]]);
      }
      assert WinPatterns[0] == [0, 1, 2] && WinPatterns[1] == [3, 4, 5] && WinPatterns[2] == [6, 7, 8];
      assert WinPatterns[3] == [0, 3, 6] && WinPatterns[4] == [1, 4, 7] && WinPatterns[5] == [2, 5, 8];
      assert WinPatterns[6] == [0, 4, 8] && WinPatterns[7] == [2, 4, 6];
    }
  }

  /** All 24 indices of the eight patterns name cells of a nine-cell board, and
      every pattern has three distinct cells in increasing order. */
  lemma WinPatternsInRange()
    ensures |WinPatterns| == 8
    ensures forall k :: 0 <= k < |WinPatterns| ==>
      |WinPatterns[k]| == 3 && 0 <= WinPatterns[k][0] < WinPatterns[k][1] < WinPatterns[k][2] <= 8
  {
  }

  /** Row and column of a cell of the 3x3 grid, row-major. */
  function Row(i: int): int { i / 3 }
  function Col(i: int): int { i % 3 }

  /** An independent, geometric description of a winning line: three distinct
      cells of the 3x3 grid, listed in increasing order, that share a row, share
      a column, or lie on one of the two diagonals. */
  predicate IsGridLine(a: int, b: int, c: int) {
    0 <= a < b < c <= 8 &&
    ((Row(a) == Row(b) == Row(c)) ||
     (Col(a) == Col(b) == Col(c)) ||
     (Row(a) == Col(a) && Row(b) == Col(b) && Row(c) == Col(c)) ||
     (Row(a) + Col(a) == 2 && Row(b) + Col(b) == 2 && Row(c) + Col(c) == 2))
  }

  /** The eight patterns are exactly the lines of the grid: each pattern is a
      line, and each line is one of the patterns. */
  lemma WinPatternsAreGridLines(a: int, b: int, c: int)
    ensures [a, b, c] in WinPatterns <==> IsGridLine(a, b, c)
  {
  }
}
