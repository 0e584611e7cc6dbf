# Tic-tac-toe turn logic of `GameContainer`, modelled in Dafny

The game is a two-player tic-tac-toe in one React component, `GameContainer`.
The component keeps four pieces of state:

- `field`: nine cells, each `''`, `'X'` or `'0'`;
- `currentPlayer`: `'X'` or `'0'`, the digit zero;
- `isGameEnded`;
- `isDraw`.

It has two handlers. `handleCellClick(index)` places the current mark if the game
is live and the cell is empty. It then ends the game on a win, sets the draw
flag on a full board, or passes the turn. `reset()` restores the initial state.
The banner message comes from the state. The draw text wins over the winner
text, and otherwise the banner says whose turn it is.

The model has five modules:

- `Board` (board.dfy): the marks (`X`, `Zero`, shown as `'X'` and `'0'`), the
  cells, `WIN_PATTERNS`, and reading `field[index]`, including `undefined`
  outside the board. It also has the `map` that builds the new field and the
  `every`/`some` win detector `checkWinner`. Lemmas give the meaning of the
  detector, and show that the eight patterns are exactly the rows, columns and
  diagonals of the 3x3 grid.
- `Game` (game.dfy): the state as a value, `GameState`. `Click` models the click
  handler as one atomic transition. Each setter reads the `field` and
  `currentPlayer` captured at the click, so React's batching cannot change the
  outcome. `Message` gives the banner text.
- `GameProperties` (game_properties.dfy): what one click does, branch by branch.
  It also defines the invariant `Consistent`, which every reachable state keeps,
  and its consequences:
  - after a draw every click is ignored, although `isGameEnded` stays false;
  - a won game has exactly one winner, and the banner names it;
  - a draw always falls on X's fifth mark;
  - a live game always has an empty cell.
- `Container` (container.dfy): the component as a class. It has the four hook
  fields and the two handlers as methods that assign them. Each method is
  proved against `Click` or the initial state, and each keeps the invariant.
- `Scenarios` (scenarios.dfy): whole sessions played click by click.

The move order 0, 1, 2, 3, 4, 5, 7, 6, 8 fills the board, but it is not a draw
under this code. X's last mark, on cell 8, completes the diagonal 0-4-8.
`handleCellClick` checks for a win before it checks for a full board, so the
game ends as X's win and `isDraw` stays false. `DiagonalScenario` proves this.
`DrawScenario` proves a genuine draw with the order 0, 1, 2, 4, 3, 5, 7, 6, 8.

## Model

| member | source | states |
|---|---|---|
| `Board.Glyph` | src/Game.jsx:69 | the two marks are shown as 'X' and '0' (the digit), and each character belongs to exactly one mark |
| `Board.Toggle` | src/Game.jsx:69 | the turn passes to the other mark: 'X' becomes '0' and '0' becomes 'X' |
| `Board.At` | src/Game.jsx:59 | `field[index]` is a cell exactly when 0 <= index < length and is `undefined` otherwise, so an out-of-range index never reads as '' |
| `Board.Placed` | src/Game.jsx:60 | the `map` yields the old board with cell `index` replaced by the current mark; an index outside the board yields an unchanged copy |
| `Board.LineOwned` | src/Game.jsx:54 | `pattern.every(cellIndex => currentField[cellIndex] === currentPlayer)` as recursion over the pattern; its meaning is stated by `Board.LineOwnedMeaning` |
| `Board.AnyLineOwned` | src/Game.jsx:53-55 | `WIN_PATTERNS.some(...)` as recursion over the patterns; its meaning is stated by `Board.AnyLineOwnedMeaning` |
| `Board.CheckWinner` | src/Game.jsx:52-56 | `checkWinner(currentField, currentPlayer)`; its meaning is stated by `Board.CheckWinnerMeaning` and `Board.CheckWinnerByLine` |
| `Board.Full` | src/Game.jsx:66 | `newField.every(cell => cell !== '')`: no cell is empty; used by `GameProperties.ClickAccepted` for the draw branch and by `GameProperties.DrawBlocksEveryClick` |
| `Board.LineOwnedMeaning` | src/Game.jsx:54 | `pattern.every(...)` holds exactly when every index of the pattern reads the player's mark |
| `Board.AnyLineOwnedMeaning` | src/Game.jsx:53-55 | `WIN_PATTERNS.some(...)` holds exactly when some listed pattern is owned |
| `Board.CheckWinnerMeaning` | src/Game.jsx:52-56 | `checkWinner(field, p)` holds exactly when, for some pattern, all three of its cells equal `p` |
| `Board.CheckWinnerByLine` | src/Game.jsx:26-30 | on a nine-cell board the detector equals the disjunction of the eight named lines (3 rows, 3 columns, 2 diagonals) |
| `Board.WinPatternsInRange` | src/Game.jsx:26-30 | about the constant `Board.WinPatterns`, which is `WIN_PATTERNS`: there are 8 patterns of 3 increasing indices, and all 24 indices lie in [0, 8] |
| `Board.WinPatternsAreGridLines` | src/Game.jsx:26-30 | a triple is one of the patterns exactly when it is three cells of one row, one column or one diagonal of the 3x3 grid, in increasing order |
| `Game.Accepts` | src/Game.jsx:59 | the guard `!isGameEnded && field[index] === ''`; `GameProperties.ClickIgnoredUnlessAccepted` proves a click changes the state exactly when it holds |
| `Game.Click` | src/Game.jsx:58-72 | `handleCellClick(index)` as one transition of the four state values; `GameProperties.ClickIgnoredUnlessAccepted` states when it is a no-op and `GameProperties.ClickAccepted` states each branch of an accepted click |
| `Game.Message` | src/Game.jsx:37-43 | the banner is the draw text exactly when `isDraw` is set, whatever `isGameEnded` says; otherwise it ends with the current player's mark, after the win prefix exactly when `isGameEnded` is set and after the turn prefix otherwise |
| `GameProperties.MessageDeterminesStatus` | src/Game.jsx:37-43 | two states with the same banner agree on `isDraw`; when it is unset they also agree on `isGameEnded` and `currentPlayer` |
| `GameProperties.ClickIgnoredUnlessAccepted` | src/Game.jsx:59 | a click changes the state exactly when the game has not ended and `field[index]` is ''; after the end, on an occupied cell or outside the board it changes nothing |
| `GameProperties.ClickAccepted` | src/Game.jsx:60-70 | an accepted click writes the current mark at `index` and leaves the other cells and the length alone; then a win sets `isGameEnded` and keeps the player, a full board without a win sets `isDraw` and keeps the player, and otherwise the player toggles with both flags unchanged |
| `GameProperties.PlacingMakesNoLineForOther` | src/Game.jsx:60-64 | writing one player's mark never completes a line for the other player |
| `GameProperties.InitialConsistent` | src/Game.jsx:20-35 | about the constants `Board.InitialField` (`initialField`, lines 20-24) and `Game.Initial` (the `useState` initial values, lines 32-35): the initial state (nine empty cells, 'X' to move, no flag) satisfies the invariant |
| `GameProperties.ClickPreservesConsistent` | src/Game.jsx:58-72 | every click keeps the invariant: nine cells; never both flags; live means no line, not full and mark counts matching the turn; won means the current player owns a line and the other owns none; drawn means full with no line |
| `GameProperties.Step` | src/Game.jsx:45-72 | one user event: a cell click runs `Click`, the reset button yields `Initial`; `GameProperties.StepPreservesConsistent` states that either keeps the invariant |
| `GameProperties.StepPreservesConsistent` | src/Game.jsx:45-72 | a click or a reset keeps the invariant |
| `GameProperties.RunPreservesConsistent` | src/Game.jsx:45-72 | any sequence of clicks and resets keeps the invariant |
| `GameProperties.ReachableConsistent` | src/Game.jsx:32-72 | every state reachable from mounting satisfies the invariant |
| `GameProperties.DrawBlocksEveryClick` | src/Game.jsx:59-67 | in a reachable drawn state `isGameEnded` is false, yet the board is full and every click is ignored |
| `GameProperties.DrawIsOnXsMove` | src/Game.jsx:66-69 | in a reachable drawn state the current player is 'X', with five X marks and four 0 marks |
| `GameProperties.WinnerIsUnique` | src/Game.jsx:64-65 | in a reachable won state the current player owns a line, the other player owns none, and the banner reads "Победа: " followed by the current player's mark |
| `GameProperties.LiveGameHasMove` | src/Game.jsx:66-69 | in a reachable state with neither flag set, some cell in [0, 8] accepts a click |
| `GameProperties.FullCounts` | src/Game.jsx:66 | helper for `DrawIsOnXsMove`, a counting fact about `Board.Count` with no counterpart in the code: on a full board the X and 0 counts add up to the board's length |
| `GameProperties.CountUpdate` | src/Game.jsx:60 | helper for the mark-count part of the `Consistent` invariant, a counting fact about `Board.Count` with no counterpart in the code: writing one cell changes the count of the old content and of the new content by one each |
| `Container.GameContainer.constructor` | src/Game.jsx:32-35 | mounting gives the initial state, which satisfies the invariant |
| `Container.GameContainer.HandleCellClick` | src/Game.jsx:58-72 | the handler's setters leave the component in `Click(old state, index)` and keep the invariant |
| `Container.GameContainer.Reset` | src/Game.jsx:45-50 | from any state: empty board, both flags false, 'X' to move, and the banner "Ходит: X" |
| `Scenarios.TopRowScenario` | src/Game.jsx:58-72 | clicks 0, 3, 1, 4, 2 end the game with X winning on the top row; the board is [X, X, X, 0, 0, '', '', '', ''] and the banner reads "Победа: X" |
| `Scenarios.DiagonalScenario` | src/Game.jsx:64-67 | clicks 0, 1, 2, 3, 4, 5, 7, 6, 8 end as X's win on the diagonal 0-4-8, not as a draw, because the win is checked before fullness |
| `Scenarios.DrawScenario` | src/Game.jsx:66-67 | clicks 0, 1, 2, 4, 3, 5, 7, 6, 8 end in a draw with `isGameEnded` false; the banner reads "Ничья" and any further click is ignored |

## Left out

- `GameLayout` (src/Game.jsx:7-17) and the `FieldLayout`/`FieldContainer` and
  `InformationLayout`/`InformationContainer` components: view markup with no
  decisions. The model stops at the state and the banner text.
- src/index.jsx: mounting into the DOM is I/O.
- node_modules/babel-plugin-check-prop-types/index.cjs: a build-time Babel plugin
  that the game never calls.
- React's hook machinery (when setters take effect, re-rendering), the
  `Date.now()`-based element keys, and the `PropTypes` declarations. Each click
  is modelled as one atomic transition of the four state values.
- Indices that are not integers, such as strings or fractions, are not
  modelled. The view only passes the integer positions 0..8. The model takes
  any `int`, negatives and indices past the end included, and treats those as
  the `undefined` read the code makes.
