# Tic-tac-toe game state, in Dafny

A model of the game logic of a React tic-tac-toe app with move history and
time travel (`src/index.js`). It has two parts.

- **Outcome evaluator** (`evaluator.dfy`, module `Evaluator`): `calculateWinner`
  tests the fixed table of eight lines in order. It returns a win (the mark and
  the line `[a, b, c]`) for the first line holding three equal marks. Otherwise
  it returns a draw when no square is empty, and `null` (here `Ongoing`) when
  some square is. `Evaluate` is that scan as a recursive function. The method
  `CalculateWinner` is the source's `for` loop with its early return, followed
  by the empty-square count. Both are proved to agree with `IsOutcome`, a
  declarative statement of what the outcome is, and that outcome is proved
  unique.
- **Game session** (`session.dfy`, module `Session`): the `Game` component's
  state is `history`, `stepNumber`, `xIsNext`, `asc` and `isAsc`. Each operation
  is a function on a `GameState` value:
  - `Click` is `handleClick`;
  - `Jump` is `jumpTo`;
  - `Toggle` is `toggleAsc`.

  The class `Session.Game` holds the same state in fields. Its methods
  `HandleClick`, `JumpTo` and `ToggleAsc` update the fields in place, and are
  proved to produce exactly the state those functions give. `Invariant` is
  what every reachable state satisfies:
  - the cursor is in range;
  - the stored `xIsNext` equals "`stepNumber` is even";
  - entry 0 is the empty board;
  - every later entry fills one empty square of an undecided predecessor,
    records that square's column and row, and holds 'X' on odd steps and 'O' on
    even ones.
- **View** (`view.dfy`, module `View`): the values `render` derives:
  - the status line;
  - the label of each history entry (`numerals.dfy` writes the step number in
    decimal);
  - the move list, in chronological or reversed order, with the entry under the
    cursor flagged.
- **Scenarios** (`scenarios.dfy`): concrete boards and plays.

Two behaviours of the code are kept as written:
- The turn is stored in `xIsNext`, not derived from the cursor. The model
  stores it and proves that it always equals the cursor's parity.
- The constructor initialises a field `isAsc` that nothing reads. `toggleAsc`
  and `render` use `asc`, which therefore starts undefined. It is modelled as
  starting `false`, so the first render lists the moves newest first.
  `isAsc` is kept as a field that no operation touches.

A click places `xIsNext ? 'X' : 'O'`, which the invariant shows to be the
parity-derived mark.

## Model

| member | source | states |
|---|---|---|
| `Evaluator.CalculateWinner` | src/index.js:139-168 | The loop over the line table with its early return, then the empty count, returns exactly `Evaluate(squares)`, and that result is the board's outcome in the sense of `IsOutcome` |
| `Evaluator.Evaluate` | src/index.js:139-168 | `calculateWinner` as a function: a reported win is `WinFor` of a table line that wins, a draw has no empty square, and an ongoing board has one; `EvaluateMeaning`, `EvaluateWin`, `EvaluateDraw` and `EvaluateOngoing` give the converses |
| `Evaluator.ScanFrom` | src/index.js:150-167 | The rest of the scan from line `k`: a win it reports is on a winning line at index `k` or later, a draw has no empty square, and an ongoing result has one; `ScanFromMeaning` gives the full meaning |
| `Evaluator.EvaluateMeaning` | src/index.js:139-168 | `calculateWinner` returns the board's outcome: a win on the first winning line, a draw on a full board with no winning line, otherwise ongoing |
| `Evaluator.ScanFromMeaning` | src/index.js:150-167 | Once lines before `k` are known not to win, the rest of the scan yields the board's outcome |
| `Evaluator.OutcomeUnique` | src/index.js:150-167 | A board has only one outcome, so the result is determined |
| `Evaluator.EvaluateWin` | src/index.js:140-158 | A win is reported iff some table line has three equal non-empty marks; it names the first such line in table order as `[a,b,c]` and that line's mark |
| `Evaluator.EvaluateDraw` | src/index.js:150-166 | A draw is reported iff no line wins and no square is empty, so a win takes precedence on a full board |
| `Evaluator.EvaluateOngoing` | src/index.js:150-167 | `null` (ongoing) is returned iff no line wins and some square is empty |
| `Evaluator.CountEmptyZero` | src/index.js:160 | The filtered list of empty squares has length 0 iff every square is filled |
| `Evaluator.CountEmptyFill` | src/index.js:160 | Filling one empty square lowers the count of empty squares by one |
| `Evaluator.CountEmptyAllEmpty` | src/index.js:46 | A board of `n` empty squares counts `n` empty squares |
| `Numerals.NatToString` | src/index.js:104 | The decimal rendering of the step number is non-empty, all digits, and has no leading zero |
| `Numerals.ValueOfNatToString` | src/index.js:104 | Reading the decimal rendering back gives the number |
| `Numerals.NatToStringInjective` | src/index.js:104 | Distinct step numbers render differently |
| `Numerals.DigitPrefixUnique` | src/index.js:104 | A digit run followed by a non-digit is recovered uniquely from the concatenation |
| `Session.Init` | src/index.js:42-52 | The initial state satisfies the invariant: one empty snapshot, cursor 0, X to move, order flag unset |
| `Session.Click` | src/index.js:60-77 | `handleClick(i)` keeps both order flags, and either leaves the state unchanged or puts the cursor one step on, on the new last entry, with the turn passed; `ClickIgnored`, `ClickAccepted` and `ClickInvariant` fix exactly when and how |
| `Session.Jump` | src/index.js:79-84 | `jumpTo(step)` leaves the history, puts the cursor on `step`, which stays in range, and sets the turn from its parity; `JumpInvariant` adds that nothing else changes |
| `Session.Toggle` | src/index.js:54-58 | `toggleAsc` flips `asc` and changes nothing else; `ToggleInvolution` and `ToggleReverses` build on this |
| `Session.MoveAtCell` | src/index.js:71-72 | The recorded `col = i%3+1` and `row = i/3+1` are both in 1..3 and name square `i` again |
| `Session.ClickIgnored` | src/index.js:61-66 | `handleClick(i)` leaves the state unchanged iff the current board is decided or square `i` is taken |
| `Session.ClickAccepted` | src/index.js:61-75 | An accepted click keeps history `[0..stepNumber]`, appends one snapshot, moves the cursor to the new last index, changes only square `i` (empty to 'X' iff `xIsNext`), records col/row in 1..3, and negates `xIsNext` |
| `Session.ClickTwice` | src/index.js:60-77 | Clicking the same square twice in a row changes the state once |
| `Session.ClickInvariant` | src/index.js:60-77 | `handleClick` preserves the invariant; in particular each snapshot differs from its predecessor in one square, empty to the mark |
| `Session.JumpInvariant` | src/index.js:79-84 | `jumpTo(step)` sets only `stepNumber` and `xIsNext` (from the parity of `step`), leaves `history` untouched, and preserves the invariant |
| `Session.ToggleInvolution` | src/index.js:54-58 | `toggleAsc` flips only `asc`; two calls are the identity; the invariant is kept |
| `Session.EmptySquaresAtStep` | src/index.js:60-77 | Snapshot `n` of a reachable history has exactly `9 - n` empty squares |
| `Session.HistoryBounded` | src/index.js:69-73 | A reachable history has at most ten snapshots |
| `Session.JumpThenClick` | src/index.js:61-84 | After `jumpTo(k)`, an accepted click leaves history of length `k + 2`: the first `k + 1` entries and the new board |
| `Session.Run` | src/index.js:54-84 | Any sequence of enabled clicks, jumps and toggles from a state satisfying `Invariant` ends in a state satisfying `Invariant` |
| `Session.ReachableTurnParity` | src/index.js:44-84 | In every state reached from a fresh game, `xIsNext == (stepNumber % 2 == 0)`, the cursor is in range, history has at most ten entries, and entry 0 is the empty board |
| `Session.Game.constructor` | src/index.js:42-52 | The new component holds the initial state and satisfies the invariant |
| `Session.Game.ToggleAsc` | src/index.js:54-58 | Updates the fields to `Toggle` of the old state |
| `Session.Game.HandleClick` | src/index.js:60-77 | Copy-and-assign of the current board, truncation and append update the fields to `Click` of the old state; the invariant is kept |
| `Session.Game.JumpTo` | src/index.js:79-84 | Updates the fields to `Jump` of the old state; the invariant is kept |
| `View.StatusDistinguishes` | src/index.js:91-100 | The status text tells draw, win and ongoing apart, and names the winner, or the player to move |
| `View.StatusText` | src/index.js:91-100 | The status is 'Draw' exactly for a draw, starts with 'W' exactly for a win and with 'N' exactly for an ongoing game; `StatusDistinguishes` adds that it names the mark |
| `View.Status` | src/index.js:88-100 | On an undecided board under the cursor, the status names the mark the next click places |
| `View.Label` | src/index.js:102-105 | The label is 'Game start' exactly for step 0; `MoveLabelParts` and `LabelsDistinct` give the rest |
| `View.StatusAtStart` | src/index.js:91-100 | A fresh game shows 'Next player: X' |
| `View.StatusFollowsParity` | src/index.js:98-100 | On an undecided reachable board the status names X on even steps and O on odd ones |
| `View.Coords` | src/index.js:104 | The coordinate part of a label starts with '(' |
| `View.MoveLabelParts` | src/index.js:103-105 | A label for step n > 0 is 'Move #', then n's digits, then '(col,row)' |
| `View.LabelsDistinct` | src/index.js:102-105 | 'Game start' labels only step 0, and distinct steps get distinct labels |
| `View.CoordDigit` | src/index.js:104 | A column or row in 1..3 prints as one digit |
| `View.Moves` | src/index.js:102-111 | The move list has one entry per history snapshot |
| `View.DisplayedOrder` | src/index.js:102-125 | Shown entry `k` is history entry `k` when `asc`, entry `len-1-k` otherwise, with its label and the bold flag exactly on the cursor |
| `View.Displayed` | src/index.js:125 | The shown list has one entry per snapshot, and its first entry is step 0 when `asc` and the newest step otherwise; `DisplayedOrder` gives every entry |
| `View.Reverse` | src/index.js:125 | `moves.reverse()` keeps the length; `ReverseReverse` shows it undoes itself and `DisplayedOrder` gives each entry |
| `View.ToggleReverses` | src/index.js:125 | One `toggleAsc` exactly reverses the shown list; two restore it |
| `Scenarios.TwoLinesFirstReported` | src/index.js:150-158 | With X on the top row and the left column, the top row, first in table order, is reported |
| `Scenarios.DrawAndOngoingBoards` | src/index.js:160-167 | A full board with no line is a draw; the same board with one free square is ongoing |
| `Scenarios.TopRowGame` | src/index.js:60-77 | X@0, O@4, X@1, O@3, X@2 gives Win(X, [0,1,2]) with status 'Winner: X', and every further click is ignored |
| `Scenarios.ClickZeroTwice` | src/index.js:64-66 | Clicking square 0 twice on a fresh game places one mark |
| `Scenarios.SampleLabels` | src/index.js:103-105 | Step 0 is 'Game start'; step 5 on square 2 is 'Move #5(3,1)'; step 12 on square 7 is 'Move #12(2,3)' |

## Left out

- The `Square` and `Board` components (src/index.js:5-39): JSX, CSS class strings and the highlighting of the winning line are presentation only. The line is carried in `Win` but its display is not modelled.
- `ReactDOM.render` and the stylesheet import (src/index.js:1-3, 134-137): mounting and bootstrapping I/O.
- React's asynchronous, merging `setState`: each `setState` is modelled as one atomic update of the named fields.
- `jumpTo` with a step outside the history: `history[step]` (src/index.js:88) is then `undefined`, and reading `current.squares` (src/index.js:89) makes `render` throw a TypeError. `Jump` and `Game.JumpTo` require `step < |history|`, which every call site meets: the move-list buttons (src/index.js:108) only pass the step of an existing entry.
- `handleClick` with an index outside 0..8: the board only ever passes 0..8, so the index has type `Index`.
- `calculateWinner` on an array that is not nine squares long: boards have type `Board`, nine cells.
- The `key` attributes and the button markup of the move list: the list is modelled as entries carrying step, label and the bold flag.
