/** The outcome evaluator of the tic-tac-toe game: `calculateWinner` decides
    whether a 3x3 board is won, drawn or still being played. */
module Evaluator {

  datatype Mark = X | O

  /** A square: `null` in the source, or the string 'X' or 'O'. */
  datatype Cell = Empty | Filled(mark: Mark)

  /** A cell index, row-major: row = i / 3, column = i % 3. */
  type Index = i: nat | i < 9

  /** The nine squares of one board. */
  type Board = s: seq<Cell> | |s| == 9 witness seq(9, _ => Empty)

  /** A winning line: three cell indices. */
  type Line = (Index, Index, Index)

  /** The result of `calculateWinner`: `null` (the game goes on), a win
      carrying the winner and its line `[a, b, c]`, or a draw. */
  datatype Outcome = Ongoing | Win(winner: Mark, line: seq<Index>) | Draw

  /** The fixed table of lines, tested in this order: three rows, three
      columns, two diagonals. */
  const Lines: seq<Line> := [
    (0, 1, 2),
    (3, 4, 5),
    (6, 7, 8),
    (0, 3, 6),
    (1, 4, 7),
    (2, 5, 8),
    (0, 4, 8),
    (2, 4, 6)
  ]

  /** Line `k` of the table holds three equal non-empty marks. */
  predicate LineWins(b: Board, k: nat)
    requires k < |Lines|
  {
    var (x, y, z) := Lines[k];
    b[x] != Empty && b[x] == b[y] && b[x] == b[z]
  }

  /** No line of the table wins on `b`. */
  predicate NoLineWins(b: Board)
  {
    forall k :: 0 <= k < |Lines| ==> !LineWins(b, k)
  }

  /** The Win value `calculateWinner` builds for line `k`. */
  function WinFor(b: Board, k: nat): Outcome
    requires k < |Lines| && LineWins(b, k)
  {
    var (x, y, z) := Lines[k];
    Win(b[x].mark, [x, y, z])
  }

  /** Number of empty squares: the length of `squares.filter((e) => !e)`,
      counted from the front. */
  function CountEmpty(s: seq<Cell>): nat
  {
    if s == [] then 0
    else CountEmpty(s[..|s| - 1]) + (if s[|s| - 1] == Empty then 1 else 0)
  }

  /** What `calculateWinner` returns once lines `0 .. k-1` have been tested
      and none of them won. */
  function ScanFrom(b: Board, k: nat): (r: Outcome)
    requires k <= |Lines|
    ensures r.Win? ==> exists j :: k <= j < |Lines| && LineWins(b, j) && r == WinFor(b, j)
    ensures r.Draw? ==> CountEmpty(b) == 0
    ensures r.Ongoing? ==> CountEmpty(b) > 0
    decreases |Lines| - k
  {
    if k == |Lines| then
      if CountEmpty(b) == 0 then Draw else Ongoing
    else if LineWins(b, k) then WinFor(b, k)
    else ScanFrom(b, k + 1)
  }

  /** `calculateWinner(squares)`, as a function. */
  function Evaluate(b: Board): (r: Outcome)
    ensures r.Win? ==> exists j :: 0 <= j < |Lines| && LineWins(b, j) && r == WinFor(b, j)
    ensures r.Draw? ==> CountEmpty(b) == 0
    ensures r.Ongoing? ==> CountEmpty(b) > 0
  {
    ScanFrom(b, 0)
  }

  /** The outcome a board has, stated without reference to the scan: a win on
      the first winning line of the table, a draw on a full board that no line
      wins, and otherwise an ongoing game. */
  ghost predicate IsOutcome(b: Board, r: Outcome)
  {
    match r
    case Win(m, line) =>
      exists k :: 0 <= k < |Lines| && LineWins(b, k) && r == WinFor(b, k) &&
        forall j :: 0 <= j < k ==> !LineWins(b, j)
    case Draw =>
      NoLineWins(b) && forall i :: 0 <= i < 9 ==> b[i] != Empty
    case Ongoing =>
      NoLineWins(b) && exists i :: 0 <= i < 9 && b[i] == Empty
  }

  /** No empty square is counted exactly when every square is filled. */
  lemma {:induction false} CountEmptyZero(s: seq<Cell>)
    ensures CountEmpty(s) == 0 <==> forall i :: 0 <= i < |s| ==> s[i] != Empty
  {
    if s != [] {
      var front := s[..|s| - 1];
      CountEmptyZero(front);
      assert forall i :: 0 <= i < |front| ==> front[i] == s[i];
    }
  }

  /** Filling one empty square lowers the count of empty squares by one. */
  lemma {:induction false} CountEmptyFill(s: seq<Cell>, i: nat, m: Mark)
    requires i < |s| && s[i] == Empty
    ensures CountEmpty(s[i := Filled(m)]) + 1 == CountEmpty(s)
  {
    var t := s[i := Filled(m)];
    var n := |s| - 1;
    if i == n {
      assert t[..n] == s[..n];
    } else {
      assert t[..n] == s[..n][i := Filled(m)];
      CountEmptyFill(s[..n], i, m);
    }
  }

  /** A board of `n` empty squares has `n` empty squares. */
  lemma {:induction false} CountEmptyAllEmpty(n: nat)
    ensures CountEmpty(seq(n, _ => Empty)) == n
  {
    if n > 0 {
      var s: seq<Cell> := seq(n, _ => Empty);
      assert s[..n - 1] == seq(n - 1, _ => Empty);
      CountEmptyAllEmpty(n - 1);
    }
  }

  /** The scan from line `k` finds the first winning line at or after `k`,
      or otherwise decides between draw and ongoing by the empty squares. */
  lemma {:induction false} ScanFromMeaning(b: Board, k: nat)
    requires k <= |Lines|
    requires forall j :: 0 <= j < k ==> !LineWins(b, j)
    ensures IsOutcome(b, ScanFrom(b, k))
    decreases |Lines| - k
  {
    if k == |Lines| {
      CountEmptyZero(b);
      if CountEmpty(b) != 0 {
        var i :| 0 <= i < 9 && b[i] == Empty;
      }
    } else if LineWins(b, k) {
      assert ScanFrom(b, k) == WinFor(b, k);
    } else {
      ScanFromMeaning(b, k + 1);
    }
  }

  /** `calculateWinner` returns the outcome the board has. */
  lemma EvaluateMeaning(b: Board)
    ensures IsOutcome(b, Evaluate(b))
  {
    ScanFromMeaning(b, 0);
  }

  /** A board has one outcome only: the first winning line is unique, and a
      full board is not one with an empty square. */
  lemma {:induction false} OutcomeUnique(b: Board, r1: Outcome, r2: Outcome)
    requires IsOutcome(b, r1) && IsOutcome(b, r2)
    ensures r1 == r2
  {
    if r1.Win? && r2.Win? {
      var k1 :| 0 <= k1 < |Lines| && LineWins(b, k1) && r1 == WinFor(b, k1) &&
        forall j :: 0 <= j < k1 ==> !LineWins(b, j);
      var k2 :| 0 <= k2 < |Lines| && LineWins(b, k2) && r2 == WinFor(b, k2) &&
        forall j :: 0 <= j < k2 ==> !LineWins(b, j);
      assert k1 == k2;
    }
  }

  /** A win is reported exactly when some line of the table holds three equal
      marks, and then it reports the first such line and its mark. */
  lemma EvaluateWin(b: Board)
    ensures Evaluate(b).Win? <==> exists k :: 0 <= k < |Lines| && LineWins(b, k)
    ensures forall k | 0 <= k < |Lines| && LineWins(b, k) && (forall j :: 0 <= j < k ==> !LineWins(b, j)) ::
              Evaluate(b) == WinFor(b, k)
  {
    EvaluateMeaning(b);
    forall k | 0 <= k < |Lines| && LineWins(b, k) && (forall j :: 0 <= j < k ==> !LineWins(b, j))
      ensures Evaluate(b) == WinFor(b, k)
    {
      assert IsOutcome(b, WinFor(b, k));
      OutcomeUnique(b, Evaluate(b), WinFor(b, k));
    }
  }

  /** A draw is reported exactly when no line wins and no square is empty,
      so a win takes precedence on a full board. */
  lemma EvaluateDraw(b: Board)
    ensures Evaluate(b) == Draw <==> NoLineWins(b) && forall i :: 0 <= i < 9 ==> b[i] != Empty
  {
    EvaluateMeaning(b);
    if NoLineWins(b) && forall i :: 0 <= i < 9 ==> b[i] != Empty {
      OutcomeUnique(b, Evaluate(b), Draw);
    }
  }

  /** The game goes on exactly when no line wins and some square is empty. */
  lemma EvaluateOngoing(b: Board)
    ensures Evaluate(b) == Ongoing <==> NoLineWins(b) && exists i :: 0 <= i < 9 && b[i] == Empty
  {
    EvaluateMeaning(b);
    if NoLineWins(b) && exists i :: 0 <= i < 9 && b[i] == Empty {
      OutcomeUnique(b, Evaluate(b), Ongoing);
    }
  }

  /** `calculateWinner`: a loop over the table with an early return on the
      first winning line, then a count of the empty squares. */
  method CalculateWinner(squares: Board) returns (r: Outcome)
    ensures r == Evaluate(squares)
    ensures IsOutcome(squares, r)
  {
    EvaluateMeaning(squares);
    for i := 0 to |Lines|
      invariant ScanFrom(squares, i) == Evaluate(squares)
    {
      var (a, b, c) := Lines[i];
      if squares[a] != Empty && squares[a] == squares[b] && squares[a] == squares[c] {
        return Win(squares[a].mark, [a, b, c]);
      }
    }
    var empties := 0;
    for j := 0 to |squares|
      invariant empties == CountEmpty(squares[..j])
    {
      assert squares[..j + 1][..j] == squares[..j];
      if squares[j] == Empty {
        empties := empties + 1;
      }
    }
    assert squares[..|squares|] == squares;
    if empties == 0 {
      return Draw;
    }
    return Ongoing;
  }
}
