/** The values `render` derives from the session state: the status line, the
    label of each history entry and the order of the move list. */
module View {
  import opened Evaluator
  import opened Numerals
  import opened Session

  function MarkText(m: Mark): string
  {
    match m
    case X => "X"
    case O => "O"
  }

  /** The status line: 'Draw', 'Winner: <mark>', or 'Next player: <mark>'
      from the stored turn flag. */
  function StatusText(outcome: Outcome, xIsNext: bool): (r: string)
    ensures |r| > 0
    ensures outcome.Draw? <==> r == "Draw"
    ensures outcome.Win? <==> r[0] == 'W'
    ensures outcome.Ongoing? <==> r[0] == 'N'
  {
    match outcome
    case Draw => "Draw"
    case Win(m, _) => "Winner: " + MarkText(m)
    case Ongoing => "Next player: " + (if xIsNext then "X" else "O")
  }

  /** The status shown for the board under the cursor. */
  function Status(s: GameState): (r: string)
    requires s.stepNumber < |s.history|
    ensures Evaluate(Current(s).squares) == Ongoing ==>
      r == "Next player: " + MarkText(MarkFor(s.xIsNext))
  {
    StatusText(Evaluate(Current(s).squares), s.xIsNext)
  }

  /** `step.col` / `step.row` in string concatenation; an entry without the
      metadata prints as 'undefined'. */
  function CoordText(pos: Option<Move>, col: bool): string
  {
    match pos
    case None => "undefined"
    case Some(m) => NatToString(if col then m.col else m.row)
  }

  /** The '(<col>,<row>)' part of a label. */
  function Coords(pos: Option<Move>): (r: string)
    ensures |r| > 0 && r[0] == '('
  {
    "(" + CoordText(pos, true) + "," + CoordText(pos, false) + ")"
  }

  /** The label of history entry `move`: 'Game start' for entry 0, and
      'Move #<move>(<col>,<row>)' for the others. */
  function Label(move: nat, pos: Option<Move>): (r: string)
    ensures r == "Game start" <==> move == 0
  {
    if move == 0 then "Game start"
    else "Move #" + NatToString(move) + Coords(pos)
  }

  /** One item of the move list: its step, its label, and whether it is bold
      because the cursor is on it. */
  datatype Entry = Entry(move: nat, desc: string, current: bool)

  /** `history.map(...)`: one entry per snapshot, in chronological order. */
  function Moves(s: GameState): (r: seq<Entry>)
    ensures |r| == |s.history|
  {
    seq(|s.history|, k requires 0 <= k < |s.history| =>
      Entry(k, Label(k, s.history[k].pos), k == s.stepNumber))
  }

  /** `moves.reverse()`. */
  function Reverse<T>(xs: seq<T>): (r: seq<T>)
    ensures |r| == |xs|
  {
    seq(|xs|, k requires 0 <= k < |xs| => xs[|xs| - 1 - k])
  }

  /** The list as shown: chronological when `asc`, reversed otherwise. */
  function Displayed(s: GameState): (r: seq<Entry>)
    ensures |r| == |s.history|
    ensures |r| > 0 ==> r[0].move == (if s.asc then 0 else |r| - 1)
  {
    if s.asc then Moves(s) else Reverse(Moves(s))
  }

  /** Reversing twice gives back the list. */
  lemma ReverseReverse<T>(xs: seq<T>)
    ensures Reverse(Reverse(xs)) == xs
  {
  }

  /** The status text tells the three outcomes apart, and names the winner of
      a won board and the player to move on an undecided one. */
  lemma StatusDistinguishes(o1: Outcome, x1: bool, o2: Outcome, x2: bool)
    requires StatusText(o1, x1) == StatusText(o2, x2)
    ensures o1.Draw? == o2.Draw? && o1.Win? == o2.Win? && o1.Ongoing? == o2.Ongoing?
    ensures o1.Win? ==> o1.winner == o2.winner
    ensures o1.Ongoing? ==> x1 == x2
  {
    var t1, t2 := StatusText(o1, x1), StatusText(o2, x2);
    if o1.Win? || o2.Win? || o1.Ongoing? || o2.Ongoing? {
      assert t1[0] == t2[0];
    }
    if o1.Win? && o2.Win? {
      assert t1[8] == t2[8];
    }
    if o1.Ongoing? && o2.Ongoing? {
      assert t1[13] == t2[13];
    }
  }

  /** A fresh game shows 'Next player: X'. */
  lemma StatusAtStart()
    ensures Status(Init()) == "Next player: X"
  {
    EvaluateOngoing(EmptyBoard);
    assert EmptyBoard[0] == Empty;
  }

  /** The status of an undecided board names the player whose turn the cursor's
      parity gives, in every reachable state. */
  lemma StatusFollowsParity(s: GameState)
    requires Invariant(s) && Evaluate(Current(s).squares) == Ongoing
    ensures Status(s) == "Next player: " + (if s.stepNumber % 2 == 0 then "X" else "O")
  {
  }

  /** A move label is 'Move #' followed by the step's digits and then the
      coordinates. */
  lemma MoveLabelParts(m: nat, p: Option<Move>)
    requires m != 0
    ensures Label(m, p)[..6] == "Move #"
    ensures Label(m, p)[6..] == NatToString(m) + Coords(p)
  {
  }

  /** Entry 0 is 'Game start' and no other entry is; distinct entries carry
      distinct labels. */
  lemma LabelsDistinct(m: nat, p: Option<Move>, n: nat, q: Option<Move>)
    requires Label(m, p) == Label(n, q)
    ensures m == n
  {
    if m != 0 && n != 0 {
      MoveLabelParts(m, p);
      MoveLabelParts(n, q);
      DigitPrefixUnique(NatToString(m), Coords(p), NatToString(n), Coords(q));
      NatToStringInjective(m, n);
    } else if m != 0 {
      MoveLabelParts(m, p);
    } else if n != 0 {
      MoveLabelParts(n, q);
    }
  }

  /** A recorded column or row in 1..3 prints as that single digit. */
  lemma CoordDigit(m: Move)
    requires OnBoard(m)
    ensures CoordText(Some(m), true) == [DigitChar(m.col)]
    ensures CoordText(Some(m), false) == [DigitChar(m.row)]
  {
  }

  /** Entry `k` of the shown list is history entry `k` when `asc`, and entry
      `|history| - 1 - k` otherwise; exactly the cursor's entry is bold. */
  lemma DisplayedOrder(s: GameState, k: nat)
    requires k < |s.history|
    ensures |Displayed(s)| == |s.history|
    ensures var j := if s.asc then k else |s.history| - 1 - k;
      Displayed(s)[k] == Entry(j, Label(j, s.history[j].pos), j == s.stepNumber)
  {
  }

  /** One `toggleAsc` exactly reverses the shown list; two restore it. */
  lemma ToggleReverses(s: GameState)
    ensures Displayed(Toggle(s)) == Reverse(Displayed(s))
    ensures Displayed(Toggle(Toggle(s))) == Displayed(s)
  {
    assert Moves(Toggle(s)) == Moves(s);
    ReverseReverse(Moves(s));
  }
}
