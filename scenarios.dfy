/** Concrete plays of the session. */
module Scenarios {
  import opened Evaluator
  import opened Session
  import opened View
  import opened Numerals

  const E := Empty
  const XX := Filled(X)
  const OO := Filled(O)

  /** A board with X on the whole top row and the whole left column is
      reported as a win on the top row, the first of the two in table
      order. */
  lemma TwoLinesFirstReported()
    ensures Evaluate([XX, XX, XX, XX, OO, OO, XX, OO, E]) == Win(X, [0, 1, 2])
  {
  }

  /** A full board that no line wins is a draw, and one with a free square is
      not. */
  lemma DrawAndOngoingBoards()
    ensures Evaluate([XX, OO, XX, XX, OO, OO, OO, XX, XX]) == Draw
    ensures Evaluate([XX, OO, XX, XX, OO, OO, OO, XX, E]) == Ongoing
  {
    var full: Board := [XX, OO, XX, XX, OO, OO, OO, XX, XX];
    var open: Board := [XX, OO, XX, XX, OO, OO, OO, XX, E];
    EvaluateDraw(full);
    EvaluateOngoing(open);
    assert open[8] == Empty;
  }

  /** One accepted click at the end of the history, on board `b` with no
      winning line, appends the marked board `next` and passes the turn. */
  lemma PlayAtEnd(s: GameState, i: Index, b: Board, next: Board, t: GameState)
    requires s.stepNumber == |s.history| - 1 && Current(s).squares == b
    requires NoLineWins(b) && b[i] == Empty && next == b[i := Filled(MarkFor(s.xIsNext))]
    requires t == GameState(s.history + [Snapshot(next, Some(MoveAt(i)))], |s.history|, !s.xIsNext, s.asc, s.isAsc)
    ensures Click(s, i) == t
  {
    EvaluateOngoing(b);
  }

  /** The boards and states of the game X@0, O@4, X@1, O@3, X@2. */
  const B1: Board := [XX, E, E, E, E, E, E, E, E]
  const B2: Board := [XX, E, E, E, OO, E, E, E, E]
  const B3: Board := [XX, XX, E, E, OO, E, E, E, E]
  const B4: Board := [XX, XX, E, OO, OO, E, E, E, E]
  const B5: Board := [XX, XX, XX, OO, OO, E, E, E, E]
  const G1 := GameState([Start, Snapshot(B1, Some(Move(1, 1)))], 1, false, false, true)
  const G2 := GameState(G1.history + [Snapshot(B2, Some(Move(2, 2)))], 2, true, false, true)
  const G3 := GameState(G2.history + [Snapshot(B3, Some(Move(2, 1)))], 3, false, false, true)
  const G4 := GameState(G3.history + [Snapshot(B4, Some(Move(1, 2)))], 4, true, false, true)
  const G5 := GameState(G4.history + [Snapshot(B5, Some(Move(3, 1)))], 5, false, false, true)

  /** On a board that X has won on the top row, the status names X and every
      click is ignored. */
  lemma TopRowWon(s: GameState)
    requires s.stepNumber < |s.history| && Current(s).squares == B5
    ensures Evaluate(Current(s).squares) == Win(X, [0, 1, 2])
    ensures Status(s) == "Winner: X"
    ensures forall i: Index :: Click(s, i) == s
  {
    assert LineWins(B5, 0);
    EvaluateWin(B5);
  }

  /** The five moves of the game X@0, O@4, X@1, O@3, X@2, each accepted and
      giving the next recorded state. */
  lemma TopRowMove1()
    ensures Click(Init(), 0) == G1
  {
    PlayAtEnd(Init(), 0, EmptyBoard, B1, G1);
  }

  lemma TopRowMove2()
    ensures Click(G1, 4) == G2
  {
    PlayAtEnd(G1, 4, B1, B2, G2);
  }

  lemma TopRowMove3()
    ensures Click(G2, 1) == G3
  {
    PlayAtEnd(G2, 1, B2, B3, G3);
  }

  lemma TopRowMove4()
    ensures Click(G3, 3) == G4
  {
    PlayAtEnd(G3, 3, B3, B4, G4);
  }

  lemma TopRowMove5()
    ensures Click(G4, 2) == G5
  {
    PlayAtEnd(G4, 2, B4, B5, G5);
  }

  /** X@0, O@4, X@1, O@3, X@2: X wins the top row after the fifth move, the
      status says so, and every further click is ignored. */
  lemma TopRowGame()
    ensures var s := Click(Click(Click(Click(Click(Init(), 0), 4), 1), 3), 2);
      && s == G5 && |s.history| == 6
      && Evaluate(Current(s).squares) == Win(X, [0, 1, 2])
      && Status(s) == "Winner: X"
      && forall i: Index :: Click(s, i) == s
  {
    TopRowMove1();
    TopRowMove2();
    TopRowMove3();
    TopRowMove4();
    TopRowMove5();
    TopRowWon(G5);
  }

  /** Clicking square 0 twice on a fresh game places one mark. */
  lemma ClickZeroTwice()
    ensures var s := Click(Click(Init(), 0), 0);
      |s.history| == 2 && Current(s).squares == [XX, E, E, E, E, E, E, E, E]
  {
  }

  /** Labels as the move list shows them. Step 12 lies beyond any real game,
      which ends by step 9 (see `HistoryBounded`); it exercises the rendering
      of a two-digit step number. */
  lemma SampleLabels()
    ensures Label(0, None) == "Game start"
    ensures Label(5, Some(MoveAt(2))) == "Move #5(3,1)"
    ensures Label(12, Some(MoveAt(7))) == "Move #12(2,3)"
  {
  }
}
