/** The game session: the history of board snapshots, the cursor into it
    (`stepNumber`), the stored turn flag `xIsNext` and the move-list order
    flag. Each operation of the `Game` component is a function on a
    `GameState` value here, and the class `Game` holds the same state in
    fields and is proved to update them as those functions say. */
module Session {
  import opened Evaluator

  datatype Option<T> = None | Some(value: T)

  /** The 1-based column and row of the square just played. */
  datatype Move = Move(col: nat, row: nat)

  /** One history entry: the squares, and the move that produced them,
      which the initial entry lacks. */
  datatype Snapshot = Snapshot(squares: Board, pos: Option<Move>)

  /** `this.state` of the `Game` component. `isAsc` is set by the
      constructor and never read; `asc` is the flag the rest of the component
      reads and writes, and it starts undefined, which reads as false. */
  datatype GameState = GameState(
    history: seq<Snapshot>,
    stepNumber: nat,
    xIsNext: bool,
    asc: bool,
    isAsc: bool)

  const EmptyBoard: Board := [Empty, Empty, Empty, Empty, Empty, Empty, Empty, Empty, Empty]

  const Start: Snapshot := Snapshot(EmptyBoard, None)

  /** The mark a click places: 'X' when `xIsNext`, else 'O'. */
  function MarkFor(xIsNext: bool): Mark
  {
    if xIsNext then X else O
  }

  /** The metadata recorded for a click on square `i`. */
  function MoveAt(i: Index): Move
  {
    Move(i % 3 + 1, i / 3 + 1)
  }

  /** Both coordinates are in 1..3. */
  predicate OnBoard(m: Move)
  {
    1 <= m.col <= 3 && 1 <= m.row <= 3
  }

  /** The square a move names. */
  function CellOf(m: Move): (i: Index)
    requires OnBoard(m)
  {
    (m.row - 1) * 3 + (m.col - 1)
  }

  /** The recorded column and row lie on the board and name the square played. */
  lemma MoveAtCell(i: Index)
    ensures OnBoard(MoveAt(i)) && CellOf(MoveAt(i)) == i
  {
  }

  /** Snapshot `next`, at history index `n`, is one move after `prev`: `prev`
      was still undecided, and `next` fills one empty square of it, records
      that square's column and row, and holds 'X' on odd steps and 'O' on
      even ones. */
  predicate Follows(prev: Snapshot, next: Snapshot, n: nat)
  {
    Evaluate(prev.squares) == Ongoing &&
    exists i: Index ::
      && prev.squares[i] == Empty
      && next.squares == prev.squares[i := Filled(MarkFor(n % 2 == 1))]
      && next.pos == Some(MoveAt(i))
  }

  /** Entry `n` of history `h` is one move after entry `n - 1`. */
  predicate FollowsAt(h: seq<Snapshot>, n: nat)
    requires 0 < n < |h|
  {
    Follows(h[n - 1], h[n], n)
  }

  /** Marking an empty square of an undecided board, and recording the
      move, gives a snapshot that follows it. */
  lemma FollowsMark(prev: Snapshot, i: Index, n: nat)
    requires Evaluate(prev.squares) == Ongoing && prev.squares[i] == Empty
    ensures Follows(prev, Snapshot(prev.squares[i := Filled(MarkFor(n % 2 == 1))], Some(MoveAt(i))), n)
  {
  }

  /** What every reachable session state satisfies. */
  predicate Invariant(s: GameState)
  {
    && 0 < |s.history|
    && s.stepNumber < |s.history|
    && s.xIsNext == (s.stepNumber % 2 == 0)
    && s.history[0] == Start
    && forall n :: 0 < n < |s.history| ==> FollowsAt(s.history, n)
  }

  /** The state the constructor builds. */
  function Init(): (s: GameState)
    ensures Invariant(s)
    ensures |s.history| == 1 && s.stepNumber == 0 && s.xIsNext && !s.asc
  {
    GameState([Start], 0, true, false, true)
  }

  /** The snapshot the cursor selects. */
  function Current(s: GameState): Snapshot
    requires s.stepNumber < |s.history|
  {
    s.history[s.stepNumber]
  }

  /** `handleClick(i)`: ignored when the current board is decided or square
      `i` is taken; otherwise the history is cut after the cursor, the
      current board with square `i` marked is appended, the turn passes and
      the cursor moves to the new entry. */
  function Click(s: GameState, i: Index): (r: GameState)
    requires s.stepNumber < |s.history|
    ensures r.asc == s.asc && r.isAsc == s.isAsc
    ensures r == s || (r.stepNumber == s.stepNumber + 1 == |r.history| - 1 && r.xIsNext == !s.xIsNext)
  {
    var history := s.history[..s.stepNumber + 1];
    var current := history[|history| - 1];
    if Evaluate(current.squares) != Ongoing || current.squares[i] != Empty then s
    else
      GameState(
        history + [Snapshot(current.squares[i := Filled(MarkFor(s.xIsNext))], Some(MoveAt(i)))],
        |history|,
        !s.xIsNext,
        s.asc,
        s.isAsc)
  }

  /** `jumpTo(step)`: moves the cursor and sets the turn from its parity. */
  function Jump(s: GameState, step: nat): (r: GameState)
    requires step < |s.history|
    ensures r.history == s.history && r.stepNumber == step
    ensures r.stepNumber < |r.history| && r.xIsNext == (r.stepNumber % 2 == 0)
  {
    s.(stepNumber := step, xIsNext := step % 2 == 0)
  }

  /** `toggleAsc()`: flips the move-list order. */
  function Toggle(s: GameState): (r: GameState)
    ensures r.asc != s.asc && r.(asc := s.asc) == s
  {
    s.(asc := !s.asc)
  }

  /** A click is ignored exactly when the current board is decided or the
      square is taken. */
  lemma ClickIgnored(s: GameState, i: Index)
    requires s.stepNumber < |s.history|
    ensures Click(s, i) == s <==> Evaluate(Current(s).squares) != Ongoing || Current(s).squares[i] != Empty
  {
  }

  /** An accepted click keeps the history up to the cursor, appends exactly
      one snapshot that differs from the current one only in square `i`
      (from empty to the mover's mark), records column and row in 1..3,
      passes the turn and puts the cursor on the new last entry. */
  lemma ClickAccepted(s: GameState, i: Index)
    requires s.stepNumber < |s.history|
    requires Evaluate(Current(s).squares) == Ongoing && Current(s).squares[i] == Empty
    ensures |Click(s, i).history| == s.stepNumber + 2
    ensures Click(s, i).history[..s.stepNumber + 1] == s.history[..s.stepNumber + 1]
    ensures Click(s, i).stepNumber == s.stepNumber + 1 == |Click(s, i).history| - 1
    ensures forall j :: 0 <= j < 9 && j != i ==> Current(Click(s, i)).squares[j] == Current(s).squares[j]
    ensures Current(Click(s, i)).squares[i] == Filled(if s.xIsNext then X else O)
    ensures Current(Click(s, i)).pos == Some(Move(i % 3 + 1, i / 3 + 1))
    ensures OnBoard(Current(Click(s, i)).pos.value)
    ensures Click(s, i).xIsNext == !s.xIsNext
    ensures Click(s, i).asc == s.asc && Click(s, i).isAsc == s.isAsc
  {
  }

  /** Clicking the same square twice in a row changes the state once. */
  lemma ClickTwice(s: GameState, i: Index)
    requires s.stepNumber < |s.history|
    ensures Click(Click(s, i), i) == Click(s, i)
  {
  }

  /** A click preserves the invariant. */
  lemma {:induction false} ClickInvariant(s: GameState, i: Index)
    requires Invariant(s)
    ensures Invariant(Click(s, i))
  {
    if Evaluate(Current(s).squares) == Ongoing && Current(s).squares[i] == Empty {
      AcceptedInvariant(s, i);
    } else {
      ClickIgnored(s, i);
    }
  }

  /** The state an accepted click builds satisfies the invariant. */
  lemma AcceptedInvariant(s: GameState, i: Index)
    requires Invariant(s)
    requires Evaluate(Current(s).squares) == Ongoing && Current(s).squares[i] == Empty
    ensures Invariant(Click(s, i))
  {
    var prev := s.history[s.stepNumber];
    var next := Snapshot(prev.squares[i := Filled(MarkFor(s.xIsNext))], Some(MoveAt(i)));
    assert Click(s, i) == GameState(s.history[..s.stepNumber + 1] + [next], s.stepNumber + 1, !s.xIsNext, s.asc, s.isAsc);
    assert MarkFor((s.stepNumber + 1) % 2 == 1) == MarkFor(s.xIsNext);
    FollowsMark(prev, i, s.stepNumber + 1);
    ExtendInvariant(s, next);
  }

  /** Cutting a valid history after the cursor and appending a snapshot that
      follows the current one gives a valid state, with the cursor on the new
      entry and the turn passed. */
  lemma {:induction false} ExtendInvariant(s: GameState, next: Snapshot)
    requires Invariant(s) && Follows(s.history[s.stepNumber], next, s.stepNumber + 1)
    ensures Invariant(GameState(s.history[..s.stepNumber + 1] + [next], s.stepNumber + 1, !s.xIsNext, s.asc, s.isAsc))
  {
    var k := s.stepNumber;
    var t := GameState(s.history[..k + 1] + [next], k + 1, !s.xIsNext, s.asc, s.isAsc);
    assert t.history[k] == s.history[k] && t.history[k + 1] == next;
    assert t.history[..k + 1] == s.history[..k + 1];
    FollowsPrefix(s.history, t.history, k);
  }

  /** A history that agrees with a valid one up to entry `k` follows the
      rules up to entry `k`. */
  lemma FollowsPrefix(h: seq<Snapshot>, g: seq<Snapshot>, k: nat)
    requires k < |h| && k < |g| && g[..k + 1] == h[..k + 1]
    requires forall n :: 0 < n < |h| ==> FollowsAt(h, n)
    ensures forall n :: 0 < n <= k ==> FollowsAt(g, n)
  {
    forall n | 0 < n <= k
      ensures FollowsAt(g, n)
    {
      assert g[n - 1] == g[..k + 1][n - 1] == h[n - 1];
      assert g[n] == g[..k + 1][n] == h[n];
      assert FollowsAt(h, n);
    }
  }

  /** `jumpTo` changes only the cursor and the turn, which it sets from the
      cursor's parity, and it preserves the invariant. */
  lemma JumpInvariant(s: GameState, step: nat)
    requires Invariant(s) && step < |s.history|
    ensures Invariant(Jump(s, step))
    ensures var t := Jump(s, step);
      t.history == s.history && t.stepNumber == step && t.xIsNext == (step % 2 == 0) &&
      t.asc == s.asc && t.isAsc == s.isAsc
  {
  }

  /** `toggleAsc` flips only the order flag; two calls are the identity. */
  lemma ToggleInvolution(s: GameState)
    ensures Toggle(s).asc == !s.asc && Toggle(s).(asc := s.asc) == s
    ensures Toggle(Toggle(s)) == s
    ensures Invariant(s) ==> Invariant(Toggle(s))
  {
  }

  /** Snapshot `n` of a reachable history has exactly `9 - n` empty squares. */
  lemma {:induction false} EmptySquaresAtStep(s: GameState, n: nat)
    requires Invariant(s) && n < |s.history|
    ensures CountEmpty(s.history[n].squares) + n == 9
  {
    if n == 0 {
      assert EmptyBoard == seq(9, _ => Empty);
      CountEmptyAllEmpty(9);
    } else {
      EmptySquaresAtStep(s, n - 1);
      assert FollowsAt(s.history, n);
      var prev := s.history[n - 1];
      var i: Index :| prev.squares[i] == Empty && s.history[n].squares == prev.squares[i := Filled(MarkFor(n % 2 == 1))];
      CountEmptyFill(prev.squares, i, MarkFor(n % 2 == 1));
    }
  }

  /** A reachable history holds at most ten snapshots: the start and one per
      square. */
  lemma HistoryBounded(s: GameState)
    requires Invariant(s)
    ensures |s.history| <= 10
  {
    EmptySquaresAtStep(s, |s.history| - 1);
  }

  /** After jumping back to step `k`, an accepted click drops every later
      snapshot: the history becomes the first `k + 1` entries and the new one. */
  lemma JumpThenClick(s: GameState, k: nat, i: Index)
    requires Invariant(s) && k < |s.history|
    requires Evaluate(s.history[k].squares) == Ongoing && s.history[k].squares[i] == Empty
    ensures var t := Click(Jump(s, k), i);
      |t.history| == k + 2 && t.history[..k + 1] == s.history[..k + 1] &&
      t.stepNumber == k + 1 &&
      t.history[k + 1].squares == s.history[k].squares[i := Filled(MarkFor(k % 2 == 0))]
  {
  }

  /** The user events the component reacts to. */
  datatype Event = PlayCell(i: Index) | JumpTo(step: nat) | ToggleAsc

  /** An event the presentation can raise: a jump names an existing step. */
  predicate Enabled(s: GameState, e: Event)
  {
    e.JumpTo? ==> e.step < |s.history|
  }

  function Apply(s: GameState, e: Event): GameState
    requires s.stepNumber < |s.history| && Enabled(s, e)
  {
    match e
    case PlayCell(i) => Click(s, i)
    case JumpTo(step) => Jump(s, step)
    case ToggleAsc => Toggle(s)
  }

  /** Every event of the sequence is enabled in the state it meets. */
  predicate Runnable(s: GameState, es: seq<Event>)
    requires Invariant(s)
    decreases |es|
  {
    es == [] ||
    (Enabled(s, es[0]) && (ClickInvariant(s, if es[0].PlayCell? then es[0].i else 0);
                           JumpInvariant(s, if es[0].JumpTo? then es[0].step else 0);
                           Runnable(Apply(s, es[0]), es[1..])))
  }

  /** The state after a sequence of events, from a reachable state. */
  function Run(s: GameState, es: seq<Event>): (t: GameState)
    requires Invariant(s) && Runnable(s, es)
    ensures Invariant(t)
    decreases |es|
  {
    if es == [] then s
    else
      ClickInvariant(s, if es[0].PlayCell? then es[0].i else 0);
      JumpInvariant(s, if es[0].JumpTo? then es[0].step else 0);
      Run(Apply(s, es[0]), es[1..])
  }

  /** In every state reached from a fresh game by clicks, jumps and toggles,
      the stored turn flag agrees with the cursor's parity, the cursor is in
      range and the first snapshot is the empty board. */
  lemma ReachableTurnParity(es: seq<Event>)
    requires Runnable(Init(), es)
    ensures var t := Run(Init(), es);
      t.xIsNext == (t.stepNumber % 2 == 0) && t.stepNumber < |t.history| <= 10 &&
      t.history[0] == Start
  {
    HistoryBounded(Run(Init(), es));
  }

  /** The `Game` component: its state in fields, each method a transition. */
  class Game {
    var history: seq<Snapshot>
    var stepNumber: nat
    var xIsNext: bool
    var asc: bool
    var isAsc: bool

    function AsState(): GameState
      reads this
    {
      GameState(history, stepNumber, xIsNext, asc, isAsc)
    }

    ghost predicate Valid()
      reads this
    {
      Invariant(AsState())
    }

    /** One empty snapshot, X to move, the order flag unset. */
    constructor ()
      ensures Valid() && AsState() == Init()
    {
      history := [Start];
      xIsNext := true;
      stepNumber := 0;
      isAsc := true;
      asc := false;
    }

    method ToggleAsc()
      requires Valid()
      modifies this
      ensures Valid() && AsState() == Toggle(old(AsState()))
    {
      asc := !asc;
    }

    method HandleClick(i: Index)
      requires Valid()
      modifies this
      ensures Valid() && AsState() == Click(old(AsState()), i)
    {
      ClickInvariant(AsState(), i);
      var h := history[..stepNumber + 1];
      var current := h[|h| - 1];
      var squares := current.squares;
      var outcome := CalculateWinner(squares);
      if outcome != Ongoing || squares[i] != Empty {
        return;
      }
      squares := squares[i := Filled(if xIsNext then X else O)];
      history, xIsNext, stepNumber := h + [Snapshot(squares, Some(Move(i % 3 + 1, i / 3 + 1)))], !xIsNext, |h|;
    }

    method JumpTo(step: nat)
      requires Valid() && step < |history|
      modifies this
      ensures Valid() && AsState() == Jump(old(AsState()), step)
    {
      JumpInvariant(AsState(), step);
      stepNumber, xIsNext := step, if step % 2 != 0 then false else true;
    }
  }
}
