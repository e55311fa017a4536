/** The tournament loop, and what it means for it to be fair. */
module MancalaTournament {
  import opened Wrappers
  import opened MancalaRules
  import opened MancalaGame
  import opened MancalaSearch

  /** A move function: a state and a search depth to a successor, or nil. */
  type Mover = (State, int) -> Option<State>

  ghost predicate Legal(rules: Rules, f: Mover) {
    forall st: State, depth: int :: Valid(rules, st) && f(st, depth).Some? ==> f(st, depth).value in MovesOf(rules, st)
  }

  /** The state in which the loop stops, with `f1` playing for player 1. */
  ghost function Final(rules: Rules, depth1: int, depth2: int, f1: Mover, f2: Mover, st: State): (end: State)
    requires Valid(rules, st) && Legal(rules, f1) && Legal(rules, f2)
    ensures Valid(rules, end)
    decreases InPlay(rules, st), Distance(rules, st)
  {
    var next := if st.turn == PLAYER_1 then f1(st, depth1) else f2(st, depth2);
    if next.None? then st
    else
      SuccessorMeasure(rules, st, next.value);
      Final(rules, depth1, depth2, f1, f2, next.value)
  }

  /** Each state of the run is what the mover whose turn it was returned for the one before. */
  predicate Follows(depth1: int, depth2: int, f1: Mover, f2: Mover, run: seq<State>) {
    forall i :: 0 <= i < |run| - 1 ==>
      Some(run[i + 1]) == if run[i].turn == PLAYER_1 then f1(run[i], depth1) else f2(run[i], depth2)
  }

  lemma RunGrows(rules: Rules, depth1: int, depth2: int, f1: Mover, f2: Mover, run: seq<State>, next: State)
    requires IsGame(rules, run) && Follows(depth1, depth2, f1, f2, run)
    requires var last := run[|run| - 1];
             && Valid(rules, last) && next in MovesOf(rules, last)
             && Some(next) == if last.turn == PLAYER_1 then f1(last, depth1) else f2(last, depth2)
    ensures IsGame(rules, run + [next]) && Follows(depth1, depth2, f1, f2, run + [next])
  {
  }

  /** One game of the tournament.  The loop terminates because every move decreases
      the measure. */
  method PlayOut(rules: Rules, depth1: int, depth2: int, f1: Mover, f2: Mover, start: State)
    returns (state: State, ghost run: seq<State>)
    requires Valid(rules, start) && Legal(rules, f1) && Legal(rules, f2)
    ensures Valid(rules, state) && state == Final(rules, depth1, depth2, f1, f2, start)
    ensures (if state.turn == PLAYER_1 then f1(state, depth1) else f2(state, depth2)) == None
    ensures IsGame(rules, run) && run[0] == start && run[|run| - 1] == state
    ensures Follows(depth1, depth2, f1, f2, run)
  {
    state := start;
    run := [start];
    while true
      invariant Valid(rules, state)
      invariant Final(rules, depth1, depth2, f1, f2, state) == Final(rules, depth1, depth2, f1, f2, start)
      invariant IsGame(rules, run) && run[0] == start && run[|run| - 1] == state
      invariant Follows(depth1, depth2, f1, f2, run)
      decreases InPlay(rules, state), Distance(rules, state)
    {
      var newState := if state.turn == PLAYER_1 then f1(state, depth1) else f2(state, depth2);
      if newState.None? {
        return;
      }
      SuccessorMeasure(rules, state, newState.value);
      RunGrows(rules, depth1, depth2, f1, f2, run, newState.value);
      state := newState.value;
      run := run + [state];
    }
  }

  /** Player 1's total lead over the two games. */
  ghost function Total(rules: Rules, depth1: int, depth2: int, f1: Mover, f2: Mover): int
    requires Legal(rules, f1) && Legal(rules, f2)
  {
    Score(rules, Final(rules, depth1, depth2, f1, f2, Start(rules, PLAYER_1)), PLAYER_1)
    + Score(rules, Final(rules, depth1, depth2, f1, f2, Start(rules, PLAYER_2)), PLAYER_1)
  }

  /** A complete game from the initial position with `first` to move. */
  predicate IsMatch(rules: Rules, depth1: int, depth2: int, f1: Mover, f2: Mover, first: Player, run: seq<State>) {
    && IsGame(rules, run) && Follows(depth1, depth2, f1, f2, run) && run[0] == Start(rules, first)
    && var end := run[|run| - 1];
       (if end.turn == PLAYER_1 then f1(end, depth1) else f2(end, depth2)) == None
  }

  /** How many stones more than player 2 player 1 has in the mancala at the end. */
  function Lead(rules: Rules, run: seq<State>): int
    requires run != [] && Valid(rules, run[|run| - 1])
  {
    var board := run[|run| - 1].board;
    board[rules.pits] as int - board[2 * rules.pits + 1] as int
  }

  /** Two complete games, one with each player to move first; the result is player 1's lead
      summed over both. */
  method Tournament(rules: Rules, depth1: int, depth2: int, f1: Mover, f2: Mover)
    returns (total: int, ghost run1: seq<State>, ghost run2: seq<State>)
    requires Legal(rules, f1) && Legal(rules, f2)
    ensures total == Total(rules, depth1, depth2, f1, f2)
    ensures IsMatch(rules, depth1, depth2, f1, f2, PLAYER_1, run1) && Valid(rules, run1[|run1| - 1])
    ensures IsMatch(rules, depth1, depth2, f1, f2, PLAYER_2, run2) && Valid(rules, run2[|run2| - 1])
    ensures total == Lead(rules, run1) + Lead(rules, run2)
  {
    var state := InitState(rules, PLAYER_1);
    var end1, game1 := PlayOut(rules, depth1, depth2, f1, f2, state);
    total := Score(rules, end1, PLAYER_1);
    state := InitState(rules, PLAYER_2);
    var end2, game2 := PlayOut(rules, depth1, depth2, f1, f2, state);
    total := total + Score(rules, end2, PLAYER_1);
    run1, run2 := game1, game2;
  }

  // ---------------------------------------------------------------------
  // Fairness

  /** A mover that plays a position and its mirror image alike. */
  ghost predicate Evenhanded(rules: Rules, f: Mover) {
    && Legal(rules, f)
    && forall st: State, depth: int :: Valid(rules, st) ==>
         f(Flip(rules, st), depth) == FlipOption(rules, f(st, depth))
  }

  /** Turning the table and exchanging the movers plays the mirror image of the game. */
  lemma {:induction false} FlipFinal(rules: Rules, depth1: int, depth2: int, f1: Mover, f2: Mover, st: State)
    requires Valid(rules, st) && Evenhanded(rules, f1) && Evenhanded(rules, f2)
    ensures Final(rules, depth2, depth1, f2, f1, Flip(rules, st))
            == Flip(rules, Final(rules, depth1, depth2, f1, f2, st))
    decreases InPlay(rules, st), Distance(rules, st)
  {
    var next := if st.turn == PLAYER_1 then f1(st, depth1) else f2(st, depth2);
    if next.Some? {
      SuccessorMeasure(rules, st, next.value);
      FlipFinal(rules, depth1, depth2, f1, f2, next.value);
    }
  }

  lemma FlipStart(rules: Rules, first: Player)
    ensures Flip(rules, Start(rules, first)) == Start(rules, OtherPlayer(first))
  {
    assert Flip(rules, Start(rules, first)).board == Start(rules, OtherPlayer(first)).board;
  }

  /** Exchanging two evenhanded movers negates the tournament's outcome. */
  lemma TournamentAntisymmetric(rules: Rules, depth1: int, depth2: int, f1: Mover, f2: Mover)
    requires Evenhanded(rules, f1) && Evenhanded(rules, f2)
    ensures Total(rules, depth2, depth1, f2, f1) == -Total(rules, depth1, depth2, f1, f2)
  {
    forall first: Player
      ensures Score(rules, Final(rules, depth2, depth1, f2, f1, Start(rules, OtherPlayer(first))), PLAYER_1)
              == -Score(rules, Final(rules, depth1, depth2, f1, f2, Start(rules, first)), PLAYER_1)
    {
      FlipStart(rules, first);
      FlipFinal(rules, depth1, depth2, f1, f2, Start(rules, first));
      FlipSymmetry(rules, Final(rules, depth1, depth2, f1, f2, Start(rules, first)));
    }
    assert OtherPlayer(PLAYER_1) == PLAYER_2 && OtherPlayer(PLAYER_2) == PLAYER_1;
  }

  /** The computer's player as a move function. */
  ghost function Computer(rules: Rules, evaluate: (State, Player) -> real): Mover {
    (st: State, depth: int) => if Valid(rules, st) then BestMove(rules, evaluate, st, depth) else None
  }

  /** The alpha-beta player, with any impartial evaluation, ties a tournament against
      itself at equal depth. */
  lemma SelfPlayIsEven(rules: Rules, evaluate: (State, Player) -> real, depth: int)
    requires Impartial(rules, evaluate)
    ensures Legal(rules, Computer(rules, evaluate))
    ensures Total(rules, depth, depth, Computer(rules, evaluate), Computer(rules, evaluate)) == 0
  {
    var f := Computer(rules, evaluate);
    forall st: State, d: int | Valid(rules, st)
      ensures f(st, d).Some? ==> f(st, d).value in MovesOf(rules, st)
      ensures f(Flip(rules, st), d) == FlipOption(rules, f(st, d))
    {
      FlipBestMove(rules, evaluate, st, d);
    }
    TournamentAntisymmetric(rules, depth, depth, f, f);
  }
}
