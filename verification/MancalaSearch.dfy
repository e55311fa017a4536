/** Depth-limited alpha-beta search, plain minimax, and the computer's move. */
module MancalaSearch {
  import opened Wrappers
  import opened MancalaRules
  import opened MancalaGame

  const MAX_WINS := 10000.0
  const MIN_WINS := -10000.0

  /** The numbers with both infinities: what plain minimax computes, the best of no
      children being worse than everything. */
  datatype Value = NegInf | Fin(v: real) | PosInf {
    predicate Leq(that: Value) {
      NegInf? || that.PosInf? || (Fin? && that.Fin? && v <= that.v)
    }

    function Max(that: Value): Value {
      if Leq(that) then that else this
    }

    function Min(that: Value): Value {
      if Leq(that) then this else that
    }

    /** The nearest number inside the window. */
    function Clamp(lo: real, hi: real): real {
      if Leq(Fin(lo)) then lo else if Fin(hi).Leq(this) then hi else if Fin? then v else lo
    }
  }

  /** The three functions that the search takes as arguments. */
  datatype Problem = Problem(
    expand: State -> seq<State>,
    terminal: State -> bool,
    evaluate: (State, Player) -> real)

  predicate Leaf(p: Problem, s: State, d: int, maxD: int) {
    p.terminal(s) || d >= maxD
  }

  function Height(d: int, maxD: int): nat {
    if d < maxD then maxD - d else 0
  }

  /** Plain depth-limited minimax: whose ply it is depends on the state's turn only,
      so one player may move several times in a row. */
  function Minimax(p: Problem, s: State, d: int, maxD: int, maxPlayer: Player): Value
    decreases Height(d, maxD), 0
  {
    if Leaf(p, s, d, maxD) then Fin(p.evaluate(s, maxPlayer))
    else BestOf(p, p.expand(s), d + 1, maxD, maxPlayer, maxPlayer == s.turn)
  }

  /** The best minimax value among some children: greatest for max, least for min. */
  function BestOf(p: Problem, childs: seq<State>, d: int, maxD: int, maxPlayer: Player, maxTurn: bool): Value
    decreases Height(d, maxD), 1 + |childs|
  {
    if childs == [] then if maxTurn then NegInf else PosInf
    else
      var first := Minimax(p, childs[0], d, maxD, maxPlayer);
      var rest := BestOf(p, childs[1..], d, maxD, maxPlayer, maxTurn);
      if maxTurn then first.Max(rest) else first.Min(rest)
  }

  /** What minimax means, apart from how it is computed.  A position that is over or at the
      depth limit has its evaluation.  Any other has the value of one of its children, of one
      that is best for the maximising player if it is that player's turn, and of one that is
      worst for that player otherwise. */
  lemma MinimaxMeaning(p: Problem, s: State, d: int, maxD: int, maxPlayer: Player)
    ensures p.terminal(s) || d >= maxD ==> Minimax(p, s, d, maxD, maxPlayer) == Fin(p.evaluate(s, maxPlayer))
    ensures !p.terminal(s) && d < maxD && p.expand(s) == [] ==>
              Minimax(p, s, d, maxD, maxPlayer) == if s.turn == maxPlayer then NegInf else PosInf
    ensures !p.terminal(s) && d < maxD && p.expand(s) != [] ==>
              var v, childs := Minimax(p, s, d, maxD, maxPlayer), p.expand(s);
              && (exists i :: 0 <= i < |childs| && Minimax(p, childs[i], d + 1, maxD, maxPlayer) == v)
              && (forall i :: 0 <= i < |childs| ==>
                    if s.turn == maxPlayer then AtMost(Minimax(p, childs[i], d + 1, maxD, maxPlayer), v)
                    else AtMost(v, Minimax(p, childs[i], d + 1, maxD, maxPlayer)))
  {
    if !p.terminal(s) && d < maxD && p.expand(s) != [] {
      BestOfMeaning(p, p.expand(s), d + 1, maxD, maxPlayer, s.turn == maxPlayer);
    }
  }

  /** The order of the values: numbers as usual, between the infinities. */
  predicate AtMost(x: Value, y: Value) {
    x == NegInf || y == PosInf || (x.Fin? && y.Fin? && x.v <= y.v)
  }

  lemma {:induction false} BestOfMeaning(p: Problem, childs: seq<State>, d: int, maxD: int, maxPlayer: Player, maxTurn: bool)
    requires childs != []
    ensures var v := BestOf(p, childs, d, maxD, maxPlayer, maxTurn);
            && (exists i :: 0 <= i < |childs| && Minimax(p, childs[i], d, maxD, maxPlayer) == v)
            && (forall i :: 0 <= i < |childs| ==>
                  if maxTurn then AtMost(Minimax(p, childs[i], d, maxD, maxPlayer), v)
                  else AtMost(v, Minimax(p, childs[i], d, maxD, maxPlayer)))
    decreases |childs|
  {
    var rest := childs[1..];
    assert BestOf(p, [], d, maxD, maxPlayer, maxTurn) == if maxTurn then NegInf else PosInf;
    assert Minimax(p, childs[0], d, maxD, maxPlayer) == Minimax(p, childs[0], d, maxD, maxPlayer);
    if rest != [] {
      BestOfMeaning(p, rest, d, maxD, maxPlayer, maxTurn);
      var j :| 0 <= j < |rest| && Minimax(p, rest[j], d, maxD, maxPlayer) == BestOf(p, rest, d, maxD, maxPlayer, maxTurn);
      assert childs[j + 1] == rest[j];
      assert forall i :: 0 < i < |childs| ==> childs[i] == rest[i - 1];
    }
  }

  /** Why a max ply may search a child with its raised alpha and stop once it meets beta. */
  lemma MaxStep(alpha: real, beta: real, a: real, v: real, exact: Value, rest: Value)
    requires alpha <= a < beta
    requires Fin(v).Clamp(a, beta) == exact.Clamp(a, beta)
    ensures var a' := if v > a then v else a;
            Fin(a).Max(exact.Max(rest)).Clamp(alpha, beta) ==
            if a' >= beta then beta else Fin(a').Max(rest).Clamp(alpha, beta)
  {
  }

  lemma MinStep(alpha: real, beta: real, b: real, v: real, exact: Value, rest: Value)
    requires alpha < b <= beta
    requires Fin(v).Clamp(alpha, b) == exact.Clamp(alpha, b)
    ensures var b' := if v < b then v else b;
            Fin(b).Min(exact.Min(rest)).Clamp(alpha, beta) ==
            if alpha >= b' then alpha else Fin(b').Min(rest).Clamp(alpha, beta)
  {
  }

  /** Fail-hard alpha-beta.  Inside a proper window its answer, clamped to the window,
      is the clamped minimax value; interior nodes return that clamped value itself.  So an
      answer inside the window is the minimax value, and one at or beyond an end of the window
      says that the minimax value is at or beyond that end. */
  method AlphaBeta(p: Problem, state: State, currentDepth: int, maxDepth: int, maxPlayer: Player,
                   alpha: real, beta: real) returns (r: real)
    ensures Leaf(p, state, currentDepth, maxDepth) ==> r == p.evaluate(state, maxPlayer)
    ensures alpha < beta && !Leaf(p, state, currentDepth, maxDepth) ==>
              r == Minimax(p, state, currentDepth, maxDepth, maxPlayer).Clamp(alpha, beta)
    ensures alpha < beta ==>
              Fin(r).Clamp(alpha, beta) == Minimax(p, state, currentDepth, maxDepth, maxPlayer).Clamp(alpha, beta)
    ensures alpha < r < beta ==> Minimax(p, state, currentDepth, maxDepth, maxPlayer) == Fin(r)
    ensures r <= alpha < beta ==> AtMost(Minimax(p, state, currentDepth, maxDepth, maxPlayer), Fin(alpha))
    ensures alpha < beta <= r ==> AtMost(Fin(beta), Minimax(p, state, currentDepth, maxDepth, maxPlayer))
    ensures alpha >= beta && !Leaf(p, state, currentDepth, maxDepth) ==>
              r == if (maxPlayer == state.turn) == (p.expand(state) == []) then alpha else beta
    decreases Height(currentDepth, maxDepth)
  {
    var a, b := alpha, beta;
    var childs := p.expand(state);
    if p.terminal(state) || currentDepth >= maxDepth {
      return p.evaluate(state, maxPlayer);
    } else if maxPlayer == state.turn {
      for i := 0 to |childs|
        invariant alpha <= a && (alpha < beta ==> a < beta) && (alpha >= beta ==> i == 0)
        invariant i == 0 ==> a == alpha
        invariant alpha < beta ==>
          Minimax(p, state, currentDepth, maxDepth, maxPlayer).Clamp(alpha, beta) ==
          Fin(a).Max(BestOf(p, childs[i..], currentDepth + 1, maxDepth, maxPlayer, true)).Clamp(alpha, beta)
      {
        var v := AlphaBeta(p, childs[i], currentDepth + 1, maxDepth, maxPlayer, a, b);
        ghost var olda := a;
        a := if v > a then v else a;
        assert childs[i..][1..] == childs[i + 1..];
        if alpha < beta {
          MaxStep(alpha, beta, olda, v, Minimax(p, childs[i], currentDepth + 1, maxDepth, maxPlayer),
                  BestOf(p, childs[i + 1..], currentDepth + 1, maxDepth, maxPlayer, true));
        }
        if a >= b {
          return b;
        }
      }
      return a;
    } else {
      for i := 0 to |childs|
        invariant b <= beta && (alpha < beta ==> alpha < b) && (alpha >= beta ==> i == 0)
        invariant i == 0 ==> b == beta
        invariant alpha < beta ==>
          Minimax(p, state, currentDepth, maxDepth, maxPlayer).Clamp(alpha, beta) ==
          Fin(b).Min(BestOf(p, childs[i..], currentDepth + 1, maxDepth, maxPlayer, false)).Clamp(alpha, beta)
      {
        var v := AlphaBeta(p, childs[i], currentDepth + 1, maxDepth, maxPlayer, a, b);
        ghost var oldb := b;
        b := if v < b then v else b;
        assert childs[i..][1..] == childs[i + 1..];
        if alpha < beta {
          MinStep(alpha, beta, oldb, v, Minimax(p, childs[i], currentDepth + 1, maxDepth, maxPlayer),
                  BestOf(p, childs[i + 1..], currentDepth + 1, maxDepth, maxPlayer, false));
        }
        if a >= b {
          return a;
        }
      }
      return b;
    }
  }

  // ---------------------------------------------------------------------
  // The computer's move

  /** The search problem of a Mancala game with some evaluation function. */
  function Mancala(rules: Rules, evaluate: (State, Player) -> real): Problem {
    Problem(
      s => if Valid(rules, s) then MovesOf(rules, s) else [],
      s => if Valid(rules, s) then GameOver(rules, s) else true,
      evaluate)
  }

  /** The range that an evaluation function must keep to. */
  ghost predicate InRange(evaluate: (State, Player) -> real) {
    Bounded(evaluate, MIN_WINS, MAX_WINS)
  }

  ghost predicate Bounded(evaluate: (State, Player) -> real, lo: real, hi: real) {
    forall s, p :: lo <= evaluate(s, p) <= hi
  }

  predicate Between(x: Value, lo: real, hi: real) {
    x.Fin? && lo <= x.v <= hi
  }

  /** In a Mancala game every node has a child or is terminal, so minimax values are
      numbers in the evaluation's range. */
  lemma {:induction false} MinimaxBetween(rules: Rules, evaluate: (State, Player) -> real, s: State,
                                          d: int, maxD: int, player: Player, lo: real, hi: real)
    requires Bounded(evaluate, lo, hi)
    ensures Between(Minimax(Mancala(rules, evaluate), s, d, maxD, player), lo, hi)
    decreases Height(d, maxD), 0
  {
    var p := Mancala(rules, evaluate);
    if !Leaf(p, s, d, maxD) {
      NoMovesIffGameOver(rules, s);
      BestOfBetween(rules, evaluate, p.expand(s), d + 1, maxD, player, player == s.turn, lo, hi);
    }
  }

  lemma {:induction false} BestOfBetween(rules: Rules, evaluate: (State, Player) -> real, childs: seq<State>,
                                         d: int, maxD: int, player: Player, maxTurn: bool, lo: real, hi: real)
    requires Bounded(evaluate, lo, hi) && childs != []
    ensures Between(BestOf(Mancala(rules, evaluate), childs, d, maxD, player, maxTurn), lo, hi)
    decreases Height(d, maxD), 1 + |childs|
  {
    MinimaxBetween(rules, evaluate, childs[0], d, maxD, player, lo, hi);
    if |childs| > 1 {
      BestOfBetween(rules, evaluate, childs[1..], d, maxD, player, maxTurn, lo, hi);
    }
  }

  /** What the search over the whole range says that a successor is worth to the player about
      to move: its minimax value, clamped to the range unless it is evaluated directly. */
  function Worth(rules: Rules, evaluate: (State, Player) -> real, child: State, maxDepth: int, player: Player): real {
    if Leaf(Mancala(rules, evaluate), child, 0, maxDepth) then evaluate(child, player)
    else Minimax(Mancala(rules, evaluate), child, 0, maxDepth, player).Clamp(MIN_WINS, MAX_WINS)
  }

  /** What each successor is worth, in the order of the list. */
  function Worths(rules: Rules, evaluate: (State, Player) -> real, childs: seq<State>, maxDepth: int,
                  player: Player): (ws: seq<real>)
    ensures |ws| == |childs|
  {
    seq(|childs|, j requires 0 <= j < |childs| => Worth(rules, evaluate, childs[j], maxDepth, player))
  }

  /** Choice `i` beats a certain loss, none is better, and no earlier one is as good. */
  predicate FirstBest(ws: seq<real>, i: nat) {
    && i < |ws|
    && MIN_WINS < ws[i]
    && (forall j :: 0 <= j < |ws| ==> ws[j] <= ws[i])
    && (forall j :: 0 <= j < i ==> ws[j] < ws[i])
  }

  lemma FirstBestUnique(ws: seq<real>)
    ensures forall i: nat, j: nat :: FirstBest(ws, i) && FirstBest(ws, j) ==> i == j
  {
  }

  /** The first successor, in `moves` order, of greatest worth. */
  ghost function BestMove(rules: Rules, evaluate: (State, Player) -> real, st: State, maxDepth: int): Option<State>
    requires Valid(rules, st)
  {
    var childs := MovesOf(rules, st);
    var ws := Worths(rules, evaluate, childs, maxDepth, st.turn);
    if i: nat :| FirstBest(ws, i) then Some(childs[i]) else None
  }

  /** With an evaluation in range clamping loses nothing: a worth is the minimax value. */
  lemma WorthIsMinimax(rules: Rules, evaluate: (State, Player) -> real, child: State, maxDepth: int, player: Player)
    requires InRange(evaluate)
    ensures Minimax(Mancala(rules, evaluate), child, 0, maxDepth, player)
            == Fin(Worth(rules, evaluate, child, maxDepth, player))
    ensures MIN_WINS <= Worth(rules, evaluate, child, maxDepth, player) <= MAX_WINS
  {
    MinimaxBetween(rules, evaluate, child, 0, maxDepth, player, MIN_WINS, MAX_WINS);
  }

  lemma AllLost(rules: Rules, evaluate: (State, Player) -> real, childs: seq<State>, maxDepth: int, player: Player)
    requires InRange(evaluate)
    ensures (forall c :: c in childs ==> Minimax(Mancala(rules, evaluate), c, 0, maxDepth, player) == Fin(MIN_WINS))
            <==> (forall j :: 0 <= j < |childs| ==> Worths(rules, evaluate, childs, maxDepth, player)[j] <= MIN_WINS)
  {
    forall j | 0 <= j < |childs|
      ensures var w := Worths(rules, evaluate, childs, maxDepth, player)[j];
              Minimax(Mancala(rules, evaluate), childs[j], 0, maxDepth, player) == Fin(w) && MIN_WINS <= w
    {
      WorthIsMinimax(rules, evaluate, childs[j], maxDepth, player);
    }
    assert forall j :: 0 <= j < |childs| ==> childs[j] in childs;
    assert forall c :: c in childs ==> exists j :: 0 <= j < |childs| && childs[j] == c;
  }

  /** The computer's move is the first child, in `moves` order, of greatest worth, whatever
      the evaluation; with an evaluation in range it is nil exactly when every child's minimax
      value is MIN_WINS, which includes the game being over. */
  method ComputerMakeMove(rules: Rules, evaluate: (State, Player) -> real, state: State, maxDepth: int)
    returns (bestState: Option<State>)
    requires Valid(rules, state)
    ensures bestState == BestMove(rules, evaluate, state, maxDepth)
    ensures InRange(evaluate) ==>
              (bestState.None? <==> forall c :: c in MovesOf(rules, state) ==>
                 Minimax(Mancala(rules, evaluate), c, 0, maxDepth, state.turn) == Fin(MIN_WINS))
    ensures bestState.Some? ==>
              exists i: nat :: FirstBest(Worths(rules, evaluate, MovesOf(rules, state), maxDepth, state.turn), i)
                            && bestState.value == MovesOf(rules, state)[i]
    ensures GameOver(rules, state) ==> bestState.None?
  {
    bestState := None;
    var bestScore := MIN_WINS;
    var childs := Moves(rules, state);
    var over := GameOverp(rules, state);
    NoMovesIffGameOver(rules, state);
    if over {
      return None;
    }
    ghost var best: nat := 0;
    ghost var ws := Worths(rules, evaluate, childs, maxDepth, state.turn);
    for k := 0 to |childs|
      invariant bestState.None? <==> bestScore == MIN_WINS
      invariant MIN_WINS <= bestScore
      invariant forall j :: 0 <= j < k ==> ws[j] <= bestScore
      invariant bestState.Some? ==> best < k && bestState.value == childs[best] && bestScore == ws[best]
      invariant bestState.Some? ==> forall j :: 0 <= j < best ==> ws[j] < bestScore
    {
      var curScore := AlphaBeta(Mancala(rules, evaluate), childs[k], 0, maxDepth, state.turn, MIN_WINS, MAX_WINS);
      assert curScore == ws[k];
      if curScore > bestScore {
        bestState := Some(childs[k]);
        bestScore := curScore;
        best := k;
      }
    }
    assert bestState.Some? ==> FirstBest(ws, best);
    FirstBestUnique(ws);
    if InRange(evaluate) {
      AllLost(rules, evaluate, childs, maxDepth, state.turn);
    }
  }

  /** The evaluation of finished games in the source: a win, or else a certain loss. */
  ghost predicate JudgesEnd(rules: Rules, evaluate: (State, Player) -> real) {
    forall s: State, p: Player :: Valid(rules, s) && GameOver(rules, s) ==>
      evaluate(s, p) == if Score(rules, s, p) > 0 then MAX_WINS else MIN_WINS
  }

  /** The player to move has one stone left, next to the mancala. */
  predicate LastStone(rules: Rules, st: State)
    requires Valid(rules, st)
  {
    rules.pits > 0 &&
    forall n: nat :: n < rules.pits ==> st.board[rules.Index(st.turn, n)] == if n == rules.pits - 1 then 1 else 0
  }

  /** Sowing one stone from the pit next to the mancala. */
  lemma LastSown(rules: Rules, player: Player, board: seq<nat>)
    requires |board| == rules.BoardSize() && rules.pits > 0
    ensures var mine := rules.MancalaPit(player);
            && EndSeat(rules, rules.pits - 1, 1) == rules.pits && rules.Index(player, rules.pits) == mine
            && Moved(rules, player, rules.pits - 1, board, 1)
               == board[rules.Index(player, rules.pits - 1) := 0][mine := board[mine] + 1]
  {
    var n := rules.pits - 1;
    SowNone(rules, player, n, board);
    SowOneMore(rules, player, n, board, 0);
    DivModUnique(rules.pits, rules.Lap(), 0, rules.pits);
  }

  /** There is one move, and with the go-again rule it ends the game. */
  lemma LastMove(rules: Rules, st: State)
    requires Valid(rules, st) && rules.goAgain && LastStone(rules, st)
    ensures !GameOver(rules, st)
    ensures |MovesOf(rules, st)| == 1
    ensures var m := MovesOf(rules, st)[0];
            GameOver(rules, m) && Score(rules, m, st.turn) == Score(rules, st, st.turn) + 1
  {
    var n := rules.pits - 1;
    NoOtherMove(rules, st, n);
    LastSown(rules, st.turn, st.board);
    assert st.board[rules.Index(st.turn, n)] == 1;
  }

  lemma {:induction false} NoOtherMove(rules: Rules, st: State, x: nat)
    requires Valid(rules, st) && LastStone(rules, st) && x < rules.pits
    ensures MovesBelow(rules, st, x) == []
  {
    if x > 0 {
      NoOtherMove(rules, st, x - 1);
    }
  }

  /** Nil does not mean that the game is over, whatever the rest of the evaluation: with one
      stone left to play, at any depth, the computer gives up in a game that is not over
      exactly when the stone does not win it, so in drawn games too. */
  lemma GivesUpWhenLost(rules: Rules, evaluate: (State, Player) -> real, st: State, maxDepth: int)
    requires Valid(rules, st) && rules.goAgain && LastStone(rules, st) && JudgesEnd(rules, evaluate)
    ensures !GameOver(rules, st)
    ensures BestMove(rules, evaluate, st, maxDepth).None? <==> Score(rules, st, st.turn) < 0
  {
    LastMove(rules, st);
    var childs := MovesOf(rules, st);
    var ws := Worths(rules, evaluate, childs, maxDepth, st.turn);
    assert childs[0] in childs;
    assert ws[0] == if Score(rules, st, st.turn) + 1 > 0 then MAX_WINS else MIN_WINS;
    assert FirstBest(ws, 0) <==> Score(rules, st, st.turn) >= 0;
  }

  // ---------------------------------------------------------------------
  // The search does not favour a side

  /** The evaluation treats the two players alike. */
  ghost predicate Impartial(rules: Rules, evaluate: (State, Player) -> real) {
    forall s: State, p: Player :: Valid(rules, s) ==> evaluate(Flip(rules, s), OtherPlayer(p)) == evaluate(s, p)
  }

  lemma {:induction false} FlipMinimax(rules: Rules, evaluate: (State, Player) -> real, s: State,
                                       d: int, maxD: int, player: Player)
    requires Valid(rules, s) && Impartial(rules, evaluate)
    ensures Minimax(Mancala(rules, evaluate), Flip(rules, s), d, maxD, OtherPlayer(player))
            == Minimax(Mancala(rules, evaluate), s, d, maxD, player)
    decreases Height(d, maxD), 0
  {
    var p := Mancala(rules, evaluate);
    FlipSymmetry(rules, s);
    if !Leaf(p, s, d, maxD) {
      FlipBestOf(rules, evaluate, p.expand(s), d + 1, maxD, player, player == s.turn);
    }
  }

  lemma {:induction false} FlipBestOf(rules: Rules, evaluate: (State, Player) -> real, childs: seq<State>,
                                      d: int, maxD: int, player: Player, maxTurn: bool)
    requires Impartial(rules, evaluate) && forall c :: c in childs ==> Valid(rules, c)
    ensures BestOf(Mancala(rules, evaluate), FlipAll(rules, childs), d, maxD, OtherPlayer(player), maxTurn)
            == BestOf(Mancala(rules, evaluate), childs, d, maxD, player, maxTurn)
    decreases Height(d, maxD), 1 + |childs|
  {
    if childs != [] {
      FlipMinimax(rules, evaluate, childs[0], d, maxD, player);
      FlipBestOf(rules, evaluate, childs[1..], d, maxD, player, maxTurn);
    }
  }

  lemma FlipWorth(rules: Rules, evaluate: (State, Player) -> real, s: State, maxDepth: int, player: Player)
    requires Impartial(rules, evaluate) && Valid(rules, s)
    ensures Worth(rules, evaluate, Flip(rules, s), maxDepth, OtherPlayer(player))
            == Worth(rules, evaluate, s, maxDepth, player)
  {
    FlipMinimax(rules, evaluate, s, 0, maxDepth, player);
    FlipSymmetry(rules, s);
  }

  lemma FlipWorths(rules: Rules, evaluate: (State, Player) -> real, childs: seq<State>, maxDepth: int, player: Player)
    requires Impartial(rules, evaluate) && forall c :: c in childs ==> Valid(rules, c)
    ensures Worths(rules, evaluate, FlipAll(rules, childs), maxDepth, OtherPlayer(player))
            == Worths(rules, evaluate, childs, maxDepth, player)
  {
    forall j | 0 <= j < |childs|
      ensures Worth(rules, evaluate, FlipAll(rules, childs)[j], maxDepth, OtherPlayer(player))
              == Worth(rules, evaluate, childs[j], maxDepth, player)
    {
      FlipWorth(rules, evaluate, childs[j], maxDepth, player);
    }
  }

  /** With an impartial evaluation the computer plays both sides of the table alike. */
  lemma FlipBestMove(rules: Rules, evaluate: (State, Player) -> real, st: State, maxDepth: int)
    requires Valid(rules, st) && Impartial(rules, evaluate)
    ensures var m := BestMove(rules, evaluate, st, maxDepth);
            && (m.Some? ==> m.value in MovesOf(rules, st))
            && BestMove(rules, evaluate, Flip(rules, st), maxDepth) == FlipOption(rules, m)
  {
    FlipSymmetry(rules, st);
    FlipWorths(rules, evaluate, MovesOf(rules, st), maxDepth, st.turn);
    FirstBestUnique(Worths(rules, evaluate, MovesOf(rules, st), maxDepth, st.turn));
  }
}
