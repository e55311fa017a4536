/** Whole games: conservation of stones, termination, and the symmetry between the
    players. */
module MancalaGame {
  import opened Wrappers
  import opened MancalaRules

  // ---------------------------------------------------------------------
  // Weighted stone counts

  /** `count` stones of weight `weight` each (kept recursive, so that no proof
      below has to reason about products). */
  function Pile(count: nat, weight: nat): nat {
    if count == 0 then 0 else Pile(count - 1, weight) + weight
  }

  lemma {:induction false} PileAdd(a: nat, b: nat, weight: nat)
    ensures Pile(a + b, weight) == Pile(a, weight) + Pile(b, weight)
  {
    if b > 0 {
      PileAdd(a, b - 1, weight);
    }
  }

  lemma {:induction false} PileSimple(count: nat)
    ensures Pile(count, 0) == 0 && Pile(count, 1) == count
  {
    if count > 0 {
      PileSimple(count - 1);
    }
  }

  lemma {:induction false} PileBound(count: nat, weight: nat, cap: nat)
    requires weight <= cap
    ensures Pile(count, weight) <= Pile(count, cap)
  {
    if count > 0 {
      PileBound(count - 1, weight, cap);
    }
  }

  /** Stones on the board, each counted with the weight of its pit. */
  function Weigh(board: seq<nat>, w: seq<nat>): nat
    requires |board| == |w|
  {
    if board == [] then 0
    else
      var last := |board| - 1;
      Weigh(board[..last], w[..last]) + Pile(board[last], w[last])
  }

  lemma {:induction false} WeighUpdate(board: seq<nat>, w: seq<nat>, i: nat, v: nat)
    requires |board| == |w| && i < |board|
    ensures Weigh(board[i := v], w) + Pile(board[i], w[i]) == Weigh(board, w) + Pile(v, w[i])
  {
    var last := |board| - 1;
    if i == last {
      assert board[i := v][..last] == board[..last];
    } else {
      assert board[i := v][..last] == board[..last][i := v];
      WeighUpdate(board[..last], w[..last], i, v);
    }
  }

  lemma WeighTransfer(board: seq<nat>, w: seq<nat>, from: nat, to: nat)
    requires |board| == |w| && from < |board| && to < |board| && from != to
    ensures Weigh(board[to := board[to] + board[from]][from := 0], w) + Pile(board[from], w[from])
            == Weigh(board, w) + Pile(board[from], w[to])
  {
    var gained := board[to := board[to] + board[from]];
    WeighUpdate(board, w, to, board[to] + board[from]);
    PileAdd(board[to], board[from], w[to]);
    assert Weigh(gained, w) == Weigh(board, w) + Pile(board[from], w[to]);
    WeighUpdate(gained, w, from, 0);
    assert gained[from] == board[from] && Pile(0, w[from]) == 0;
  }

  /** Weight one everywhere: counts all stones. */
  function Ones(rules: Rules): seq<nat> {
    seq(rules.BoardSize(), i => 1)
  }

  /** Weight one on pits, zero on the mancalas: counts the stones still in play. */
  function PitWeights(rules: Rules): seq<nat> {
    seq(rules.BoardSize(), i => PitWeightAt(rules, i))
  }

  function PitWeightAt(rules: Rules, i: int): nat {
    if i == rules.pits || i == rules.Lap() then 0 else 1
  }

  /** Each pit weighs its distance to its owner's mancala. */
  function Distances(rules: Rules): seq<nat> {
    seq(rules.BoardSize(), i requires 0 <= i < rules.BoardSize() => DistanceAt(rules, i))
  }

  function DistanceAt(rules: Rules, i: nat): nat
    requires i < rules.BoardSize()
  {
    if i <= rules.pits then rules.pits - i else rules.Lap() - i
  }

  function Stones(rules: Rules, st: State): nat
    requires Valid(rules, st)
  {
    Weigh(st.board, Ones(rules))
  }

  function InPlay(rules: Rules, st: State): nat
    requires Valid(rules, st)
  {
    Weigh(st.board, PitWeights(rules))
  }

  function Distance(rules: Rules, st: State): nat
    requires Valid(rules, st)
  {
    Weigh(st.board, Distances(rules))
  }

  // ---------------------------------------------------------------------
  // How a move changes a weighted count

  /** Total weight of the seats that the first `k` stones sown from seat `n` land on. */
  function Path(rules: Rules, player: Player, n: nat, k: nat, w: seq<nat>): nat
    requires |w| == rules.BoardSize()
  {
    if k == 0 then 0
    else Path(rules, player, n, k - 1, w) + w[rules.Index(player, EndSeat(rules, n, k))]
  }

  /** Sowing stone by stone: the simple form that the closed form `Sown` stands for. */
  function Dealt(rules: Rules, player: Player, n: nat, board: seq<nat>, k: nat): (b: seq<nat>)
    requires |board| == rules.BoardSize() && n < rules.pits
    ensures |b| == |board|
  {
    if k == 0 then board[rules.Index(player, n) := 0]
    else
      var b := Dealt(rules, player, n, board, k - 1);
      var end := rules.Index(player, EndSeat(rules, n, k));
      b[end := b[end] + 1]
  }

  lemma {:induction false} SownIsDealt(rules: Rules, player: Player, n: nat, board: seq<nat>, k: nat)
    requires |board| == rules.BoardSize() && n < rules.pits
    ensures Sown(rules, player, n, board, k) == Dealt(rules, player, n, board, k)
  {
    if k == 0 {
      SowNone(rules, player, n, board);
    } else {
      SownIsDealt(rules, player, n, board, k - 1);
      SowOneMore(rules, player, n, board, k - 1);
    }
  }

  lemma WeighIncrement(board: seq<nat>, w: seq<nat>, i: nat)
    requires |board| == |w| && i < |board|
    ensures Weigh(board[i := board[i] + 1], w) == Weigh(board, w) + w[i]
  {
    WeighUpdate(board, w, i, board[i] + 1);
  }

  /** One more stone adds the weight of its seat. */
  lemma WeighNext(rules: Rules, player: Player, n: nat, board: seq<nat>, k: nat, w: seq<nat>)
    requires |board| == |w| == rules.BoardSize() && n < rules.pits && k > 0
    ensures Weigh(Dealt(rules, player, n, board, k), w)
            == Weigh(Dealt(rules, player, n, board, k - 1), w) + w[rules.Index(player, EndSeat(rules, n, k))]
  {
    WeighIncrement(Dealt(rules, player, n, board, k - 1), w, rules.Index(player, EndSeat(rules, n, k)));
  }

  lemma {:induction false} WeighDealt(rules: Rules, player: Player, n: nat, board: seq<nat>, k: nat, w: seq<nat>)
    requires |board| == |w| == rules.BoardSize() && n < rules.pits
    ensures var start := rules.Index(player, n);
            Weigh(Dealt(rules, player, n, board, k), w) + Pile(board[start], w[start])
            == Weigh(board, w) + Path(rules, player, n, k, w)
  {
    if k == 0 {
      WeighUpdate(board, w, rules.Index(player, n), 0);
    } else {
      WeighDealt(rules, player, n, board, k - 1, w);
      WeighNext(rules, player, n, board, k, w);
    }
  }

  /** The pit facing the seat where the last stone fell. */
  function Facing(rules: Rules, player: Player, end: nat): (i: nat)
    requires end < rules.Lap()
    ensures i < rules.BoardSize()
  {
    rules.Index(player, if end < rules.pits then 2 * rules.pits - end else 0)
  }

  /** The stones won by a capture. */
  function Haul(rules: Rules, player: Player, sown: seq<nat>, end: nat): nat
    requires |sown| == rules.BoardSize() && end < rules.Lap()
  {
    if Captures(rules, player, sown, end) then sown[Facing(rules, player, end)] else 0
  }

  lemma CapturedIsTransfer(rules: Rules, player: Player, sown: seq<nat>, end: nat)
    requires |sown| == rules.BoardSize() && end < rules.Lap() && Captures(rules, player, sown, end)
    ensures var from, mine := Facing(rules, player, end), rules.Index(player, rules.pits);
            from != mine && Captured(rules, player, sown, end) == sown[mine := sown[mine] + sown[from]][from := 0]
  {
  }

  lemma WeighCaptured(rules: Rules, player: Player, sown: seq<nat>, end: nat, w: seq<nat>)
    requires |sown| == |w| == rules.BoardSize() && end < rules.Lap()
    ensures var haul := Haul(rules, player, sown, end);
            Weigh(Captured(rules, player, sown, end), w) + Pile(haul, w[Facing(rules, player, end)])
            == Weigh(sown, w) + Pile(haul, w[rules.Index(player, rules.pits)])
  {
    if Captures(rules, player, sown, end) {
      CapturedIsTransfer(rules, player, sown, end);
      WeighTransfer(sown, w, Facing(rules, player, end), rules.Index(player, rules.pits));
    }
  }

  /** The whole move in terms of a weighted count: the source pit's stones go to the
      seats on the path, and the haul goes from the facing pit to the mancala. */
  lemma WeighMoved(rules: Rules, player: Player, n: nat, board: seq<nat>, k: nat, w: seq<nat>) returns (haul: nat)
    requires |board| == |w| == rules.BoardSize() && n < rules.pits
    ensures haul > 0 ==> rules.bigWin && EndSeat(rules, n, k) < rules.pits
    ensures var start := rules.Index(player, n);
            Weigh(Moved(rules, player, n, board, k), w)
            + Pile(board[start], w[start]) + Pile(haul, w[Facing(rules, player, EndSeat(rules, n, k))])
            == Weigh(board, w) + Path(rules, player, n, k, w) + Pile(haul, w[rules.Index(player, rules.pits)])
    ensures haul == Haul(rules, player, Dealt(rules, player, n, board, k), EndSeat(rules, n, k))
  {
    var dealt := Dealt(rules, player, n, board, k);
    SownIsDealt(rules, player, n, board, k);
    WeighDealt(rules, player, n, board, k, w);
    WeighCaptured(rules, player, dealt, EndSeat(rules, n, k), w);
    haul := Haul(rules, player, dealt, EndSeat(rules, n, k));
  }

  lemma {:induction false} PathOnes(rules: Rules, player: Player, n: nat, k: nat)
    ensures Path(rules, player, n, k, Ones(rules)) == k
  {
    if k > 0 {
      PathOnes(rules, player, n, k - 1);
    }
  }

  /** Stones that reach the mover's mancala leave play; no stone comes back. */
  lemma {:induction false} PathInPlay(rules: Rules, player: Player, n: nat, k: nat)
    requires n < rules.pits
    ensures Path(rules, player, n, k, PitWeights(rules)) <= k
    ensures rules.pits <= n + k ==> Path(rules, player, n, k, PitWeights(rules)) < k
  {
    if k > 0 {
      PathInPlay(rules, player, n, k - 1);
      if n + k == rules.pits {
        DivModUnique(n + k, rules.Lap(), 0, n + k);
      }
    }
  }

  /** Stones that stay on the mover's side move towards the mover's mancala. */
  lemma {:induction false} PathDistance(rules: Rules, player: Player, n: nat, k: nat)
    requires n + k < rules.pits
    ensures Path(rules, player, n, k, Distances(rules)) + k <= Pile(k, Distances(rules)[rules.Index(player, n)])
  {
    if k > 0 {
      PathDistance(rules, player, n, k - 1);
      DivModUnique(n + k, rules.Lap(), 0, n + k);
    }
  }

  /** No move creates or destroys a stone. */
  lemma MoveConservesStones(rules: Rules, st: State, n: nat)
    requires Valid(rules, st) && n < rules.pits && Move(rules, st, n).Some?
    ensures Stones(rules, Move(rules, st, n).value) == Stones(rules, st)
  {
    var k := st.board[rules.Index(st.turn, n)];
    var haul := WeighMoved(rules, st.turn, n, st.board, k, Ones(rules));
    PathOnes(rules, st.turn, n, k);
    PileSimple(k);
  }

  /** A move never adds to the stones in play, and it removes some if the sowing
      reaches the mover's mancala. */
  lemma MoveInPlay(rules: Rules, st: State, n: nat) returns (haul: nat)
    requires Valid(rules, st) && n < rules.pits && Move(rules, st, n).Some?
    ensures InPlay(rules, Move(rules, st, n).value) + haul <= InPlay(rules, st)
    ensures rules.pits <= n + st.board[rules.Index(st.turn, n)] ==>
              InPlay(rules, Move(rules, st, n).value) < InPlay(rules, st)
    ensures haul == var k := st.board[rules.Index(st.turn, n)];
                    Haul(rules, st.turn, Dealt(rules, st.turn, n, st.board, k), EndSeat(rules, n, k))
  {
    var k := st.board[rules.Index(st.turn, n)];
    haul := WeighMoved(rules, st.turn, n, st.board, k, PitWeights(rules));
    PathInPlay(rules, st.turn, n, k);
    PileSimple(k);
    PileSimple(haul);
  }

  /** A move that stays short of the mover's mancala and captures nothing shortens
      the total distance. */
  lemma ShortMoveDistance(rules: Rules, st: State, n: nat)
    requires Valid(rules, st) && n < rules.pits && Move(rules, st, n).Some?
    requires n + st.board[rules.Index(st.turn, n)] < rules.pits
    requires var k := st.board[rules.Index(st.turn, n)];
             Haul(rules, st.turn, Dealt(rules, st.turn, n, st.board, k), EndSeat(rules, n, k)) == 0
    ensures Distance(rules, Move(rules, st, n).value) < Distance(rules, st)
  {
    var k := st.board[rules.Index(st.turn, n)];
    var haul := WeighMoved(rules, st.turn, n, st.board, k, Distances(rules));
    PathDistance(rules, st.turn, n, k);
  }

  /** Every move strictly decreases the pair (stones in play, total distance of the
      stones in play to their owner's mancala), lexicographically. */
  lemma MoveDecreases(rules: Rules, st: State, n: nat)
    requires Valid(rules, st) && n < rules.pits && Move(rules, st, n).Some?
    ensures var st' := Move(rules, st, n).value;
            || InPlay(rules, st') < InPlay(rules, st)
            || (InPlay(rules, st') == InPlay(rules, st) && Distance(rules, st') < Distance(rules, st))
  {
    var haul := MoveInPlay(rules, st, n);
    if n + st.board[rules.Index(st.turn, n)] < rules.pits && haul == 0 {
      ShortMoveDistance(rules, st, n);
    }
  }

  /** Neither mancala ever loses a stone, and the opponent's is untouched. */
  lemma MancalasNeverDecrease(rules: Rules, st: State, n: nat)
    requires Valid(rules, st) && n < rules.pits && Move(rules, st, n).Some?
    ensures var st' := Move(rules, st, n).value;
            var mine, theirs := rules.MancalaPit(st.turn), rules.MancalaPit(OtherPlayer(st.turn));
            st'.board[theirs] == st.board[theirs] && st'.board[mine] >= st.board[mine]
  {
    var mine := rules.MancalaPit(st.turn);
    assert rules.Index(st.turn, rules.pits) == mine && rules.Seat(st.turn, mine) == rules.pits;
    assert rules.Seat(st.turn, rules.MancalaPit(OtherPlayer(st.turn))) == rules.Lap();
  }

  // ---------------------------------------------------------------------
  // Games

  /** The initial state: every pit filled alike, both mancalas empty. */
  function Start(rules: Rules, firstPlayer: Player): (st: State)
    ensures Valid(rules, st) && st.turn == firstPlayer
  {
    State(seq(rules.BoardSize(), i => StartAt(rules, i)), firstPlayer)
  }

  function StartAt(rules: Rules, i: int): nat {
    if i == rules.pits || i == rules.Lap() then 0 else rules.stonesPerPit
  }

  method InitState(rules: Rules, firstPlayer: Player) returns (st: State)
    ensures st == Start(rules, firstPlayer)
    ensures st.board[rules.MancalaPit(PLAYER_1)] == st.board[rules.MancalaPit(PLAYER_2)] == 0
    ensures forall i :: 0 <= i < |st.board| && i != rules.MancalaPit(PLAYER_1) && i != rules.MancalaPit(PLAYER_2) ==>
              st.board[i] == rules.stonesPerPit
  {
    var initialBoard := new nat[rules.BoardSize()];
    for x := 0 to initialBoard.Length
      invariant forall i :: 0 <= i < x ==> initialBoard[i] == StartAt(rules, i)
    {
      initialBoard[x] := if x != rules.MancalaPit(PLAYER_2) && x != rules.MancalaPit(PLAYER_1)
        then rules.stonesPerPit else 0;
    }
    st := State(initialBoard[..], firstPlayer);
  }

  /** A run of the play loop: each state is one of the moves of the state before. */
  predicate IsGame(rules: Rules, run: seq<State>) {
    && run != []
    && Valid(rules, run[0])
    && forall i {:trigger run[i]} :: 0 < i < |run| ==> Valid(rules, run[i - 1]) && run[i] in MovesOf(rules, run[i - 1])
  }

  lemma SuccessorMeasure(rules: Rules, st: State, st': State)
    requires Valid(rules, st) && st' in MovesOf(rules, st)
    ensures Valid(rules, st')
    ensures Stones(rules, st') == Stones(rules, st)
    ensures || InPlay(rules, st') < InPlay(rules, st)
            || (InPlay(rules, st') == InPlay(rules, st) && Distance(rules, st') < Distance(rules, st))
    ensures forall p: Player :: st'.board[rules.MancalaPit(p)] >= st.board[rules.MancalaPit(p)]
  {
    MovesBelowComplete(rules, st, rules.pits, st');
    var n: nat :| n < rules.pits && Move(rules, st, n) == Some(st');
    MoveConservesStones(rules, st, n);
    MoveDecreases(rules, st, n);
    MancalasNeverDecrease(rules, st, n);
  }

  /** Over any game the stones are conserved and no mancala shrinks. */
  lemma {:induction false} GameInvariant(rules: Rules, run: seq<State>)
    requires IsGame(rules, run)
    ensures var last := run[|run| - 1];
            && Valid(rules, last)
            && Stones(rules, last) == Stones(rules, run[0])
            && forall p: Player :: last.board[rules.MancalaPit(p)] >= run[0].board[rules.MancalaPit(p)]
  {
    if |run| > 1 {
      var last := |run| - 1;
      assert run[last] in MovesOf(rules, run[last - 1]);
      GameInvariant(rules, run[..last]);
      SuccessorMeasure(rules, run[last - 1], run[last]);
    }
  }

  /** A board that holds `stones` everywhere. */
  lemma {:induction false} WeighAlike(board: seq<nat>, ones: seq<nat>, stones: nat)
    requires |board| == |ones| && forall i :: 0 <= i < |board| ==> board[i] == stones && ones[i] == 1
    ensures Weigh(board, ones) == Pile(|board|, stones)
  {
    if board != [] {
      var last := |board| - 1;
      WeighAlike(board[..last], ones[..last], stones);
      PileSimple(stones);
    }
  }

  lemma StartStones(rules: Rules, first: Player)
    ensures Stones(rules, Start(rules, first)) == Pile(2 * rules.pits, rules.stonesPerPit)
  {
    var filled := seq(rules.BoardSize(), i => rules.stonesPerPit);
    var half := filled[rules.pits := 0];
    WeighAlike(filled, Ones(rules), rules.stonesPerPit);
    WeighUpdate(filled, Ones(rules), rules.pits, 0);
    WeighUpdate(half, Ones(rules), rules.Lap(), 0);
    PileSimple(rules.stonesPerPit);
    assert Start(rules, first).board == half[rules.Lap() := 0];
  }

  lemma {:induction false} PileMul(count: nat, weight: nat)
    ensures Pile(count, weight) == weight * count
  {
    if count > 0 {
      PileMul(count - 1, weight);
    }
  }

  /** Every state of every game from the initial position holds exactly
      2 * pits * stonesPerPit stones. */
  lemma ReachableStones(rules: Rules, run: seq<State>)
    requires IsGame(rules, run) && run[0] == Start(rules, run[0].turn)
    ensures Valid(rules, run[|run| - 1])
    ensures Stones(rules, run[|run| - 1]) == rules.stonesPerPit * (2 * rules.pits)
  {
    GameInvariant(rules, run);
    StartStones(rules, run[0].turn);
    PileMul(2 * rules.pits, rules.stonesPerPit);
  }

  // ---------------------------------------------------------------------
  // Every game ends

  /** If stones count in `d` at most `c` times what they count in `w`, so does the board. */
  lemma {:induction false} WeighBound(board: seq<nat>, d: seq<nat>, w: seq<nat>, c: nat)
    requires |board| == |d| == |w|
    requires forall i :: 0 <= i < |w| ==> (w[i] == 0 && d[i] == 0) || (w[i] == 1 && d[i] <= c)
    ensures Weigh(board, d) <= Pile(Weigh(board, w), c)
  {
    if board != [] {
      var last := |board| - 1;
      var stones, rest := board[last], Weigh(board[..last], w[..last]);
      WeighBound(board[..last], d[..last], w[..last], c);
      PileSimple(stones);
      if w[last] == 1 {
        PileBound(stones, d[last], c);
        PileAdd(rest, stones, c);
      }
    }
  }

  lemma DistanceBounded(rules: Rules, st: State)
    requires Valid(rules, st)
    ensures Distance(rules, st) <= rules.pits * InPlay(rules, st)
  {
    WeighBound(st.board, Distances(rules), PitWeights(rules), rules.pits);
    PileMul(InPlay(rules, st), rules.pits);
  }

  /** The two-part measure as one number, for games with at most `top` stones in play. */
  function Rank(rules: Rules, st: State, top: nat): nat
    requires Valid(rules, st)
  {
    InPlay(rules, st) * (rules.pits * top + 1) + Distance(rules, st)
  }

  lemma MulOrder(a: nat, b: nat, c: nat)
    requires a <= b
    ensures c * a <= c * b
  {
    assert c * b == c * a + c * (b - a);
  }

  lemma LexIsRank(a: nat, b: nat, d: nat, d': nat, pits: nat, top: nat)
    requires a <= top && d' <= pits * a
    requires a < b || (a == b && d' < d)
    ensures a * (pits * top + 1) + d' < b * (pits * top + 1) + d
  {
    MulOrder(a, top, pits);
    if a < b {
      MulMonotone(a, b, pits * top + 1);
    }
  }

  lemma RankDecreases(rules: Rules, st: State, st': State, top: nat)
    requires Valid(rules, st) && st' in MovesOf(rules, st) && InPlay(rules, st) <= top
    ensures Rank(rules, st', top) < Rank(rules, st, top) && InPlay(rules, st') <= top
  {
    SuccessorMeasure(rules, st, st');
    DistanceBounded(rules, st');
    LexIsRank(InPlay(rules, st'), InPlay(rules, st), Distance(rules, st), Distance(rules, st'), rules.pits, top);
  }

  lemma {:induction false} GameLengthBounded(rules: Rules, run: seq<State>, top: nat)
    requires IsGame(rules, run) && InPlay(rules, run[0]) <= top
    ensures Valid(rules, run[|run| - 1]) && InPlay(rules, run[|run| - 1]) <= top
    ensures |run| - 1 + Rank(rules, run[|run| - 1], top) <= Rank(rules, run[0], top)
  {
    if |run| > 1 {
      var last := |run| - 1;
      assert run[last] in MovesOf(rules, run[last - 1]);
      GameLengthBounded(rules, run[..last], top);
      RankDecreases(rules, run[last - 1], run[last], top);
    }
  }

  /** Every game ends: a bound, read off the first state, on the number of moves of any
      game, whoever moves and however they choose. */
  lemma EveryGameEnds(rules: Rules, run: seq<State>)
    requires IsGame(rules, run)
    ensures |run| - 1 <= Rank(rules, run[0], InPlay(rules, run[0]))
  {
    GameLengthBounded(rules, run, InPlay(rules, run[0]));
  }

  // ---------------------------------------------------------------------
  // The players are interchangeable

  /** The board seen from the other side of the table, with the turn swapped. */
  function Flip(rules: Rules, st: State): (f: State)
    requires Valid(rules, st)
    ensures Valid(rules, f)
  {
    State(FlipBoard(rules, st.board), OtherPlayer(st.turn))
  }

  function FlipBoard(rules: Rules, board: seq<nat>): (f: seq<nat>)
    requires |board| == rules.BoardSize()
    ensures |f| == |board|
  {
    seq(|board|, i requires 0 <= i < |board| => board[Across(rules, i)])
  }

  /** Rotation by half the board. */
  function Across(rules: Rules, i: nat): (j: nat)
    requires i < rules.BoardSize()
    ensures j < rules.BoardSize()
  {
    if i <= rules.pits then i + rules.pits + 1 else i - rules.pits - 1
  }

  lemma FlipBoardAt(rules: Rules, board: seq<nat>, player: Player, seat: nat)
    requires |board| == rules.BoardSize() && seat < |board|
    ensures FlipBoard(rules, board)[rules.Index(OtherPlayer(player), seat)] == board[rules.Index(player, seat)]
  {
  }

  lemma FlipUpdate(rules: Rules, board: seq<nat>, player: Player, seat: nat, v: nat)
    requires |board| == rules.BoardSize() && seat < |board|
    ensures FlipBoard(rules, board[rules.Index(player, seat) := v])
            == FlipBoard(rules, board)[rules.Index(OtherPlayer(player), seat) := v]
  {
  }

  lemma FlipIncrement(rules: Rules, board: seq<nat>, player: Player, seat: nat)
    requires |board| == rules.BoardSize() && seat < |board|
    ensures var i, j, flipped := rules.Index(player, seat), rules.Index(OtherPlayer(player), seat), FlipBoard(rules, board);
            FlipBoard(rules, board[i := board[i] + 1]) == flipped[j := flipped[j] + 1]
  {
    FlipBoardAt(rules, board, player, seat);
    FlipUpdate(rules, board, player, seat, board[rules.Index(player, seat)] + 1);
  }

  lemma {:induction false} FlipDealt(rules: Rules, player: Player, n: nat, board: seq<nat>, k: nat)
    requires |board| == rules.BoardSize() && n < rules.pits
    ensures Dealt(rules, OtherPlayer(player), n, FlipBoard(rules, board), k)
            == FlipBoard(rules, Dealt(rules, player, n, board, k))
  {
    if k == 0 {
      FlipUpdate(rules, board, player, n, 0);
    } else {
      FlipDealt(rules, player, n, board, k - 1);
      FlipIncrement(rules, Dealt(rules, player, n, board, k - 1), player, EndSeat(rules, n, k));
    }
  }

  lemma FlipCaptured(rules: Rules, player: Player, sown: seq<nat>, end: nat)
    requires |sown| == rules.BoardSize() && end < rules.Lap()
    ensures Captured(rules, OtherPlayer(player), FlipBoard(rules, sown), end)
            == FlipBoard(rules, Captured(rules, player, sown, end))
  {
    FlipBoardAt(rules, sown, player, end);
    if Captures(rules, player, sown, end) {
      var opposite := 2 * rules.pits - end;
      FlipBoardAt(rules, sown, player, opposite);
      FlipBoardAt(rules, sown, player, rules.pits);
      var gain := sown[rules.Index(player, rules.pits)] + sown[rules.Index(player, opposite)];
      FlipUpdate(rules, sown, player, rules.pits, gain);
      FlipUpdate(rules, sown[rules.Index(player, rules.pits) := gain], player, opposite, 0);
    }
  }

  function FlipOption(rules: Rules, st: Option<State>): Option<State>
    requires st.Some? ==> Valid(rules, st.value)
  {
    if st.None? then None else Some(Flip(rules, st.value))
  }

  /** Turning the table commutes with making a move. */
  lemma FlipMove(rules: Rules, st: State, n: nat)
    requires Valid(rules, st) && n < rules.pits
    ensures Move(rules, Flip(rules, st), n) == FlipOption(rules, Move(rules, st, n))
  {
    var k := st.board[rules.Index(st.turn, n)];
    FlipBoardAt(rules, st.board, st.turn, n);
    FlipDealt(rules, st.turn, n, st.board, k);
    SownIsDealt(rules, st.turn, n, st.board, k);
    SownIsDealt(rules, OtherPlayer(st.turn), n, FlipBoard(rules, st.board), k);
    FlipCaptured(rules, st.turn, Dealt(rules, st.turn, n, st.board, k), EndSeat(rules, n, k));
  }

  function FlipAll(rules: Rules, sts: seq<State>): (f: seq<State>)
    requires forall st :: st in sts ==> Valid(rules, st)
    ensures |f| == |sts|
    ensures forall i :: 0 <= i < |sts| ==> f[i] == Flip(rules, sts[i])
  {
    if sts == [] then [] else [Flip(rules, sts[0])] + FlipAll(rules, sts[1..])
  }

  /** A state, if there is one, in front of others. */
  function Push(st: Option<State>, sts: seq<State>): seq<State> {
    if st.None? then sts else [st.value] + sts
  }

  lemma FlipPush(rules: Rules, st: Option<State>, sts: seq<State>)
    requires (st.Some? ==> Valid(rules, st.value)) && forall s :: s in sts ==> Valid(rules, s)
    ensures FlipAll(rules, Push(st, sts)) == Push(FlipOption(rules, st), FlipAll(rules, sts))
  {
    if st.Some? {
      assert Push(st, sts)[1..] == sts;
    }
  }

  /** States whose moves mirror each other pit by pit have mirrored lists of moves. */
  lemma {:induction false} FlipMovesBelow(rules: Rules, st: State, flipped: State, x: nat)
    requires Valid(rules, st) && Valid(rules, flipped) && x <= rules.pits
    requires forall n: nat :: n < x ==> Move(rules, flipped, n) == FlipOption(rules, Move(rules, st, n))
    ensures MovesBelow(rules, flipped, x) == FlipAll(rules, MovesBelow(rules, st, x))
  {
    if x > 0 {
      FlipMovesBelow(rules, st, flipped, x - 1);
      FlipPush(rules, Move(rules, st, x - 1), MovesBelow(rules, st, x - 1));
    }
  }

  lemma FlipMoves(rules: Rules, st: State)
    requires Valid(rules, st)
    ensures MovesOf(rules, Flip(rules, st)) == FlipAll(rules, MovesOf(rules, st))
  {
    forall n: nat | n < rules.pits ensures Move(rules, Flip(rules, st), n) == FlipOption(rules, Move(rules, st, n)) {
      FlipMove(rules, st, n);
    }
    FlipMovesBelow(rules, st, Flip(rules, st), rules.pits);
  }

  lemma FlipScore(rules: Rules, st: State, p: Player)
    requires Valid(rules, st)
    ensures Score(rules, Flip(rules, st), p) == Score(rules, st, OtherPlayer(p))
  {
  }

  /** Turning the table keeps the list of moves in order, the end of the game, and
      carries each player's score to the other. */
  lemma FlipSymmetry(rules: Rules, st: State)
    requires Valid(rules, st)
    ensures MovesOf(rules, Flip(rules, st)) == FlipAll(rules, MovesOf(rules, st))
    ensures GameOver(rules, Flip(rules, st)) == GameOver(rules, st)
    ensures forall p: Player :: Score(rules, Flip(rules, st), p) == Score(rules, st, OtherPlayer(p))
  {
    FlipMoves(rules, st);
    NoMovesIffGameOver(rules, st);
    NoMovesIffGameOver(rules, Flip(rules, st));
    forall p: Player ensures Score(rules, Flip(rules, st), p) == Score(rules, st, OtherPlayer(p)) {
      FlipScore(rules, st, p);
    }
  }
}
