/** The Mancala board, one move on it, and the closed form of sowing.

    Everything is parameterised by the four game settings, so every statement
    holds for any number of pits and for either setting of the two rules. */
module MancalaRules {
  import opened Wrappers

  type Player = p: int | 0 <= p <= 1

  const PLAYER_1: Player := 0
  const PLAYER_2: Player := 1

  function OtherPlayer(player: Player): Player {
    1 - player
  }

  /** The game settings and the index arithmetic that depends on them. */
  datatype Rules = Rules(pits: nat, stonesPerPit: nat, goAgain: bool, bigWin: bool) {

    function MancalaPit(player: Player): nat {
      if player == PLAYER_1 then pits else 1 + 2 * pits
    }

    function LeftPit(player: Player): nat {
      if player == PLAYER_1 then 0 else 1 + pits
    }

    function PitOpposite(pit: int): int {
      2 * pits - pit
    }

    function BoardSize(): nat {
      2 + 2 * pits
    }

    function PlayerOwner(pit: nat): nat {
      pit / (1 + pits)
    }

    /** Number of positions a sowing player visits: all but the opponent's mancala. */
    function Lap(): nat {
      2 * pits + 1
    }

    /** Board index of the seat `seat` places counterclockwise from the player's
        leftmost pit.  Seats 0..pits-1 are the player's pits, seat `pits` the
        player's mancala, seat Lap() the opponent's mancala. */
    function Index(player: Player, seat: nat): (i: nat)
      requires seat < BoardSize()
      ensures i < BoardSize()
    {
      var i := LeftPit(player) + seat;
      if i < BoardSize() then i else i - BoardSize()
    }

    /** The seat of a board index. */
    function Seat(player: Player, i: nat): (seat: nat)
      requires i < BoardSize()
      ensures seat < BoardSize()
      ensures Index(player, seat) == i
    {
      if LeftPit(player) <= i then i - LeftPit(player) else i + BoardSize() - LeftPit(player)
    }
  }

  datatype State = State(board: seq<nat>, turn: Player)

  predicate Valid(rules: Rules, st: State) {
    |st.board| == rules.BoardSize()
  }

  // ---------------------------------------------------------------------
  // Sowing, in closed form

  /** How many seats lie strictly between the emptied seat `n` and `seat`. */
  function Gap(lap: nat, n: nat, seat: nat): nat
    requires n < lap && seat < lap
  {
    if n < seat then seat - n - 1 else seat + lap - n - 1
  }

  /** Stones that `seat` receives from the first `k` stones sown from seat `n`. */
  function Landed(lap: nat, n: nat, k: nat, seat: nat): nat
    requires n < lap && seat < lap
  {
    k / lap + if Gap(lap, n, seat) < k % lap then 1 else 0
  }

  /** What board index `i` holds once `k` stones have been sown from seat `n`. */
  function SownAt(rules: Rules, player: Player, n: nat, board: seq<nat>, k: nat, i: nat): nat
    requires |board| == rules.BoardSize() && n < rules.pits && i < |board|
  {
    var seat := rules.Seat(player, i);
    if seat == rules.Lap() then board[i]
    else (if seat == n then 0 else board[i]) + Landed(rules.Lap(), n, k, seat)
  }

  /** The board once `k` stones have been sown from seat `n`, which was emptied. */
  function Sown(rules: Rules, player: Player, n: nat, board: seq<nat>, k: nat): (b: seq<nat>)
    requires |board| == rules.BoardSize() && n < rules.pits
    ensures |b| == |board|
  {
    seq(|board|, i requires 0 <= i < |board| => SownAt(rules, player, n, board, k, i))
  }

  /** The seat of the last of `k` stones sown from seat `n`. */
  function EndSeat(rules: Rules, n: nat, k: nat): (seat: nat)
    ensures seat < rules.Lap()
  {
    (n + k) % rules.Lap()
  }

  /** True when the last stone, at seat `end`, took an empty pit on the mover's own side. */
  predicate Captures(rules: Rules, player: Player, sown: seq<nat>, end: nat)
    requires |sown| == rules.BoardSize() && end < rules.Lap()
  {
    rules.bigWin && end < rules.pits && sown[rules.Index(player, end)] == 1
  }

  /** The big win: the opposite pit's stones go to the mover's mancala. */
  function Captured(rules: Rules, player: Player, sown: seq<nat>, end: nat): (b: seq<nat>)
    requires |sown| == rules.BoardSize() && end < rules.Lap()
    ensures |b| == |sown|
  {
    if Captures(rules, player, sown, end) then
      var opposite := rules.Index(player, 2 * rules.pits - end);
      var mine := rules.Index(player, rules.pits);
      sown[mine := sown[mine] + sown[opposite]][opposite := 0]
    else
      sown
  }

  /** The board after the whole move of `k` stones from seat `n`, capture included. */
  function Moved(rules: Rules, player: Player, n: nat, board: seq<nat>, k: nat): (b: seq<nat>)
    requires |board| == rules.BoardSize() && n < rules.pits
    ensures |b| == |board|
  {
    Captured(rules, player, Sown(rules, player, n, board, k), EndSeat(rules, n, k))
  }

  /** The state after sowing the mover's pit `n`; None for an empty pit. */
  function Move(rules: Rules, st: State, n: nat): (r: Option<State>)
    requires Valid(rules, st) && n < rules.pits
    ensures r.Some? ==> Valid(rules, r.value)
  {
    var k := st.board[rules.Index(st.turn, n)];
    if k == 0 then None
    else Some(State(
      Moved(rules, st.turn, n, st.board, k),
      if rules.goAgain && EndSeat(rules, n, k) == rules.pits then st.turn else OtherPlayer(st.turn)))
  }

  // ---------------------------------------------------------------------
  // What a move comes to, in board indices

  /** The board index on which the last stone of pit `n` falls. */
  function LastIndex(rules: Rules, st: State, n: nat): (i: nat)
    requires Valid(rules, st) && n < rules.pits
    ensures i < rules.BoardSize()
  {
    rules.Index(st.turn, EndSeat(rules, n, st.board[rules.LeftPit(st.turn) + n]))
  }

  /** The last stone ends alone in one of the mover's pits, and the rule is on. */
  predicate EndsAlone(rules: Rules, player: Player, sown: seq<nat>, last: nat)
    requires |sown| == rules.BoardSize()
  {
    rules.bigWin && rules.LeftPit(player) <= last < rules.LeftPit(player) + rules.pits && sown[last] == 1
  }

  /** Exactly if the last stone ends alone, the stones in the pit facing it go to the mover's
      mancala; nothing else changes. */
  predicate HandsOver(rules: Rules, player: Player, sown: seq<nat>, last: nat, board: seq<nat>)
    requires |sown| == rules.BoardSize()
  {
    var facing, mine := 2 * rules.pits - last, rules.MancalaPit(player);
    && |board| == |sown|
    && if EndsAlone(rules, player, sown, last)
       then board[facing] == 0 && board[mine] == sown[mine] + sown[facing]
            && forall i :: 0 <= i < |sown| && i != facing && i != mine ==> board[i] == sown[i]
       else board == sown
  }

  /** The turn stays with the mover exactly if the go-again rule is on and the last stone ends
      in the mover's mancala. */
  predicate Passes(rules: Rules, player: Player, last: nat, turn: Player) {
    turn == player <==> rules.goAgain && last == rules.MancalaPit(player)
  }

  /** An empty pit yields nothing.  Otherwise the stones are sown, a capture is made if there
      is one, and the turn passes unless it is kept. */
  predicate Outcome(rules: Rules, st: State, n: nat, res: Option<State>)
    requires Valid(rules, st) && n < rules.pits
  {
    var stones, last := st.board[rules.LeftPit(st.turn) + n], LastIndex(rules, st, n);
    && (res.None? <==> stones == 0)
    && (res.Some? ==>
          && HandsOver(rules, st.turn, Sown(rules, st.turn, n, st.board, stones), last, res.value.board)
          && Passes(rules, st.turn, last, res.value.turn))
  }

  lemma CapturedHandsOver(rules: Rules, player: Player, sown: seq<nat>, end: nat)
    requires |sown| == rules.BoardSize() && end < rules.Lap()
    ensures HandsOver(rules, player, sown, rules.Index(player, end), Captured(rules, player, sown, end))
  {
  }

  lemma TurnPasses(rules: Rules, player: Player, end: nat)
    requires end < rules.Lap()
    ensures Passes(rules, player, rules.Index(player, end),
                   if rules.goAgain && end == rules.pits then player else OtherPlayer(player))
  {
  }

  lemma MoveOutcome(rules: Rules, st: State, n: nat)
    requires Valid(rules, st) && n < rules.pits
    ensures Outcome(rules, st, n, Move(rules, st, n))
  {
    var stones := st.board[rules.LeftPit(st.turn) + n];
    assert rules.Index(st.turn, n) == rules.LeftPit(st.turn) + n;
    var end, sown := EndSeat(rules, n, stones), Sown(rules, st.turn, n, st.board, stones);
    CapturedHandsOver(rules, st.turn, sown, end);
    TurnPasses(rules, st.turn, end);
    assert Move(rules, st, n) == if stones == 0 then None else Some(State(
      Captured(rules, st.turn, sown, end),
      if rules.goAgain && end == rules.pits then st.turn else OtherPlayer(st.turn)));
  }

  // ---------------------------------------------------------------------
  // One more stone

  lemma MulMonotone(a: nat, b: nat, m: nat)
    requires a < b
    ensures a * m + m <= b * m
  {
    assert b * m == a * m + (b - a) * m;
    assert (b - a) * m == m + (b - a - 1) * m;
  }

  lemma DivModUnique(x: nat, m: nat, q: nat, r: nat)
    requires r < m && x == q * m + r
    ensures x / m == q && x % m == r
  {
    var d := x / m;
    assert x == d * m + x % m;
    if d < q {
      MulMonotone(d, q, m);
    } else if q < d {
      MulMonotone(q, d, m);
    }
  }

  lemma DivModSucc(x: nat, m: nat)
    requires m > 0
    ensures x % m < m - 1 ==> (x + 1) / m == x / m && (x + 1) % m == x % m + 1
    ensures x % m == m - 1 ==> (x + 1) / m == x / m + 1 && (x + 1) % m == 0
  {
    var q, r := x / m, x % m;
    assert x == q * m + r;
    if r < m - 1 {
      DivModUnique(x + 1, m, q, r + 1);
    } else {
      assert x + 1 == (q + 1) * m;
      DivModUnique(x + 1, m, q + 1, 0);
    }
  }

  /** The seat of stone number k+1 is the one with exactly `k % lap` seats before it. */
  lemma {:induction false} NextGap(rules: Rules, n: nat, k: nat)
    requires n < rules.pits
    ensures Gap(rules.Lap(), n, EndSeat(rules, n, k + 1)) == k % rules.Lap()
  {
    var lap := rules.Lap();
    if k == 0 {
      DivModUnique(n + 1, lap, 0, n + 1);
      DivModUnique(0, lap, 0, 0);
    } else {
      NextGap(rules, n, k - 1);
      DivModSucc(k - 1, lap);
      DivModSucc(n + k, lap);
    }
  }

  lemma GapInjective(lap: nat, n: nat, a: nat, b: nat)
    requires n < lap && a < lap && b < lap
    ensures Gap(lap, n, a) < lap
    ensures Gap(lap, n, a) == Gap(lap, n, b) ==> a == b
  {
  }

  /** Sowing one more stone adds one at its seat and changes nothing else. */
  lemma SowOneMore(rules: Rules, player: Player, n: nat, board: seq<nat>, k: nat)
    requires |board| == rules.BoardSize() && n < rules.pits
    ensures var end := rules.Index(player, EndSeat(rules, n, k + 1));
            var sown := Sown(rules, player, n, board, k);
            Sown(rules, player, n, board, k + 1) == sown[end := sown[end] + 1]
  {
    var lap := rules.Lap();
    var seat := EndSeat(rules, n, k + 1);
    var end := rules.Index(player, seat);
    var sown := Sown(rules, player, n, board, k);
    NextGap(rules, n, k);
    DivModSucc(k, lap);
    forall i | 0 <= i < |board|
      ensures SownAt(rules, player, n, board, k + 1, i) == sown[i] + if i == end then 1 else 0
    {
      var s := rules.Seat(player, i);
      if s != lap {
        GapInjective(lap, n, s, seat);
      }
    }
  }

  lemma SowNone(rules: Rules, player: Player, n: nat, board: seq<nat>)
    requires |board| == rules.BoardSize() && n < rules.pits
    ensures Sown(rules, player, n, board, 0) == board[rules.Index(player, n) := 0]
  {
    DivModUnique(0, rules.Lap(), 0, 0);
  }

  /** The loop's index update (advance, skip the other mancala, wrap) is one seat on. */
  lemma AdvanceIsNextSeat(rules: Rules, player: Player, n: nat, k: nat)
    requires n < rules.pits
    ensures var cur := rules.Index(player, EndSeat(rules, n, k));
            var c1 := cur + 1;
            var c2 := if c1 == rules.MancalaPit(OtherPlayer(player)) then c1 + 1 else c1;
            var c3 := if c2 == rules.BoardSize() then 0 else c2;
            c3 == rules.Index(player, EndSeat(rules, n, k + 1))
  {
    DivModSucc(n + k, rules.Lap());
  }

  lemma OwnPitIffSmallSeat(rules: Rules, player: Player, seat: nat)
    requires seat < rules.Lap()
    ensures var i := rules.Index(player, seat);
            (rules.PlayerOwner(i) == player && i != rules.MancalaPit(player)) <==> seat < rules.pits
    ensures seat < rules.pits ==>
              rules.PitOpposite(rules.Index(player, seat)) == rules.Index(player, 2 * rules.pits - seat)
  {
    var i := rules.Index(player, seat);
    if i < 1 + rules.pits {
      DivModUnique(i, 1 + rules.pits, 0, i);
    } else {
      DivModUnique(i, 1 + rules.pits, 1, i - 1 - rules.pits);
    }
  }

  // ---------------------------------------------------------------------
  // The operations

  /** The sowing loop: deals `numStones` stones one by one from the emptied seat `n`. */
  method SowStones(rules: Rules, player: Player, n: nat, numStones: nat, newBoard: array<nat>) returns (curPos: nat)
    requires newBoard.Length == rules.BoardSize() && n < rules.pits
    requires newBoard[rules.Index(player, n)] == 0
    modifies newBoard
    ensures newBoard[..] == Sown(rules, player, n, old(newBoard[..]), numStones)
    ensures curPos == rules.Index(player, EndSeat(rules, n, numStones))
  {
    ghost var board := newBoard[..];
    var skipMancala := rules.MancalaPit(OtherPlayer(player));
    var boardLength := rules.BoardSize();
    curPos := n + rules.LeftPit(player);
    SowNone(rules, player, n, board);
    DivModUnique(n, rules.Lap(), 0, n);
    var stones := numStones;
    ghost var dealt, sown := 0, newBoard[..];
    while 0 < stones
      invariant dealt + stones == numStones
      invariant curPos == rules.Index(player, EndSeat(rules, n, dealt))
      invariant newBoard[..] == sown == Sown(rules, player, n, board, dealt)
    {
      AdvanceIsNextSeat(rules, player, n, dealt);
      SowOneMore(rules, player, n, board, dealt);
      dealt := dealt + 1;
      curPos := curPos + 1;
      if curPos == skipMancala { curPos := curPos + 1; }
      if curPos == boardLength { curPos := 0; }
      assert curPos == rules.Index(player, EndSeat(rules, n, dealt));
      newBoard[curPos] := newBoard[curPos] + 1;
      sown := sown[curPos := sown[curPos] + 1];
      stones := stones - 1;
    }
  }

  /** Sowing does not look at what the emptied seat held before. */
  lemma SownIgnoresSource(rules: Rules, player: Player, n: nat, board: seq<nat>, k: nat)
    requires |board| == rules.BoardSize() && n < rules.pits
    ensures Sown(rules, player, n, board[rules.Index(player, n) := 0], k) == Sown(rules, player, n, board, k)
  {
  }

  /** The capture at the end of a move whose last stone fell on `curPos`. */
  method BigWin(rules: Rules, player: Player, ghost end: nat, curPos: nat, newBoard: array<nat>)
    requires newBoard.Length == rules.BoardSize() && end < rules.Lap() && curPos == rules.Index(player, end)
    modifies newBoard
    ensures newBoard[..] == Captured(rules, player, old(newBoard[..]), end)
  {
    OwnPitIffSmallSeat(rules, player, end);
    var myMancala := rules.MancalaPit(player);
    if rules.bigWin && rules.PlayerOwner(curPos) == player && newBoard[curPos] == 1 && curPos != myMancala {
      var oppositePit := rules.PitOpposite(curPos);
      newBoard[myMancala] := newBoard[myMancala] + newBoard[oppositePit];
      newBoard[oppositePit] := 0;
    }
  }

  /** Sows pit `n` of the player to move, on a copy of the board. */
  method StateFromMove(rules: Rules, st: State, n: nat) returns (res: Option<State>)
    requires Valid(rules, st) && n < rules.pits
    ensures res == Move(rules, st, n)
    ensures Outcome(rules, st, n, res)
  {
    MoveOutcome(rules, st, n);
    var newBoard := new nat[|st.board|](i requires 0 <= i < |st.board| => st.board[i]);
    var playerTurn := st.turn;
    var curPos := n + rules.LeftPit(playerTurn);
    var myMancala := rules.MancalaPit(playerTurn);
    var numStones := newBoard[curPos];
    if numStones == 0 {
      return None;
    }
    newBoard[curPos] := 0;
    assert newBoard[..] == st.board[rules.Index(playerTurn, n) := 0];
    SownIgnoresSource(rules, playerTurn, n, st.board, numStones);
    curPos := SowStones(rules, playerTurn, n, numStones, newBoard);
    BigWin(rules, playerTurn, EndSeat(rules, n, numStones), curPos, newBoard);
    res := Some(State(newBoard[..],
      if rules.goAgain && curPos == myMancala then playerTurn else OtherPlayer(playerTurn)));
  }

  /** The search helper that replays a sowing and reports only where it ends. */
  method EndPit(rules: Rules, st: State, pit: nat) returns (curPos: nat)
    requires Valid(rules, st) && pit < rules.pits
    ensures curPos == LastIndex(rules, st, pit)
  {
    var newBoard := new nat[|st.board|](i requires 0 <= i < |st.board| => st.board[i]);
    curPos := pit + rules.LeftPit(st.turn);
    var numStones := newBoard[curPos];
    if numStones == 0 {
      DivModUnique(pit, rules.Lap(), 0, pit);
    } else {
      newBoard[curPos] := 0;
      curPos := SowStones(rules, st.turn, pit, numStones, newBoard);
    }
  }

  predicate GameOver(rules: Rules, st: State)
    requires Valid(rules, st)
  {
    forall n: nat :: n < rules.pits ==> st.board[rules.Index(st.turn, n)] == 0
  }

  method GameOverp(rules: Rules, st: State) returns (over: bool)
    requires Valid(rules, st)
    ensures over == GameOver(rules, st)
  {
    var initialPit := rules.LeftPit(st.turn);
    for x := 0 to rules.pits
      invariant forall n: nat :: n < x ==> st.board[rules.Index(st.turn, n)] == 0
    {
      if st.board[x + initialPit] != 0 {
        assert rules.Index(st.turn, x) == x + initialPit;
        return false;
      }
    }
    return true;
  }

  /** The player's lead in mancala stones. */
  function Score(rules: Rules, st: State, player: Player): int
    requires Valid(rules, st)
  {
    st.board[rules.MancalaPit(player)] as int - st.board[rules.MancalaPit(OtherPlayer(player))] as int
  }

  /** Successors through pits below `x`, the highest pit first (the order in which
      pushing onto a list leaves them). */
  function MovesBelow(rules: Rules, st: State, x: nat): (ms: seq<State>)
    requires Valid(rules, st) && x <= rules.pits
    ensures forall m :: m in ms ==> Valid(rules, m)
  {
    if x == 0 then []
    else
      var rest := MovesBelow(rules, st, x - 1);
      match Move(rules, st, x - 1)
      case None => rest
      case Some(m) => [m] + rest
  }

  function MovesOf(rules: Rules, st: State): (ms: seq<State>)
    requires Valid(rules, st)
    ensures forall m :: m in ms ==> Valid(rules, m)
  {
    MovesBelow(rules, st, rules.pits)
  }

  method Moves(rules: Rules, st: State) returns (bag: seq<State>)
    requires Valid(rules, st)
    ensures bag == MovesOf(rules, st) && |bag| == Filled(rules, st, 0, rules.pits)
    ensures forall n: nat :: n < rules.pits && Move(rules, st, n).Some? ==>
              var i := Filled(rules, st, n + 1, rules.pits); i < |bag| && bag[i] == Move(rules, st, n).value
  {
    bag := [];
    for x := 0 to rules.pits
      invariant bag == MovesBelow(rules, st, x)
    {
      var move := StateFromMove(rules, st, x);
      if move.Some? {
        bag := [move.value] + bag;
      }
    }
    MovesCount(rules, st, rules.pits);
    forall n: nat | n < rules.pits && Move(rules, st, n).Some?
      ensures var i := Filled(rules, st, n + 1, rules.pits); i < |bag| && bag[i] == Move(rules, st, n).value
    {
      MovesOrder(rules, st, n, rules.pits);
    }
  }

  /** How many of the mover's pits from `n` up to but not including `x` hold stones. */
  function Filled(rules: Rules, st: State, n: nat, x: nat): nat
    requires Valid(rules, st) && n <= x <= rules.pits
  {
    if n == x then 0
    else Filled(rules, st, n, x - 1) + if st.board[rules.LeftPit(st.turn) + x - 1] > 0 then 1 else 0
  }

  /** There is one successor for each pit that holds stones. */
  lemma {:induction false} MovesCount(rules: Rules, st: State, x: nat)
    requires Valid(rules, st) && x <= rules.pits
    ensures |MovesBelow(rules, st, x)| == Filled(rules, st, 0, x)
  {
    if x > 0 {
      MovesCount(rules, st, x - 1);
    }
  }

  /** They come highest pit first: before that of pit `n` come exactly those of the filled
      pits above it. */
  lemma {:induction false} MovesOrder(rules: Rules, st: State, n: nat, x: nat)
    requires Valid(rules, st) && n < x <= rules.pits && Move(rules, st, n).Some?
    ensures var i := Filled(rules, st, n + 1, x);
            i < |MovesBelow(rules, st, x)| && MovesBelow(rules, st, x)[i] == Move(rules, st, n).value
  {
    if n + 1 < x {
      MovesOrder(rules, st, n, x - 1);
    }
  }

  /** A state is a successor exactly when some pit yields it. */
  lemma {:induction false} MovesBelowComplete(rules: Rules, st: State, x: nat, m: State)
    requires Valid(rules, st) && x <= rules.pits
    ensures m in MovesBelow(rules, st, x) <==> exists n: nat :: n < x && Move(rules, st, n) == Some(m)
  {
    if x > 0 {
      MovesBelowComplete(rules, st, x - 1, m);
    }
  }

  /** There is no move exactly when the game is over. */
  lemma NoMovesIffGameOver(rules: Rules, st: State)
    requires Valid(rules, st)
    ensures MovesOf(rules, st) == [] <==> GameOver(rules, st)
  {
    if MovesOf(rules, st) == [] {
      forall n: nat | n < rules.pits ensures st.board[rules.Index(st.turn, n)] == 0 {
        var m := Move(rules, st, n);
        if m.Some? {
          MovesBelowComplete(rules, st, rules.pits, m.value);
          assert false;
        }
      }
    } else {
      var m := MovesOf(rules, st)[0];
      MovesBelowComplete(rules, st, rules.pits, m);
    }
  }
}
