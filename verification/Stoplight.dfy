/** The stoplight intersection: any number of vehicle threads over three segment locks,
    three route locks and three unprotected counters, interleaved arbitrarily.

    The locks are those of the kernel's lock primitive: a release by a thread that is not
    the holder does nothing, and the holder field is not cleared.  Each access to a counter
    is a step of its own, so updates can be lost. */
module Stoplight {
  import opened Wrappers
  import opened Kernel

  type Vid = nat

  /** Program points of turnleft and turnright. */
  datatype Pc =
    | Start | StoreInc | TestCars | WaitRoute
    | WaitFirst | LoadDec | StoreDec | TestZero | EnterFirst
    | WaitSecond | LeaveFirst | ReleaseFirst
    | EnterSecond | LeaveSecond | ReleaseSecond
    | Done

  /** `reg` is the register of a counter update in progress. */
  datatype Vehicle = Vehicle(route: nat, left: bool, truck: bool, pc: Pc, reg: int)

  datatype Msg = Msg(enter: bool, vid: Vid, seg: nat)

  /** Segments AB, BC, CA and routes A, B, C are numbered 0, 1, 2. */
  datatype World = World(vs: map<Vid, Vehicle>, segs: seq<Lock>, tls: seq<Lock>, cars: seq<int>, log: seq<Msg>)

  function First(v: Vehicle): nat {
    v.route
  }

  function Second(v: Vehicle): nat {
    if v.route == 2 then 0 else v.route + 1
  }

  lemma NextSegmentIs(x: Vehicle)
    requires x.route < 3
    ensures First(x) == x.route && Second(x) == (x.route + 1) % 3
  {
  }

  predicate Formed(w: World) {
    && |w.segs| == |w.tls| == |w.cars| == 3
    && forall v :: v in w.vs ==> w.vs[v].route < 3
  }

  function Taken(v: Vid): Lock {
    Lock(true, Some(v))
  }

  function Released(l: Lock, v: Vid): Lock {
    if l == Taken(v) then l.(held := false) else l
  }

  /** A vehicle can take its next step unless it waits for a lock that is held. */
  predicate CanStep(w: World, v: Vid)
    requires Formed(w) && v in w.vs
  {
    var x := w.vs[v];
    match x.pc
    case WaitRoute => !w.tls[x.route].held
    case WaitFirst => !w.segs[First(x)].held
    case WaitSecond => !w.segs[Second(x)].held
    case Done => false
    case _ => true
  }

  function Go(w: World, v: Vid, pc: Pc): World
    requires v in w.vs
  {
    w.(vs := w.vs[v := w.vs[v].(pc := pc)])
  }

  function Say(w: World, enter: bool, v: Vid, seg: nat): World {
    w.(log := w.log + [Msg(enter, v, seg)])
  }

  /** One step of vehicle `v`. */
  function Next(w: World, v: Vid): World
    requires Formed(w) && v in w.vs && CanStep(w, v)
  {
    var x := w.vs[v];
    match x.pc
    case Start =>
      if x.truck then Go(w, v, TestCars)
      else w.(vs := w.vs[v := x.(pc := StoreInc, reg := w.cars[x.route])])
    case StoreInc => Go(w, v, TestCars).(cars := w.cars[x.route := x.reg + 1])
    case TestCars => Go(w, v, if w.cars[x.route] > 0 then WaitRoute else WaitFirst)
    case WaitRoute => Go(w, v, WaitFirst).(tls := w.tls[x.route := Taken(v)])
    case WaitFirst => Go(w, v, LoadDec).(segs := w.segs[First(x) := Taken(v)])
    case LoadDec => w.(vs := w.vs[v := x.(pc := StoreDec, reg := w.cars[x.route])])
    case StoreDec => Go(w, v, TestZero).(cars := w.cars[x.route := x.reg - 1])
    case TestZero =>
      var w1 := Go(w, v, EnterFirst);
      if w.cars[x.route] == 0 then w1.(tls := w.tls[x.route := Released(w.tls[x.route], v)]) else w1
    case EnterFirst => Say(Go(w, v, if x.left then WaitSecond else LeaveFirst), true, v, First(x))
    case WaitSecond => Go(w, v, LeaveFirst).(segs := w.segs[Second(x) := Taken(v)])
    case LeaveFirst => Say(Go(w, v, ReleaseFirst), false, v, First(x))
    case ReleaseFirst =>
      Go(w, v, if x.left then EnterSecond else Done).(segs := w.segs[First(x) := Released(w.segs[First(x)], v)])
    case EnterSecond => Say(Go(w, v, LeaveSecond), true, v, Second(x))
    case LeaveSecond => Say(Go(w, v, ReleaseSecond), false, v, Second(x))
    case ReleaseSecond => Go(w, v, Done).(segs := w.segs[Second(x) := Released(w.segs[Second(x)], v)])
  }

  /** createvehicles: all locks free, no cars counted, every vehicle about to start. */
  predicate Initial(w: World) {
    && Formed(w) && w.log == []
    && (forall i :: 0 <= i < 3 ==> w.segs[i] == Lock(false, None) && w.tls[i] == Lock(false, None) && w.cars[i] == 0)
    && (forall v :: v in w.vs ==> w.vs[v].pc == Start)
  }

  // ---------------------------------------------------------------------
  // Who holds what

  predicate HoldsFirst(x: Vehicle) {
    x.pc in {LoadDec, StoreDec, TestZero, EnterFirst, WaitSecond, LeaveFirst, ReleaseFirst}
  }

  predicate HoldsSecond(x: Vehicle) {
    x.left && x.pc in {LeaveFirst, ReleaseFirst, EnterSecond, LeaveSecond, ReleaseSecond}
  }

  predicate Holds(x: Vehicle, seg: nat) {
    (HoldsFirst(x) && seg == First(x)) || (HoldsSecond(x) && seg == Second(x))
  }

  /** Only left-turners get to the second half of the program. */
  predicate OnTrack(x: Vehicle) {
    x.pc in {WaitSecond, EnterSecond, LeaveSecond, ReleaseSecond} ==> x.left
  }

  /** A segment lock is held exactly by the vehicle whose program point says so. */
  predicate LockOk(w: World, g: nat)
    requires Formed(w) && g < 3
  {
    && (forall v :: v in w.vs && Holds(w.vs[v], g) ==> w.segs[g] == Taken(v))
    && (w.segs[g].held ==>
          w.segs[g].holder.Some? && w.segs[g].holder.value in w.vs && Holds(w.vs[w.segs[g].holder.value], g))
  }

  // ---------------------------------------------------------------------
  // What the messages say

  /** Between a vehicle's enter and leave messages for a segment. */
  predicate Inside(x: Vehicle, seg: nat) {
    (x.pc in {WaitSecond, LeaveFirst} && seg == First(x)) || (x.pc == LeaveSecond && seg == Second(x))
  }

  datatype Occupancy = Empty | By(vid: Vid) | Clash

  /** The state of a segment according to its messages: Clash unless enter and leave
      alternate and each leave comes from the vehicle that entered. */
  function Occupant(log: seq<Msg>, seg: nat): Occupancy {
    if log == [] then Empty
    else
      var before := Occupant(log[..|log| - 1], seg);
      var m := log[|log| - 1];
      if m.seg != seg then before
      else if m.enter then (if before.Empty? then By(m.vid) else Clash)
      else if before == By(m.vid) then Empty else Clash
  }

  /** The messages tell who is inside the segment, and never clash. */
  predicate LogOk(w: World, g: nat) {
    match Occupant(w.log, g)
    case Clash => false
    case By(v) => v in w.vs && Inside(w.vs[v], g)
    case Empty => forall v :: v in w.vs ==> !Inside(w.vs[v], g)
  }

  predicate Inv(w: World) {
    && Formed(w) && (forall v :: v in w.vs ==> OnTrack(w.vs[v]))
    && forall g :: 0 <= g < 3 ==> LockOk(w, g) && LogOk(w, g)
  }

  lemma InitialInv(w: World)
    requires Initial(w)
    ensures Inv(w)
  {
  }

  // ---------------------------------------------------------------------
  // Each step

  /** A step changes only the stepping vehicle, keeps its route and kind, and keeps it on
      its track. */
  lemma NextShape(w: World, v: Vid)
    requires Formed(w) && v in w.vs && CanStep(w, v) && OnTrack(w.vs[v])
    ensures var w' := Next(w, v);
            && Formed(w') && v in w'.vs && w'.vs == w.vs[v := w'.vs[v]]
            && w'.vs[v].route == w.vs[v].route && w'.vs[v].left == w.vs[v].left && OnTrack(w'.vs[v])
  {
  }

  lemma LockFrame(w: World, w': World, v: Vid, g: nat)
    requires Formed(w) && Formed(w') && g < 3 && LockOk(w, g)
    requires v in w.vs && v in w'.vs && w'.vs == w.vs[v := w'.vs[v]]
    requires w'.segs[g] == w.segs[g] && Holds(w'.vs[v], g) == Holds(w.vs[v], g)
    ensures LockOk(w', g)
  {
  }

  lemma LockTaken(w: World, w': World, v: Vid, g: nat)
    requires Formed(w) && Formed(w') && g < 3 && LockOk(w, g)
    requires v in w.vs && v in w'.vs && w'.vs == w.vs[v := w'.vs[v]]
    requires !w.segs[g].held && w'.segs[g] == Taken(v) && Holds(w'.vs[v], g)
    ensures LockOk(w', g)
  {
  }

  lemma LockDropped(w: World, w': World, v: Vid, g: nat)
    requires Formed(w) && Formed(w') && g < 3 && LockOk(w, g)
    requires v in w.vs && v in w'.vs && w'.vs == w.vs[v := w'.vs[v]]
    requires Holds(w.vs[v], g) && w'.segs[g] == Released(w.segs[g], v) && !Holds(w'.vs[v], g)
    ensures LockOk(w', g)
  {
  }

  predicate Takes(x: Vehicle, g: nat) {
    (x.pc == WaitFirst && g == First(x)) || (x.pc == WaitSecond && g == Second(x))
  }

  predicate Drops(x: Vehicle, g: nat) {
    (x.pc == ReleaseFirst && g == First(x)) || (x.pc == ReleaseSecond && g == Second(x))
  }

  /** What a step does to one segment lock. */
  lemma NextSegment(w: World, v: Vid, g: nat)
    requires Formed(w) && v in w.vs && CanStep(w, v) && g < 3
    ensures |Next(w, v).segs| == 3
    ensures Next(w, v).segs[g] ==
            if Takes(w.vs[v], g) then Taken(v) else if Drops(w.vs[v], g) then Released(w.segs[g], v) else w.segs[g]
    ensures Takes(w.vs[v], g) ==> !w.segs[g].held
  {
  }

  /** What a step does to the segments that the vehicle holds. */
  lemma NextHolds(w: World, v: Vid, g: nat)
    requires Formed(w) && v in w.vs && CanStep(w, v) && OnTrack(w.vs[v]) && g < 3
    ensures v in Next(w, v).vs
    ensures Holds(Next(w, v).vs[v], g) == if Takes(w.vs[v], g) then true else Holds(w.vs[v], g) && !Drops(w.vs[v], g)
    ensures Drops(w.vs[v], g) ==> Holds(w.vs[v], g)
  {
  }

  lemma NextLock(w: World, v: Vid, g: nat)
    requires Formed(w) && v in w.vs && CanStep(w, v) && OnTrack(w.vs[v]) && g < 3 && LockOk(w, g)
    ensures Formed(Next(w, v)) && LockOk(Next(w, v), g)
  {
    var w', x := Next(w, v), w.vs[v];
    NextShape(w, v);
    NextSegment(w, v, g);
    NextHolds(w, v, g);
    if Takes(x, g) {
      LockTaken(w, w', v, g);
    } else if Drops(x, g) {
      LockDropped(w, w', v, g);
    } else {
      LockFrame(w, w', v, g);
    }
  }

  /** Whoever is inside a segment holds its lock, so at most one vehicle is. */
  lemma InsideAlone(w: World, u: Vid, v: Vid, g: nat)
    requires Inv(w) && g < 3 && u in w.vs && v in w.vs && Inside(w.vs[u], g) && Holds(w.vs[v], g)
    ensures u == v
  {
    assert LockOk(w, g) && OnTrack(w.vs[u]);
  }

  lemma Appended(w: World, w': World, m: Msg, g: nat)
    requires w'.log == w.log + [m]
    ensures Occupant(w'.log, g) ==
            if m.seg != g then Occupant(w.log, g)
            else if m.enter then (if Occupant(w.log, g).Empty? then By(m.vid) else Clash)
            else if Occupant(w.log, g) == By(m.vid) then Empty else Clash
  {
    assert w'.log[..|w'.log| - 1] == w.log;
  }

  lemma LogFrame(w: World, w': World, v: Vid, g: nat)
    requires LogOk(w, g) && Occupant(w'.log, g) == Occupant(w.log, g)
    requires v in w.vs && v in w'.vs && w'.vs == w.vs[v := w'.vs[v]] && Inside(w'.vs[v], g) == Inside(w.vs[v], g)
    ensures LogOk(w', g)
  {
  }

  /** A vehicle enters a segment only when, by the messages, nobody is in it. */
  lemma EnterOk(w: World, w': World, v: Vid, g: nat)
    requires Inv(w) && g < 3 && v in w.vs && Holds(w.vs[v], g) && !Inside(w.vs[v], g)
    requires w'.log == w.log + [Msg(true, v, g)]
    requires v in w'.vs && w'.vs == w.vs[v := w'.vs[v]] && Inside(w'.vs[v], g)
    ensures LogOk(w', g)
  {
    assert LogOk(w, g);
    Appended(w, w', Msg(true, v, g), g);
    if Occupant(w.log, g).By? {
      InsideAlone(w, Occupant(w.log, g).vid, v, g);
    }
  }

  /** A vehicle leaves the segment that it was the last to enter. */
  lemma LeaveOk(w: World, w': World, v: Vid, g: nat)
    requires Inv(w) && g < 3 && v in w.vs && Holds(w.vs[v], g) && Inside(w.vs[v], g)
    requires w'.log == w.log + [Msg(false, v, g)]
    requires v in w'.vs && w'.vs == w.vs[v := w'.vs[v]] && !Inside(w'.vs[v], g)
    ensures LogOk(w', g)
  {
    assert LogOk(w, g);
    Appended(w, w', Msg(false, v, g), g);
    forall u | u in w.vs && Inside(w.vs[u], g) ensures u == v {
      InsideAlone(w, u, v, g);
    }
  }

  /** The message about segment `g` that the vehicle's next step sends, if any. */
  predicate Enters(x: Vehicle, g: nat) {
    (x.pc == EnterFirst && g == First(x)) || (x.pc == EnterSecond && g == Second(x))
  }

  predicate Exits(x: Vehicle, g: nat) {
    (x.pc == LeaveFirst && g == First(x)) || (x.pc == LeaveSecond && g == Second(x))
  }

  lemma NextEnters(w: World, v: Vid, g: nat)
    requires Inv(w) && v in w.vs && CanStep(w, v) && g < 3 && Enters(w.vs[v], g)
    ensures LogOk(Next(w, v), g)
  {
    assert OnTrack(w.vs[v]);
    NextShape(w, v);
    EnterOk(w, Next(w, v), v, g);
  }

  lemma NextExits(w: World, v: Vid, g: nat)
    requires Inv(w) && v in w.vs && CanStep(w, v) && g < 3 && Exits(w.vs[v], g)
    ensures LogOk(Next(w, v), g)
  {
    assert OnTrack(w.vs[v]);
    NextShape(w, v);
    LeaveOk(w, Next(w, v), v, g);
  }

  /** Any other step says nothing about the segment. */
  lemma NextSilent(w: World, v: Vid, g: nat)
    requires Formed(w) && v in w.vs && CanStep(w, v) && OnTrack(w.vs[v])
    requires !Enters(w.vs[v], g) && !Exits(w.vs[v], g)
    ensures Occupant(Next(w, v).log, g) == Occupant(w.log, g)
    ensures v in Next(w, v).vs && Inside(Next(w, v).vs[v], g) == Inside(w.vs[v], g)
  {
    var w', x := Next(w, v), w.vs[v];
    if x.pc in {EnterFirst, LeaveFirst} {
      Appended(w, w', Msg(x.pc == EnterFirst, v, First(x)), g);
    } else if x.pc in {EnterSecond, LeaveSecond} {
      Appended(w, w', Msg(x.pc == EnterSecond, v, Second(x)), g);
    }
  }

  lemma NextLog(w: World, v: Vid, g: nat)
    requires Inv(w) && v in w.vs && CanStep(w, v) && g < 3
    ensures LogOk(Next(w, v), g)
  {
    var x := w.vs[v];
    if Enters(x, g) {
      NextEnters(w, v, g);
    } else if Exits(x, g) {
      NextExits(w, v, g);
    } else {
      assert LogOk(w, g) && OnTrack(x);
      NextShape(w, v);
      NextSilent(w, v, g);
      LogFrame(w, Next(w, v), v, g);
    }
  }

  lemma NextKeeps(w: World, v: Vid)
    requires Inv(w) && v in w.vs && CanStep(w, v)
    ensures Inv(Next(w, v))
  {
    NextShape(w, v);
    forall g | 0 <= g < 3 ensures LockOk(Next(w, v), g) && LogOk(Next(w, v), g) {
      assert LockOk(w, g);
      NextLock(w, v, g);
      NextLog(w, v, g);
    }
  }

  // ---------------------------------------------------------------------
  // Runs

  /** The vehicles of `sched` take one step each, in that order; None if one is blocked. */
  function Exec(w: World, sched: seq<Vid>): Option<World> {
    if sched == [] then Some(w)
    else
      var last := |sched| - 1;
      match Exec(w, sched[..last])
      case None => None
      case Some(w1) =>
        if Formed(w1) && sched[last] in w1.vs && CanStep(w1, sched[last]) then Some(Next(w1, sched[last])) else None
  }

  lemma {:induction false} Reachable(w0: World, sched: seq<Vid>, w: World)
    requires Initial(w0) && Exec(w0, sched) == Some(w)
    ensures Inv(w)
  {
    if sched == [] {
      InitialInv(w0);
    } else {
      var last := |sched| - 1;
      Reachable(w0, sched[..last], Exec(w0, sched[..last]).value);
      NextKeeps(Exec(w0, sched[..last]).value, sched[last]);
    }
  }

  /** In every run, with any number of vehicles, the enter and leave messages of each
      segment alternate and each leave comes from the vehicle that entered; two vehicles
      are never in one segment. */
  lemma SegmentsSafe(w0: World, sched: seq<Vid>, w: World, g: nat)
    requires Initial(w0) && Exec(w0, sched) == Some(w) && g < 3
    ensures Occupant(w.log, g) != Clash
    ensures forall u, v :: u in w.vs && v in w.vs && Inside(w.vs[u], g) && Inside(w.vs[v], g) ==> u == v
  {
    Reachable(w0, sched, w);
    assert LogOk(w, g) && LockOk(w, g);
    forall u, v | u in w.vs && v in w.vs && Inside(w.vs[u], g) && Inside(w.vs[v], g) ensures u == v {
      assert OnTrack(w.vs[v]);
      InsideAlone(w, u, v, g);
    }
  }

  /** When a left-turner announces that it leaves its first segment, it already holds the
      second one. */
  lemma SecondBeforeLeaving(w0: World, sched: seq<Vid>, w: World, v: Vid)
    requires Initial(w0) && Exec(w0, sched) == Some(w)
    requires v in w.vs && w.vs[v].left && w.vs[v].pc == LeaveFirst
    ensures Formed(w) && w.segs[w.vs[v].route] == Taken(v) && w.segs[(w.vs[v].route + 1) % 3] == Taken(v)
  {
    Reachable(w0, sched, w);
    NextSegmentIs(w.vs[v]);
    assert LockOk(w, First(w.vs[v])) && LockOk(w, Second(w.vs[v]));
  }

  // ---------------------------------------------------------------------
  // What each vehicle says

  /** The messages of one vehicle, in order. */
  function Said(log: seq<Msg>, v: Vid): seq<Msg> {
    if log == [] then []
    else
      var m := log[|log| - 1];
      Said(log[..|log| - 1], v) + if m.vid == v then [m] else []
  }

  /** All that a vehicle of route `r` has to say: it passes through segment `r` and, if it
      turns left, through the segment after that, AB, BC, CA and AB again. */
  function Script(v: Vid, r: nat, left: bool): seq<Msg> {
    [Msg(true, v, r), Msg(false, v, r)] +
    if left then [Msg(true, v, (r + 1) % 3), Msg(false, v, (r + 1) % 3)] else []
  }

  /** How much of it a vehicle has said. */
  function Sent(x: Vehicle): nat {
    match x.pc
    case WaitSecond => 1
    case LeaveFirst => 1
    case ReleaseFirst => 2
    case EnterSecond => 2
    case LeaveSecond => 3
    case ReleaseSecond => 4
    case Done => if x.left then 4 else 2
    case _ => 0
  }

  predicate KeepsToScript(w: World, v: Vid)
    requires v in w.vs
  {
    var x := w.vs[v];
    var script := Script(v, x.route, x.left);
    Sent(x) <= |script| && Said(w.log, v) == script[..Sent(x)]
  }

  lemma SaidMore(log: seq<Msg>, m: Msg, v: Vid)
    ensures Said(log + [m], v) == Said(log, v) + if m.vid == v then [m] else []
  {
    assert (log + [m])[..|log|] == log;
  }

  /** The one message that a step may send. */
  lemma NextMessage(w: World, u: Vid)
    requires Formed(w) && u in w.vs && CanStep(w, u) && OnTrack(w.vs[u])
    ensures u in Next(w, u).vs
    ensures var x, x' := w.vs[u], Next(w, u).vs[u];
            && Sent(x) <= Sent(x') <= |Script(u, x.route, x.left)|
            && Next(w, u).log == w.log + Script(u, x.route, x.left)[Sent(x)..Sent(x')]
            && Sent(x') <= Sent(x) + 1
  {
  }

  /** A step says the vehicle's next line or nothing, and nobody else's. */
  lemma NextSays(w: World, u: Vid, v: Vid)
    requires Formed(w) && u in w.vs && v in w.vs && CanStep(w, u) && OnTrack(w.vs[u])
    ensures v in Next(w, u).vs
    ensures var x, x' := w.vs[v], Next(w, u).vs[v];
            && x'.route == x.route && x'.left == x.left
            && if u == v then Sent(x) <= Sent(x') <= |Script(v, x.route, x.left)|
                    && Said(Next(w, u).log, v) == Said(w.log, v) + Script(v, x.route, x.left)[Sent(x)..Sent(x')]
               else x' == x && Said(Next(w, u).log, v) == Said(w.log, v)
  {
    NextShape(w, u);
    NextMessage(w, u);
    var x, x' := w.vs[u], Next(w, u).vs[u];
    var script := Script(u, x.route, x.left);
    if Sent(x) < Sent(x') {
      var m := script[Sent(x)];
      assert script[Sent(x)..Sent(x')] == [m] && m.vid == u;
      SaidMore(w.log, m, v);
    } else {
      assert Next(w, u).log == w.log;
    }
  }

  lemma NextKeepsToScript(w: World, u: Vid, v: Vid)
    requires Inv(w) && u in w.vs && v in w.vs && CanStep(w, u) && KeepsToScript(w, v)
    ensures v in Next(w, u).vs && KeepsToScript(Next(w, u), v)
  {
    assert OnTrack(w.vs[u]);
    NextSays(w, u, v);
  }

  /** In every run the messages of each vehicle, in order, are a beginning of its script, and
      the whole of it once the vehicle is done. */
  lemma {:induction false} MessagesFollowRoute(w0: World, sched: seq<Vid>, w: World, v: Vid)
    requires Initial(w0) && Exec(w0, sched) == Some(w) && v in w0.vs
    ensures v in w.vs && w.vs[v].route == w0.vs[v].route && w.vs[v].left == w0.vs[v].left
    ensures KeepsToScript(w, v)
    ensures Said(w.log, v) <= Script(v, w0.vs[v].route, w0.vs[v].left)
    ensures w.vs[v].pc == Done ==> Said(w.log, v) == Script(v, w0.vs[v].route, w0.vs[v].left)
  {
    if sched != [] {
      var last := |sched| - 1;
      var before := Exec(w0, sched[..last]).value;
      MessagesFollowRoute(w0, sched[..last], before, v);
      Reachable(w0, sched[..last], before);
      assert OnTrack(before.vs[sched[last]]);
      NextSays(before, sched[last], v);
      NextKeepsToScript(before, sched[last], v);
    }
  }

  // ---------------------------------------------------------------------
  // Progress

  predicate HoldsSome(x: Vehicle) {
    HoldsFirst(x) || HoldsSecond(x)
  }

  /** Vehicle `v` of route `r` turns left, holds its first segment and waits for the next. */
  predicate WaitsFrom(w: World, v: Vid, r: nat) {
    v in w.vs && w.vs[v].route == r && w.vs[v].left && w.vs[v].pc == WaitSecond
  }

  /** Three left-turners from the three routes wait for each other. */
  ghost predicate Gridlock(w: World) {
    exists a, b, c :: WaitsFrom(w, a, 0) && WaitsFrom(w, b, 1) && WaitsFrom(w, c, 2)
  }

  /** A blocked segment holder waits for a segment whose holder comes from the next route. */
  lemma BlockedWaitsForNext(w: World, v: Vid) returns (u: Vid)
    requires Inv(w) && v in w.vs && HoldsSome(w.vs[v]) && !CanStep(w, v)
    ensures WaitsFrom(w, v, w.vs[v].route)
    ensures u in w.vs && Holds(w.vs[u], Second(w.vs[v]))
  {
    var x := w.vs[v];
    assert OnTrack(x) && LockOk(w, Second(x));
    u := w.segs[Second(x)].holder.value;
  }

  /** In every reachable state in which some vehicle holds a segment, some segment holder
      can take a step, unless three left-turners from the three routes hold all segments
      and each waits for the next; and then none can. */
  lemma ProgressUnlessGridlock(w0: World, sched: seq<Vid>, w: World, v: Vid)
    requires Initial(w0) && Exec(w0, sched) == Some(w) && v in w.vs && HoldsSome(w.vs[v])
    ensures Formed(w)
    ensures (exists u :: u in w.vs && HoldsSome(w.vs[u]) && CanStep(w, u)) <==> !Gridlock(w)
  {
    Reachable(w0, sched, w);
    if forall u :: u in w.vs && HoldsSome(w.vs[u]) ==> !CanStep(w, u) {
      var u := BlockedWaitsForNext(w, v);
      var t := BlockedWaitsForNext(w, u);
      var s := BlockedWaitsForNext(w, t);
      ThreeRoutes(w, v, u, t);
    } else if Gridlock(w) {
      GridlockBlocks(w);
    }
  }

  lemma ThreeRoutes(w: World, v: Vid, u: Vid, t: Vid)
    requires Formed(w) && v in w.vs && u in w.vs && t in w.vs
    requires WaitsFrom(w, v, w.vs[v].route) && WaitsFrom(w, u, w.vs[u].route) && WaitsFrom(w, t, w.vs[t].route)
    requires Holds(w.vs[u], Second(w.vs[v])) && Holds(w.vs[t], Second(w.vs[u]))
    ensures Gridlock(w)
  {
    var r := w.vs[v].route;
    assert w.vs[u].route == (r + 1) % 3 && w.vs[t].route == (r + 2) % 3;
    if r == 0 {
      assert WaitsFrom(w, v, 0) && WaitsFrom(w, u, 1) && WaitsFrom(w, t, 2);
    } else if r == 1 {
      assert WaitsFrom(w, t, 0) && WaitsFrom(w, v, 1) && WaitsFrom(w, u, 2);
    } else {
      assert WaitsFrom(w, u, 0) && WaitsFrom(w, t, 1) && WaitsFrom(w, v, 2);
    }
  }

  /** In a gridlock every segment is held by a waiting left-turner. */
  lemma GridlockBlocks(w: World)
    requires Inv(w) && Gridlock(w)
    ensures forall u :: u in w.vs && HoldsSome(w.vs[u]) ==> !CanStep(w, u)
  {
    var a, b, c :| WaitsFrom(w, a, 0) && WaitsFrom(w, b, 1) && WaitsFrom(w, c, 2);
    assert LockOk(w, 0) && LockOk(w, 1) && LockOk(w, 2);
    assert Holds(w.vs[a], 0) && Holds(w.vs[b], 1) && Holds(w.vs[c], 2);
    forall u | u in w.vs && HoldsSome(w.vs[u]) ensures !CanStep(w, u) {
      var g := if HoldsFirst(w.vs[u]) then First(w.vs[u]) else Second(w.vs[u]);
      assert Holds(w.vs[u], g);
      assert u == if g == 0 then a else if g == 1 then b else c;
    }
  }

  /** Gridlock is for good: the three never move again, whatever the others do. */
  lemma GridlockStays(w: World, v: Vid)
    requires Inv(w) && Gridlock(w) && v in w.vs && CanStep(w, v)
    ensures Gridlock(Next(w, v)) && Inv(Next(w, v))
  {
    var a, b, c :| WaitsFrom(w, a, 0) && WaitsFrom(w, b, 1) && WaitsFrom(w, c, 2);
    GridlockBlocks(w);
    NextKeeps(w, v);
    assert OnTrack(w.vs[v]);
    NextShape(w, v);
    assert HoldsSome(w.vs[a]) && HoldsSome(w.vs[b]) && HoldsSome(w.vs[c]);
    var w' := Next(w, v);
    assert WaitsFrom(w', a, 0) && WaitsFrom(w', b, 1) && WaitsFrom(w', c, 2);
  }

  /** Once a run reaches a gridlock, no continuation of it leaves the gridlock. */
  lemma {:induction false} GridlockForever(w0: World, sched: seq<Vid>, w: World, more: seq<Vid>, w': World)
    requires Initial(w0) && Exec(w0, sched) == Some(w) && Gridlock(w) && Exec(w, more) == Some(w')
    ensures Inv(w') && Gridlock(w')
  {
    if more == [] {
      Reachable(w0, sched, w);
    } else {
      var last := |more| - 1;
      GridlockForever(w0, sched, w, more[..last], Exec(w, more[..last]).value);
      GridlockStays(Exec(w, more[..last]).value, more[last]);
    }
  }

  // ---------------------------------------------------------------------
  // Gridlock does happen

  /** A truck turning left, with nobody else on its route or in its first segment, drives
      up to where it waits for its second segment. */
  lemma DriveIn(w0: World, sched0: seq<Vid>, w: World, v: Vid) returns (sched: seq<Vid>, w': World)
    requires Exec(w0, sched0) == Some(w) && Formed(w) && v in w.vs
    requires w.vs[v].left && w.vs[v].truck && w.vs[v].pc == Start
    requires w.cars[w.vs[v].route] == 0 && !w.segs[w.vs[v].route].held
    ensures Exec(w0, sched) == Some(w') && Formed(w') && WaitsFrom(w', v, w.vs[v].route)
    ensures w'.vs.Keys == w.vs.Keys && forall u :: u in w.vs && u != v ==> w'.vs[u] == w.vs[u]
    ensures forall i :: 0 <= i < 3 && i != w.vs[v].route ==> w'.cars[i] == w.cars[i] && w'.segs[i] == w.segs[i]
  {
    sched, w' := Drive(w0, sched0, w, v);
    sched, w' := Drive(w0, sched, w', v);
    sched, w' := Drive(w0, sched, w', v);
    sched, w' := Drive(w0, sched, w', v);
    sched, w' := Drive(w0, sched, w', v);
    sched, w' := Drive(w0, sched, w', v);
    sched, w' := Drive(w0, sched, w', v);
  }

  lemma NextFormed(w: World, v: Vid)
    requires Formed(w) && v in w.vs && CanStep(w, v)
    ensures Formed(Next(w, v))
  {
  }

  lemma Drive(w0: World, sched0: seq<Vid>, w: World, v: Vid) returns (sched: seq<Vid>, w': World)
    requires Exec(w0, sched0) == Some(w) && Formed(w) && v in w.vs && CanStep(w, v)
    ensures Exec(w0, sched) == Some(w') && w' == Next(w, v) && Formed(w')
  {
    sched, w' := sched0 + [v], Next(w, v);
    NextFormed(w, v);
    assert sched[..|sched| - 1] == sched0 && sched[|sched| - 1] == v;
  }

  /** Three trucks turning left can reach the gridlock. */
  lemma GridlockReachable(w0: World)
    requires Initial(w0) && 0 in w0.vs && 1 in w0.vs && 2 in w0.vs
    requires forall v :: 0 <= v < 3 ==> w0.vs[v].route == v && w0.vs[v].left && w0.vs[v].truck
    ensures exists sched, w :: Exec(w0, sched) == Some(w) && Gridlock(w)
  {
    assert w0.segs[0] == w0.segs[1] == w0.segs[2] == Lock(false, None);
    assert w0.vs[0].route == 0 && w0.vs[1].route == 1 && w0.vs[2].route == 2;
    var s1, w1 := DriveIn(w0, [], w0, 0);
    assert 1 in w1.vs.Keys && w1.vs[1] == w0.vs[1] && w1.segs[1] == w0.segs[1];
    var s2, w2 := DriveIn(w0, s1, w1, 1);
    assert 2 in w2.vs.Keys && w2.vs[2] == w1.vs[2] == w0.vs[2] && w2.segs[2] == w1.segs[2];
    var s3, w3 := DriveIn(w0, s2, w2, 2);
    AllWaiting(w1, w2, w3);
    assert Exec(w0, s3) == Some(w3);
  }

  lemma AllWaiting(w1: World, w2: World, w3: World)
    requires WaitsFrom(w1, 0, 0) && WaitsFrom(w2, 1, 1) && WaitsFrom(w3, 2, 2)
    requires w1.vs.Keys == w2.vs.Keys == w3.vs.Keys
    requires forall u :: u in w1.vs && u != 1 ==> w2.vs[u] == w1.vs[u]
    requires forall u :: u in w2.vs && u != 2 ==> w3.vs[u] == w2.vs[u]
    ensures Gridlock(w3)
  {
    assert 0 in w2.vs.Keys && 0 in w3.vs.Keys && 1 in w3.vs.Keys;
    assert WaitsFrom(w3, 0, 0) && WaitsFrom(w3, 1, 1) && WaitsFrom(w3, 2, 2);
  }

  // ---------------------------------------------------------------------
  // A vehicle on its own

  /** The vehicle comes up to its first segment: a car has counted itself and taken its route's
      lock, a truck finds no cars and takes none. */
  lemma Approach(w0: World, v: Vid) returns (sched: seq<Vid>, w: World)
    requires Initial(w0) && v in w0.vs
    ensures Exec(w0, sched) == Some(w) && Formed(w) && w.log == [] && w.segs == w0.segs
    ensures v in w.vs && w.vs[v] == w0.vs[v].(pc := WaitFirst, reg := w.vs[v].reg)
    ensures var r := w0.vs[v].route;
            if w0.vs[v].truck then w.tls == w0.tls && w.cars == w0.cars
            else w.tls == w0.tls[r := Taken(v)] && w.cars == w0.cars[r := 1]
  {
    sched, w := Drive(w0, [], w0, v);
    sched, w := Drive(w0, sched, w, v);
    if !w0.vs[v].truck {
      sched, w := Drive(w0, sched, w, v);
      sched, w := Drive(w0, sched, w, v);
    }
  }

  /** It takes the segment, counts itself out, and gives its route's lock back if that makes
      the count zero and it has the lock.  Here and below `o` is any other vehicle, which stays
      as it is. */
  lemma TakeFirst(w0: World, sched0: seq<Vid>, w1: World, v: Vid, o: Vid) returns (sched: seq<Vid>, w: World)
    requires Exec(w0, sched0) == Some(w1) && Formed(w1) && v in w1.vs && w1.vs[v].pc == WaitFirst
    requires !w1.segs[w1.vs[v].route].held
    ensures o in w1.vs && o != v ==> o in w.vs && w.vs[o] == w1.vs[o]
    ensures Exec(w0, sched) == Some(w) && Formed(w) && w.log == w1.log
    ensures v in w.vs && w.vs[v] == w1.vs[v].(pc := EnterFirst, reg := w.vs[v].reg)
    ensures var r := w1.vs[v].route;
            && w.segs == w1.segs[r := Taken(v)] && w.cars == w1.cars[r := w1.cars[r] - 1]
            && w.tls == if w1.cars[r] == 1 && w1.tls[r] == Taken(v) then w1.tls[r := Lock(false, Some(v))] else w1.tls
  {
    sched, w := Drive(w0, sched0, w1, v);
    sched, w := Drive(w0, sched, w, v);
    sched, w := Drive(w0, sched, w, v);
    sched, w := Drive(w0, sched, w, v);
  }

  /** It passes through its first segment, taking the second before it leaves if it turns
      left. */
  lemma PassFirst(w0: World, sched0: seq<Vid>, w1: World, v: Vid, o: Vid) returns (sched: seq<Vid>, w: World)
    requires Exec(w0, sched0) == Some(w1) && Formed(w1) && v in w1.vs && w1.vs[v].pc == EnterFirst
    requires w1.segs[First(w1.vs[v])] == Taken(v) && !w1.segs[Second(w1.vs[v])].held
    ensures o in w1.vs && o != v ==> o in w.vs && w.vs[o] == w1.vs[o]
    ensures Exec(w0, sched) == Some(w) && Formed(w) && w.tls == w1.tls && w.cars == w1.cars
    ensures var x := w1.vs[v];
            && v in w.vs && w.vs[v] == x.(pc := if x.left then EnterSecond else Done)
            && w.log == w1.log + [Msg(true, v, First(x))] + [Msg(false, v, First(x))]
            && !w.segs[First(x)].held && (x.left ==> w.segs[Second(x)] == Taken(v))
            && forall g :: 0 <= g < 3 && g != First(x) && !(x.left && g == Second(x)) ==> w.segs[g] == w1.segs[g]
  {
    var x := w1.vs[v];
    sched, w := Drive(w0, sched0, w1, v);
    if x.left {
      AllSegments(w, v);
      sched, w := Drive(w0, sched, w, v);
    }
    assert w.vs[v] == x.(pc := LeaveFirst) && w.segs[First(x)] == Taken(v);
    sched, w := Drive(w0, sched, w, v);
    AllSegments(w, v);
    sched, w := Drive(w0, sched, w, v);
  }

  /** Its last three steps, one by one. */
  lemma SecondSteps(w: World, v: Vid)
    requires Formed(w) && v in w.vs && w.vs[v].pc in {EnterSecond, LeaveSecond, ReleaseSecond}
    ensures CanStep(w, v)
    ensures var g := Second(w.vs[v]);
            && (w.vs[v].pc == EnterSecond ==> Next(w, v) == Say(Go(w, v, LeaveSecond), true, v, g))
            && (w.vs[v].pc == LeaveSecond ==> Next(w, v) == Say(Go(w, v, ReleaseSecond), false, v, g))
            && (w.vs[v].pc == ReleaseSecond && w.segs[g] == Taken(v) ==>
                  Next(w, v) == Go(w, v, Done).(segs := w.segs[g := Lock(false, Some(v))]))
  {
  }

  /** And through its second one. */
  lemma PassSecond(w0: World, sched0: seq<Vid>, w1: World, v: Vid, o: Vid) returns (sched: seq<Vid>, w: World)
    requires Exec(w0, sched0) == Some(w1) && Formed(w1) && v in w1.vs && w1.vs[v].pc == EnterSecond
    requires w1.segs[Second(w1.vs[v])] == Taken(v)
    ensures o in w1.vs && o != v ==> o in w.vs && w.vs[o] == w1.vs[o]
    ensures Exec(w0, sched) == Some(w) && Formed(w) && w.tls == w1.tls && w.cars == w1.cars
    ensures var x := w1.vs[v];
            && v in w.vs && w.vs[v] == x.(pc := Done)
            && w.log == w1.log + [Msg(true, v, Second(x))] + [Msg(false, v, Second(x))]
            && w.segs == w1.segs[Second(x) := Lock(false, Some(v))]
  {
    var x := w1.vs[v];
    SecondSteps(w1, v);
    sched, w := Drive(w0, sched0, w1, v);
    assert w.vs[v] == x.(pc := LeaveSecond) && w.segs == w1.segs;
    SecondSteps(w, v);
    sched, w := Drive(w0, sched, w, v);
    assert w.vs[v] == x.(pc := ReleaseSecond) && w.segs == w1.segs;
    SecondSteps(w, v);
    sched, w := Drive(w0, sched, w, v);
  }

  lemma AllSegments(w: World, v: Vid)
    requires Formed(w) && v in w.vs && CanStep(w, v)
    ensures |Next(w, v).segs| == 3
    ensures forall g :: 0 <= g < 3 ==>
              (Next(w, v).segs[g] ==
               if Takes(w.vs[v], g) then Taken(v) else if Drops(w.vs[v], g) then Released(w.segs[g], v) else w.segs[g])
  {
    forall g | 0 <= g < 3
      ensures |Next(w, v).segs| == 3
      ensures Next(w, v).segs[g] ==
              if Takes(w.vs[v], g) then Taken(v) else if Drops(w.vs[v], g) then Released(w.segs[g], v) else w.segs[g]
    {
      NextSegment(w, v, g);
    }
  }

  /** Up to here it has left its route's lock free. */
  lemma ComeIn(w0: World, v: Vid) returns (sched: seq<Vid>, w: World)
    requires Initial(w0) && v in w0.vs
    ensures Exec(w0, sched) == Some(w) && Formed(w) && w.log == []
    ensures v in w.vs && w.vs[v] == w0.vs[v].(pc := EnterFirst, reg := w.vs[v].reg)
    ensures w.cars == w0.cars[w0.vs[v].route := if w0.vs[v].truck then -1 else 0]
    ensures w.segs == w0.segs[w0.vs[v].route := Taken(v)] && forall g :: 0 <= g < 3 ==> !w.tls[g].held
  {
    var r := w0.vs[v].route;
    assert w0.segs[r] == Lock(false, None) && w0.cars[r] == 0;
    var s1, w1 := Approach(w0, v);
    sched, w := TakeFirst(w0, s1, w1, v, v);
    RouteFree(w0, w1, w, v);
  }

  /** A vehicle that nobody meets gets through, says exactly its script and leaves all locks
      free.  A car leaves its route's count as it was; a truck, which is not counted in, leaves
      it one too low. */
  lemma AloneGetsThrough(w0: World, v: Vid) returns (sched: seq<Vid>, w: World)
    requires Initial(w0) && v in w0.vs
    ensures Exec(w0, sched) == Some(w) && Formed(w) && v in w.vs && w.vs[v].pc == Done
    ensures w.log == Script(v, w0.vs[v].route, w0.vs[v].left)
    ensures forall g :: 0 <= g < 3 ==> !w.segs[g].held && !w.tls[g].held
    ensures w.cars == w0.cars[w0.vs[v].route := if w0.vs[v].truck then -1 else 0]
  {
    var x := w0.vs[v];
    NextSegmentIs(x);
    assert w0.segs[Second(x)] == Lock(false, None);
    sched, w := ComeIn(w0, v);
    sched, w := PassFirst(w0, sched, w, v, v);
    assert w.log == [Msg(true, v, x.route), Msg(false, v, x.route)];
    if x.left {
      sched, w := PassSecond(w0, sched, w, v, v);
    }
    assert forall g :: 0 <= g < 3 ==> !w0.segs[g].held;
  }

  lemma RouteFree(w0: World, w1: World, w2: World, v: Vid)
    requires Initial(w0) && v in w0.vs && Formed(w1) && Formed(w2)
    requires var r := w0.vs[v].route;
             && (if w0.vs[v].truck then w1.tls == w0.tls && w1.cars == w0.cars
                 else w1.tls == w0.tls[r := Taken(v)] && w1.cars == w0.cars[r := 1])
             && w2.tls == if w1.cars[r] == 1 && w1.tls[r] == Taken(v) then w1.tls[r := Lock(false, Some(v))] else w1.tls
    ensures forall g :: 0 <= g < 3 ==> !w2.tls[g].held
  {
  }

  // ---------------------------------------------------------------------
  // A route lock can be lost

  /** The lock of route `r` is held by a vehicle that has finished. */
  ghost predicate RouteLost(w: World, r: nat, u: Vid)
    requires Formed(w) && r < 3
  {
    w.tls[r] == Taken(u) && u in w.vs && w.vs[u].pc == Done
  }

  /** What a step does to the lock of a route: it is taken only when it is free, and given back
      only by its holder, when the count of the route is zero. */
  lemma NextRouteLock(w: World, v: Vid, r: nat)
    requires Formed(w) && v in w.vs && CanStep(w, v) && r < 3
    ensures |Next(w, v).tls| == 3
    ensures Next(w, v).tls[r] ==
            if w.vs[v].route == r && w.vs[v].pc == WaitRoute then Lock(true, Some(v))
            else if w.vs[v].route == r && w.vs[v].pc == TestZero && w.cars[r] == 0 && w.tls[r] == Lock(true, Some(v))
            then Lock(false, Some(v))
            else w.tls[r]
    ensures w.vs[v].route == r && w.vs[v].pc == WaitRoute ==> !w.tls[r].held
  {
  }

  /** Then no continuation gives it back, and whoever waits for it waits for good. */
  lemma {:induction false} RouteLostForever(w: World, sched: seq<Vid>, w': World, r: nat, u: Vid, v: Vid)
    requires Inv(w) && r < 3 && RouteLost(w, r, u) && Exec(w, sched) == Some(w')
    requires v in w.vs && w.vs[v].route == r && w.vs[v].pc == WaitRoute
    ensures Inv(w') && RouteLost(w', r, u) && v in w'.vs && w'.vs[v] == w.vs[v] && !CanStep(w', v)
  {
    if sched != [] {
      var last := |sched| - 1;
      var before := Exec(w, sched[..last]).value;
      RouteLostForever(w, sched[..last], before, r, u, v);
      assert OnTrack(before.vs[sched[last]]);
      NextKeeps(before, sched[last]);
      NextShape(before, sched[last]);
      NextRouteLock(before, sched[last], r);
    }
  }

  /** Car `u` has taken its route's lock, and car `v` of the same route has counted itself in
      behind it. */
  lemma TwoCarsApproach(w0: World, u: Vid, v: Vid) returns (sched: seq<Vid>, w: World)
    requires Initial(w0) && u in w0.vs && v in w0.vs && u != v && w0.vs[u].route == w0.vs[v].route
    requires !w0.vs[u].truck && !w0.vs[v].truck
    ensures Exec(w0, sched) == Some(w) && Formed(w) && w.segs == w0.segs && u in w.vs && v in w.vs
    ensures w.vs[u] == w0.vs[u].(pc := WaitFirst, reg := w.vs[u].reg)
    ensures w.vs[v] == w0.vs[v].(pc := WaitRoute, reg := w.vs[v].reg)
    ensures w.tls[w0.vs[u].route] == Taken(u) && w.cars[w0.vs[u].route] == 2
  {
    var r := w0.vs[u].route;
    assert w0.cars[r] == 0;
    sched, w := Drive(w0, [], w0, u);
    sched, w := Drive(w0, sched, w, u);
    sched, w := Drive(w0, sched, w, u);
    sched, w := Drive(w0, sched, w, u);
    sched, w := Drive(w0, sched, w, v);
    sched, w := Drive(w0, sched, w, v);
    sched, w := Drive(w0, sched, w, v);
  }

  /** It does happen: two cars of the same route, turning as they like, of which the first
      finishes without giving the lock back because the second is counted in. */
  lemma RouteLostReachable(w0: World, u: Vid, v: Vid) returns (sched: seq<Vid>, w: World)
    requires Initial(w0) && u in w0.vs && v in w0.vs && u != v && w0.vs[u].route == w0.vs[v].route
    requires !w0.vs[u].truck && !w0.vs[v].truck
    ensures Exec(w0, sched) == Some(w) && Inv(w) && RouteLost(w, w0.vs[u].route, u)
    ensures v in w.vs && w.vs[v].route == w0.vs[u].route && w.vs[v].pc == WaitRoute
  {
    var x := w0.vs[u];
    assert w0.segs[First(x)] == w0.segs[Second(x)] == Lock(false, None);
    sched, w := TwoCarsApproach(w0, u, v);
    sched, w := TakeFirst(w0, sched, w, u, v);
    assert w.tls[x.route] == Taken(u) && w.segs[Second(x)] == w0.segs[Second(x)];
    sched, w := PassFirst(w0, sched, w, u, v);
    if x.left {
      sched, w := PassSecond(w0, sched, w, u, v);
    }
    Reachable(w0, sched, w);
  }
}
