/** What every step of the kernel keeps, whatever the threads do and whenever
    interrupts and allocation failures occur. */
module KernelInvariant {
  import opened Wrappers
  import opened Kernel

  predicate Distinct(ts: seq<Tid>) {
    forall i, j :: 0 <= i < j < |ts| ==> ts[i] != ts[j]
  }

  /** The four places are disjoint and together hold the allocated threads. */
  predicate Apart(k: State) {
    && (forall t :: t in k.runq ==> t in k.threads && t !in k.sleepers && t !in k.zombies && k.cur != Some(t))
    && (forall t :: t in k.sleepers ==> t in k.threads && t !in k.zombies && k.cur != Some(t))
    && (forall t :: t in k.zombies ==> t in k.threads && k.cur != Some(t))
    && (k.cur.Some? ==> k.cur.value in k.threads)
    && (forall t :: t in k.threads ==> t in k.runq || t in k.sleepers || t in k.zombies || k.cur == Some(t))
  }

  /** Every allocated thread is in exactly one place, once. */
  predicate Placed(k: State) {
    Distinct(k.runq) && Distinct(k.sleepers) && Distinct(k.zombies) && Apart(k)
  }

  /** `numThreads` counts the threads that are not zombies. */
  predicate Counted(k: State) {
    k.numThreads == |k.runq| + |k.sleepers| + if k.cur.Some? then 1 else 0
  }

  /** The run queue always has room for all threads, the sleepers array from the first
      successful fork on. */
  predicate Roomy(k: State) {
    && k.numThreads <= k.runqCap
    && (if k.forked then k.numThreads <= k.sleepersCap else k.numThreads <= 1)
  }

  /** No lost wakeup: whoever sleeps on a lock or a semaphore still has to wait. */
  predicate MustWait(k: State, th: Thread) {
    th.sleepAddr.Some? &&
    match th.sleepAddr.value
    case LockAddr(l) => l in k.locks && k.locks[l].held && th.resume == Acquiring(l)
    case SemAddr(s) => s in k.sems && k.sems[s] == 0 && th.resume == Downing(s)
    case OtherAddr(_) => th.resume == Plain
  }

  predicate SleepersWait(k: State) {
    forall t :: t in k.sleepers ==> t in k.threads && MustWait(k, k.threads[t])
  }

  /** A thread inside a primitive's wait loop waits for an existing object. */
  predicate WaitersValid(k: State) {
    forall t :: t in k.threads ==>
      match k.threads[t].resume
      case Acquiring(l) => l in k.locks
      case Downing(s) => s in k.sems
      case _ => true
  }

  predicate ZombiesClean(k: State) {
    forall z :: z in k.zombies ==> z in k.threads && !k.threads[z].hasVm && !k.threads[z].hasCwd
  }

  /** A thread between its acquire and its release is the recorded holder. */
  predicate OwnersHold(k: State) {
    forall t :: t in k.threads ==> HoldsAll(k, t)
  }

  predicate HoldsAll(k: State, t: Tid)
    requires t in k.threads
  {
    forall l :: l in k.threads[t].owns ==> l in k.locks && k.locks[l] == Lock(true, Some(t))
  }

  predicate CountsFit(k: State) {
    forall s :: s in k.sems ==> k.sems[s] <= INT_MAX
  }

  predicate Good(k: State) {
    SleepersWait(k) && WaitersValid(k) && ZombiesClean(k) && OwnersHold(k) && CountsFit(k)
  }

  predicate Inv(k: State) {
    Placed(k) && Counted(k) && Roomy(k) && Good(k)
  }

  // ---------------------------------------------------------------------
  // thread_wakeup

  lemma {:induction false} PickLengths(threads: map<Tid, Thread>, ts: seq<Tid>, addr: Addr)
    ensures |Pick(threads, ts, addr, true)| + |Pick(threads, ts, addr, false)| == |ts|
  {
    if ts != [] {
      PickLengths(threads, ts[1..], addr);
    }
  }

  lemma {:induction false} PickMembers(threads: map<Tid, Thread>, ts: seq<Tid>, addr: Addr, want: bool)
    ensures forall t :: t in Pick(threads, ts, addr, want) <==> t in ts && SleepsOn(threads, t, addr) == want
  {
    if ts != [] {
      PickMembers(threads, ts[1..], addr, want);
      assert ts == [ts[0]] + ts[1..];
    }
  }

  lemma {:induction false} PickDistinct(threads: map<Tid, Thread>, ts: seq<Tid>, addr: Addr, want: bool)
    requires Distinct(ts)
    ensures Distinct(Pick(threads, ts, addr, want))
  {
    if ts != [] {
      var rest := ts[1..];
      PickDistinct(threads, rest, addr, want);
      PickMembers(threads, rest, addr, want);
    }
  }

  lemma DistinctAppend(a: seq<Tid>, b: seq<Tid>)
    requires Distinct(a) && Distinct(b) && forall t :: t in a ==> t !in b
    ensures Distinct(a + b)
  {
    forall i, j | 0 <= i < j < |a + b| ensures (a + b)[i] != (a + b)[j] {
      if i < |a| <= j {
        assert a[i] in a && b[j - |a|] in b;
      }
    }
  }

  lemma WakeRoomy(k: State, addr: Addr, grow: nat)
    requires Counted(k) && Roomy(k)
    ensures WakeAll(k, addr, grow).Some?
    ensures var k' := WakeAll(k, addr, grow).value; Counted(k') && Roomy(k')
  {
    PickLengths(k.threads, k.sleepers, addr);
  }

  lemma WakePlaced(k: State, addr: Addr, grow: nat)
    requires Placed(k) && WakeAll(k, addr, grow).Some?
    ensures Placed(WakeAll(k, addr, grow).value)
  {
    PickMembers(k.threads, k.sleepers, addr, true);
    PickMembers(k.threads, k.sleepers, addr, false);
    PickDistinct(k.threads, k.sleepers, addr, true);
    PickDistinct(k.threads, k.sleepers, addr, false);
    DistinctAppend(k.runq, Pick(k.threads, k.sleepers, addr, true));
  }

  /** What holds of every sleeper still holds of those left, except that none is on `addr`. */
  lemma WakeGood(k: State, addr: Addr, grow: nat)
    requires WakeAll(k, addr, grow).Some?
    requires WaitersValid(k) && ZombiesClean(k) && OwnersHold(k) && CountsFit(k)
    requires forall t :: t in k.sleepers ==> t in k.threads && (k.threads[t].sleepAddr == Some(addr) || MustWait(k, k.threads[t]))
    ensures Good(WakeAll(k, addr, grow).value)
  {
    PickMembers(k.threads, k.sleepers, addr, false);
    var k' := WakeAll(k, addr, grow).value;
    forall t | t in k'.sleepers ensures t in k'.threads && MustWait(k', k'.threads[t]) {
      assert t in k.sleepers && MustWait(k, k.threads[t]);
    }
  }

  // ---------------------------------------------------------------------
  // Each step

  lemma StashPlaced(k: State, place: Place, grow: nat)
    requires k.cur.Some? && Stash(k, place, grow).Some? && Placed(k)
    ensures Placed(Stash(k, place, grow).value)
  {
    var t := [k.cur.value];
    match place
    case Ready => DistinctAppend(k.runq, t);
    case Asleep => DistinctAppend(k.sleepers, t);
    case Dead => DistinctAppend(k.zombies, t);
  }

  lemma StashRoomy(k: State, place: Place, grow: nat)
    requires k.cur.Some? && Counted(k) && Roomy(k) && !place.Dead?
    ensures Stash(k, place, grow).Some? <==> (place.Ready? || k.forked || |k.sleepers| < k.sleepersCap || |k.sleepers| < grow)
    ensures var k' := Stash(k, place, grow); k'.Some? ==> Counted(k'.value) && Roomy(k'.value)
  {
  }

  lemma SleepKeeps(k: State, addr: Addr, resume: Resume, grow: nat)
    requires Inv(k) && k.cur.Some?
    requires GoToSleep(k, addr, resume, grow).Some?
    requires MustWait(k, k.threads[k.cur.value].(sleepAddr := Some(addr), resume := resume))
    ensures Inv(GoToSleep(k, addr, resume, grow).value)
  {
    var t := k.cur.value;
    var k1 := k.(threads := k.threads[t := k.threads[t].(sleepAddr := Some(addr), resume := resume)]);
    assert Placed(k1);
    StashPlaced(k1, Asleep, grow);
    StashRoomy(k1, Asleep, grow);
    SleepGood(k, addr, resume, grow);
  }

  lemma SleepGood(k: State, addr: Addr, resume: Resume, grow: nat)
    requires Good(k) && Apart(k) && k.cur.Some?
    requires GoToSleep(k, addr, resume, grow).Some?
    requires MustWait(k, k.threads[k.cur.value].(sleepAddr := Some(addr), resume := resume))
    ensures Good(GoToSleep(k, addr, resume, grow).value)
  {
  }

  lemma AcquireKeeps(k: State, lock: nat, grow: nat)
    requires Inv(k) && lock in k.locks && k.cur.Some?
    requires ApplyAcquire(k, lock, grow).Some?
    ensures Inv(ApplyAcquire(k, lock, grow).value)
  {
    if k.locks[lock].held {
      SleepKeeps(k, LockAddr(lock), Acquiring(lock), grow);
    }
  }

  lemma ReleaseGood(k: State, lock: nat, grow: nat)
    requires Good(k) && Apart(k) && lock in k.locks && k.cur.Some? && DoIHold(k, lock)
    requires WakeAll(Freed(k, lock), LockAddr(lock), grow).Some?
    ensures Good(WakeAll(Freed(k, lock), LockAddr(lock), grow).value)
  {
    var k1 := Freed(k, lock);
    forall t | t in k1.threads ensures HoldsAll(k1, t) {
      assert HoldsAll(k, t);
    }
    WakeGood(k1, LockAddr(lock), grow);
  }

  lemma ReleaseKeeps(k: State, lock: nat, grow: nat)
    requires Inv(k) && lock in k.locks && k.cur.Some?
    ensures ApplyRelease(k, lock, grow).Some? && Inv(ApplyRelease(k, lock, grow).value)
  {
    if DoIHold(k, lock) {
      var k1 := Freed(k, lock);
      assert Placed(k1);
      WakeRoomy(k1, LockAddr(lock), grow);
      WakePlaced(k1, LockAddr(lock), grow);
      ReleaseGood(k, lock, grow);
    }
  }

  lemma DownKeeps(k: State, sem: nat, grow: nat)
    requires Inv(k) && sem in k.sems && k.cur.Some?
    requires ApplyDown(k, sem, grow).Some?
    ensures Inv(ApplyDown(k, sem, grow).value)
  {
    if k.sems[sem] == 0 {
      SleepKeeps(k, SemAddr(sem), Downing(sem), grow);
    }
  }

  lemma UpKeeps(k: State, sem: nat, grow: nat)
    requires Inv(k) && sem in k.sems && k.sems[sem] < INT_MAX
    ensures ApplyUp(k, sem, grow).Some? && Inv(ApplyUp(k, sem, grow).value)
  {
    var k1 := k.(sems := k.sems[sem := k.sems[sem] + 1]);
    assert Placed(k1) && Counted(k1) && Roomy(k1);
    WakeRoomy(k1, SemAddr(sem), grow);
    WakePlaced(k1, SemAddr(sem), grow);
    UpGood(k, sem, grow);
  }

  lemma UpGood(k: State, sem: nat, grow: nat)
    requires Good(k) && sem in k.sems && ApplyUp(k, sem, grow).Some?
    ensures Good(ApplyUp(k, sem, grow).value)
  {
    WakeGood(k.(sems := k.sems[sem := k.sems[sem] + 1]), SemAddr(sem), grow);
  }

  lemma YieldKeeps(k: State, grow: nat)
    requires Inv(k) && k.cur.Some?
    ensures Stash(k, Ready, grow).Some? && Inv(Stash(k, Ready, grow).value)
  {
    StashRoomy(k, Ready, grow);
    StashPlaced(k, Ready, grow);
  }

  lemma ForkRoomy(k: State, child: Tid, growS: nat, growZ: nat, growR: nat)
    requires Counted(k) && Roomy(k) && k.cur.Some? && k.cur.value in k.threads
    ensures var k' := ApplyFork(k, child, growS, growZ, growR); Counted(k') && Roomy(k')
  {
  }

  /** What a fork can change besides capacities: one fresh thread may join the run queue. */
  predicate ForkedFrom(k: State, k': State, child: Tid) {
    && k'.cur == k.cur && k'.sleepers == k.sleepers && k'.zombies == k.zombies
    && k'.locks == k.locks && k'.sems == k.sems
    && (|| (k'.threads == k.threads && k'.runq == k.runq)
        || (exists cwd :: k'.threads == k.threads[child := Thread(None, false, cwd, Fresh, {})]
                       && k'.runq == k.runq + [child]))
  }

  lemma ForkShape(k: State, child: Tid, growS: nat, growZ: nat, growR: nat)
    requires k.cur.Some? && k.cur.value in k.threads
    ensures ForkedFrom(k, ApplyFork(k, child, growS, growZ, growR), child)
  {
  }

  lemma ForkPlaced(k: State, k': State, child: Tid)
    requires Placed(k) && child !in k.threads && ForkedFrom(k, k', child)
    ensures Placed(k')
  {
    DistinctAppend(k.runq, [child]);
  }

  lemma ForkGood(k: State, k': State, child: Tid)
    requires Good(k) && Apart(k) && child !in k.threads && ForkedFrom(k, k', child)
    ensures Good(k')
  {
    assert forall t :: t in k.threads ==> t in k'.threads && k'.threads[t] == k.threads[t];
  }

  lemma ForkKeeps(k: State, child: Tid, growS: nat, growZ: nat, growR: nat)
    requires Inv(k) && k.cur.Some? && child !in k.threads
    ensures Inv(ApplyFork(k, child, growS, growZ, growR))
  {
    var k' := ApplyFork(k, child, growS, growZ, growR);
    ForkShape(k, child, growS, growZ, growR);
    ForkRoomy(k, child, growS, growZ, growR);
    ForkPlaced(k, k', child);
    ForkGood(k, k', child);
  }

  lemma ExitGood(k: State, grow: nat)
    requires Good(k) && Apart(k) && k.cur.Some? && ApplyExit(k, grow).Some?
    ensures Good(ApplyExit(k, grow).value)
  {
    var k' := ApplyExit(k, grow).value;
    assert forall t :: t in k.threads && k.cur != Some(t) ==> k'.threads[t] == k.threads[t];
    assert k'.locks == k.locks && k'.sems == k.sems && k'.sleepers == k.sleepers;
    assert k'.zombies == k.zombies + [k.cur.value];
  }

  lemma ExitPlaced(k: State, grow: nat)
    requires Placed(k) && k.cur.Some? && ApplyExit(k, grow).Some?
    ensures Placed(ApplyExit(k, grow).value)
  {
    var th := k.threads[k.cur.value];
    var k1 := UpdateCur(k, th.(hasVm := false, hasCwd := false)).(numThreads := k.numThreads - 1);
    assert Placed(k1);
    StashPlaced(k1, Dead, grow);
  }

  lemma PickedPlaced(k: State)
    requires Placed(k) && k.cur.None? && k.runq != []
    ensures Placed(k.(cur := Some(k.runq[0]), runq := k.runq[1..]))
  {
    assert k.runq == [k.runq[0]] + k.runq[1..];
  }

  lemma ExorcisedPlaced(k: State)
    requires Placed(k)
    ensures Placed(Exorcised(k))
  {
  }

  /** The assertions in exorcise and thread_destroy hold. */
  lemma ExorciseSafe(k: State)
    requires Placed(k) && ZombiesClean(k)
    ensures CanExorcise(k)
  {
  }

  /** Switching to a thread keeps what it owns; only zombies disappear. */
  lemma SwitchGood(k: State, k': State, t: Tid)
    requires Good(k) && t !in k.sleepers
    requires k'.locks == k.locks && k'.sems == k.sems && k'.sleepers == k.sleepers
    requires k'.zombies == [] || (k'.zombies == k.zombies && t !in k.zombies)
    requires forall u :: u in k'.threads ==> u in k.threads && k'.threads[u].owns == k.threads[u].owns
    requires forall u :: u in k'.threads && u != t ==> k'.threads[u] == k.threads[u]
    requires t in k'.threads ==> k'.threads[t].resume in {Plain, k.threads[t].resume}
    requires forall u :: u in k.threads && u !in k'.threads ==> u in k.zombies && u !in k.sleepers && k'.zombies == []
    ensures Good(k')
  {
  }

  lemma PickedGood(k: State)
    requires Good(k) && Apart(k) && k.cur.None? && k.runq != [] && Picked(k).Some?
    ensures Good(Picked(k).value)
  {
    assert k.runq[0] in k.runq;
    SwitchGood(k, Picked(k).value, k.runq[0]);
  }

  lemma DispatchKeeps(k: State)
    requires Inv(k) && k.cur.None? && k.runq != []
    ensures Picked(k).Some? && Inv(Picked(k).value)
  {
    var t := k.runq[0];
    var k1 := k.(cur := Some(t), runq := k.runq[1..]);
    PickedPlaced(k);
    ExorciseSafe(k1);
    PickedGood(k);
    if !k.threads[t].resume.Fresh? {
      var k2 := k1.(threads := k.threads[t := k.threads[t].(sleepAddr := None)]);
      assert Placed(k2);
      ExorcisedPlaced(k2);
    }
  }
}
