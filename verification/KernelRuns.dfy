/** Safety and fairness over whole runs of the kernel. */
module KernelRuns {
  import opened Wrappers
  import opened Kernel
  import opened KernelInvariant

  // ---------------------------------------------------------------------
  // Every step keeps the invariant

  lemma DestroyLockKeeps(k: State, lock: nat)
    requires Inv(k) && Enabled(k, DestroyLock(lock)) && !k.locks[lock].held
    ensures Inv(k.(locks := k.locks - {lock}))
  {
  }

  lemma DestroySemKeeps(k: State, sem: nat)
    requires Inv(k) && Enabled(k, DestroySem(sem)) && Apply(k, DestroySem(sem)).Some?
    ensures Inv(k.(sems := k.sems - {sem}))
  {
    PickMembers(k.threads, k.sleepers, SemAddr(sem), true);
    NobodyNeedsSem(k, sem);
  }

  lemma NobodyNeedsSem(k: State, sem: nat)
    requires Good(k) && Enabled(k, DestroySem(sem))
    requires forall t :: t in k.sleepers ==> !SleepsOn(k.threads, t, SemAddr(sem))
    ensures Good(k.(sems := k.sems - {sem}))
  {
  }

  lemma CreateLockKeeps(k: State, lock: nat)
    requires Inv(k) && lock !in k.locks
    ensures Inv(k.(locks := k.locks[lock := Lock(false, None)]))
  {
  }

  lemma CreateSemKeeps(k: State, sem: nat, count: nat)
    requires Inv(k) && sem !in k.sems && count <= INT_MAX
    ensures Inv(k.(sems := k.sems[sem := count]))
  {
  }

  lemma SetSpaceKeeps(k: State, hasVm: bool, hasCwd: bool)
    requires Inv(k) && k.cur.Some?
    ensures Inv(UpdateCur(k, k.threads[k.cur.value].(hasVm := hasVm, hasCwd := hasCwd)))
  {
  }

  lemma WakeupKeeps(k: State, addr: Addr, grow: nat)
    requires Inv(k)
    ensures WakeAll(k, addr, grow).Some? && Inv(WakeAll(k, addr, grow).value)
  {
    WakeRoomy(k, addr, grow);
    WakePlaced(k, addr, grow);
    WakeGood(k, addr, grow);
  }

  lemma ExitKeeps(k: State, grow: nat)
    requires Inv(k) && k.cur.Some? && ApplyExit(k, grow).Some?
    ensures Inv(ApplyExit(k, grow).value)
  {
    ExitPlaced(k, grow);
    ExitGood(k, grow);
  }

  /** Whatever step is taken, the partition of the threads, the room in the queues, the
      no-lost-wakeup property and the ownership of locks survive. */
  lemma StepKeeps(k: State, l: Label)
    requires Inv(k) && Enabled(k, l) && Apply(k, l).Some?
    ensures Inv(Apply(k, l).value)
  {
    match l
    case Acquire(lock, grow) => AcquireKeeps(k, lock, grow);
    case Release(lock, grow) => ReleaseKeeps(k, lock, grow);
    case Down(sem, grow) => DownKeeps(k, sem, grow);
    case Up(sem, grow) => UpKeeps(k, sem, grow);
    case Wakeup(addr, grow) => WakeupKeeps(k, addr, grow);
    case Sleep(id, grow) => SleepKeeps(k, OtherAddr(id), Plain, grow);
    case Yield(grow) => YieldKeeps(k, grow);
    case Fork(child, growS, growZ, growR) => ForkKeeps(k, child, growS, growZ, growR);
    case Exit(grow) => ExitKeeps(k, grow);
    case Dispatch => DispatchKeeps(k);
    case SetSpace(hasVm, hasCwd) => SetSpaceKeeps(k, hasVm, hasCwd);
    case CreateLock(lock) => CreateLockKeeps(k, lock);
    case DestroyLock(lock) => DestroyLockKeeps(k, lock);
    case CreateSem(sem, count) => CreateSemKeeps(k, sem, count);
    case DestroySem(sem) => DestroySemKeeps(k, sem);
  }

  // ---------------------------------------------------------------------
  // When an assertion fires

  /** An array that is full and that memory does not let grow. */
  predicate Stuck(ts: seq<Tid>, cap: nat, grow: nat) {
    cap <= |ts| && grow <= |ts|
  }

  /** The steps on which some kernel assertion fails. */
  predicate Panics(k: State, l: Label)
    requires Enabled(k, l)
  {
    match l
    case Acquire(lock, grow) => k.locks[lock].held && !k.forked && Stuck(k.sleepers, k.sleepersCap, grow)
    case Down(sem, grow) => k.sems[sem] == 0 && !k.forked && Stuck(k.sleepers, k.sleepersCap, grow)
    case Sleep(_, grow) => !k.forked && Stuck(k.sleepers, k.sleepersCap, grow)
    case Up(sem, _) => k.sems[sem] == INT_MAX
    case Exit(grow) => Stuck(k.zombies, k.zombiesCap, grow)
    case DestroyLock(lock) => k.locks[lock].held
    case DestroySem(sem) => exists t :: t in k.sleepers && SleepsOn(k.threads, t, SemAddr(sem))
    case _ => false
  }

  lemma SleepFails(k: State, addr: Addr, resume: Resume, grow: nat)
    requires Inv(k) && k.cur.Some?
    ensures GoToSleep(k, addr, resume, grow).None? <==> !k.forked && Stuck(k.sleepers, k.sleepersCap, grow)
  {
  }

  /** Exactly which steps fail an assertion.  In particular the run queue never
      overflows, `sleepers` never does after the first fork, the zombies that exorcise
      destroys are never current and hold no resources; only `zombies` can overflow. */
  lemma PanicsExactly(k: State, l: Label)
    requires Inv(k) && Enabled(k, l)
    ensures Apply(k, l).None? <==> Panics(k, l)
  {
    match l
    case Acquire(lock, grow) => SleepFails(k, LockAddr(lock), Acquiring(lock), grow);
    case Release(lock, grow) => ReleaseKeeps(k, lock, grow);
    case Down(sem, grow) => SleepFails(k, SemAddr(sem), Downing(sem), grow);
    case Up(sem, grow) => if k.sems[sem] < INT_MAX { UpKeeps(k, sem, grow); }
    case Wakeup(addr, grow) => WakeupKeeps(k, addr, grow);
    case Sleep(id, grow) => SleepFails(k, OtherAddr(id), Plain, grow);
    case Yield(grow) => YieldKeeps(k, grow);
    case Fork(_, _, _, _) =>
    case Exit(_) =>
    case Dispatch => DispatchKeeps(k);
    case SetSpace(_, _) =>
    case CreateLock(_) =>
    case DestroyLock(_) =>
    case CreateSem(_, _) =>
    case DestroySem(sem) =>
      PickMembers(k.threads, k.sleepers, SemAddr(sem), true);
      var woken := Pick(k.threads, k.sleepers, SemAddr(sem), true);
      assert woken != [] ==> woken[0] in woken;
  }

  // ---------------------------------------------------------------------
  // Runs

  /** The state after the steps `ls`; None if one was not enabled or failed an assertion. */
  function Exec(k: State, ls: seq<Label>): Option<State> {
    if ls == [] then Some(k)
    else
      var last := |ls| - 1;
      match Exec(k, ls[..last])
      case None => None
      case Some(k1) => if Enabled(k1, ls[last]) then Apply(k1, ls[last]) else None
  }

  lemma BootInv(me: Tid)
    ensures Inv(Boot(me))
  {
  }

  lemma {:induction false} RunKeeps(k: State, ls: seq<Label>)
    requires Inv(k) && Exec(k, ls).Some?
    ensures Inv(Exec(k, ls).value)
  {
    if ls != [] {
      var last := |ls| - 1;
      RunKeeps(k, ls[..last]);
      StepKeeps(Exec(k, ls[..last]).value, ls[last]);
    }
  }

  /** The invariant holds in every state reachable from boot. */
  lemma Reachable(me: Tid, ls: seq<Label>)
    requires Exec(Boot(me), ls).Some?
    ensures Inv(Exec(Boot(me), ls).value)
  {
    BootInv(me);
    RunKeeps(Boot(me), ls);
  }

  /** In every interleaving at most one thread is between its acquire and its release of
      a lock, and meanwhile the lock is held. */
  lemma MutualExclusion(me: Tid, ls: seq<Label>, k: State, t1: Tid, t2: Tid, lock: nat)
    requires Exec(Boot(me), ls) == Some(k)
    requires t1 in k.threads && t2 in k.threads && lock in k.threads[t1].owns && lock in k.threads[t2].owns
    ensures t1 == t2 && lock in k.locks && k.locks[lock] == Lock(true, Some(t1))
  {
    Reachable(me, ls);
    assert HoldsAll(k, t1) && HoldsAll(k, t2);
  }

  /** Whoever sleeps on a lock or a semaphore must still wait for it. */
  lemma NoLostWakeup(me: Tid, ls: seq<Label>, k: State, t: Tid)
    requires Exec(Boot(me), ls) == Some(k) && t in k.sleepers
    ensures t in k.threads
    ensures forall l :: SleepsOn(k.threads, t, LockAddr(l)) ==> l in k.locks && k.locks[l].held
    ensures forall s :: SleepsOn(k.threads, t, SemAddr(s)) ==> s in k.sems && k.sems[s] == 0
  {
    Reachable(me, ls);
    assert SleepersWait(k);
  }

  /** Every thread is in exactly one of the four places and occurs there once; the
      thread counter counts all but the zombies, and zombies hold no resources. */
  lemma ThreadsPartitioned(me: Tid, ls: seq<Label>, k: State)
    requires Exec(Boot(me), ls) == Some(k)
    ensures Placed(k) && Counted(k) && ZombiesClean(k)
    ensures k.numThreads <= k.runqCap && (k.forked ==> k.numThreads <= k.sleepersCap)
  {
    Reachable(me, ls);
  }

  // ---------------------------------------------------------------------
  // Round robin

  /** Completed scheduler picks in a run. */
  function Picks(ls: seq<Label>): nat {
    if ls == [] then 0
    else Picks(ls[..|ls| - 1]) + if ls[|ls| - 1].Dispatch? then 1 else 0
  }

  /** A step other than a pick leaves the queue's prefix alone; a pick removes its head. */
  lemma QueueStep(k: State, l: Label)
    requires Enabled(k, l) && Apply(k, l).Some?
    ensures var k' := Apply(k, l).value;
            if l.Dispatch? then k'.runq == k.runq[1..] && k'.cur == Some(k.runq[0]) else k.runq <= k'.runq
  {
    match l
    case Acquire(_, _) =>
    case Release(_, _) =>
    case Down(_, _) =>
    case Up(_, _) =>
    case Wakeup(_, _) =>
    case _ =>
  }

  /** After `n` picks the thread `t` that was at position `i` of the run queue has moved up
      n places; if pick number i+1 was the last step, it is current. */
  predicate MovedUp(k: State, t: Tid, i: nat, n: nat, picked: bool) {
    && (n <= i ==> i - n < |k.runq| && k.runq[i - n] == t)
    && (picked && n == i + 1 ==> k.cur == Some(t))
  }

  lemma MoveUp(k: State, k': State, t: Tid, i: nat, n: nat, picked: bool, picks: bool)
    requires MovedUp(k, t, i, n, picked)
    requires if picks then k.runq != [] && k'.runq == k.runq[1..] && k'.cur == Some(k.runq[0]) else k.runq <= k'.runq
    ensures MovedUp(k', t, i, if picks then n + 1 else n, picks)
  {
  }

  /** What the last step of a run does to the queue. */
  lemma LastQueueStep(k: State, ls: seq<Label>)
    requires Exec(k, ls).Some? && ls != []
    ensures var last := |ls| - 1;
            && Exec(k, ls[..last]).Some?
            && var before, after := Exec(k, ls[..last]).value, Exec(k, ls).value;
               if ls[last].Dispatch?
               then before.runq != [] && after.runq == before.runq[1..] && after.cur == Some(before.runq[0])
               else before.runq <= after.runq
  {
    var last := |ls| - 1;
    QueueStep(Exec(k, ls[..last]).value, ls[last]);
  }

  /** A thread at position `i` of the run queue moves up one place per pick, and becomes
      current with pick number i+1, whatever else happens. */
  lemma {:induction false} RoundRobin(k: State, ls: seq<Label>, i: nat)
    requires Exec(k, ls).Some? && i < |k.runq|
    ensures MovedUp(Exec(k, ls).value, k.runq[i], i, Picks(ls), ls != [] && ls[|ls| - 1].Dispatch?)
  {
    if ls != [] {
      LastQueueStep(k, ls);
      RoundRobin(k, ls[..|ls| - 1], i);
      MoveOn(Exec(k, ls[..|ls| - 1]).value, Exec(k, ls).value, k.runq[i], i, ls);
    }
  }

  lemma MoveOn(b: State, a: State, t: Tid, i: nat, ls: seq<Label>)
    requires ls != []
    requires var before := ls[..|ls| - 1];
             MovedUp(b, t, i, Picks(before), before != [] && before[|before| - 1].Dispatch?)
    requires if ls[|ls| - 1].Dispatch? then b.runq != [] && a.runq == b.runq[1..] && a.cur == Some(b.runq[0])
             else b.runq <= a.runq
    ensures MovedUp(a, t, i, Picks(ls), ls[|ls| - 1].Dispatch?)
  {
    var before := ls[..|ls| - 1];
    MoveUp(b, a, t, i, Picks(before), before != [] && before[|before| - 1].Dispatch?, ls[|ls| - 1].Dispatch?);
  }

  // ---------------------------------------------------------------------
  // Semaphore accounting

  function Ups(ls: seq<Label>, sem: nat): nat {
    if ls == [] then 0
    else Ups(ls[..|ls| - 1], sem) + if ls[|ls| - 1].Up? && ls[|ls| - 1].sem == sem then 1 else 0
  }

  /** P calls on `sem` that completed during the run: attempts that found a positive count. */
  function Downs(k: State, ls: seq<Label>, sem: nat): nat {
    if ls == [] then 0
    else
      var last := |ls| - 1;
      var before := Exec(k, ls[..last]);
      Downs(k, ls[..last], sem) +
      if ls[last].Down? && ls[last].sem == sem && before.Some? && sem in before.value.sems && before.value.sems[sem] > 0
      then 1 else 0
  }

  predicate KeepsSem(ls: seq<Label>, sem: nat) {
    forall i :: 0 <= i < |ls| ==> ls[i] != DestroySem(sem)
  }

  lemma SemStep(k: State, l: Label, sem: nat)
    requires Enabled(k, l) && Apply(k, l).Some? && sem in k.sems && l != DestroySem(sem)
    ensures var k' := Apply(k, l).value;
            && sem in k'.sems
            && k'.sems[sem] == k.sems[sem] + (if l.Up? && l.sem == sem then 1 else 0)
                               - (if l.Down? && l.sem == sem && k.sems[sem] > 0 then 1 else 0)
  {
    match l
    case Acquire(_, _) =>
    case Release(_, _) =>
    case Down(_, _) =>
    case Up(_, _) =>
    case _ =>
  }

  /** A semaphore's count is its earlier value plus the Vs minus the completed Ps. */
  lemma {:induction false} SemAccount(k: State, ls: seq<Label>, sem: nat)
    requires Exec(k, ls).Some? && sem in k.sems && KeepsSem(ls, sem)
    ensures var k' := Exec(k, ls).value;
            sem in k'.sems && k'.sems[sem] == k.sems[sem] + Ups(ls, sem) - Downs(k, ls, sem)
  {
    if ls != [] {
      var last := |ls| - 1;
      SemAccount(k, ls[..last], sem);
      SemStep(Exec(k, ls[..last]).value, ls[last], sem);
    }
  }

  /** Running one sequence of steps after another. */
  lemma {:induction false} ExecSplit(k: State, ls1: seq<Label>, ls2: seq<Label>)
    ensures Exec(k, ls1 + ls2) == if Exec(k, ls1).Some? then Exec(Exec(k, ls1).value, ls2) else None
  {
    if ls2 == [] {
      assert ls1 + ls2 == ls1;
    } else {
      var last := |ls2| - 1;
      ExecSplit(k, ls1, ls2[..last]);
      assert (ls1 + ls2)[..|ls1 + ls2| - 1] == ls1 + ls2[..last];
    }
  }

  /** From its creation on, in every run from boot, a semaphore's count is its initial count
      plus the Vs minus the completed Ps since then, and it is never negative. */
  lemma SemFromCreation(me: Tid, ls0: seq<Label>, sem: nat, count: nat, ls: seq<Label>)
    requires Exec(Boot(me), ls0 + [CreateSem(sem, count)] + ls).Some? && KeepsSem(ls, sem)
    ensures Exec(Boot(me), ls0 + [CreateSem(sem, count)]).Some?
    ensures var k1, k := Exec(Boot(me), ls0 + [CreateSem(sem, count)]).value,
                         Exec(Boot(me), ls0 + [CreateSem(sem, count)] + ls).value;
            && sem in k.sems && k.sems[sem] == count + Ups(ls, sem) - Downs(k1, ls, sem)
            && 0 <= count + Ups(ls, sem) - Downs(k1, ls, sem) <= INT_MAX
  {
    var created := ls0 + [CreateSem(sem, count)];
    ExecSplit(Boot(me), created, ls);
    ExecSplit(Boot(me), ls0, [CreateSem(sem, count)]);
    assert created[..|ls0|] == ls0;
    SemAccount(Exec(Boot(me), created).value, ls, sem);
    Reachable(me, created + ls);
  }

  // ---------------------------------------------------------------------
  // Who can release a lock

  /** The recorded holder is a thread that has not exited, and that acquired the lock and has
      yet to release it. */
  predicate LiveHolder(k: State, lock: nat)
    requires lock in k.locks
  {
    var h := k.locks[lock].holder;
    h.Some? && h.value in k.threads && h.value !in k.zombies && lock in k.threads[h.value].owns
  }

  predicate Held(k: State, lock: nat) {
    lock in k.locks && k.locks[lock].held
  }

  /** No thread has exited owning this lock since it was last acquired. */
  predicate LockClean(k: State, ls: seq<Label>, lock: nat) {
    if ls == [] then true
    else
      var last := |ls| - 1;
      var before := Exec(k, ls[..last]);
      if before.Some? && Takes(before.value, ls[last], lock) then true
      else if before.Some? && DiesOwning(before.value, ls[last], lock) then false
      else LockClean(k, ls[..last], lock)
  }

  /** The step is an acquire that gets the lock. */
  predicate Takes(k: State, l: Label, lock: nat) {
    l.Acquire? && l.lock == lock && !Held(k, lock)
  }

  /** The step is the exit of a thread that owns the lock. */
  predicate DiesOwning(k: State, l: Label, lock: nat) {
    l.Exit? && k.cur.Some? && k.cur.value in k.threads && lock in k.threads[k.cur.value].owns
  }

  /** The steps that touch neither the locks nor the set of threads. */
  predicate Quiet(l: Label) {
    l.Down? || l.Up? || l.Wakeup? || l.Sleep? || l.Yield? || l.SetSpace? || l.CreateSem? || l.DestroySem?
  }

  lemma QuietStep(k: State, l: Label)
    requires Quiet(l) && Enabled(k, l) && Apply(k, l).Some?
    ensures var k' := Apply(k, l).value;
            && k'.locks == k.locks && k'.zombies == k.zombies && k'.threads.Keys == k.threads.Keys
            && forall t :: t in k.threads ==> k'.threads[t].owns == k.threads[t].owns
  {
    var k' := Apply(k, l).value;
    if l.Down? || l.Sleep? || l.SetSpace? {
      assert k'.threads.Keys == k.threads.Keys;
    }
  }

  /** Steps that keep the lock and what threads own of it keep its holder alive or not. */
  lemma LiveFrame(k: State, k': State, lock: nat)
    requires lock in k.locks && lock in k'.locks && k'.locks[lock] == k.locks[lock]
    requires forall t :: t in k.threads && t !in k.zombies ==> t in k'.threads && t !in k'.zombies
    requires forall t :: t in k.threads && t in k'.threads ==> (lock in k'.threads[t].owns <==> lock in k.threads[t].owns)
    requires forall t :: t in k.zombies && t in k'.threads ==> t in k'.zombies
    requires forall t :: t in k'.threads && t !in k.threads ==> lock !in k'.threads[t].owns
    ensures LiveHolder(k', lock) <==> LiveHolder(k, lock)
  {
  }

  lemma LiveSync(k: State, l: Label, lock: nat)
    requires Apart(k) && OwnersHold(k) && Enabled(k, l) && Apply(k, l).Some? && (l.Acquire? || l.Release?)
    requires Held(Apply(k, l).value, lock)
    ensures if Takes(k, l, lock) then LiveHolder(Apply(k, l).value, lock)
            else Held(k, lock) && (LiveHolder(Apply(k, l).value, lock) <==> LiveHolder(k, lock))
  {
    var k' := Apply(k, l).value;
    if !Takes(k, l, lock) {
      LiveFrame(k, k', lock);
    }
  }

  lemma LiveFork(k: State, l: Label, lock: nat)
    requires Apart(k) && Enabled(k, l) && l.Fork? && Held(k, lock)
    ensures var k' := Apply(k, l).value; Held(k', lock) && (LiveHolder(k', lock) <==> LiveHolder(k, lock))
  {
    ForkShape(k, l.child, l.growSleepers, l.growZombies, l.growRunq);
  }

  lemma LiveExit(k: State, l: Label, lock: nat)
    requires Apart(k) && OwnersHold(k) && Enabled(k, l) && l.Exit? && Apply(k, l).Some? && Held(k, lock)
    ensures var k' := Apply(k, l).value;
            Held(k', lock) && (LiveHolder(k', lock) <==> LiveHolder(k, lock) && !DiesOwning(k, l, lock))
  {
    assert HoldsAll(k, k.cur.value);
  }

  lemma LiveSwitch(k: State, lock: nat)
    requires Apart(k) && Enabled(k, Dispatch) && Picked(k).Some? && Held(k, lock)
    ensures var k' := Picked(k).value; Held(k', lock) && (LiveHolder(k', lock) <==> LiveHolder(k, lock))
  {
    LiveFrame(k, Picked(k).value, lock);
  }

  /** What a step does to the holder of a lock that is held after it. */
  lemma LiveStep(k: State, l: Label, lock: nat)
    requires Apart(k) && OwnersHold(k) && Enabled(k, l) && Apply(k, l).Some? && Held(Apply(k, l).value, lock)
    ensures if Takes(k, l, lock) then LiveHolder(Apply(k, l).value, lock)
            else Held(k, lock) && (LiveHolder(Apply(k, l).value, lock) <==> LiveHolder(k, lock) && !DiesOwning(k, l, lock))
  {
    match l
    case Acquire(_, _) => LiveSync(k, l, lock);
    case Release(_, _) => LiveSync(k, l, lock);
    case Fork(_, _, _, _) => LiveFork(k, l, lock);
    case Exit(_) => LiveExit(k, l, lock);
    case Dispatch => LiveSwitch(k, lock);
    case CreateLock(_) =>
    case DestroyLock(_) =>
    case _ => QuietStep(k, l);
  }

  /** A held lock has a live holder exactly when no thread exited owning it since it was
      last acquired. */
  lemma {:induction false} LiveIffClean(me: Tid, ls: seq<Label>, lock: nat)
    requires Exec(Boot(me), ls).Some? && Held(Exec(Boot(me), ls).value, lock)
    ensures LiveHolder(Exec(Boot(me), ls).value, lock) <==> LockClean(Boot(me), ls, lock)
  {
    if ls != [] {
      var last := |ls| - 1;
      var k := Exec(Boot(me), ls[..last]).value;
      Reachable(me, ls[..last]);
      LiveStep(k, ls[last], lock);
      if !Takes(k, ls[last], lock) {
        LiveIffClean(me, ls[..last], lock);
      }
    }
  }

  /** Who can release: a release takes effect exactly for the recorded holder, and that is
      the thread that acquired the lock and has not released it exactly when no thread exited
      owning the lock since it was last acquired. */
  lemma ReleaseIffOwner(me: Tid, ls: seq<Label>, k: State, lock: nat, grow: nat)
    requires Exec(Boot(me), ls) == Some(k) && Enabled(k, Release(lock, grow))
    ensures var mine := lock in k.threads[k.cur.value].owns;
            && (mine <==> DoIHold(k, lock) && LockClean(Boot(me), ls, lock))
            && (DoIHold(k, lock) <==> Apply(k, Release(lock, grow)) != Some(k))
  {
    Reachable(me, ls);
    assert HoldsAll(k, k.cur.value);
    if DoIHold(k, lock) {
      LiveIffClean(me, ls, lock);
      ReleaseChanges(k, lock, grow);
    }
  }

  lemma ReleaseChanges(k: State, lock: nat, grow: nat)
    requires lock in k.locks && k.cur.Some? && k.cur.value in k.threads && DoIHold(k, lock)
    ensures ApplyRelease(k, lock, grow) != Some(k)
  {
    var k' := ApplyRelease(k, lock, grow);
    assert k'.Some? ==> !k'.value.locks[lock].held;
  }

  lemma ExecStep(k0: State, ls: seq<Label>, k: State, l: Label)
    requires Exec(k0, ls) == Some(k) && Enabled(k, l) && Apply(k, l).Some?
    ensures Exec(k0, ls + [l]) == Apply(k, l)
  {
    assert (ls + [l])[..|ls|] == ls;
  }

  /** Whoever sleeps on a lock waits for a thread that has not exited and has yet to release
      it, exactly when no thread exited owning it since it was last acquired. */
  lemma SleeperHasLiveHolder(me: Tid, ls: seq<Label>, k: State, t: Tid, lock: nat)
    requires Exec(Boot(me), ls) == Some(k) && t in k.sleepers && SleepsOn(k.threads, t, LockAddr(lock))
    ensures lock in k.locks && (LiveHolder(k, lock) <==> LockClean(Boot(me), ls, lock))
  {
    Reachable(me, ls);
    assert MustWait(k, k.threads[t]);
    LiveIffClean(me, ls, lock);
  }

  /** It does happen that a thread exits owning a lock: thread 1 exits owning lock 7 and is destroyed, its
      id is allocated again, and the new thread 1, which never acquired the lock, can
      release it. */
  lemma StaleHolder()
    ensures exists ls, k :: Exec(Boot(0), ls) == Some(k) && Enabled(k, Release(7, 0))
                         && 7 !in k.threads[k.cur.value].owns && DoIHold(k, 7)
  {
    var ls, k := DiedOwning();
    ls, k := Next(ls, k, Fork(1, 9, 9, 9));
    assert k.runq == [1];
    ls, k := Next(ls, k, Yield(0));
    ls, k := Next(ls, k, Dispatch);
    assert Enabled(k, Release(7, 0)) && DoIHold(k, 7);
  }

  /** Thread 0 creates lock 7 and forks thread 1. */
  lemma ChildForked() returns (ls: seq<Label>, k: State)
    ensures Exec(Boot(0), ls) == Some(k)
    ensures k == State(map[0 := Thread(None, false, false, Plain, {}), 1 := Thread(None, false, false, Fresh, {})],
                       Some(0), [1], 32, [], 9, [], 9, 2, true, map[7 := Lock(false, None)], map[])
  {
    ls, k := Next([], Boot(0), CreateLock(7));
    assert k.locks == map[7 := Lock(false, None)];
    ls, k := Next(ls, k, Fork(1, 9, 9, 9));
    assert k.runq == [1];
  }

  /** Thread 0 yields to thread 1. */
  lemma ChildRuns() returns (ls: seq<Label>, k: State)
    ensures Exec(Boot(0), ls) == Some(k)
    ensures k.cur == Some(1) && k.runq == [0] && k.zombies == [] && k.threads.Keys == {0, 1}
    ensures k.threads[0] == k.threads[1] == Thread(None, false, false, Plain, {})
    ensures k.locks == map[7 := Lock(false, None)]
    ensures k.numThreads == 2 && k.runqCap == 32 && k.sleepersCap == 9 && k.zombiesCap == 9
  {
    ls, k := ChildForked();
    ls, k := Next(ls, k, Yield(0));
    assert k.runq == [1, 0];
    ls, k := Next(ls, k, Dispatch);
  }

  /** Thread 1 acquires the lock and exits. */
  lemma ChildExits() returns (ls: seq<Label>, k: State)
    ensures Exec(Boot(0), ls) == Some(k)
    ensures k.cur == None && k.runq == [0] && k.zombies == [1] && k.threads.Keys == {0, 1}
    ensures k.threads[0] == Thread(None, false, false, Plain, {})
    ensures !k.threads[1].hasVm && !k.threads[1].hasCwd
    ensures 7 in k.locks && k.locks[7] == Lock(true, Some(1))
    ensures k.numThreads == 1 && k.runqCap == 32 && k.sleepersCap == 9 && k.zombiesCap == 9
  {
    ls, k := ChildRuns();
    ls, k := Next(ls, k, Acquire(7, 0));
    ls, k := Next(ls, k, Exit(0));
  }

  /** Thread 0 disposes of it. */
  lemma DiedOwning() returns (ls: seq<Label>, k: State)
    ensures Exec(Boot(0), ls) == Some(k)
    ensures k.cur == Some(0) && k.runq == [] && k.threads.Keys == {0} && k.threads[0].resume == Plain
    ensures 7 in k.locks && k.locks[7] == Lock(true, Some(1))
    ensures k.numThreads == 1 && k.runqCap == 32 && k.sleepersCap == 9 && k.zombiesCap == 9
  {
    ls, k := ChildExits();
    ls, k := Next(ls, k, Dispatch);
  }

  lemma Next(ls0: seq<Label>, k0: State, l: Label) returns (ls: seq<Label>, k: State)
    requires Exec(Boot(0), ls0) == Some(k0) && Enabled(k0, l) && Apply(k0, l).Some?
    ensures Exec(Boot(0), ls) == Some(k) && ls == ls0 + [l] && k == Apply(k0, l).value
  {
    ExecStep(Boot(0), ls0, k0, l);
    ls, k := ls0 + [l], Apply(k0, l).value;
  }

  /** The preallocation in thread_fork does not cover `zombies`: fresh threads do not
      dispose of zombies, so a chain of threads that each fork a successor and exit fills
      the array, and the next exit depends on memory being available. */
  lemma ZombiesCanOverflow()
    ensures exists ls, k :: Exec(Boot(0), ls) == Some(k) && k.forked && Enabled(k, Exit(0)) && Apply(k, Exit(0)).None?
  {
    var ls, k := ParentSleeps();
    ls, k := ForkAndExit(ls, k, 2);
    ls, k := ForkAndExit(ls, k, 3);
    ls, k := ForkAndExit(ls, k, 4);
    assert Apply(k, Exit(0)).None?;
  }

  /** Thread 0 forks thread 1 and goes to sleep. */
  lemma ParentSleeps() returns (ls: seq<Label>, k: State)
    ensures Exec(Boot(0), ls) == Some(k) && Running(k, Plain)
    ensures k.cur == Some(1) && k.runq == [] && k.zombies == [] && k.threads.Keys == {0, 1}
    ensures k.numThreads == 2 && k.runqCap == 32 && k.sleepersCap == 2 && k.zombiesCap == 2
  {
    ls, k := Next([], Boot(0), Fork(1, 2, 2, 0));
    assert k.runq == [1];
    ls, k := Next(ls, k, Sleep(0, 0));
    ls, k := Next(ls, k, Dispatch);
  }

  /** The current thread forks `child`, which has all memory it asks for, and exits. */
  lemma ForkAndExit(ls0: seq<Label>, k0: State, child: Tid) returns (ls: seq<Label>, k: State)
    requires Exec(Boot(0), ls0) == Some(k0) && Running(k0, Plain) && child !in k0.threads
    requires k0.runq == [] && k0.numThreads == 2 && k0.runqCap == 32 && k0.sleepersCap <= 3 && k0.zombiesCap <= 3
    requires |k0.zombies| < 3
    ensures Exec(Boot(0), ls) == Some(k) && Running(k, Plain)
    ensures k.cur == Some(child) && k.runq == [] && k.numThreads == 2 && k.runqCap == 32
    ensures k.sleepersCap == 3 && k.zombiesCap == 3 && |k.zombies| == |k0.zombies| + 1 && k.forked
    ensures k.threads.Keys == k0.threads.Keys + {child}
  {
    ls, k := Next(ls0, k0, Fork(child, 3, 3, 0));
    assert k.runq == [child];
    ls, k := Next(ls, k, Exit(0));
    ls, k := Next(ls, k, Dispatch);
  }
}
