/** What the kernel's routines guarantee to their callers: for each step the whole new state
    but for the capacities of the queues, without reference to how the step computes it. */
module KernelEffects {
  import opened Wrappers
  import opened Kernel
  import opened KernelInvariant
  import opened KernelRuns

  /** Nobody changes places. */
  ghost predicate SamePlaces(k: State, k': State) {
    && k'.cur == k.cur && k'.runq == k.runq && k'.sleepers == k.sleepers && k'.zombies == k.zombies
    && k'.numThreads == k.numThreads && k'.forked == k.forked
  }

  /** The same threads exist, and all but the current one are as they were. */
  ghost predicate OthersKept(k: State, k': State) {
    && k'.threads.Keys == k.threads.Keys
    && forall t :: t in k.threads && k.cur != Some(t) ==> k'.threads[t] == k.threads[t]
  }

  ghost predicate LocksKeptBut(k: State, k': State, lock: nat) {
    forall l :: l != lock ==> (l in k'.locks <==> l in k.locks) && (l in k.locks ==> k'.locks[l] == k.locks[l])
  }

  ghost predicate SemsKeptBut(k: State, k': State, sem: nat) {
    forall s :: s != sem ==> (s in k'.sems <==> s in k.sems) && (s in k.sems ==> k'.sems[s] == k.sems[s])
  }

  /** What a thread owns differs in at most this lock. */
  ghost predicate OwnsKeptBut(th: Thread, th': Thread, lock: nat) {
    forall l :: l != lock ==> (l in th'.owns <==> l in th.owns)
  }

  /** Nobody sleeps on `addr`. */
  ghost predicate NobodyOn(k: State, addr: Addr) {
    forall t :: t in k.sleepers ==> !SleepsOn(k.threads, t, addr)
  }

  /** The thread that was current sleeps on `addr`, behind all other sleepers, and will go on
      at `resume`; nothing else has changed. */
  ghost predicate FellAsleep(k: State, k': State, addr: Addr, resume: Resume)
    requires k.cur.Some? && k.cur.value in k.threads
  {
    var th := k.threads[k.cur.value];
    && k'.cur == None && k'.sleepers == k.sleepers + [k.cur.value] && k'.runq == k.runq && k'.zombies == k.zombies
    && k'.numThreads == k.numThreads && k'.forked == k.forked && k'.locks == k.locks && k'.sems == k.sems
    && OthersKept(k, k') && k'.threads[k.cur.value] == Thread(Some(addr), th.hasVm, th.hasCwd, resume, th.owns)
  }

  /** The call is over: the caller runs outside every primitive, and everybody is where they
      were.  Of the thread itself at most what it owns has changed. */
  ghost predicate Returned(k: State, k': State)
    requires k.cur.Some? && k.cur.value in k.threads
  {
    var th := k.threads[k.cur.value];
    && SamePlaces(k, k') && OthersKept(k, k')
    && k'.threads[k.cur.value] == Thread(th.sleepAddr, th.hasVm, th.hasCwd, Plain, k'.threads[k.cur.value].owns)
  }

  /** The lock is held, and the current thread is the only one that owns it. */
  ghost predicate OwnsAlone(k: State, lock: nat) {
    && k.cur.Some? && lock in k.locks && k.locks[lock] == Lock(true, k.cur)
    && forall t :: t in k.threads ==> (lock in k.threads[t].owns <==> k.cur == Some(t))
  }

  /** The lock is free: nobody holds it, owns it or sleeps on it. */
  ghost predicate FreeForAll(k: State, lock: nat) {
    && lock in k.locks && !k.locks[lock].held && NobodyOn(k, LockAddr(lock))
    && forall t :: t in k.threads ==> lock !in k.threads[t].owns
  }

  /** `s` keeps the order of `ts`. */
  ghost predicate InOrder(s: seq<Tid>, ts: seq<Tid>) {
    forall i, j :: 0 <= i < j < |s| ==> Precedes(ts, s[i], s[j])
  }

  ghost predicate Precedes(ts: seq<Tid>, t: Tid, u: Tid) {
    exists p, q :: 0 <= p < q < |ts| && ts[p] == t && ts[q] == u
  }

  /** Exactly those who slept on `addr` have gone, in order, to the end of the run queue; the
      others sleep on, in order. */
  ghost predicate Woke(k: State, k': State, addr: Addr) {
    && k'.cur == k.cur && k'.zombies == k.zombies && k'.numThreads == k.numThreads && k'.forked == k.forked
    && k.runq <= k'.runq && InOrder(k'.runq[|k.runq|..], k.sleepers) && InOrder(k'.sleepers, k.sleepers)
    && (forall t :: t in k'.runq[|k.runq|..] <==> t in k.sleepers && SleepsOn(k.threads, t, addr))
    && (forall t :: t in k'.sleepers <==> t in k.sleepers && !SleepsOn(k.threads, t, addr))
  }

  /** There is room for `n`, or it can be made. */
  ghost predicate Room(cap: nat, n: int, grow: nat) {
    n <= cap || n <= grow
  }

  /** A fork succeeds exactly if there is room for one more thread in all three places.  The
      child is last in the run queue, starts from the beginning, has no address space, and has
      a current directory if its parent has one; from then on all threads have room to sleep.
      A failed fork changes nothing but capacities, and those only upwards. */
  ghost predicate ForkEffect(k: State, k': State, child: Tid, growS: nat, growZ: nat, growR: nat)
    requires k.cur.Some? && k.cur.value in k.threads
  {
    var n := k.numThreads + 1;
    && k'.cur == k.cur && k'.sleepers == k.sleepers && k'.zombies == k.zombies && k'.locks == k.locks && k'.sems == k.sems
    && k'.sleepersCap >= k.sleepersCap && k'.zombiesCap >= k.zombiesCap && k'.runqCap >= k.runqCap
    && if Room(k.sleepersCap, n, growS) && Room(k.zombiesCap, n, growZ) && Room(k.runqCap, n, growR)
       then && k'.threads == k.threads[child := Thread(None, false, k.threads[k.cur.value].hasCwd, Fresh, {})]
            && k'.runq == k.runq + [child] && k'.numThreads == n && k'.forked
            && n <= k'.sleepersCap && n <= k'.zombiesCap && n <= k'.runqCap
       else k'.threads == k.threads && k'.runq == k.runq && k'.numThreads == k.numThreads && k'.forked == k.forked
  }

  /** The head of the run queue is current.  If it is fresh it starts running and that is all;
      otherwise it goes on where it stopped, no longer on any address, and all zombies are
      gone. */
  ghost predicate DispatchEffect(k: State, k': State)
    requires k.runq != [] && k.runq[0] in k.threads
  {
    var t := k.runq[0];
    var th := k.threads[t];
    && k'.cur == Some(t) && k'.runq == k.runq[1..] && k'.sleepers == k.sleepers
    && k'.numThreads == k.numThreads && k'.forked == k.forked && k'.locks == k.locks && k'.sems == k.sems
    && t in k'.threads && (forall u :: u in k'.threads && u != t ==> u in k.threads && k'.threads[u] == k.threads[u])
    && if th.resume == Fresh
       then k'.zombies == k.zombies && k'.threads.Keys == k.threads.Keys && k'.threads[t] == th.(resume := Plain)
       else k'.zombies == [] && k'.threads[t] == th.(sleepAddr := None)
            && forall u :: u in k.threads ==> (u in k'.threads <==> u !in k.zombies)
  }

  /** The effect of a step that fails no assertion. */
  ghost predicate Effect(k: State, l: Label, k': State)
    requires Enabled(k, l)
  {
    match l
    case Acquire(lock, _) =>
      if k.locks[lock].held then FellAsleep(k, k', LockAddr(lock), Acquiring(lock))
      else && Returned(k, k') && OwnsAlone(k', lock) && LocksKeptBut(k, k', lock) && k'.sems == k.sems
           && OwnsKeptBut(k.threads[k.cur.value], k'.threads[k.cur.value], lock)
    case Release(lock, _) =>
      if DoIHold(k, lock)
      then && Woke(k, k', LockAddr(lock)) && OthersKept(k, k') && FreeForAll(k', lock)
           && LocksKeptBut(k, k', lock) && k'.sems == k.sems
           && OwnsKeptBut(k.threads[k.cur.value], k'.threads[k.cur.value], lock)
           && k'.threads[k.cur.value] == k.threads[k.cur.value].(owns := k'.threads[k.cur.value].owns)
      else k' == k
    case Down(sem, _) =>
      if k.sems[sem] == 0 then FellAsleep(k, k', SemAddr(sem), Downing(sem))
      else && Returned(k, k') && k'.threads[k.cur.value].owns == k.threads[k.cur.value].owns
           && sem in k'.sems && k'.sems[sem] == k.sems[sem] - 1 && SemsKeptBut(k, k', sem) && k'.locks == k.locks
    case Up(sem, _) =>
      && Woke(k, k', SemAddr(sem)) && k'.threads == k.threads && k'.locks == k.locks
      && sem in k'.sems && k'.sems[sem] == k.sems[sem] + 1 && SemsKeptBut(k, k', sem)
    case Wakeup(addr, _) => Woke(k, k', addr) && k'.threads == k.threads && k'.locks == k.locks && k'.sems == k.sems
    case Sleep(id, _) => FellAsleep(k, k', OtherAddr(id), Plain)
    case Yield(_) =>
      && k'.cur == None && k'.runq == k.runq + [k.cur.value] && k'.sleepers == k.sleepers && k'.zombies == k.zombies
      && k'.numThreads == k.numThreads && k'.forked == k.forked
      && k'.threads == k.threads && k'.locks == k.locks && k'.sems == k.sems
    case Fork(child, growS, growZ, growR) => ForkEffect(k, k', child, growS, growZ, growR)
    case Exit(_) =>
      var th := k.threads[k.cur.value];
      && k'.cur == None && k'.zombies == k.zombies + [k.cur.value] && k'.runq == k.runq && k'.sleepers == k.sleepers
      && k'.numThreads == k.numThreads - 1 && k'.forked == k.forked && k'.locks == k.locks && k'.sems == k.sems
      && OthersKept(k, k') && k'.threads[k.cur.value] == Thread(th.sleepAddr, false, false, th.resume, th.owns)
    case Dispatch => DispatchEffect(k, k')
    case SetSpace(hasVm, hasCwd) =>
      var th := k.threads[k.cur.value];
      && SamePlaces(k, k') && OthersKept(k, k') && k'.locks == k.locks && k'.sems == k.sems
      && k'.threads[k.cur.value] == Thread(th.sleepAddr, hasVm, hasCwd, th.resume, th.owns)
    case CreateLock(lock) =>
      && SamePlaces(k, k') && k'.threads == k.threads && k'.sems == k.sems
      && lock in k'.locks && !k'.locks[lock].held && LocksKeptBut(k, k', lock)
    case DestroyLock(lock) =>
      && SamePlaces(k, k') && k'.threads == k.threads && k'.sems == k.sems
      && lock !in k'.locks && LocksKeptBut(k, k', lock)
    case CreateSem(sem, count) =>
      && SamePlaces(k, k') && k'.threads == k.threads && k'.locks == k.locks
      && sem in k'.sems && k'.sems[sem] == count && SemsKeptBut(k, k', sem)
    case DestroySem(sem) =>
      && SamePlaces(k, k') && k'.threads == k.threads && k'.locks == k.locks
      && sem !in k'.sems && SemsKeptBut(k, k', sem)
  }

  // ---------------------------------------------------------------------
  // Every step has its effect

  lemma PrecedesMore(t: Tid, ts: seq<Tid>, a: Tid, b: Tid)
    requires Precedes(ts, a, b)
    ensures Precedes([t] + ts, a, b)
  {
    var p, q :| 0 <= p < q < |ts| && ts[p] == a && ts[q] == b;
    assert ([t] + ts)[p + 1] == a && ([t] + ts)[q + 1] == b;
  }

  lemma PrecedesAll(t: Tid, ts: seq<Tid>, b: Tid)
    requires b in ts
    ensures Precedes([t] + ts, t, b)
  {
    var q :| 0 <= q < |ts| && ts[q] == b;
    assert ([t] + ts)[0] == t && ([t] + ts)[q + 1] == b;
  }

  lemma InOrderSkip(t: Tid, s: seq<Tid>, ts: seq<Tid>)
    requires InOrder(s, ts)
    ensures InOrder(s, [t] + ts)
  {
    forall i, j | 0 <= i < j < |s| ensures Precedes([t] + ts, s[i], s[j]) {
      PrecedesMore(t, ts, s[i], s[j]);
    }
  }

  lemma InOrderKeep(t: Tid, s: seq<Tid>, ts: seq<Tid>)
    requires InOrder(s, ts) && forall u :: u in s ==> u in ts
    ensures InOrder([t] + s, [t] + ts)
  {
    var s' := [t] + s;
    forall i, j | 0 <= i < j < |s'| ensures Precedes([t] + ts, s'[i], s'[j]) {
      if i > 0 {
        PrecedesMore(t, ts, s[i - 1], s[j - 1]);
      } else {
        PrecedesAll(t, ts, s[j - 1]);
      }
    }
  }

  lemma {:induction false} PickInOrder(threads: map<Tid, Thread>, ts: seq<Tid>, addr: Addr, want: bool)
    ensures InOrder(Pick(threads, ts, addr, want), ts)
  {
    if ts != [] {
      var rest := Pick(threads, ts[1..], addr, want);
      PickInOrder(threads, ts[1..], addr, want);
      PickMembers(threads, ts[1..], addr, want);
      assert ts == [ts[0]] + ts[1..];
      if SleepsOn(threads, ts[0], addr) == want {
        InOrderKeep(ts[0], rest, ts[1..]);
      } else {
        InOrderSkip(ts[0], rest, ts[1..]);
      }
    }
  }

  lemma WakeEffect(k: State, addr: Addr, grow: nat)
    requires WakeAll(k, addr, grow).Some?
    ensures Woke(k, WakeAll(k, addr, grow).value, addr)
  {
    var woken := Pick(k.threads, k.sleepers, addr, true);
    PickMembers(k.threads, k.sleepers, addr, true);
    PickMembers(k.threads, k.sleepers, addr, false);
    PickInOrder(k.threads, k.sleepers, addr, true);
    PickInOrder(k.threads, k.sleepers, addr, false);
    assert (k.runq + woken)[|k.runq|..] == woken;
  }

  lemma AcquireEffect(k: State, l: Label)
    requires Inv(k) && Enabled(k, l) && l.Acquire? && Apply(k, l).Some?
    ensures Effect(k, l, Apply(k, l).value)
  {
    var k', lock := Apply(k, l).value, l.lock;
    if !k.locks[lock].held {
      forall t | t in k'.threads ensures lock in k'.threads[t].owns <==> k'.cur == Some(t) {
        assert t in k.threads && HoldsAll(k, t);
      }
    }
  }

  lemma ReleaseEffect(k: State, l: Label)
    requires Inv(k) && Enabled(k, l) && l.Release? && Apply(k, l).Some?
    ensures Effect(k, l, Apply(k, l).value)
  {
    if DoIHold(k, l.lock) {
      var k1, addr := Freed(k, l.lock), LockAddr(l.lock);
      WakeEffect(k1, addr, l.grow);
      FreedKeepsSleepers(k, l.lock);
      ReleaseFrees(k, l);
    }
  }

  lemma FreedKeepsSleepers(k: State, lock: nat)
    requires lock in k.locks && k.cur.Some? && k.cur.value in k.threads
    ensures forall t, addr: Addr :: SleepsOn(Freed(k, lock).threads, t, addr) <==> SleepsOn(k.threads, t, addr)
  {
  }

  lemma ReleaseFrees(k: State, l: Label)
    requires Inv(k) && Enabled(k, l) && l.Release? && Apply(k, l).Some? && DoIHold(k, l.lock)
    ensures FreeForAll(Apply(k, l).value, l.lock)
  {
    var k', lock := Apply(k, l).value, l.lock;
    PickMembers(Freed(k, lock).threads, k.sleepers, LockAddr(lock), false);
    forall t | t in k'.threads ensures lock !in k'.threads[t].owns {
      assert t in k.threads && HoldsAll(k, t);
    }
  }

  lemma UpEffect(k: State, l: Label)
    requires Enabled(k, l) && l.Up? && Apply(k, l).Some?
    ensures Effect(k, l, Apply(k, l).value)
  {
    WakeEffect(k.(sems := k.sems[l.sem := k.sems[l.sem] + 1]), SemAddr(l.sem), l.grow);
  }

  lemma ForkHasEffect(k: State, l: Label)
    requires Counted(k) && Enabled(k, l) && l.Fork?
    ensures Effect(k, l, Apply(k, l).value)
  {
  }

  lemma DispatchHasEffect(k: State)
    requires Inv(k) && Enabled(k, Dispatch) && Picked(k).Some?
    ensures DispatchEffect(k, Picked(k).value)
  {
    assert k.runq[0] in k.runq;
  }

  lemma LeaveEffect(k: State, l: Label)
    requires Enabled(k, l) && (l.Down? || l.Sleep? || l.Yield? || l.Exit?) && Apply(k, l).Some?
    ensures Effect(k, l, Apply(k, l).value)
  {
  }

  lemma StayEffect(k: State, l: Label)
    requires Enabled(k, l) && Apply(k, l).Some?
    requires l.SetSpace? || l.CreateLock? || l.DestroyLock? || l.CreateSem? || l.DestroySem?
    ensures Effect(k, l, Apply(k, l).value)
  {
  }

  /** Every step has its effect. */
  lemma StepEffect(k: State, l: Label)
    requires Inv(k) && Enabled(k, l) && Apply(k, l).Some?
    ensures Effect(k, l, Apply(k, l).value)
  {
    match l
    case Acquire(_, _) => AcquireEffect(k, l);
    case Release(_, _) => ReleaseEffect(k, l);
    case Up(_, _) => UpEffect(k, l);
    case Wakeup(addr, grow) => WakeEffect(k, addr, grow);
    case Fork(_, _, _, _) => ForkHasEffect(k, l);
    case Dispatch => DispatchHasEffect(k);
    case Down(_, _) => LeaveEffect(k, l);
    case Sleep(_, _) => LeaveEffect(k, l);
    case Yield(_) => LeaveEffect(k, l);
    case Exit(_) => LeaveEffect(k, l);
    case _ => StayEffect(k, l);
  }

  // ---------------------------------------------------------------------
  // Calls in sequence

  /** An acquire that finds the lock free returns, also to a thread that had to wait: the
      caller can release the lock next, which never fails and leaves it free for all, with
      all threads where they were and owning what they owned before. */
  lemma AcquireThenRelease(k: State, lock: nat, grow: nat, grow': nat)
    requires Inv(k) && Enabled(k, Acquire(lock, grow)) && !k.locks[lock].held
    ensures Apply(k, Acquire(lock, grow)).Some?
    ensures var k1 := Apply(k, Acquire(lock, grow)).value;
            && Inv(k1) && Enabled(k1, Release(lock, grow')) && Apply(k1, Release(lock, grow')).Some?
            && var k2 := Apply(k1, Release(lock, grow')).value;
               && FreeForAll(k2, lock) && LocksKeptBut(k, k2, lock) && k2.sems == k.sems && SamePlaces(k, k2)
               && OthersKept(k, k2) && k2.threads[k.cur.value].resume == Plain
               && OwnsKeptBut(k.threads[k.cur.value], k2.threads[k.cur.value], lock)
  {
    var k1 := Apply(k, Acquire(lock, grow)).value;
    AcquireKeeps(k, lock, grow);
    AcquireEffect(k, Acquire(lock, grow));
    ReleaseKeeps(k1, lock, grow');
    ReleaseEffect(k1, Release(lock, grow'));
    NobodyWoken(k, k1, lock, grow');
  }

  /** Nobody sleeps on a lock that was free. */
  lemma NobodyWoken(k: State, k1: State, lock: nat, grow: nat)
    requires Inv(k) && lock in k.locks && !k.locks[lock].held && k.cur.Some?
    requires Inv(k1) && Enabled(k1, Release(lock, grow)) && DoIHold(k1, lock) && Returned(k, k1)
    ensures ApplyRelease(k1, lock, grow).Some? && SamePlaces(k1, ApplyRelease(k1, lock, grow).value)
  {
    ReleaseKeeps(k1, lock, grow);
    forall t | t in k1.sleepers ensures !SleepsOn(Freed(k1, lock).threads, t, LockAddr(lock)) {
      assert t in k.sleepers && MustWait(k, k.threads[t]);
    }
    PickNone(Freed(k1, lock).threads, k1.sleepers, LockAddr(lock));
  }

  lemma {:induction false} PickNone(threads: map<Tid, Thread>, ts: seq<Tid>, addr: Addr)
    requires forall t :: t in ts ==> !SleepsOn(threads, t, addr)
    ensures Pick(threads, ts, addr, true) == [] && Pick(threads, ts, addr, false) == ts
  {
    if ts != [] {
      PickNone(threads, ts[1..], addr);
    }
  }

  /** P on a positive semaphore returns, also to a thread that had to wait, and V undoes it. */
  lemma DownThenUp(k: State, sem: nat, grow: nat, grow': nat)
    requires Inv(k) && Enabled(k, Down(sem, grow)) && k.sems[sem] > 0
    ensures Apply(k, Down(sem, grow)).Some?
    ensures var k1 := Apply(k, Down(sem, grow)).value;
            && Inv(k1) && Running(k1, Plain) && Enabled(k1, Up(sem, grow')) && Apply(k1, Up(sem, grow')).Some?
            && Apply(k1, Up(sem, grow')).value.sems == k.sems
  {
    DownKeeps(k, sem, grow);
    var k1 := Apply(k, Down(sem, grow)).value;
    UpKeeps(k1, sem, grow');
  }

  // ---------------------------------------------------------------------
  // Routines

  /** What a routine that makes step `l` does: it fails an assertion exactly when Panics says
      so, and otherwise makes the step, keeps the invariant and has the effect. */
  ghost predicate Performs(k: State, l: Label, k': State, ok: bool) {
    && Enabled(k, l)
    && (ok <==> !Panics(k, l))
    && (ok ==> Inv(k') && Apply(k, l) == Some(k') && Effect(k, l, k'))
  }

  lemma MakesStep(k: State, l: Label, k': State, ok: bool)
    requires Inv(k) && Enabled(k, l) && ok == Apply(k, l).Some? && (ok ==> Apply(k, l) == Some(k'))
    ensures Performs(k, l, k', ok)
  {
    PanicsExactly(k, l);
    if ok {
      StepKeeps(k, l);
      StepEffect(k, l);
    }
  }
}
