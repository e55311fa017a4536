/** The thread system as the object it is in the kernel: global queues, arrays, counters
    and thread structures that each routine updates in place.  `Valid` is the kernel's
    invariant.  Every routine that threads and interrupts call is proved to keep it, to make
    exactly the step of the transition system that carries its name, with the effect that
    KernelEffects states, and to fail an assertion (`ok` is false) exactly when that step does.  The routines they share run in the middle of
    a step, where the invariant need not hold. */
module ThreadSystem {
  import opened Wrappers
  import opened Kernel
  import opened KernelInvariant
  import opened KernelRuns
  import opened KernelEffects

  class Threads {
    var threads: map<Tid, Thread>
    var curthread: Option<Tid>
    var runqueue: seq<Tid>
    var runqueueCap: nat
    var sleepers: seq<Tid>
    var sleepersCap: nat
    var zombies: seq<Tid>
    var zombiesCap: nat
    var numthreads: int
    ghost var forked: bool
    var locks: map<nat, Lock>
    var sems: map<nat, nat>

    ghost function St(): State
      reads this
    {
      State(threads, curthread, runqueue, runqueueCap, sleepers, sleepersCap, zombies, zombiesCap,
            numthreads, forked, locks, sems)
    }

    ghost predicate Valid()
      reads this
    {
      Inv(St())
    }

    /** scheduler_bootstrap and thread_bootstrap. */
    constructor (me: Tid)
      ensures Valid() && St() == Boot(me)
    {
      threads := map[me := Thread(None, false, false, Plain, {})];
      curthread := Some(me);
      runqueue, runqueueCap := [], 32;
      sleepers, sleepersCap := [], 0;
      zombies, zombiesCap := [], 0;
      numthreads := 1;
      forked := false;
      locks, sems := map[], map[];
    }

    method MakeRunnable(t: Tid, grow: nat) returns (ok: bool)
      modifies `runqueue, `runqueueCap
      ensures ok == CanAppend(old(runqueue), old(runqueueCap), [t], grow)
      ensures runqueue == if ok then old(runqueue) + [t] else old(runqueue)
      ensures runqueueCap == if ok then AppendCap(old(runqueue), old(runqueueCap), [t], grow) else old(runqueueCap)
    {
      if runqueueCap <= |runqueue| {
        if grow <= |runqueue| {
          return false;
        }
        runqueueCap := grow;
      }
      runqueue := runqueue + [t];
      return true;
    }

    /** thread_wakeup: removes matching sleepers in place, looking at the same index again
        after each removal. */
    method ThreadWakeup(addr: Addr, grow: nat) returns (ok: bool)
      requires |runqueue| <= runqueueCap
      modifies `sleepers, `runqueue, `runqueueCap
      ensures ok == CanAppend(old(runqueue), old(runqueueCap), Pick(threads, old(sleepers), addr, true), grow)
      ensures ok ==> sleepers == Pick(threads, old(sleepers), addr, false)
      ensures ok ==> runqueue == old(runqueue) + Pick(threads, old(sleepers), addr, true)
      ensures ok ==>
                runqueueCap == AppendCap(old(runqueue), old(runqueueCap), Pick(threads, old(sleepers), addr, true), grow)
    {
      ghost var kept, woken, rest := [], [], sleepers;
      var i := 0;
      while i < |sleepers|
        invariant i == |kept| && sleepers == kept + rest
        invariant kept + Pick(threads, rest, addr, false) == Pick(threads, old(sleepers), addr, false)
        invariant woken + Pick(threads, rest, addr, true) == Pick(threads, old(sleepers), addr, true)
        invariant runqueue == old(runqueue) + woken
        invariant CanAppend(old(runqueue), old(runqueueCap), woken, grow)
        invariant runqueueCap == AppendCap(old(runqueue), old(runqueueCap), woken, grow)
        decreases |sleepers| - i
      {
        var t := sleepers[i];
        assert t == rest[0];
        PickShift(threads, kept, rest, addr, false);
        PickShift(threads, woken, rest, addr, true);
        if SleepsOn(threads, t, addr) {
          RemoveAt(kept, rest);
          AppendOne(old(runqueue), old(runqueueCap), woken, t, grow);
          sleepers := sleepers[..i] + sleepers[i + 1..];
          i := i - 1;
          var added := MakeRunnable(t, grow);
          if !added {
            return false;
          }
          woken := woken + [t];
        } else {
          kept := kept + [t];
        }
        rest := rest[1..];
        i := i + 1;
      }
      return true;
    }

    /** thread_wakeup as an interrupt handler or a thread calls it: never fails. */
    method Wakeup(addr: Addr, grow: nat) returns (ok: bool)
      requires Valid() && InterruptsOn(St())
      modifies `sleepers, `runqueue, `runqueueCap
      ensures ok && Performs(old(St()), Label.Wakeup(addr, grow), St(), ok)
    {
      ghost var k := St();
      ok := ThreadWakeup(addr, grow);
      MakesStep(k, Label.Wakeup(addr, grow), St(), ok);
    }

    method HasSleepers(addr: Addr) returns (yes: bool)
      ensures yes <==> exists t :: t in sleepers && SleepsOn(threads, t, addr)
      ensures yes && Valid() ==>
                match addr
                case LockAddr(lock) => lock in locks && locks[lock].held
                case SemAddr(sem) => sem in sems && sems[sem] == 0
                case OtherAddr(_) => true
    {
      var i := 0;
      while i < |sleepers|
        invariant i <= |sleepers|
        invariant forall j :: 0 <= j < i ==> !SleepsOn(threads, sleepers[j], addr)
      {
        if SleepsOn(threads, sleepers[i], addr) {
          return true;
        }
        i := i + 1;
      }
      return false;
    }

    /** exorcise: destroys the zombies one by one, checking each. */
    method Exorcise() returns (ok: bool)
      requires Distinct(zombies)
      modifies `threads, `zombies
      ensures ok == CanExorcise(old(St()))
      ensures ok ==> St() == Exorcised(old(St()))
    {
      var i := 0;
      while i < |zombies|
        invariant i <= |zombies| && zombies == old(zombies)
        invariant threads == old(threads) - (set z | z in zombies[..i])
        invariant forall z :: z in zombies[..i] ==>
          z in old(threads) && curthread != Some(z) && !old(threads)[z].hasVm && !old(threads)[z].hasCwd
      {
        var z := zombies[i];
        assert z !in zombies[..i];
        assert zombies[..i + 1] == zombies[..i] + [z];
        if z !in threads || curthread == Some(z) || threads[z].hasVm || threads[z].hasCwd {
          assert z in old(St()).zombies;
          return false;
        }
        threads := threads - {z};
        i := i + 1;
      }
      assert zombies[..i] == zombies;
      zombies := [];
      return true;
    }

    /** The preallocations of thread_fork. */
    method Preallocate(n: int, growSleepers: nat, growZombies: nat, growRunq: nat) returns (ok: bool)
      modifies `sleepersCap, `zombiesCap, `runqueueCap
      ensures ok == HasRoom(old(St()), n, growSleepers, growZombies, growRunq)
      ensures St() == MakeRoom(old(St()), n, growSleepers, growZombies, growRunq)
      ensures ok ==> n <= sleepersCap && n <= zombiesCap && n <= runqueueCap
      ensures old(sleepersCap) <= sleepersCap && old(zombiesCap) <= zombiesCap && old(runqueueCap) <= runqueueCap
    {
      if n > sleepersCap {
        if n > growSleepers {
          return false;
        }
        sleepersCap := growSleepers;
      }
      if n > zombiesCap {
        if n > growZombies {
          return false;
        }
        zombiesCap := growZombies;
      }
      if n > runqueueCap {
        if n > growRunq {
          return false;
        }
        runqueueCap := growRunq;
      }
      return true;
    }

    /** thread_fork, the part with interrupts off; false is ENOMEM.  Either way every thread
        keeps its place, and from the first success on there is room to put all of them to
        sleep. */
    method ThreadFork(child: Tid, growSleepers: nat, growZombies: nat, growRunq: nat) returns (ok: bool)
      requires Valid() && Enabled(St(), Fork(child, growSleepers, growZombies, growRunq))
      modifies this
      ensures Performs(old(St()), Fork(child, growSleepers, growZombies, growRunq), St(), true)
      ensures ok <==> child in threads
    {
      ghost var k := St();
      ok := AddChild(child, growSleepers, growZombies, growRunq);
      MakesStep(k, Fork(child, growSleepers, growZombies, growRunq), St(), true);
    }

    /** Its preallocations, and the child's entry into the run queue if they succeed. */
    method AddChild(child: Tid, growSleepers: nat, growZombies: nat, growRunq: nat) returns (ok: bool)
      requires curthread.Some? && curthread.value in threads && child !in threads
      modifies this
      ensures St() == ApplyFork(old(St()), child, growSleepers, growZombies, growRunq)
      ensures ok <==> child in threads
    {
      ghost var k := St();
      ok := Preallocate(numthreads + 1, growSleepers, growZombies, growRunq);
      ghost var k1 := St();
      assert k1 == MakeRoom(k, k.numThreads + 1, growSleepers, growZombies, growRunq);
      if !ok {
        return;
      }
      ok := MakeRunnable(child, growRunq);
      if !ok {
        assert St() == k1;
        return;
      }
      threads := threads[child := Thread(None, false, threads[curthread.value].hasCwd, Fresh, {})];
      numthreads := numthreads + 1;
      forked := true;
    }

    /** mi_switch up to the call of the scheduler. */
    method SwitchOut(place: Place, grow: nat) returns (ok: bool)
      requires curthread.Some?
      modifies `curthread, `runqueue, `runqueueCap, `sleepers, `sleepersCap, `zombies, `zombiesCap
      ensures ok == Stash(old(St()), place, grow).Some?
      ensures ok ==> St() == Stash(old(St()), place, grow).value
    {
      var cur := curthread.value;
      curthread := None;
      match place
      case Ready =>
        ok := MakeRunnable(cur, grow);
      case Asleep =>
        ok := |sleepers| < sleepersCap || |sleepers| < grow;
        sleepersCap := if |sleepers| < sleepersCap then sleepersCap else grow;
        sleepers := sleepers + [cur];
      case Dead =>
        ok := |zombies| < zombiesCap || |zombies| < grow;
        zombiesCap := if |zombies| < zombiesCap then zombiesCap else grow;
        zombies := zombies + [cur];
    }

    /** The scheduler's pick and mi_switch from there on; a fresh thread starts in
        mi_threadstart instead.  Never fails. */
    method SwitchIn() returns (ok: bool)
      requires Valid() && Enabled(St(), Dispatch)
      modifies `curthread, `runqueue, `threads, `zombies
      ensures ok && Performs(old(St()), Dispatch, St(), ok)
    {
      ghost var k := St();
      ok := RunNext();
      MakesStep(k, Dispatch, St(), ok);
    }

    /** The head of the run queue becomes current and, unless it is fresh, disposes of the
        zombies. */
    method RunNext() returns (ok: bool)
      requires runqueue != [] && runqueue[0] in threads && Distinct(zombies)
      modifies `curthread, `runqueue, `threads, `zombies
      ensures ok == Picked(old(St())).Some?
      ensures ok ==> St() == Picked(old(St())).value
    {
      var next := runqueue[0];
      runqueue := runqueue[1..];
      curthread := Some(next);
      if threads[next].resume.Fresh? {
        threads := threads[next := threads[next].(resume := Plain)];
        return true;
      }
      ghost var before := St();
      ok := Exorcise();
      if ok {
        assert next !in before.zombies;
        threads := threads[next := threads[next].(sleepAddr := None)];
        assert threads == before.threads[next := before.threads[next].(sleepAddr := None)] - (set z | z in before.zombies);
      }
    }

    method ThreadSleep(addr: Addr, resume: Resume, grow: nat) returns (ok: bool)
      requires curthread.Some? && curthread.value in threads
      modifies this
      ensures ok == GoToSleep(old(St()), addr, resume, grow).Some?
      ensures ok ==> St() == GoToSleep(old(St()), addr, resume, grow).value
      ensures ok ==> sleepers == old(sleepers) + [old(curthread).value] && SleepsOn(threads, old(curthread).value, addr)
    {
      var t := curthread.value;
      threads := threads[t := threads[t].(sleepAddr := Some(addr), resume := resume)];
      ok := SwitchOut(Asleep, grow);
    }

    /** thread_sleep on an address that is neither a lock's nor a semaphore's: fails only
        before the first fork. */
    method SleepOn(id: nat, grow: nat) returns (ok: bool)
      requires Valid() && Enabled(St(), Sleep(id, grow))
      modifies this
      ensures Performs(old(St()), Sleep(id, grow), St(), ok)
    {
      ghost var k := St();
      ok := ThreadSleep(OtherAddr(id), Plain, grow);
      MakesStep(k, Sleep(id, grow), St(), ok);
    }

    /** thread_yield: never fails. */
    method ThreadYield(grow: nat) returns (ok: bool)
      requires Valid() && Enabled(St(), Yield(grow))
      modifies this
      ensures ok && Performs(old(St()), Yield(grow), St(), ok)
    {
      ghost var k := St();
      ok := SwitchOut(Ready, grow);
      MakesStep(k, Yield(grow), St(), ok);
    }

    /** thread_exit: fails only for want of memory to remember the zombie. */
    method ThreadExit(grow: nat) returns (ok: bool)
      requires Valid() && Enabled(St(), Exit(grow))
      modifies this
      ensures Performs(old(St()), Exit(grow), St(), ok)
    {
      ghost var k := St();
      var t := curthread.value;
      threads := threads[t := threads[t].(hasVm := false, hasCwd := false)];
      ok := numthreads > 0;
      if ok {
        numthreads := numthreads - 1;
        ok := SwitchOut(Dead, grow);
      }
      MakesStep(k, Exit(grow), St(), ok);
    }

    // -------------------------------------------------------------------
    // Synchronisation primitives

    /** One pass through the loop of P: take a unit exactly if there is one, or go to sleep,
        which cannot fail after the first fork. */
    method P(sem: nat, grow: nat) returns (ok: bool)
      requires Valid() && Enabled(St(), Down(sem, grow))
      modifies this
      ensures Performs(old(St()), Down(sem, grow), St(), ok)
    {
      ghost var k := St();
      if sems[sem] == 0 {
        ok := ThreadSleep(SemAddr(sem), Downing(sem), grow);
      } else {
        sems := sems[sem := sems[sem] - 1];
        threads := threads[curthread.value := threads[curthread.value].(resume := Plain)];
        ok := true;
      }
      MakesStep(k, Down(sem, grow), St(), ok);
    }

    /** V: fails only at the greatest int, and leaves nobody asleep on the semaphore. */
    method V(sem: nat, grow: nat) returns (ok: bool)
      requires Valid() && Enabled(St(), Up(sem, grow))
      modifies this
      ensures Performs(old(St()), Up(sem, grow), St(), ok)
      ensures ok <==> old(sems)[sem] < 0x7fff_ffff
    {
      ghost var k := St();
      ok := sems[sem] < INT_MAX;
      if ok {
        sems := sems[sem := sems[sem] + 1];
        ok := ThreadWakeup(SemAddr(sem), grow);
      }
      MakesStep(k, Up(sem, grow), St(), ok);
    }

    /** lock_do_i_hold: true exactly when a release by the caller would have an effect; the
        thread that acquired the lock always sees true, and when a thread sees true no other
        thread owns the lock. */
    method LockDoIHold(lock: nat) returns (ans: bool)
      requires Valid() && lock in locks && curthread.Some?
      ensures ans <==> forall grow: nat :: ApplyRelease(St(), lock, grow) != Some(St())
      ensures ans <==> exists grow: nat :: ApplyRelease(St(), lock, grow) != Some(St())
      ensures lock in threads[curthread.value].owns ==> ans
      ensures ans ==> forall t :: t in threads && lock in threads[t].owns ==> Some(t) == curthread
      ensures ans == DoIHold(St(), lock)
    {
      ans := locks[lock].holder == curthread && locks[lock].held;
      assert HoldsAll(St(), curthread.value);
      forall t | t in threads && lock in threads[t].owns ensures locks[lock] == Lock(true, Some(t)) {
        assert HoldsAll(St(), t);
      }
      forall grow: nat ensures ans <==> ApplyRelease(St(), lock, grow) != Some(St()) {
        if ans {
          ReleaseChanges(St(), lock, grow);
        }
      }
      assert ApplyRelease(St(), lock, 0) != Some(St()) <==> ans;
    }

    /** One pass through the loop of lock_acquire: take the lock exactly if it is free, and
        then own it alone, or go to sleep, which cannot fail after the first fork. */
    method LockAcquire(lock: nat, grow: nat) returns (ok: bool)
      requires Valid() && Enabled(St(), Acquire(lock, grow))
      modifies this
      ensures Performs(old(St()), Acquire(lock, grow), St(), ok)
    {
      ghost var k := St();
      if locks[lock].held {
        ok := ThreadSleep(LockAddr(lock), Acquiring(lock), grow);
      } else {
        var t := curthread.value;
        locks := locks[lock := Lock(true, curthread)];
        threads := threads[t := threads[t].(resume := Plain, owns := threads[t].owns + {lock})];
        ok := true;
      }
      MakesStep(k, Acquire(lock, grow), St(), ok);
    }

    /** lock_release: never fails.  For the holder it frees the lock and leaves nobody asleep
        on it; for everybody else it does nothing. */
    method LockRelease(lock: nat, grow: nat) returns (ok: bool)
      requires Valid() && Enabled(St(), Release(lock, grow))
      modifies this
      ensures ok && Performs(old(St()), Release(lock, grow), St(), ok)
    {
      ghost var k := St();
      ok := true;
      var mine := LockDoIHold(lock);
      if locks[lock].held && mine {
        var t := curthread.value;
        locks := locks[lock := locks[lock].(held := false)];
        threads := threads[t := threads[t].(owns := threads[t].owns - {lock})];
        ok := ThreadWakeup(LockAddr(lock), grow);
      }
      MakesStep(k, Release(lock, grow), St(), ok);
    }
  }

  lemma AppendOne(q: seq<Tid>, cap: nat, ts: seq<Tid>, t: Tid, grow: nat)
    requires CanAppend(q, cap, ts, grow)
    ensures var cap' := AppendCap(q, cap, ts, grow);
            && CanAppend(q + ts, cap', [t], grow) == CanAppend(q, cap, ts + [t], grow)
            && AppendCap(q + ts, cap', [t], grow) == AppendCap(q, cap, ts + [t], grow)
            && q + ts + [t] == q + (ts + [t])
  {
  }

  lemma PickShift(threads: map<Tid, Thread>, done: seq<Tid>, rest: seq<Tid>, addr: Addr, want: bool)
    requires rest != []
    ensures done + Pick(threads, rest, addr, want) ==
            (if SleepsOn(threads, rest[0], addr) == want then done + [rest[0]] else done)
            + Pick(threads, rest[1..], addr, want)
  {
  }

  lemma RemoveAt(kept: seq<Tid>, rest: seq<Tid>)
    requires rest != []
    ensures var s := kept + rest; s[..|kept|] + s[|kept| + 1..] == kept + rest[1..]
  {
  }
}
