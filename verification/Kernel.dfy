/** The thread system, its scheduler and its synchronisation primitives as a
    transition system.

    One step is one stretch of kernel code that runs with interrupts off: from
    `splhigh` to `splx`, or from `splhigh` to the context switch, or from the context
    switch to `splx` or to the next context switch.  Between two steps any interrupt
    may occur.  A step is named by a label that also carries what the environment
    decides: which thread id the allocator returns, and how far a queue or array can
    grow when it has to. */
module Kernel {
  import opened Wrappers

  type Tid = nat

  const INT_MAX := 0x7fff_ffff

  /** Sleep addresses: those of locks and semaphores, and all others. */
  datatype Addr = LockAddr(lock: nat) | SemAddr(sem: nat) | OtherAddr(id: nat)

  /** Where a thread continues when it is switched to: at its very start, with
      interrupts about to be enabled, or in the wait loop of a primitive. */
  datatype Resume = Fresh | Plain | Acquiring(lock: nat) | Downing(sem: nat)

  /** `owns` is history: the locks acquired and not yet released by this thread. */
  datatype Thread = Thread(sleepAddr: Option<Addr>, hasVm: bool, hasCwd: bool, resume: Resume, owns: set<nat>)

  /** `holder` is not cleared by a release. */
  datatype Lock = Lock(held: bool, holder: Option<Tid>)

  datatype State = State(
    threads: map<Tid, Thread>,
    cur: Option<Tid>,
    runq: seq<Tid>, runqCap: nat,
    sleepers: seq<Tid>, sleepersCap: nat,
    zombies: seq<Tid>, zombiesCap: nat,
    numThreads: int,
    forked: bool,
    locks: map<nat, Lock>,
    sems: map<nat, nat>)

  datatype Label =
    | Acquire(lock: nat, grow: nat)
    | Release(lock: nat, grow: nat)
    | Down(sem: nat, grow: nat)
    | Up(sem: nat, grow: nat)
    | Wakeup(addr: Addr, grow: nat)
    | Sleep(id: nat, grow: nat)
    | Yield(grow: nat)
    | Fork(child: Tid, growSleepers: nat, growZombies: nat, growRunq: nat)
    | Exit(grow: nat)
    | Dispatch
    | SetSpace(hasVm: bool, hasCwd: bool)
    | CreateLock(lock: nat)
    | DestroyLock(lock: nat)
    | CreateSem(sem: nat, count: nat)
    | DestroySem(sem: nat)

  // ---------------------------------------------------------------------
  // Queues and arrays with a capacity

  /** Appending `ts` one by one needs no memory within the capacity; beyond it the
      container must grow, to `grow` places if memory allows that many. */
  predicate CanAppend(q: seq<Tid>, cap: nat, ts: seq<Tid>, grow: nat) {
    |q| + |ts| <= cap || |q| + |ts| <= grow
  }

  function AppendCap(q: seq<Tid>, cap: nat, ts: seq<Tid>, grow: nat): nat {
    if |q| + |ts| <= cap then cap else grow
  }

  predicate CanPreallocate(cap: nat, n: int, grow: nat) {
    n <= cap || n <= grow
  }

  function Preallocated(cap: nat, n: int, grow: nat): nat {
    if n <= cap || grow < n then cap else grow
  }

  // ---------------------------------------------------------------------
  // The stretches of code that several steps share

  datatype Place = Ready | Asleep | Dead

  /** First half of mi_switch: put the current thread on a list and leave no thread
      current.  None is a failed assertion. */
  function Stash(k: State, place: Place, grow: nat): Option<State>
    requires k.cur.Some?
  {
    var t := [k.cur.value];
    match place
    case Ready =>
      if !CanAppend(k.runq, k.runqCap, t, grow) then None
      else Some(k.(cur := None, runq := k.runq + t, runqCap := AppendCap(k.runq, k.runqCap, t, grow)))
    case Asleep =>
      if !CanAppend(k.sleepers, k.sleepersCap, t, grow) then None
      else Some(k.(cur := None, sleepers := k.sleepers + t, sleepersCap := AppendCap(k.sleepers, k.sleepersCap, t, grow)))
    case Dead =>
      if !CanAppend(k.zombies, k.zombiesCap, t, grow) then None
      else Some(k.(cur := None, zombies := k.zombies + t, zombiesCap := AppendCap(k.zombies, k.zombiesCap, t, grow)))
  }

  predicate SleepsOn(threads: map<Tid, Thread>, t: Tid, addr: Addr) {
    t in threads && threads[t].sleepAddr == Some(addr)
  }

  /** The threads of `ts` that do (or do not) sleep on `addr`, in order. */
  function Pick(threads: map<Tid, Thread>, ts: seq<Tid>, addr: Addr, want: bool): (r: seq<Tid>)
    ensures |r| <= |ts|
  {
    if ts == [] then []
    else
      var rest := Pick(threads, ts[1..], addr, want);
      if SleepsOn(threads, ts[0], addr) == want then [ts[0]] + rest else rest
  }

  /** thread_wakeup: a stable partition of the sleepers. */
  function WakeAll(k: State, addr: Addr, grow: nat): Option<State> {
    var woken := Pick(k.threads, k.sleepers, addr, true);
    if !CanAppend(k.runq, k.runqCap, woken, grow) then None
    else Some(k.(
      sleepers := Pick(k.threads, k.sleepers, addr, false),
      runq := k.runq + woken,
      runqCap := AppendCap(k.runq, k.runqCap, woken, grow)))
  }

  /** thread_sleep up to the switch: sleep on `addr`, to continue at `resume`. */
  function GoToSleep(k: State, addr: Addr, resume: Resume, grow: nat): Option<State>
    requires k.cur.Some? && k.cur.value in k.threads
  {
    var t := k.cur.value;
    Stash(k.(threads := k.threads[t := k.threads[t].(sleepAddr := Some(addr), resume := resume)]), Asleep, grow)
  }

  /** The assertions of exorcise and thread_destroy. */
  predicate CanExorcise(k: State) {
    forall z :: z in k.zombies ==>
      z in k.threads && k.cur != Some(z) && !k.threads[z].hasVm && !k.threads[z].hasCwd
  }

  function Exorcised(k: State): State {
    k.(threads := k.threads - (set z | z in k.zombies), zombies := [])
  }

  /** Second half of mi_switch: the scheduler's pick becomes current, and unless it is
      a fresh thread it disposes of the zombies. */
  function Picked(k: State): Option<State>
    requires k.runq != [] && k.runq[0] in k.threads
  {
    var t := k.runq[0];
    var k1 := k.(cur := Some(t), runq := k.runq[1..]);
    if k.threads[t].resume.Fresh? then
      Some(k1.(threads := k.threads[t := k.threads[t].(resume := Plain)]))
    else if !CanExorcise(k1) then None
    else
      Some(Exorcised(k1.(threads := k.threads[t := k.threads[t].(sleepAddr := None)])))
  }

  predicate DoIHold(k: State, lock: nat)
    requires lock in k.locks && k.cur.Some?
  {
    k.locks[lock].holder == k.cur && k.locks[lock].held
  }

  // ---------------------------------------------------------------------
  // Steps

  /** Interrupts are on: a thread runs outside every primitive, or the cpu idles. */
  predicate InterruptsOn(k: State) {
    k.cur.Some? ==> k.cur.value in k.threads && k.threads[k.cur.value].resume == Plain
  }

  predicate Running(k: State, resume: Resume) {
    k.cur.Some? && k.cur.value in k.threads && k.threads[k.cur.value].resume == resume
  }

  /** When a step may be taken: who can make the call, with which objects.  Destroying a
      lock or a semaphore that a runnable thread is about to look at again would be a use
      after free and is not a step. */
  predicate Enabled(k: State, l: Label) {
    match l
    case Acquire(lock, _) => lock in k.locks && (Running(k, Plain) || Running(k, Acquiring(lock)))
    case Release(lock, _) => lock in k.locks && Running(k, Plain)
    case Down(sem, _) => sem in k.sems && (Running(k, Plain) || Running(k, Downing(sem)))
    case Up(sem, _) => sem in k.sems && InterruptsOn(k)
    case Wakeup(_, _) => InterruptsOn(k)
    case Sleep(_, _) => Running(k, Plain)
    case Yield(_) => Running(k, Plain)
    case Fork(child, _, _, _) => Running(k, Plain) && child !in k.threads
    case Exit(_) => Running(k, Plain)
    case Dispatch => k.cur.None? && k.runq != [] && k.runq[0] in k.threads
    case SetSpace(_, _) => Running(k, Plain)
    case CreateLock(lock) => lock !in k.locks && Running(k, Plain)
    case DestroyLock(lock) =>
      && lock in k.locks && Running(k, Plain)
      && forall t :: t in k.threads && t !in k.sleepers ==> k.threads[t].resume != Acquiring(lock)
    case CreateSem(sem, count) => sem !in k.sems && count <= INT_MAX && Running(k, Plain)
    case DestroySem(sem) =>
      && sem in k.sems && Running(k, Plain)
      && forall t :: t in k.threads && t !in k.sleepers ==> k.threads[t].resume != Downing(sem)
  }

  function UpdateCur(k: State, th: Thread): State
    requires k.cur.Some?
  {
    k.(threads := k.threads[k.cur.value := th])
  }

  function ApplyAcquire(k: State, lock: nat, grow: nat): Option<State>
    requires lock in k.locks && k.cur.Some? && k.cur.value in k.threads
  {
    var th := k.threads[k.cur.value];
    if k.locks[lock].held then GoToSleep(k, LockAddr(lock), Acquiring(lock), grow)
    else Some(UpdateCur(k, th.(resume := Plain, owns := th.owns + {lock})).(locks := k.locks[lock := Lock(true, k.cur)]))
  }

  /** The state in which a release wakes the lock's sleepers. */
  function Freed(k: State, lock: nat): State
    requires lock in k.locks && k.cur.Some? && k.cur.value in k.threads
  {
    var th := k.threads[k.cur.value];
    UpdateCur(k, th.(owns := th.owns - {lock})).(locks := k.locks[lock := k.locks[lock].(held := false)])
  }

  function ApplyRelease(k: State, lock: nat, grow: nat): Option<State>
    requires lock in k.locks && k.cur.Some? && k.cur.value in k.threads
  {
    if !DoIHold(k, lock) then Some(k)
    else WakeAll(Freed(k, lock), LockAddr(lock), grow)
  }

  function ApplyDown(k: State, sem: nat, grow: nat): Option<State>
    requires sem in k.sems && k.cur.Some? && k.cur.value in k.threads
  {
    var th := k.threads[k.cur.value];
    if k.sems[sem] == 0 then GoToSleep(k, SemAddr(sem), Downing(sem), grow)
    else Some(UpdateCur(k, th.(resume := Plain)).(sems := k.sems[sem := k.sems[sem] - 1]))
  }

  /** The count is a C int: incrementing the greatest one fails the assertion. */
  function ApplyUp(k: State, sem: nat, grow: nat): Option<State>
    requires sem in k.sems
  {
    if k.sems[sem] >= INT_MAX then None
    else WakeAll(k.(sems := k.sems[sem := k.sems[sem] + 1]), SemAddr(sem), grow)
  }

  /** The three preallocations of thread_fork, up to the first that fails. */
  function MakeRoom(k: State, n: int, growS: nat, growZ: nat, growR: nat): State {
    k.(
      sleepersCap := Preallocated(k.sleepersCap, n, growS),
      zombiesCap := if CanPreallocate(k.sleepersCap, n, growS) then Preallocated(k.zombiesCap, n, growZ) else k.zombiesCap,
      runqCap := if CanPreallocate(k.sleepersCap, n, growS) && CanPreallocate(k.zombiesCap, n, growZ)
                 then Preallocated(k.runqCap, n, growR) else k.runqCap)
  }

  predicate HasRoom(k: State, n: int, growS: nat, growZ: nat, growR: nat) {
    && CanPreallocate(k.sleepersCap, n, growS)
    && CanPreallocate(k.zombiesCap, n, growZ)
    && CanPreallocate(k.runqCap, n, growR)
  }

  /** thread_fork: make room everywhere first, then add the child to the run queue.
      A failed fork keeps the room that was made before it failed. */
  function ApplyFork(k: State, child: Tid, growS: nat, growZ: nat, growR: nat): State
    requires k.cur.Some? && k.cur.value in k.threads
  {
    var n := k.numThreads + 1;
    var k1 := MakeRoom(k, n, growS, growZ, growR);
    if !HasRoom(k, n, growS, growZ, growR) || !CanAppend(k.runq, k1.runqCap, [child], growR) then k1
    else k1.(
      threads := k.threads[child := Thread(None, false, k.threads[k.cur.value].hasCwd, Fresh, {})],
      runq := k.runq + [child],
      runqCap := AppendCap(k.runq, k1.runqCap, [child], growR),
      numThreads := n,
      forked := true)
  }

  function ApplyExit(k: State, grow: nat): Option<State>
    requires k.cur.Some? && k.cur.value in k.threads
  {
    var th := k.threads[k.cur.value];
    if k.numThreads <= 0 then None
    else Stash(UpdateCur(k, th.(hasVm := false, hasCwd := false)).(numThreads := k.numThreads - 1), Dead, grow)
  }

  /** The state after a step; None is a failed kernel assertion. */
  function Apply(k: State, l: Label): Option<State>
    requires Enabled(k, l)
  {
    match l
    case Acquire(lock, grow) => ApplyAcquire(k, lock, grow)
    case Release(lock, grow) => ApplyRelease(k, lock, grow)
    case Down(sem, grow) => ApplyDown(k, sem, grow)
    case Up(sem, grow) => ApplyUp(k, sem, grow)
    case Wakeup(addr, grow) => WakeAll(k, addr, grow)
    case Sleep(id, grow) => GoToSleep(k, OtherAddr(id), Plain, grow)
    case Yield(grow) => Stash(k, Ready, grow)
    case Fork(child, growS, growZ, growR) => Some(ApplyFork(k, child, growS, growZ, growR))
    case Exit(grow) => ApplyExit(k, grow)
    case Dispatch => Picked(k)
    case SetSpace(hasVm, hasCwd) => Some(UpdateCur(k, k.threads[k.cur.value].(hasVm := hasVm, hasCwd := hasCwd)))
    case CreateLock(lock) => Some(k.(locks := k.locks[lock := Lock(false, None)]))
    case DestroyLock(lock) => if k.locks[lock].held then None else Some(k.(locks := k.locks - {lock}))
    case CreateSem(sem, count) => Some(k.(sems := k.sems[sem := count]))
    case DestroySem(sem) =>
      if Pick(k.threads, k.sleepers, SemAddr(sem), true) != [] then None else Some(k.(sems := k.sems - {sem}))
  }

  /** The state after boot: one running thread, a run queue of 32 places, two empty
      arrays, no primitives. */
  function Boot(me: Tid): State {
    State(map[me := Thread(None, false, false, Plain, {})], Some(me), [], 32, [], 0, [], 0, 1, false, map[], map[])
  }
}
