# Verified models of a Mancala player and an OS/161 kernel

This project models four parts of the repository and proves what they promise:

* **Mancala** (`Projects/Mancala`): the rules for any number of pits and either setting of the two
  optional rules, whole games, the alpha-beta player, and the tournament that plays two move
  functions against each other.
* **The OS/161 thread kernel** (`kern/thread`): threads, run queue, sleepers, zombies, locks and
  semaphores as one transition system over everything any interleaving of threads, interrupts and
  allocation failures can do.
* **dumbvm and the physical page allocator** (`kern/mips`): page allocation in 32-bit arithmetic,
  three-region address spaces, `as_copy`, and the TLB.
* **The stoplight problem** (`kern/asst1`): any number of vehicle threads over six locks and three
  unprotected counters.

`dafny verify dfyconfig.toml` checks all of it.

## How the models are built

| file | contents |
|---|---|
| `Wrappers.dfy` | the optional value |
| `MancalaRules.dfy` | board, index arithmetic, one move: the array-updating methods and their closed form |
| `MancalaGame.dfy` | conservation, termination measure, player symmetry |
| `MancalaSearch.dfy` | minimax, alpha-beta, the computer's move |
| `MancalaTournament.dfy` | the play loop and the tournament |
| `Kernel.dfy` | the kernel's atomic steps as functions on a state |
| `KernelInvariant.dfy` | the invariant and its preservation by each step |
| `KernelRuns.dfy` | theorems about whole runs, and counterexample runs |
| `KernelEffects.dfy` | what each step guarantees to its caller, stated apart from how it is computed |
| `ThreadSystem.dfy` | the thread system as a mutable object: its routines keep the invariant, make exactly those steps and fail exactly when they do |
| `Dumbvm.dfy` | allocator, address spaces and translation on values |
| `DumbvmWorld.dfy` | all address spaces over one memory: everything ever handed out, isolation, copying, the kernel's own memory |
| `DumbvmTlb.dfy` | `vm_fault`, `as_activate`, and TLB coherence while address spaces change |
| `DumbvmObjects.dfy` | the allocator and the address space as mutable objects |
| `Stoplight.dfy` | the vehicles' step programs, segment safety, gridlock |

*Mancala.* A state is a value, as in the program, which copies the board before changing it; the copy is
an array that `SowStones` and `BigWin` update in place. Positions are described by *seats* counted from the
mover's leftmost pit, so the closed form of sowing (`Sown`) is the same for both players: with a lap of
2·pits+1 seats, k stones from seat n give every seat k div lap stones, one more to the first k mod lap
seats after n, and end on seat (n+k) mod lap. Evaluation functions are arbitrary functions into the reals.

*Kernel.* A step is a stretch of code that runs with interrupts off. The wait loops of `P` and
`lock_acquire` are one step per pass: a thread that sleeps remembers that it is inside the loop
(`Acquiring`, `Downing`) and makes the next pass when it is scheduled again. A label carries what the
environment decides: the id of a new thread (ids are reused, as freed addresses are) and how far a queue
or array can grow when it must. A step yields `None` when a kernel assertion fails. `owns`, the set
of locks that a thread has acquired and not released, is history for stating mutual exclusion. Interrupt
handlers may wake any address and may `V` any semaphore whenever interrupts are on, also while the
scheduler idles.

*dumbvm.* Sums that the kernel computes in 32 bits are taken modulo 2^32. Physical memory is a sequence of
bytes; `memmove` is a function on it. `base` and `grants` are history: where free memory began at boot, and
every range that `ram_stealmem` ever handed out, whatever became of it.

*Stoplight.* Every lock operation, message and counter access is a step of its own; reading and writing a
counter are separate steps, so increments can be lost. Locks follow the kernel's lock primitive.

## Results that differ from what the sources say

* `computer-make-move` is documented to return nil when there is no move to make. It also returns nil when
  every child is worth `*min-wins*`, so the play loops stop early in a lost position (`ComputerMakeMove`).
  Since a finished game that is not won is evaluated as lost, that includes draws (`GivesUpWhenLost`).
* The comment in `mi_switch` says that stashing the current thread cannot fail because `thread_fork`
  preallocates. That holds for the run queue always and for `sleepers` after the first fork, but not for
  `zombies`: fresh threads skip `exorcise` (`PanicsExactly`, `ZombiesCanOverflow`).
* "Only the thread holding the lock may" release it: a thread whose release takes effect is the one that
  acquired the lock exactly when no thread has exited owning that lock since it was last acquired
  (`ReleaseIffOwner`); after such an exit a new thread at the same address can release it (`StaleHolder`).
* `ram_stealmem` grants a range inside RAM, and keeps all ranges apart, exactly when the request does not wrap
  around a 32-bit word (`GrantInsideIffFits`, `StealKeepsIffFits`, `WrappingGrant`), and `as_define_region`
  covers the requested bytes exactly when its rounding does not (`RegionCoversIffFits`, `RegionVanishes`).
* A region that is defined after the frames were allocated stays off the other frames of its space exactly
  when it asks for no more pages than it was allocated (`LateDefineApartIff`); an empty space that is prepared
  and then given a page maps it onto its own stack (`LateDefineAliases`).
* Three left turns can block each other (`GridlockReachable`), for good (`GridlockForever`); that is the only way in which the
  vehicles that hold segments can all be stuck (`ProgressUnlessGridlock`).
* Two cars of one route suffice to starve the second: the first can finish without giving the route's lock back
  (`RouteLostReachable`), and then nothing ever does (`RouteLostForever`). A truck leaves its route's count one
  too low (`AloneGetsThrough`).

## Model

| member | source | states |
|---|---|---|
| MancalaRules.SowStones | Projects/Mancala/mancala.lisp:313-324 | the sowing loop, in place: the board becomes the closed form (quotient and remainder of the stones by the lap length) and the last stone falls on seat (n+k) mod lap; the opponent's mancala is skipped |
| MancalaRules.BigWin | Projects/Mancala/mancala.lisp:326-333 | the capture moves exactly the facing pit's stones to the mover's mancala, exactly when the last stone is alone in one of the mover's pits and the rule is on |
| MancalaRules.StateFromMove | Projects/Mancala/mancala.lisp:291-339 | nil exactly for an empty pit; otherwise the closed-form sowing, for either player and any number of pits, with the facing pit emptied into the mover's mancala exactly if the last stone ends alone in a pit of the mover's, and the turn kept exactly if it ends in the mover's mancala under the go-again rule |
| MancalaRules.MoveOutcome | Projects/Mancala/mancala.lisp:326-339 | the same, in board indices, of the closed-form move: when a capture happens and what it moves, and who is to move next |
| MancalaRules.EndPit | Projects/Mancala/Nick-Wilfong.lisp:77-110 | returns the board index on which the last stone of the same sowing falls, the one that decides capture and turn in StateFromMove |
| MancalaRules.SowOneMore | Projects/Mancala/mancala.lisp:319-324 | in closed form, one more stone adds one on its seat and changes nothing else |
| MancalaRules.AdvanceIsNextSeat | Projects/Mancala/mancala.lisp:321-323 | advance, skip and wrap together are one seat on, for both players and across laps |
| MancalaRules.GameOverp | Projects/Mancala/mancala.lisp:258-264 | true exactly when all pits of the player to move are empty |
| MancalaRules.Moves | Projects/Mancala/mancala.lisp:390-396 | one successor for each pit that holds stones, that of a pit preceded by exactly those of the filled pits above it |
| MancalaRules.MovesOrder | Projects/Mancala/mancala.lisp:390-396 | the position of a pit's successor in the list is the number of filled pits above it |
| MancalaRules.MovesBelowComplete | Projects/Mancala/mancala.lisp:390-396 | a state is in the list exactly when some pit yields it |
| MancalaRules.NoMovesIffGameOver | Projects/Mancala/mancala.lisp:258-264 | the list of moves is empty exactly when the game is over |
| MancalaGame.SownIsDealt | Projects/Mancala/mancala.lisp:313-324 | the closed form equals dealing stone by stone |
| MancalaGame.MoveConservesStones | Projects/Mancala/mancala.lisp:313-339 | no move creates or destroys a stone, capture included |
| MancalaGame.MancalasNeverDecrease | Projects/Mancala/mancala.lisp:313-333 | the mover's mancala never shrinks and the opponent's is untouched |
| MancalaGame.MoveDecreases | Projects/Mancala/mancala.lisp:291-339 | every move strictly decreases (stones in play, total distance to the owners' mancalas) lexicographically |
| MancalaGame.InitState | Projects/Mancala/mancala.lisp:280-289 | the initial board: both mancalas empty, the given number of stones at every other index |
| MancalaGame.GameInvariant | Projects/Mancala/mancala.lisp:427-434 | over any game stones are conserved and no mancala shrinks |
| MancalaGame.ReachableStones | Projects/Mancala/mancala.lisp:280-289 | every state of every game from the start holds 2·pits·stonesPerPit stones |
| MancalaGame.EveryGameEnds | Projects/Mancala/mancala.lisp:419-441 | the number of moves of any game, however the movers choose, is bounded by a number read off its first state |
| MancalaGame.FlipMove | Projects/Mancala/mancala.lisp:291-339 | turning the table (rotate by pits+1, swap the turn) commutes with every move |
| MancalaGame.FlipSymmetry | Projects/Mancala/mancala.lisp:258-278 | it keeps the list of moves in order and the end of the game, and carries each player's score to the other |
| MancalaSearch.AlphaBeta | Projects/Mancala/Nick-Wilfong.lisp:34-73 | for every expand, terminal and evaluate function, depth and window alpha < beta the answer clamped to the window is the clamped minimax value and interior nodes return exactly it; an answer inside the window is the minimax value, one at or beyond an end bounds it from that side; empty or inverted windows and childless nodes are covered too |
| MancalaSearch.MinimaxMeaning | Projects/Mancala/Nick-Wilfong.lisp:34-73 | what minimax is: the evaluation where the game is over or the depth limit is reached, else the value of some child, not below any child's on the maximising player's turn and not above any child's on the other's |
| MancalaSearch.MinimaxBetween | Projects/Mancala/Nick-Wilfong.lisp:121-125 | in Mancala minimax values are numbers in the evaluation's range |
| MancalaSearch.ComputerMakeMove | Projects/Mancala/Nick-Wilfong.lisp:187-219 | the first child in list order whose search value is greatest, for every evaluation; with one in range, values are minimax values and nil comes back exactly when every child is worth the minimum, which includes the end of the game |
| MancalaSearch.GivesUpWhenLost | Projects/Mancala/Nick-Wilfong.lisp:132-136 | for any evaluation that judges finished games as the source does, any number of pits and any depth: with one stone left to play the computer returns nil, in a game that is not over, exactly when that stone does not win it |
| MancalaSearch.FlipMinimax | Projects/Mancala/Nick-Wilfong.lisp:34-73 | with an impartial evaluation, minimax values are the same from the other side of the table |
| MancalaSearch.FlipBestMove | Projects/Mancala/Nick-Wilfong.lisp:187-219 | with any impartial evaluation the computer plays a position and its mirror image alike, ties included |
| MancalaTournament.PlayOut | Projects/Mancala/mancala.lisp:454-461 | the loop terminates for any legal movers, its states form a game in which each state is what the mover whose turn it was returned, and it stops where the player to move returns nil |
| MancalaTournament.Tournament | Projects/Mancala/mancala.lisp:444-474 | plays two complete games, one with each player to move first, and returns the difference of player 1's and player 2's mancala summed over both |
| MancalaTournament.FlipFinal | Projects/Mancala/mancala.lisp:454-461 | mirrored start and exchanged movers play the mirror image of the whole game |
| MancalaTournament.TournamentAntisymmetric | Projects/Mancala/mancala.lisp:444-474 | exchanging two movers that treat both sides alike negates the outcome |
| MancalaTournament.SelfPlayIsEven | Projects/Mancala/mancala.lisp:444-474 | the alpha-beta player ties against itself at equal depth, whatever its impartial evaluation |
| KernelInvariant.WakePlaced | Projects/OS161/kern/thread/thread.c:551-579 | a wakeup keeps every thread in exactly one place |
| KernelInvariant.PickMembers | Projects/OS161/kern/thread/thread.c:561-578 | exactly the threads on the address are woken and exactly the others stay |
| KernelInvariant.AcquireKeeps | Projects/OS161/kern/thread/synch.c:135-164 | a pass through lock_acquire keeps the whole invariant, whether it takes the lock or sleeps |
| KernelInvariant.ReleaseKeeps | Projects/OS161/kern/thread/synch.c:166-190 | so does lock_release, which never fails an assertion |
| KernelInvariant.DownKeeps | Projects/OS161/kern/thread/synch.c:62-83 | so does a pass through P |
| KernelInvariant.UpKeeps | Projects/OS161/kern/thread/synch.c:85-95 | so does V below the greatest int |
| KernelInvariant.ForkKeeps | Projects/OS161/kern/thread/thread.c:310-371 | so does thread_fork, also when any of its allocations fails |
| KernelInvariant.ExorciseSafe | Projects/OS161/kern/thread/thread.c:111-157 | the assertions of exorcise and thread_destroy hold |
| KernelInvariant.DispatchKeeps | Projects/OS161/kern/thread/thread.c:432-460 | the scheduler's pick, the switch and the disposal of zombies never fail and keep the invariant |
| KernelRuns.StepKeeps | Projects/OS161/kern/thread/thread.c:272-579 | every step of any thread or interrupt keeps the partition, the capacities, no lost wakeup and lock ownership |
| KernelRuns.PanicsExactly | Projects/OS161/kern/thread/thread.c:411-430 | exactly which steps fail a kernel assertion in reachable states |
| KernelRuns.ZombiesCanOverflow | Projects/OS161/kern/thread/thread.c:411-430 | a run after which exiting fails for want of memory in zombies |
| KernelRuns.ThreadsPartitioned | Projects/OS161/kern/thread/thread.c:25-35 | in every reachable state each thread is in exactly one of current, run queue, sleepers, zombies, once; numthreads counts the non-zombies; capacities suffice |
| KernelRuns.MutualExclusion | Projects/OS161/kern/thread/synch.c:135-190 | in every interleaving at most one thread is between acquire and release of a lock, and the lock is held by it |
| KernelRuns.NoLostWakeup | Projects/OS161/kern/thread/synch.c:62-190 | a thread asleep on a lock implies that it is held, on a semaphore that its count is zero |
| KernelRuns.LiveIffClean | Projects/OS161/kern/thread/synch.c:135-190 | in every run a held lock has a live owner exactly when no thread exited owning it since it was last acquired |
| KernelRuns.ReleaseIffOwner | Projects/OS161/kern/thread/synch.c:166-214 | in every reachable state a thread owns a lock exactly when its release would take effect and no thread exited owning the lock since it was last acquired; a release takes effect exactly for the recorded holder and otherwise changes nothing |
| KernelRuns.SleeperHasLiveHolder | Projects/OS161/kern/thread/synch.c:148-158 | a sleeper waits for a thread that is alive and has yet to release exactly when no thread exited owning that lock since it was last acquired |
| KernelRuns.StaleHolder | Projects/OS161/kern/thread/synch.c:177-184 | a run in which a thread that never acquired a lock can release it |
| KernelRuns.RoundRobin | Projects/OS161/kern/thread/scheduler.c:87-118 | a thread at position i of the run queue moves up one place per pick and is current after pick i+1, whatever else happens |
| KernelRuns.SemAccount | Projects/OS161/kern/thread/synch.c:62-95 | over any run a count is its earlier value plus the Vs minus the completed Ps |
| KernelRuns.SemFromCreation | Projects/OS161/kern/thread/synch.c:17-95 | in every run from boot a count is the one the semaphore was created with plus the Vs minus the completed Ps since, and is never negative |
| KernelEffects.StepEffect | Projects/OS161/kern/thread/synch.c:62-190 | the whole new state after each step but for capacities, stated apart from its computation: among others, an acquire returns as the lock's only owner or sleeps on it, a release leaves nobody holding, owning or sleeping on it, V and wakeup move exactly the sleepers on the address, in order, a fork succeeds exactly if there is room everywhere and passes on the directory |
| KernelEffects.PickInOrder | Projects/OS161/kern/thread/thread.c:561-578 | the woken and the remaining threads keep their order |
| KernelEffects.AcquireThenRelease | Projects/OS161/kern/thread/synch.c:135-190 | an acquire that finds the lock free returns, also to a thread that had waited; the release that may follow never fails, and afterwards the lock is free for all and nothing else has changed |
| KernelEffects.DownThenUp | Projects/OS161/kern/thread/synch.c:62-95 | P on a positive semaphore returns, also to a thread that had waited, and V restores all counts |
| KernelEffects.MakesStep | Projects/OS161/kern/thread/thread.c:272-579 | from a state with the invariant every step fails an assertion exactly when it must, and otherwise keeps the invariant and has its effect |
| ThreadSystem.Threads.constructor | Projects/OS161/kern/thread/thread.c:210-251 | the state after boot, which satisfies the invariant |
| ThreadSystem.Threads.MakeRunnable | Projects/OS161/kern/thread/scheduler.c:111-118 | appends to the run queue; fails only if it is full and cannot grow |
| ThreadSystem.Threads.ThreadWakeup | Projects/OS161/kern/thread/thread.c:551-579 | the in-place loop terminates and is a stable partition: the others stay in order, the matching ones are appended to the run queue in order |
| ThreadSystem.Threads.Wakeup | Projects/OS161/kern/thread/thread.c:551-579 | called from a thread or an interrupt it never fails, keeps the invariant, leaves nobody asleep on the address and everybody else where they were |
| ThreadSystem.Threads.HasSleepers | Projects/OS161/kern/thread/thread.c:585-600 | true exactly when some sleeper is on the address; then the lock is held or the semaphore is zero |
| ThreadSystem.Threads.Exorcise | Projects/OS161/kern/thread/thread.c:141-157 | succeeds exactly when no zombie is current or holds resources, and then frees all of them and only them |
| ThreadSystem.Threads.Preallocate | Projects/OS161/kern/thread/thread.c:317-330 | the three preallocations; success means room for n everywhere, and room made before a failure is kept |
| ThreadSystem.Threads.ThreadFork | Projects/OS161/kern/thread/thread.c:310-370 | makes exactly the fork step and keeps the invariant, also when memory runs out; the child exists exactly if there was room for one more thread everywhere, and then it is last in the run queue, has the parent's directory, and all threads have room to sleep |
| ThreadSystem.Threads.SwitchOut | Projects/OS161/kern/thread/thread.c:405-430 | moves the current thread to the right list, or fails its assertion |
| ThreadSystem.Threads.SwitchIn | Projects/OS161/kern/thread/thread.c:436-460 | makes the head of the run queue current and never fails an assertion; a fresh thread starts running, any other goes on where it stopped, off its sleep address, with all zombies disposed of |
| ThreadSystem.Threads.ThreadSleep | Projects/OS161/kern/thread/thread.c:536-545 | records the address and puts the thread to sleep |
| ThreadSystem.Threads.SleepOn | Projects/OS161/kern/thread/thread.c:536-545 | keeps the invariant and puts the caller behind the other sleepers; fails exactly if no thread was ever forked and the array cannot grow |
| ThreadSystem.Threads.ThreadYield | Projects/OS161/kern/thread/thread.c:513-523 | keeps the invariant, puts the caller at the end of the run queue and never fails |
| ThreadSystem.Threads.ThreadExit | Projects/OS161/kern/thread/thread.c:469-508 | keeps the invariant, drops the resources, counts the thread out and makes it a zombie; fails exactly if zombies is full and cannot grow |
| ThreadSystem.Threads.P | Projects/OS161/kern/thread/synch.c:76-82 | one pass: takes a unit and returns exactly if there is one, else sleeps on the semaphore; everything else stays as it is; keeps the invariant and fails exactly if no thread was ever forked and sleepers cannot grow |
| ThreadSystem.Threads.V | Projects/OS161/kern/thread/synch.c:90-94 | adds a unit and leaves nobody asleep on the semaphore, keeping the invariant; fails exactly at the greatest int |
| ThreadSystem.Threads.LockAcquire | Projects/OS161/kern/thread/synch.c:143-161 | one pass: takes the lock and returns exactly if it is free, and is then its only owner, else sleeps on it; all other locks and threads stay as they are; keeps the invariant and fails exactly if no thread was ever forked and sleepers cannot grow |
| ThreadSystem.Threads.LockRelease | Projects/OS161/kern/thread/synch.c:174-187 | never fails and keeps the invariant; for the recorded holder nobody holds, owns or sleeps on the lock afterwards, for all others nothing changes |
| ThreadSystem.Threads.LockDoIHold | Projects/OS161/kern/thread/synch.c:192-214 | true exactly when a release by the caller would change anything; always true for the thread that acquired the lock, and then no other thread owns it |
| Dumbvm.GrantInsideIffFits | Projects/OS161/kern/mips/ram.c:63-77 | a granted range lies inside RAM exactly when the request does not wrap around |
| Dumbvm.StealKeepsIffFits | Projects/OS161/kern/mips/ram.c:63-77 | a request keeps all ranges ever handed out aligned, inside RAM and disjoint exactly when it is refused or does not wrap around |
| Dumbvm.WrappingGrant | Projects/OS161/kern/mips/ram.c:66-77 | a request that wraps around is granted, moves the allocator backwards and breaks the disjointness of what is handed out |
| Dumbvm.MappedExactly | Projects/OS161/kern/mips/dumbvm.c:114-133 | exactly the addresses of the two regions and of the 12 pages below the top of the stack are mapped, each to its offset in the frames of the first of these that contains it |
| Dumbvm.PhysInFrames | Projects/OS161/kern/mips/dumbvm.c:114-133 | a mapped byte lies in the frames of the region that maps it, at its offset |
| Dumbvm.PhysInjective | Projects/OS161/kern/mips/dumbvm.c:114-133 | distinct mapped addresses of a space are distinct bytes of memory |
| Dumbvm.RegionCoversIffFits | Projects/OS161/kern/mips/dumbvm.c:197-215 | the rounded region covers the requested bytes exactly when the rounding does not wrap, and then with less than a page to spare |
| Dumbvm.RegionVanishes | Projects/OS161/kern/mips/dumbvm.c:203-210 | a region of all but one byte of the address space gets no page |
| DumbvmWorld.PrepareFresh | Projects/OS161/kern/mips/dumbvm.c:236-259 | the three frame ranges are aligned, disjoint, new and inside RAM |
| DumbvmWorld.PrepareFails | Projects/OS161/kern/mips/dumbvm.c:243-256 | preparing succeeds exactly when memory suffices for all three ranges |
| DumbvmWorld.PrepareKeepsIffSafe | Projects/OS161/kern/mips/dumbvm.c:236-259 | preparing keeps all ranges handed out inside RAM and apart exactly when none of its requests is granted although it wraps around |
| DumbvmWorld.LateDefineApartIff | Projects/OS161/kern/mips/dumbvm.c:217-227 | a region defined after its space was prepared stays off the other frames of the space exactly when it asks for no more pages than were allocated for it |
| DumbvmWorld.LateDefineAliases | Projects/OS161/kern/mips/dumbvm.c:217-227 | a page defined in a space that was prepared while empty lands on the stack's frames |
| DumbvmWorld.StepKeeps | Projects/OS161/kern/mips/dumbvm.c:156-315 | through every operation all ranges ever handed out stay aligned, inside the memory free at boot and pairwise disjoint, every region of a loaded space lies in one of them, and no two loaded spaces share a frame |
| DumbvmWorld.StepSpaces | Projects/OS161/kern/mips/dumbvm.c:156-315 | an operation touches no space but its own; a space is loaded and a copy appears exactly if memory suffices; destroying removes the space |
| DumbvmWorld.GrantsApart | Projects/OS161/kern/mips/ram.c:63-77 | over any run from boot all ranges ever handed out, also to the kernel, to failed loads and copies and to spaces since destroyed, are aligned, in the memory free at boot and pairwise disjoint, and every loaded region lies in one |
| DumbvmWorld.RunSpares | Projects/OS161/kern/mips/dumbvm.c:236-315 | over any run memory that belongs to no loaded space is never mapped or changed again |
| DumbvmWorld.KernelMemorySafe | Projects/OS161/kern/mips/dumbvm.c:42-52 | over any run no operation of user programs changes a byte of the kernel image or of a range that alloc_kpages returned |
| DumbvmWorld.WriteRefines | Projects/OS161/kern/mips/dumbvm.c:121-133 | a store changes one location of one space and nothing that any space reads elsewhere |
| DumbvmWorld.CopyRefines | Projects/OS161/kern/mips/dumbvm.c:277-315 | a successful copy maps the same addresses and reads the same byte at each |
| DumbvmWorld.RunIsolation | Projects/OS161/kern/mips/dumbvm.c:236-315 | over any run that does not write through a space, destroy it or define a region it still lacks, everything it maps and reads stays the same |
| DumbvmWorld.CopyIsSnapshot | Projects/OS161/kern/mips/dumbvm.c:277-315 | after any later writes through other spaces the child still reads what the parent read when it was copied |
| DumbvmTlb.VmFault | Projects/OS161/kern/mips/dumbvm.c:62-154 | which faults are handled, EFAULT, EINVAL or a panic: with a space that is set up, exactly those on a mapped address while a slot is free; a handled one fills the lowest free slot so that the address is taken to its byte, all others leave the TLB alone |
| DumbvmTlb.SetUpExactly | Projects/OS161/kern/mips/dumbvm.c:100-112 | for spaces that the operations can produce, the assertions at the top fail exactly if a region or its frames are missing or a region has no pages |
| DumbvmTlb.LoadedProgramRuns | Projects/OS161/kern/mips/dumbvm.c:197-259 | once two regions are defined and prepared, those assertions hold and every requested byte of both regions and every byte of the stack is mapped |
| DumbvmTlb.FrameAligned | Projects/OS161/kern/mips/dumbvm.c:135-136 | the assertion on the computed frame holds |
| DumbvmTlb.AsActivate | Projects/OS161/kern/mips/dumbvm.c:181-195 | afterwards no entry is valid |
| DumbvmTlb.RunCoherent | Projects/OS161/kern/mips/dumbvm.c:62-195 | over any run of operations on address spaces, context switches and faults, valid entries are the translation of the current space as it is now, no page has two, distinct pages have distinct frames |
| DumbvmTlb.SetUpStays | Projects/OS161/kern/mips/dumbvm.c:101-112 | no operation but its destruction changes a space that meets the assertions of vm_fault |
| DumbvmTlb.HitIsAccess | Projects/OS161/kern/mips/dumbvm.c:121-146 | a load through a valid entry returns the byte that the current space reads there, and a store is a write through that space |
| DumbvmObjects.PhysMem.constructor | Projects/OS161/kern/mips/ram.c:15-45 | the bounds of free memory after boot, up to the smaller of the RAM size and 508 MB, with nothing handed out |
| DumbvmObjects.PhysMem.StealMem | Projects/OS161/kern/mips/ram.c:63-77 | a request that does not wrap is granted exactly when it fits what is left, as a new range apart from all earlier ones; the ranges stay apart exactly unless a wrapping request is granted; a refusal changes nothing |
| DumbvmObjects.AddrSpace.constructor | Projects/OS161/kern/mips/dumbvm.c:156-173 | the empty space |
| DumbvmObjects.AddrSpace.DefineRegion | Projects/OS161/kern/mips/dumbvm.c:197-234 | succeeds exactly while a region is undefined and changes only that one; it holds all requested bytes exactly when rounding does not wrap, with less than a page to spare at either end; frames stay apart if it fits the frames it has |
| DumbvmObjects.AddrSpace.PrepareLoad | Projects/OS161/kern/mips/dumbvm.c:236-259 | allocates region by region, stopping at the first failure; unless a request wraps it succeeds exactly when memory suffices, and each region gets a range that nobody had before |
| DumbvmObjects.AsCopy | Projects/OS161/kern/mips/dumbvm.c:277-315 | null exactly when memory runs out; otherwise a fresh space with frames of its own that maps the same addresses and holds the same byte at each, and all memory in use before is unchanged |
| Stoplight.NextKeeps | Projects/OS161/kern/asst1/stoplight.c:120-361 | every step of every vehicle keeps segment locks, program points and messages in agreement |
| Stoplight.SegmentsSafe | Projects/OS161/kern/asst1/stoplight.c:120-361 | in every run the enter and leave messages of a segment alternate, each leave comes from the vehicle that entered, and two vehicles are never inside |
| Stoplight.MessagesFollowRoute | Projects/OS161/kern/asst1/stoplight.c:120-361 | in every run the messages of a vehicle of route r, in order, are a beginning of enter r, leave r and, for a left turn, enter r+1, leave r+1 (modulo 3), and all of them once it is done |
| Stoplight.AloneGetsThrough | Projects/OS161/kern/asst1/stoplight.c:120-361 | a vehicle that meets nobody gets through with exactly these messages and leaves all locks free; a car leaves its count as it was, a truck one too low |
| Stoplight.SecondBeforeLeaving | Projects/OS161/kern/asst1/stoplight.c:144-149 | a left-turner of route r holds segments r and r+1 (modulo 3) when it announces leaving its first |
| Stoplight.ProgressUnlessGridlock | Projects/OS161/kern/asst1/stoplight.c:133-238 | when some vehicle holds a segment, some holder can step exactly unless three left-turners of the three routes wait for each other |
| Stoplight.GridlockForever | Projects/OS161/kern/asst1/stoplight.c:133-238 | once a run reaches a gridlock no continuation, whatever the other vehicles do, leaves it |
| Stoplight.GridlockReachable | Projects/OS161/kern/asst1/stoplight.c:133-145 | three left-turning trucks can reach that gridlock |
| Stoplight.NextRouteLock | Projects/OS161/kern/asst1/stoplight.c:124-139 | a route lock is taken only when free and given back only by its holder, when the count is zero |
| Stoplight.RouteLostForever | Projects/OS161/kern/asst1/stoplight.c:124-139 | once a finished vehicle holds a route lock, no continuation gives it back and whoever waits for it waits for good |
| Stoplight.RouteLostReachable | Projects/OS161/kern/asst1/stoplight.c:124-139 | any two cars of the same route can reach that state |

## Left out

- Mancala `evaluate` and `side-total` bodies: the evaluation refers to an unbound variable; it is an arbitrary function here, in range where the source asks for that.
- Mancala printing and `human-make-move`: user interaction; `EveryGameEnds` holds for any mover, also a human one.
- Condition variables, `catlock.c`, `catsem.c` and `sh.c`: stubs without behaviour.
- `thread_panic`, `scheduler_killall` and shutdown: they drop threads on purpose.
- Use after free of locks and semaphores: destroying one that a runnable thread is about to look at again is not a step.
- The wait loops of `P` and `lock_acquire` as single calls: the object's methods make one pass, because other threads run between two passes; whole calls exist as sequences of steps in the transition system.
- Stacks, process ids, exit status, vnode reference counts and `as_activate` on a context switch: not part of the thread model (`DumbvmTlb` has switches of its own).
- `queue` and `array`: only their header contracts, as sequences with a capacity.
- ThreadSystem.Threads.ThreadWakeup: requires the run queue to be within its capacity, which the queue's own contract guarantees.
- DumbvmObjects.AsCopy: requires the parent to be loaded with frames that were handed out, as the invariant over all spaces provides; copying a space that was never prepared, which reads physical page 0, is not modelled.
- DumbvmWorld.StepKeeps: no request is granted although it wraps around, and a region defined after its space was prepared asks for no more pages than it has; `StealKeepsIffFits`, `PrepareKeepsIffSafe` and `LateDefineApartIff` show that these conditions are exact.
- The kernel's own writes to its memory: operations of user programs are proved not to touch it.
- `vm_fault` does not restore the interrupt level when there is no address space; interrupt levels are not modelled there.
- The value of USERSTACK and the number of TLB slots are parameters, because the machine headers are not part of this model.
- `ram_getsize`, `pcb.c`, traps, system calls and LAMEbus: machine-dependent or calling code that is not present.
- Reuse of vehicle ids in the stoplight: a vehicle can finish holding a route lock, and a later thread at the same address could then release it; segment safety does not depend on route locks.
- Stoplight: priority of trucks and freedom from starvation, which the program does not have.
- The three textual copies of each turn in `turnleft` and `turnright` are one program indexed by the route number.
- The REST and TechEntrance projects, `menu.c`, the `bin` tools and the file-system headers: thin wrappers without hard properties.
