/** The TLB as a cache of the current address space's translation, while the address spaces
    themselves change. */
module DumbvmTlb {
  import opened Wrappers
  import opened Dumbvm
  import opened DumbvmWorld

  datatype Entry = Entry(vpage: nat, frame: nat, valid: bool)

  const VM_FAULT_READ := 0
  const VM_FAULT_WRITE := 1
  const VM_FAULT_READONLY := 2

  datatype Outcome = Handled | Efault | Einval | Panic

  /** The assertions at the top of vm_fault. */
  predicate SetUp(sp: Space) {
    && sp.vbase1 != 0 && sp.pbase1 != 0 && sp.npages1 != 0
    && sp.vbase2 != 0 && sp.pbase2 != 0 && sp.npages2 != 0
    && sp.stackpbase != 0
    && Aligned(sp.vbase1) && Aligned(sp.pbase1) && Aligned(sp.vbase2) && Aligned(sp.pbase2) && Aligned(sp.stackpbase)
  }

  /** The lowest slot whose entry is not valid. */
  predicate IsFreeSlot(tlb: seq<Entry>, i: nat) {
    i < |tlb| && !tlb[i].valid && forall j :: 0 <= j < i ==> tlb[j].valid
  }

  predicate Full(tlb: seq<Entry>) {
    forall j :: 0 <= j < |tlb| ==> tlb[j].valid
  }

  /** A valid entry takes the address to the byte. */
  predicate Translates(tlb: seq<Entry>, va: nat, pa: Option<nat>) {
    exists i :: 0 <= i < |tlb| && tlb[i].valid && tlb[i].vpage == PageBase(va) && pa == Some(tlb[i].frame + va % PAGE)
  }

  /** vm_fault: loads the missing translation into the lowest free slot.  The fault types
      other than READ and WRITE, a missing address space, an unmapped page and a full TLB
      leave the TLB as it is. */
  method VmFault(userStack: nat, space: Option<Space>, tlb: array<Entry>, faultType: int, faultAddress: nat)
    returns (res: Outcome)
    requires Layout(userStack)
    modifies tlb
    ensures res != Handled ==> tlb[..] == old(tlb[..])
    ensures faultType == VM_FAULT_READONLY ==> res == Panic
    ensures faultType !in {VM_FAULT_READ, VM_FAULT_WRITE, VM_FAULT_READONLY} ==> res == Einval
    ensures faultType in {VM_FAULT_READ, VM_FAULT_WRITE} && space.None? ==> res == Efault
    ensures faultType in {VM_FAULT_READ, VM_FAULT_WRITE} && space.Some? && !SetUp(space.value) ==> res == Panic
    ensures faultType in {VM_FAULT_READ, VM_FAULT_WRITE} && space.Some? && SetUp(space.value) ==>
              var frame := Lookup(userStack, space.value, PageBase(faultAddress));
              && (res == Handled <==> frame.Some? && !Full(old(tlb[..])))
              && (res == Efault <==> frame.None? || Full(old(tlb[..])))
              && (res == Handled ==> exists i: nat ::
                    IsFreeSlot(old(tlb[..]), i) &&
                    tlb[..] == old(tlb[..])[i := Entry(PageBase(faultAddress), frame.value, true)])
    ensures faultType in {VM_FAULT_READ, VM_FAULT_WRITE} && space.Some? && SetUp(space.value) && Formed(space.value) ==>
              && (res == Handled <==> Mapped(userStack, space.value, faultAddress) && !Full(old(tlb[..])))
              && (res == Handled ==> Translates(tlb[..], faultAddress, Phys(userStack, space.value, faultAddress)))
    ensures Faulted(userStack, space, old(tlb[..]), faultType, faultAddress, tlb[..])
  {
    if space.Some? && Formed(space.value) {
      MappedExactly(userStack, space.value, faultAddress);
    }
    var page := PageBase(faultAddress);
    if faultType == VM_FAULT_READONLY {
      return Panic;
    }
    if faultType != VM_FAULT_READ && faultType != VM_FAULT_WRITE {
      return Einval;
    }
    if space.None? {
      return Efault;
    }
    var sp := space.value;
    if !SetUp(sp) {
      return Panic;
    }
    var frame := Lookup(userStack, sp, page);
    if frame.None? {
      return Efault;
    }
    FrameAligned(userStack, sp, page);
    for i := 0 to tlb.Length
      invariant forall j :: 0 <= j < i ==> tlb[j].valid
      invariant tlb[..] == old(tlb[..])
    {
      if tlb[i].valid {
        continue;
      }
      assert IsFreeSlot(old(tlb[..]), i);
      tlb[i] := Entry(page, frame.value, true);
      assert tlb[..] == old(tlb[..])[i := Entry(page, frame.value, true)];
      return Handled;
    }
    assert Full(old(tlb[..]));
    return Efault;
  }

  /** In every reachable world the assertions at the top of vm_fault fail exactly for a space
      that lacks a region or its frames, or has a region without pages. */
  lemma SetUpExactly(w: World, id: nat)
    requires DumbvmWorld.Inv(w) && id in w.spaces
    ensures var sp := w.spaces[id];
            SetUp(sp) <==> Loaded(sp) && sp.vbase1 != 0 && sp.vbase2 != 0 && sp.npages1 > 0 && sp.npages2 > 0
  {
    var sp := w.spaces[id];
    assert SpaceOk(w, id);
    if Loaded(sp) {
      AllocatedInside(w.ram, sp);
      assert Aligned(PBase(sp, First)) && Aligned(PBase(sp, Second)) && Aligned(PBase(sp, Stack));
    }
  }

  /** A part of a program: where it goes and how long it is.  It touches neither the first
      page of the address space nor the last one. */
  predicate Part(vaddr: nat, sz: nat) {
    PAGE <= vaddr && 0 < sz && vaddr + sz + PAGE <= WORD
  }

  /** What as_define_region makes of a part holds all of it. */
  lemma PartWithin(vaddr: nat, sz: nat, va: nat)
    requires Part(vaddr, sz)
    ensures var base, npages := PageBase(vaddr), RegionPages(vaddr, sz);
            && 0 < base < WORD && Aligned(base) && 0 < npages
            && (vaddr <= va < vaddr + sz ==> Within(va, base, npages))
  {
    RegionCoversIffFits(vaddr, sz);
  }

  /** An empty space in which the two parts have been defined. */
  function TwoParts(va1: nat, sz1: nat, va2: nat, sz2: nat): (sp: Space)
    requires Part(va1, sz1) && Part(va2, sz2)
    ensures sp.vbase1 == PageBase(va1) && sp.npages1 == RegionPages(va1, sz1)
    ensures sp.vbase2 == PageBase(va2) && sp.npages2 == RegionPages(va2, sz2)
  {
    PartWithin(va1, sz1, va1);
    Define(Define(EMPTY_SPACE, va1, sz1).value, va2, sz2).value
  }

  /** A program of two parts can be run once it is loaded: vm_fault's assertions hold, and
      every byte of the two parts and of the stack is mapped. */
  lemma LoadedProgramRuns(userStack: nat, ram: Ram, va1: nat, sz1: nat, va2: nat, sz2: nat, va: nat)
    requires Layout(userStack) && Sane(ram) && Part(va1, sz1) && Part(va2, sz2)
    requires SafeSpace(ram, TwoParts(va1, sz1, va2, sz2)) && Prepare(ram, TwoParts(va1, sz1, va2, sz2)).2
    ensures var sp := Prepare(ram, TwoParts(va1, sz1, va2, sz2)).1;
            && SetUp(sp) && Formed(sp)
            && (va1 <= va < va1 + sz1 || va2 <= va < va2 + sz2 || OnStack(userStack, va) ==>
                  Mapped(userStack, sp, va) && Phys(userStack, sp, va).Some?)
  {
    var s0 := TwoParts(va1, sz1, va2, sz2);
    PartWithin(va1, sz1, va);
    PartWithin(va2, sz2, va);
    PreparedSetUp(ram, s0);
    MappedExactly(userStack, Prepare(ram, s0).1, va);
  }

  lemma PreparedSetUp(ram: Ram, sp: Space)
    requires Sane(ram) && SafeSpace(ram, sp) && Prepare(ram, sp).2
    requires Formed(sp) && sp.vbase1 != 0 && sp.vbase2 != 0 && sp.npages1 != 0 && sp.npages2 != 0
    ensures var sp' := Prepare(ram, sp).1;
            && SetUp(sp') && Formed(sp')
            && sp'.vbase1 == sp.vbase1 && sp'.npages1 == sp.npages1 && sp'.vbase2 == sp.vbase2 && sp'.npages2 == sp.npages2
  {
    PrepareFresh(ram, sp);
    var (ram', sp', _) := Prepare(ram, sp);
    AllocatedInside(ram', sp');
    assert Aligned(PBase(sp', First)) && Aligned(PBase(sp', Second)) && Aligned(PBase(sp', Stack));
  }

  /** The assertion on the computed physical address cannot fail. */
  lemma FrameAligned(userStack: nat, sp: Space, page: nat)
    requires Layout(userStack) && SetUp(sp) && Aligned(page) && Lookup(userStack, sp, page).Some?
    ensures Aligned(Lookup(userStack, sp, page).value)
  {
  }

  /** as_activate: invalidates every slot, whatever the address space. */
  method AsActivate(tlb: array<Entry>)
    modifies tlb
    ensures Cleared(tlb[..])
  {
    for i := 0 to tlb.Length
      invariant forall j :: 0 <= j < i ==> !tlb[j].valid
    {
      tlb[i] := Entry(i, 0, false);
    }
  }

  predicate Cleared(tlb: seq<Entry>) {
    forall i :: 0 <= i < |tlb| ==> !tlb[i].valid
  }

  /** How a fault changes the TLB. */
  ghost predicate Faulted(userStack: nat, space: Option<Space>, tlb: seq<Entry>, faultType: int, addr: nat, tlb': seq<Entry>)
    requires Layout(userStack)
  {
    if faultType in {VM_FAULT_READ, VM_FAULT_WRITE} && space.Some? && SetUp(space.value)
       && Lookup(userStack, space.value, PageBase(addr)).Some? && !Full(tlb)
    then exists i: nat :: IsFreeSlot(tlb, i) &&
           tlb' == tlb[i := Entry(PageBase(addr), Lookup(userStack, space.value, PageBase(addr)).value, true)]
    else tlb' == tlb
  }

  // ---------------------------------------------------------------------
  // Runs that mix operations on address spaces, context switches and faults

  /** `cur` is the address space of the current thread, if it has one. */
  datatype Machine = Machine(w: World, cur: Option<nat>, tlb: seq<Entry>)

  datatype Event =
    | Kernel(op: Op)
    | Switch(to: Option<nat>)
    | Fault(faultType: int, addr: nat)

  function CurSpace(m: Machine): Option<Space> {
    if m.cur.Some? && m.cur.value in m.w.spaces then Some(m.w.spaces[m.cur.value]) else None
  }

  /** A switch to a thread with an address space, in whatever state it is, activates it; a
      switch to one without leaves the TLB alone, and so does a thread that destroys its own
      space.  A fault is taken only for a page that no valid entry translates. */
  ghost predicate Step(userStack: nat, m: Machine, e: Event, m': Machine)
    requires Layout(userStack) && DumbvmWorld.Inv(m.w)
  {
    match e
    case Kernel(op) =>
      && Enabled(userStack, m.w, op) && m'.w == Apply(userStack, m.w, op) && m'.tlb == m.tlb
      && m'.cur == if op.Destroy? && m.cur == Some(op.id) then None else m.cur
    case Switch(None) => m' == m.(cur := None)
    case Switch(Some(id)) =>
      id in m.w.spaces && m'.w == m.w && m'.cur == Some(id) && |m'.tlb| == |m.tlb| && Cleared(m'.tlb)
    case Fault(faultType, addr) =>
      && (forall i :: 0 <= i < |m.tlb| && m.tlb[i].valid ==> m.tlb[i].vpage != PageBase(addr))
      && m'.w == m.w && m'.cur == m.cur && Faulted(userStack, CurSpace(m), m.tlb, faultType, addr, m'.tlb)
  }

  /** No page has two valid entries. */
  predicate Unique(tlb: seq<Entry>) {
    forall i, j :: 0 <= i < j < |tlb| && tlb[i].valid && tlb[j].valid ==> tlb[i].vpage != tlb[j].vpage
  }

  /** Every valid entry is what the space, which is set up, says about its page. */
  predicate Agrees(userStack: nat, sp: Space, tlb: seq<Entry>)
    requires Layout(userStack)
  {
    forall i :: 0 <= i < |tlb| && tlb[i].valid ==>
      SetUp(sp) && Aligned(tlb[i].vpage) && Lookup(userStack, sp, tlb[i].vpage) == Some(tlb[i].frame)
  }

  predicate Coherent(userStack: nat, m: Machine)
    requires Layout(userStack)
  {
    && DumbvmWorld.Inv(m.w) && Unique(m.tlb)
    && (m.cur.Some? ==> m.cur.value in m.w.spaces && Agrees(userStack, m.w.spaces[m.cur.value], m.tlb))
  }

  /** Nothing but its destruction changes a space that is set up. */
  lemma SetUpStays(userStack: nat, w: World, op: Op, b: nat)
    requires Layout(userStack) && DumbvmWorld.Inv(w) && Enabled(userStack, w, op) && b in w.spaces && op != Destroy(b)
    ensures var w' := Apply(userStack, w, op); b in w'.spaces && (SetUp(w.spaces[b]) ==> w'.spaces[b] == w.spaces[b])
  {
  }

  lemma FaultCoherent(userStack: nat, m: Machine, faultType: int, addr: nat, m': Machine)
    requires Layout(userStack) && Coherent(userStack, m) && Step(userStack, m, Fault(faultType, addr), m')
    ensures Coherent(userStack, m')
  {
  }

  lemma StepCoherent(userStack: nat, m: Machine, e: Event, m': Machine)
    requires Layout(userStack) && Coherent(userStack, m) && Step(userStack, m, e, m')
    ensures Coherent(userStack, m')
  {
    match e
    case Kernel(op) =>
      StepKeeps(userStack, m.w, op);
      if m'.cur.Some? {
        SetUpStays(userStack, m.w, op, m.cur.value);
      }
    case Switch(_) =>
    case Fault(faultType, addr) => FaultCoherent(userStack, m, faultType, addr, m');
  }

  /** Consecutive states are a step apart (steps are defined where the invariant holds, which
      below is everywhere). */
  ghost predicate IsRun(userStack: nat, ms: seq<Machine>, es: seq<Event>)
    requires Layout(userStack)
  {
    |ms| == |es| + 1 &&
    forall i :: 0 <= i < |es| ==> DumbvmWorld.Inv(ms[i].w) ==> Step(userStack, ms[i], es[i], ms[i + 1])
  }

  /** Over any run from an empty TLB, whatever happens to the address spaces: the valid
      entries are the current space's translation, no page has two of them, and distinct
      pages go to distinct frames. */
  lemma {:induction false} RunCoherent(userStack: nat, ms: seq<Machine>, es: seq<Event>)
    requires Layout(userStack) && IsRun(userStack, ms, es)
    requires DumbvmWorld.Inv(ms[0].w) && ms[0].cur.None? && Cleared(ms[0].tlb)
    ensures Coherent(userStack, ms[|es|])
    ensures var m := ms[|es|];
            m.cur.Some? ==> forall i, j :: 0 <= i < j < |m.tlb| && m.tlb[i].valid && m.tlb[j].valid ==>
              m.tlb[i].frame != m.tlb[j].frame
  {
    if es != [] {
      var n := |es| - 1;
      RunCoherent(userStack, ms[..n + 1], es[..n]);
      StepCoherent(userStack, ms[n], es[n], ms[n + 1]);
    }
    var m := ms[|es|];
    if m.cur.Some? {
      var sp := m.w.spaces[m.cur.value];
      assert SpaceOk(m.w, m.cur.value);
      forall i, j | 0 <= i < j < |m.tlb| && m.tlb[i].valid && m.tlb[j].valid ensures m.tlb[i].frame != m.tlb[j].frame {
        FramesDistinct(userStack, sp, m.tlb[i].vpage, m.tlb[j].vpage);
      }
    }
  }

  /** What the hardware does with an address that a valid entry translates is what the
      address space means: a load returns the byte that the space reads there, and a store
      is a write through the space. */
  lemma HitIsAccess(userStack: nat, m: Machine, i: nat, va: nat, byte: nat)
    requires Layout(userStack) && Coherent(userStack, m) && m.cur.Some?
    requires i < |m.tlb| && m.tlb[i].valid && m.tlb[i].vpage == PageBase(va)
    ensures var id, pa := m.cur.value, m.tlb[i].frame + va % PAGE;
            && Enabled(userStack, m.w, Write(id, va, byte))
            && pa < |m.w.ram.mem| && m.w.ram.mem[pa] == Read(userStack, m.w, id, va)
            && m.w.ram.mem[pa := byte] == Apply(userStack, m.w, Write(id, va, byte)).ram.mem
  {
    assert Phys(userStack, m.w.spaces[m.cur.value], va) == Some(m.tlb[i].frame + va % PAGE);
    MappedInMemory(userStack, m.w, m.cur.value, va);
  }
}
