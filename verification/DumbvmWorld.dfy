/** All address spaces over one physical memory: they behave as if each had a memory of
    its own. */
module DumbvmWorld {
  import opened Wrappers
  import opened Dumbvm

  datatype World = World(ram: Ram, spaces: map<nat, Space>)

  datatype Op =
    | Create(id: nat)
    | DefineRegion(id: nat, vaddr: nat, sz: nat)
    | PrepareLoad(id: nat)
    | Copy(id: nat, child: nat)
    | Write(id: nat, va: nat, byte: nat)
    | KernelAlloc(npages: nat)
    | Destroy(id: nat)
  {
    /** The operation may change or remove the description of space `b`. */
    predicate Touches(b: nat) {
      (DefineRegion? || PrepareLoad? || Destroy?) && id == b
    }
  }

  /** All three frame ranges have been allocated. */
  predicate Loaded(sp: Space) {
    sp.pbase1 != 0 && sp.pbase2 != 0 && sp.stackpbase != 0
  }

  predicate Unloaded(sp: Space) {
    sp.pbase1 == 0 && sp.pbase2 == 0 && sp.stackpbase == 0
  }

  /** The request is refused or does not wrap around. */
  predicate Safe(ram: Ram, npages: nat) {
    Steal(ram, npages).1 == 0 || Fits(ram, npages)
  }

  /** So are all requests that preparing the space makes (the stack is small). */
  predicate SafeSpace(ram: Ram, sp: Space) {
    Safe(ram, sp.npages1) && (Steal(ram, sp.npages1).1 != 0 ==> Safe(Steal(ram, sp.npages1).0, sp.npages2))
  }

  /** A definition after the frames were allocated asks for no more pages than the region
      it fills already has. */
  predicate FitsLate(sp: Space, vaddr: nat, sz: nat) {
    Filled(sp).Some? ==> RegionPages(vaddr, sz) <= NPages(sp, Filled(sp).value)
  }

  /** Frames are allocated once, as as_prepare_load asserts; regions are defined before that
      or fit the frames; only mapped addresses are written. */
  predicate Enabled(userStack: nat, w: World, op: Op)
    requires Layout(userStack)
  {
    match op
    case Create(id) => id !in w.spaces
    case DefineRegion(id, vaddr, sz) =>
      id in w.spaces && vaddr < WORD && sz < WORD && (Loaded(w.spaces[id]) ==> FitsLate(w.spaces[id], vaddr, sz))
    case PrepareLoad(id) =>
      id in w.spaces && Unloaded(w.spaces[id]) && SafeSpace(w.ram, w.spaces[id])
    case Copy(id, child) => id in w.spaces && Loaded(w.spaces[id]) && child !in w.spaces
    case Write(id, va, byte) =>
      id in w.spaces && Loaded(w.spaces[id]) && Phys(userStack, w.spaces[id], va).Some?
    case KernelAlloc(npages) => Safe(w.ram, npages)
    case Destroy(id) => id in w.spaces
  }

  /** The space that as_copy starts from: the parent's regions without frames. */
  function Shape(sp: Space): Space {
    sp.(pbase1 := 0, pbase2 := 0, stackpbase := 0)
  }

  // ---------------------------------------------------------------------
  // The invariant

  /** The pages lie in a range that was handed out, from its beginning. */
  predicate Granted(ram: Ram, base: nat, npages: nat) {
    exists i :: 0 <= i < |ram.grants| && ram.grants[i].addr == base && npages <= ram.grants[i].npages
  }

  /** The frames of each region were handed out. */
  predicate Allocated(ram: Ram, sp: Space) {
    forall r: Region :: Granted(ram, PBase(sp, r), NPages(sp, r))
  }

  /** So they are page-aligned, above the kernel and below the allocator's pointer. */
  lemma AllocatedInside(ram: Ram, sp: Space)
    requires Sane(ram) && Allocated(ram, sp)
    ensures forall r: Region ::
              Aligned(PBase(sp, r)) && ram.base <= PBase(sp, r) && PBase(sp, r) + Bytes(NPages(sp, r)) <= ram.first
  {
    forall r: Region
      ensures Aligned(PBase(sp, r)) && ram.base <= PBase(sp, r) && PBase(sp, r) + Bytes(NPages(sp, r)) <= ram.first
    {
      assert Granted(ram, PBase(sp, r), NPages(sp, r));
    }
  }

  /** What was handed out stays handed out. */
  lemma AllocatedLater(ram: Ram, ram': Ram, sp: Space)
    requires Allocated(ram, sp) && ram.grants <= ram'.grants
    ensures Allocated(ram', sp)
  {
    forall r: Region ensures Granted(ram', PBase(sp, r), NPages(sp, r)) {
      GrantedLater(ram, ram', PBase(sp, r), NPages(sp, r));
    }
  }

  /** Memory grows no longer, the allocator only moves up, and its history only grows. */
  predicate Later(ram: Ram, ram': Ram) {
    ram'.base == ram.base && ram'.last == ram.last && ram.first <= ram'.first && ram.grants <= ram'.grants
  }

  predicate AllApart(s: Space, t: Space) {
    forall r: Region, q: Region :: Apart(s, r, t, q)
  }

  predicate SpaceOk(w: World, id: nat)
    requires id in w.spaces
  {
    var sp := w.spaces[id];
    Formed(sp) && (Loaded(sp) ==> Allocated(w.ram, sp) && SelfApart(sp))
  }

  /** No two loaded spaces share a frame. */
  predicate Disjoint(w: World) {
    forall a, b :: a in w.spaces && b in w.spaces && a != b && Loaded(w.spaces[a]) && Loaded(w.spaces[b]) ==>
      AllApart(w.spaces[a], w.spaces[b])
  }

  predicate Inv(w: World) {
    && Sane(w.ram)
    && (forall id :: id in w.spaces ==> SpaceOk(w, id))
    && Disjoint(w)
  }

  // ---------------------------------------------------------------------
  // Allocation

  lemma StealSafe(ram: Ram, npages: nat)
    requires Sane(ram) && Safe(ram, npages)
    ensures var (ram', p) := Steal(ram, npages);
            && Sane(ram') && ram'.mem == ram.mem && Later(ram, ram')
            && (p != 0 ==> p == ram.first && p + Bytes(npages) == ram'.first && Granted(ram', p, npages))
            && (p == 0 ==> ram' == ram) && (p == 0 <==> ram.first + Bytes(npages) > ram.last)
  {
    StealKeepsIffFits(ram, npages);
    var (ram', p) := Steal(ram, npages);
    if Fits(ram, npages) {
      NoWrap(ram, npages);
    }
    if p != 0 {
      assert ram'.grants[|ram.grants|] == Grant(p, npages);
    }
  }

  /** A range that was handed out stays so. */
  lemma GrantedLater(ram: Ram, ram': Ram, base: nat, npages: nat)
    requires Granted(ram, base, npages) && ram.grants <= ram'.grants
    ensures Granted(ram', base, npages)
  {
    var i :| 0 <= i < |ram.grants| && ram.grants[i].addr == base && npages <= ram.grants[i].npages;
    assert ram'.grants[i] == ram.grants[i];
  }

  /** Whatever comes of it, preparing keeps the allocator's history. */
  lemma PrepareLater(ram: Ram, sp: Space)
    requires Sane(ram) && SafeSpace(ram, sp)
    ensures var (ram', sp', ok) := Prepare(ram, sp);
            && Sane(ram') && ram'.mem == ram.mem && Later(ram, ram')
            && sp'.npages1 == sp.npages1 && sp'.npages2 == sp.npages2
            && sp'.vbase1 == sp.vbase1 && sp'.vbase2 == sp.vbase2
  {
    StealSafe(ram, sp.npages1);
    var (ram1, p1) := Steal(ram, sp.npages1);
    if p1 != 0 {
      StealSafe(ram1, sp.npages2);
      var (ram2, p2) := Steal(ram1, sp.npages2);
      if p2 != 0 {
        StealSafe(ram2, STACKPAGES);
      }
    }
  }

  /** The three ranges follow one another and are recorded. */
  lemma PrepareAdjacent(ram: Ram, sp: Space)
    requires Sane(ram) && SafeSpace(ram, sp) && Prepare(ram, sp).2
    ensures var (ram', sp', _) := Prepare(ram, sp);
            && 0 < ram.first == sp'.pbase1 && sp'.pbase2 == sp'.pbase1 + Bytes(sp.npages1)
            && sp'.stackpbase == sp'.pbase2 + Bytes(sp.npages2)
            && Granted(ram', sp'.pbase1, sp.npages1) && Granted(ram', sp'.pbase2, sp.npages2)
            && Granted(ram', sp'.stackpbase, STACKPAGES)
  {
    StealSafe(ram, sp.npages1);
    var (ram1, p1) := Steal(ram, sp.npages1);
    StealSafe(ram1, sp.npages2);
    var (ram2, p2) := Steal(ram1, sp.npages2);
    StealSafe(ram2, STACKPAGES);
    var ram3 := Steal(ram2, STACKPAGES).0;
    GrantedLater(ram1, ram3, p1, sp.npages1);
    GrantedLater(ram2, ram3, p2, sp.npages2);
  }

  /** Freshly prepared frames are aligned, disjoint from each other, and lie between the
      old and the new allocator pointer. */
  lemma PrepareFresh(ram: Ram, sp: Space)
    requires Sane(ram) && SafeSpace(ram, sp)
    ensures var (ram', sp', ok) := Prepare(ram, sp);
            && Sane(ram') && ram'.mem == ram.mem && Later(ram, ram')
            && sp'.npages1 == sp.npages1 && sp'.npages2 == sp.npages2
            && sp'.vbase1 == sp.vbase1 && sp'.vbase2 == sp.vbase2
            && (ok ==> Loaded(sp') && Allocated(ram', sp') && SelfApart(sp')
                       && forall r: Region :: ram.first <= PBase(sp', r))
  {
    PrepareLater(ram, sp);
    if Prepare(ram, sp).2 {
      PrepareAdjacent(ram, sp);
    }
  }

  /** Preparing fails only for want of memory, and then not all frames are set. */
  lemma PrepareFails(ram: Ram, sp: Space)
    requires Sane(ram) && SafeSpace(ram, sp) && Unloaded(sp)
    ensures var (ram', sp', ok) := Prepare(ram, sp);
            && (ok <==> ram.first + Bytes(sp.npages1) + Bytes(sp.npages2) + Bytes(STACKPAGES) <= ram.last)
            && (!ok ==> !Loaded(sp'))
  {
    StealSafe(ram, sp.npages1);
    var (ram1, p1) := Steal(ram, sp.npages1);
    if p1 != 0 {
      StealSafe(ram1, sp.npages2);
      var (ram2, p2) := Steal(ram1, sp.npages2);
      if p2 != 0 {
        StealSafe(ram2, STACKPAGES);
      }
    }
  }

  /** A range that a wrapping request was granted reaches beyond memory for ever after. */
  lemma WrappedStays(ram: Ram, npages: nat, later: Ram)
    requires Sane(ram) && !Safe(ram, npages) && Steal(ram, npages).0.grants <= later.grants
    ensures !Sane(later)
  {
    var ram' := Steal(ram, npages).0;
    assert ram'.grants[|ram.grants|] == Grant(ram.first, npages);
    assert later.grants[|ram.grants|] == Grant(ram.first, npages);
  }

  /** Preparing keeps all ranges handed out inside RAM and apart exactly when none of its
      requests is granted although it wraps around. */
  lemma PrepareKeepsIffSafe(ram: Ram, sp: Space)
    requires Sane(ram)
    ensures Sane(Prepare(ram, sp).0) <==> SafeSpace(ram, sp)
  {
    var ram' := Prepare(ram, sp).0;
    if SafeSpace(ram, sp) {
      PrepareLater(ram, sp);
    } else if !Safe(ram, sp.npages1) {
      WrappedStays(ram, sp.npages1, ram');
    } else {
      StealSafe(ram, sp.npages1);
      WrappedStays(Steal(ram, sp.npages1).0, sp.npages2, ram');
    }
  }

  /** A loaded space can be copied without wrap-around. */
  lemma LoadedIsSafe(w: World, id: nat)
    requires Inv(w) && id in w.spaces && Loaded(w.spaces[id])
    ensures SafeSpace(w.ram, Shape(w.spaces[id]))
  {
    var sp := w.spaces[id];
    assert SpaceOk(w, id);
    AllocatedInside(w.ram, sp);
    assert PBase(sp, First) + Bytes(NPages(sp, First)) <= w.ram.first;
    assert PBase(sp, Second) + Bytes(NPages(sp, Second)) <= w.ram.first;
  }

  // ---------------------------------------------------------------------
  // Steps

  predicate CanCopy(w: World, id: nat)
    requires id in w.spaces
  {
    Prepare(w.ram, Shape(w.spaces[id])).2
  }

  /** The old and the new frames of a copy lie inside memory, the new ones above all
      allocated ones. */
  lemma CopyFits(w: World, id: nat)
    requires Inv(w) && id in w.spaces && Loaded(w.spaces[id]) && CanCopy(w, id)
    ensures var parent := w.spaces[id];
            var (ram', child, _) := Prepare(w.ram, Shape(parent));
            && Sane(ram') && ram'.mem == w.ram.mem && Later(w.ram, ram')
            && Formed(child) && Loaded(child) && Allocated(ram', child) && SelfApart(child)
            && forall r: Region ::
                 && NPages(child, r) == NPages(parent, r)
                 && PBase(parent, r) + Bytes(NPages(parent, r)) <= w.ram.first <= PBase(child, r)
                 && PBase(child, r) + Bytes(NPages(parent, r)) <= ram'.first <= |ram'.mem|
  {
    var parent := w.spaces[id];
    LoadedIsSafe(w, id);
    assert SpaceOk(w, id);
    PrepareFresh(w.ram, Shape(parent));
    var (ram', child, _) := Prepare(w.ram, Shape(parent));
    FramesFit(w.ram, parent, ram', child);
  }

  lemma FramesFit(ram: Ram, parent: Space, ram': Ram, child: Space)
    requires Sane(ram) && Sane(ram') && Allocated(ram, parent) && Allocated(ram', child) && Shape(child) == Shape(parent)
    requires forall r: Region :: ram.first <= PBase(child, r)
    ensures forall r: Region ::
              && NPages(child, r) == NPages(parent, r)
              && PBase(parent, r) + Bytes(NPages(parent, r)) <= ram.first <= PBase(child, r)
              && PBase(child, r) + Bytes(NPages(parent, r)) <= ram'.first <= |ram'.mem|
  {
    AllocatedInside(ram, parent);
    AllocatedInside(ram', child);
  }

  /** as_copy. On failure the frames taken so far are lost and there is no new space. */
  function ApplyCopy(w: World, id: nat, child: nat): World
    requires Inv(w) && id in w.spaces && Loaded(w.spaces[id]) && child !in w.spaces
  {
    var parent := w.spaces[id];
    var (ram', sp', ok) := Prepare(w.ram, Shape(parent));
    if !ok then w.(ram := ram')
    else
      CopyFits(w, id);
      assert PBase(parent, First) == parent.pbase1 && PBase(parent, Second) == parent.pbase2;
      assert PBase(sp', First) == sp'.pbase1 && PBase(sp', Second) == sp'.pbase2;
      assert PBase(parent, Stack) == parent.stackpbase && PBase(sp', Stack) == sp'.stackpbase;
      World(ram'.(mem := CopyFrames(ram'.mem, parent, sp')), w.spaces[child := sp'])
  }

  lemma MappedInMemory(userStack: nat, w: World, id: nat, va: nat)
    requires Layout(userStack) && Inv(w) && id in w.spaces && Loaded(w.spaces[id])
    requires Phys(userStack, w.spaces[id], va).Some?
    ensures w.ram.base <= Phys(userStack, w.spaces[id], va).value < w.ram.first <= |w.ram.mem|
  {
    var sp := w.spaces[id];
    assert SpaceOk(w, id);
    PhysInFrames(userStack, sp, va);
    AllocatedInside(w.ram, sp);
    var r := RegionOf(userStack, sp, PageBase(va)).value;
    assert w.ram.base <= PBase(sp, r) && PBase(sp, r) + Bytes(NPages(sp, r)) <= w.ram.first;
  }

  function ApplyWrite(userStack: nat, w: World, id: nat, va: nat, byte: nat): World
    requires Layout(userStack) && Inv(w) && id in w.spaces && Loaded(w.spaces[id])
    requires Phys(userStack, w.spaces[id], va).Some?
  {
    MappedInMemory(userStack, w, id, va);
    w.(ram := w.ram.(mem := w.ram.mem[Phys(userStack, w.spaces[id], va).value := byte]))
  }

  function Apply(userStack: nat, w: World, op: Op): World
    requires Layout(userStack) && Inv(w) && Enabled(userStack, w, op)
  {
    match op
    case Create(id) => w.(spaces := w.spaces[id := EMPTY_SPACE])
    case DefineRegion(id, vaddr, sz) =>
      (match Define(w.spaces[id], vaddr, sz)
       case None => w
       case Some(sp) => w.(spaces := w.spaces[id := sp]))
    case PrepareLoad(id) =>
      var (ram', sp', _) := Prepare(w.ram, w.spaces[id]);
      World(ram', w.spaces[id := sp'])
    case Copy(id, child) => ApplyCopy(w, id, child)
    case Write(id, va, byte) => ApplyWrite(userStack, w, id, va, byte)
    case KernelAlloc(npages) => w.(ram := Steal(w.ram, npages).0)
    case Destroy(id) => w.(spaces := w.spaces - {id})
  }

  // ---------------------------------------------------------------------
  // Every step keeps the invariant

  /** A space all of whose frames are new shares none with an older space. */
  lemma NewIsApart(s: Space, t: Space, limit: nat)
    requires forall r: Region :: PBase(s, r) + Bytes(NPages(s, r)) <= limit
    requires forall r: Region :: limit <= PBase(t, r)
    ensures AllApart(s, t) && AllApart(t, s)
  {
    forall r: Region, q: Region ensures Apart(s, r, t, q) && Apart(t, q, s, r) {
      assert PBase(s, r) + Bytes(NPages(s, r)) <= limit <= PBase(t, q);
    }
  }

  lemma StaysOk(w: World, w': World, a: nat)
    requires a in w.spaces && SpaceOk(w, a) && a in w'.spaces && w'.spaces[a] == w.spaces[a] && Later(w.ram, w'.ram)
    ensures SpaceOk(w', a)
  {
    if Loaded(w.spaces[a]) {
      AllocatedLater(w.ram, w'.ram, w.spaces[a]);
    }
  }

  /** Adding a well-formed space, loaded with new frames if at all, keeps the invariant. */
  lemma AddSpaceKeeps(w: World, w': World, id: nat)
    requires Inv(w) && id in w'.spaces && w'.spaces == w.spaces[id := w'.spaces[id]]
    requires Sane(w'.ram) && Later(w.ram, w'.ram) && SpaceOk(w', id)
    requires Loaded(w'.spaces[id]) ==> forall r: Region :: w.ram.first <= PBase(w'.spaces[id], r)
    ensures Inv(w')
  {
    forall a | a in w'.spaces ensures SpaceOk(w', a) {
      if a != id {
        StaysOk(w, w', a);
      }
    }
    forall a, b | a in w'.spaces && b in w'.spaces && a != b && Loaded(w'.spaces[a]) && Loaded(w'.spaces[b])
      ensures AllApart(w'.spaces[a], w'.spaces[b])
    {
      if a == id {
        assert SpaceOk(w, b);
        AllocatedInside(w.ram, w.spaces[b]);
        NewIsApart(w.spaces[b], w'.spaces[a], w.ram.first);
      } else if b == id {
        assert SpaceOk(w, a);
        AllocatedInside(w.ram, w.spaces[a]);
        NewIsApart(w.spaces[a], w'.spaces[b], w.ram.first);
      }
    }
  }

  /** Changing memory contents, taking more frames or dropping a space keeps it too. */
  lemma ShrinkKeeps(w: World, w': World)
    requires Inv(w) && Sane(w'.ram) && Later(w.ram, w'.ram)
    requires forall id :: id in w'.spaces ==> id in w.spaces && w'.spaces[id] == w.spaces[id]
    ensures Inv(w')
  {
    forall a | a in w'.spaces ensures SpaceOk(w', a) {
      StaysOk(w, w', a);
    }
  }

  /** Shrinking a region keeps frames where they are, or apart from all others. */
  lemma DefinedApart(sp: Space, t: Space, vaddr: nat, sz: nat)
    requires Define(sp, vaddr, sz).Some? && FitsLate(sp, vaddr, sz)
    ensures var sp' := Define(sp, vaddr, sz).value;
            && (SelfApart(sp) ==> SelfApart(sp'))
            && (AllApart(sp, t) ==> AllApart(sp', t)) && (AllApart(t, sp) ==> AllApart(t, sp'))
            && forall r: Region :: PBase(sp', r) == PBase(sp, r) && NPages(sp', r) <= NPages(sp, r)
  {
    var sp' := Define(sp, vaddr, sz).value;
    forall r: Region, q: Region
      ensures Apart(sp, r, t, q) ==> Apart(sp', r, t, q)
      ensures Apart(t, q, sp, r) ==> Apart(t, q, sp', r)
    {
    }
  }

  lemma DefineKeeps(w: World, id: nat, vaddr: nat, sz: nat)
    requires Inv(w) && id in w.spaces && vaddr < WORD && Define(w.spaces[id], vaddr, sz).Some?
    requires Loaded(w.spaces[id]) ==> FitsLate(w.spaces[id], vaddr, sz)
    ensures Inv(w.(spaces := w.spaces[id := Define(w.spaces[id], vaddr, sz).value]))
  {
    var sp, sp' := w.spaces[id], Define(w.spaces[id], vaddr, sz).value;
    var w' := w.(spaces := w.spaces[id := sp']);
    assert SpaceOk(w, id);
    if !Loaded(sp) {
      AddSpaceKeeps(w, w', id);
    } else {
      LateDefineKeeps(w, id, vaddr, sz);
    }
  }

  lemma LateDefineOk(w: World, id: nat, vaddr: nat, sz: nat)
    requires id in w.spaces && SpaceOk(w, id) && vaddr < WORD && Define(w.spaces[id], vaddr, sz).Some?
    requires Loaded(w.spaces[id]) && FitsLate(w.spaces[id], vaddr, sz)
    ensures SpaceOk(w.(spaces := w.spaces[id := Define(w.spaces[id], vaddr, sz).value]), id)
  {
    var sp, sp' := w.spaces[id], Define(w.spaces[id], vaddr, sz).value;
    DefinedApart(sp, sp, vaddr, sz);
    forall r: Region ensures Granted(w.ram, PBase(sp', r), NPages(sp', r)) {
      assert Granted(w.ram, PBase(sp, r), NPages(sp, r));
    }
  }

  lemma LateDefineKeeps(w: World, id: nat, vaddr: nat, sz: nat)
    requires Inv(w) && id in w.spaces && vaddr < WORD && Define(w.spaces[id], vaddr, sz).Some?
    requires Loaded(w.spaces[id]) && FitsLate(w.spaces[id], vaddr, sz)
    ensures Inv(w.(spaces := w.spaces[id := Define(w.spaces[id], vaddr, sz).value]))
  {
    var sp := w.spaces[id];
    var w' := w.(spaces := w.spaces[id := Define(sp, vaddr, sz).value]);
    LateDefineOk(w, id, vaddr, sz);
    forall a | a in w'.spaces ensures SpaceOk(w', a) {
      if a != id {
        StaysOk(w, w', a);
      }
    }
    forall a, b | a in w'.spaces && b in w'.spaces && a != b && Loaded(w'.spaces[a]) && Loaded(w'.spaces[b])
      ensures AllApart(w'.spaces[a], w'.spaces[b])
    {
      DefinedApart(sp, if a == id then w.spaces[b] else w.spaces[a], vaddr, sz);
    }
  }

  lemma PrepareKeeps(w: World, id: nat)
    requires Inv(w) && id in w.spaces && Unloaded(w.spaces[id])
    requires SafeSpace(w.ram, w.spaces[id])
    ensures var (ram', sp', _) := Prepare(w.ram, w.spaces[id]); Inv(World(ram', w.spaces[id := sp']))
  {
    assert SpaceOk(w, id);
    PrepareFresh(w.ram, w.spaces[id]);
    PrepareFails(w.ram, w.spaces[id]);
    var (ram', sp', _) := Prepare(w.ram, w.spaces[id]);
    AddSpaceKeeps(w, World(ram', w.spaces[id := sp']), id);
  }

  /** What a successful copy adds is a well-formed space. */
  lemma CopyOk(w: World, id: nat, child: nat)
    requires Inv(w) && id in w.spaces && Loaded(w.spaces[id]) && child !in w.spaces && CanCopy(w, id)
    ensures var w' := ApplyCopy(w, id, child);
            && Sane(w'.ram) && Later(w.ram, w'.ram)
            && child in w'.spaces && w'.spaces == w.spaces[child := w'.spaces[child]] && SpaceOk(w', child)
            && forall r: Region :: w.ram.first <= PBase(w'.spaces[child], r)
  {
    CopyFits(w, id);
    var (ram', sp', _) := Prepare(w.ram, Shape(w.spaces[id]));
    AllocatedLater(ram', ApplyCopy(w, id, child).ram, sp');
  }

  lemma CopyKeeps(w: World, id: nat, child: nat)
    requires Inv(w) && id in w.spaces && Loaded(w.spaces[id]) && child !in w.spaces
    ensures Inv(ApplyCopy(w, id, child))
  {
    var w' := ApplyCopy(w, id, child);
    if CanCopy(w, id) {
      CopyOk(w, id, child);
      AddSpaceKeeps(w, w', child);
    } else {
      LoadedIsSafe(w, id);
      PrepareLater(w.ram, Shape(w.spaces[id]));
      ShrinkKeeps(w, w');
    }
  }

  lemma WriteKeeps(userStack: nat, w: World, id: nat, va: nat, byte: nat)
    requires Layout(userStack) && Inv(w) && id in w.spaces && Loaded(w.spaces[id])
    requires Phys(userStack, w.spaces[id], va).Some?
    ensures Inv(ApplyWrite(userStack, w, id, va, byte))
  {
    MappedInMemory(userStack, w, id, va);
    ContentsKeep(w, w.ram.mem[Phys(userStack, w.spaces[id], va).value := byte]);
  }

  lemma ContentsKeep(w: World, mem: seq<nat>)
    requires Inv(w) && |mem| == |w.ram.mem|
    ensures Inv(w.(ram := w.ram.(mem := mem)))
  {
    ShrinkKeeps(w, w.(ram := w.ram.(mem := mem)));
  }

  lemma SmallStepsKeep(w: World, id: nat, npages: nat)
    requires Inv(w)
    ensures id !in w.spaces ==> Inv(w.(spaces := w.spaces[id := EMPTY_SPACE]))
    ensures Inv(w.(spaces := w.spaces - {id}))
    ensures Safe(w.ram, npages) ==> Inv(w.(ram := Steal(w.ram, npages).0))
  {
    if id !in w.spaces {
      AddSpaceKeeps(w, w.(spaces := w.spaces[id := EMPTY_SPACE]), id);
    }
    ShrinkKeeps(w, w.(spaces := w.spaces - {id}));
    if Safe(w.ram, npages) {
      StealSafe(w.ram, npages);
      ShrinkKeeps(w, w.(ram := Steal(w.ram, npages).0));
    }
  }

  /** Frame ranges stay page-aligned, inside RAM and pairwise disjoint through every
      operation. */
  lemma StepKeeps(userStack: nat, w: World, op: Op)
    requires Layout(userStack) && Inv(w) && Enabled(userStack, w, op)
    ensures Inv(Apply(userStack, w, op))
  {
    match op
    case Create(id) => SmallStepsKeep(w, id, 0);
    case DefineRegion(id, vaddr, sz) => if Define(w.spaces[id], vaddr, sz).Some? { DefineKeeps(w, id, vaddr, sz); }
    case PrepareLoad(id) => PrepareKeeps(w, id);
    case Copy(id, child) => CopyKeeps(w, id, child);
    case Write(id, va, byte) => WriteKeeps(userStack, w, id, va, byte);
    case KernelAlloc(npages) => SmallStepsKeep(w, 0, npages);
    case Destroy(id) => SmallStepsKeep(w, id, 0);
  }

  /** Which spaces an operation touches: none but its own, which creating makes empty and
      destroying removes; a space is loaded and a copy appears exactly if memory suffices;
      writing and allocating for the kernel touch none. */
  lemma StepSpaces(userStack: nat, w: World, op: Op)
    requires Layout(userStack) && Inv(w) && Enabled(userStack, w, op)
    ensures var w' := Apply(userStack, w, op);
            && (forall b :: b in w.spaces && !op.Touches(b) ==> b in w'.spaces && w'.spaces[b] == w.spaces[b])
            && (forall b :: b in w'.spaces && b !in w.spaces ==> op == Create(b) || (op.Copy? && op.child == b))
            && (op.Create? ==> op.id in w'.spaces && w'.spaces[op.id] == Space(0, 0, 0, 0, 0, 0, 0))
            && (op.Destroy? ==> op.id !in w'.spaces)
            && (op.DefineRegion? && Filled(w.spaces[op.id]).None? ==> w' == w)
            && (op.DefineRegion? && Filled(w.spaces[op.id]).Some? ==>
                  op.id in w'.spaces && Define(w.spaces[op.id], op.vaddr, op.sz) == Some(w'.spaces[op.id]))
            && (op.PrepareLoad? ==> op.id in w'.spaces && Shape(w'.spaces[op.id]) == Shape(w.spaces[op.id]))
            && (op.PrepareLoad? ==> (Loaded(w'.spaces[op.id]) <==>
                  var sp := w.spaces[op.id];
                  w.ram.first + Bytes(sp.npages1) + Bytes(sp.npages2) + Bytes(STACKPAGES) <= w.ram.last))
            && (op.Copy? ==> (op.child in w'.spaces <==>
                  var sp := w.spaces[op.id];
                  w.ram.first + Bytes(sp.npages1) + Bytes(sp.npages2) + Bytes(STACKPAGES) <= w.ram.last))
  {
    match op
    case Copy(id, child) =>
      LoadedIsSafe(w, id);
      PrepareFails(w.ram, Shape(w.spaces[id]));
    case PrepareLoad(id) =>
      PrepareFresh(w.ram, w.spaces[id]);
      PrepareFails(w.ram, w.spaces[id]);
    case _ =>
  }

  /** The allocator's history only grows. */
  lemma StepLater(userStack: nat, w: World, op: Op)
    requires Layout(userStack) && Inv(w) && Enabled(userStack, w, op)
    ensures Later(w.ram, Apply(userStack, w, op).ram)
  {
    match op
    case PrepareLoad(id) => PrepareLater(w.ram, w.spaces[id]);
    case Copy(id, _) =>
      LoadedIsSafe(w, id);
      PrepareLater(w.ram, Shape(w.spaces[id]));
    case KernelAlloc(npages) => StealSafe(w.ram, npages);
    case Write(id, va, _) => MappedInMemory(userStack, w, id, va);
    case _ =>
  }

  /** A region that is defined after its frames were allocated stays off the other frames of
      its space exactly when it asks for no more pages than were allocated for it. */
  lemma LateDefineApartIff(ram: Ram, sp0: Space, vaddr: nat, sz: nat)
    requires Sane(ram) && SafeSpace(ram, sp0) && Unloaded(sp0)
    requires Prepare(ram, sp0).2 && Define(Prepare(ram, sp0).1, vaddr, sz).Some?
    ensures var sp := Prepare(ram, sp0).1;
            SelfApart(Define(sp, vaddr, sz).value) <==> FitsLate(sp, vaddr, sz)
  {
    var sp := Prepare(ram, sp0).1;
    PrepareAdjacent(ram, sp0);
    PrepareFresh(ram, sp0);
    if FitsLate(sp, vaddr, sz) {
      DefinedApart(sp, sp, vaddr, sz);
    } else {
      var sp', n := Define(sp, vaddr, sz).value, RegionPages(vaddr, sz);
      assert Bytes(n) > Bytes(NPages(sp, Filled(sp).value));
      assert sp.vbase1 == 0 ==> sp'.npages1 == n && (!Apart(sp', First, sp', Second) || !Apart(sp', First, sp', Stack));
      assert sp.vbase1 != 0 ==> sp'.npages2 == n && !Apart(sp', Second, sp', Stack);
    }
  }

  /** For instance, a space that is prepared while empty and then given a page maps it onto
      its own stack. */
  lemma LateDefineAliases(ram: Ram)
    requires Sane(ram) && ram.first + Bytes(STACKPAGES) <= ram.last
    ensures var (_, sp, ok) := Prepare(ram, EMPTY_SPACE);
            && ok && SelfApart(sp)
            && Define(sp, PAGE, PAGE).Some? && !SelfApart(Define(sp, PAGE, PAGE).value)
  {
    EmptyIsSafe(ram);
    PrepareFresh(ram, EMPTY_SPACE);
    PrepareFails(ram, EMPTY_SPACE);
    LateDefineApartIff(ram, EMPTY_SPACE, PAGE, PAGE);
    assert RegionPages(PAGE, PAGE) == 1;
  }

  lemma EmptyIsSafe(ram: Ram)
    requires Sane(ram)
    ensures SafeSpace(ram, EMPTY_SPACE)
  {
    NoWrap(ram, 0);
  }

  // ---------------------------------------------------------------------
  // What a program sees

  /** The byte that a load through space `id` at `va` returns. */
  function Read(userStack: nat, w: World, id: nat, va: nat): nat
    requires Layout(userStack) && Inv(w) && id in w.spaces && Loaded(w.spaces[id])
    requires Phys(userStack, w.spaces[id], va).Some?
  {
    MappedInMemory(userStack, w, id, va);
    w.ram.mem[Phys(userStack, w.spaces[id], va).value]
  }

  /** Two different mapped locations, in one space or in two, are different bytes. */
  lemma LocationsDistinct(userStack: nat, w: World, a: nat, va: nat, b: nat, vb: nat)
    requires Layout(userStack) && Inv(w) && a in w.spaces && b in w.spaces
    requires Loaded(w.spaces[a]) && Loaded(w.spaces[b])
    requires Phys(userStack, w.spaces[a], va).Some? && Phys(userStack, w.spaces[b], vb).Some?
    requires (a, va) != (b, vb)
    ensures Phys(userStack, w.spaces[a], va) != Phys(userStack, w.spaces[b], vb)
  {
    var s, t := w.spaces[a], w.spaces[b];
    assert SpaceOk(w, a) && SpaceOk(w, b);
    if a == b {
      PhysInjective(userStack, s, va, vb);
    } else {
      PhysInFrames(userStack, s, va);
      PhysInFrames(userStack, t, vb);
      var r, q := RegionOf(userStack, s, PageBase(va)).value, RegionOf(userStack, t, PageBase(vb)).value;
      assert AllApart(s, t);
      assert Apart(s, r, t, q);
    }
  }

  lemma WriteByte(userStack: nat, w: World, id: nat, va: nat, byte: nat, b: nat, vb: nat)
    requires Layout(userStack) && Inv(w) && id in w.spaces && Loaded(w.spaces[id]) && b in w.spaces && Loaded(w.spaces[b])
    requires Phys(userStack, w.spaces[id], va).Some? && Phys(userStack, w.spaces[b], vb).Some?
    ensures var mem, i := ApplyWrite(userStack, w, id, va, byte).ram.mem, Phys(userStack, w.spaces[b], vb).value;
            i < |w.ram.mem| == |mem| && mem[i] == if (id, va) == (b, vb) then byte else w.ram.mem[i]
  {
    MappedInMemory(userStack, w, b, vb);
    MappedInMemory(userStack, w, id, va);
    if (id, va) != (b, vb) {
      LocationsDistinct(userStack, w, id, va, b, vb);
    }
  }

  /** A store changes the one location it names, in the one space it goes through. */
  lemma WriteRefines(userStack: nat, w: World, op: Op, b: nat, vb: nat)
    requires Layout(userStack) && Inv(w) && op.Write? && Enabled(userStack, w, op)
    requires b in w.spaces && Loaded(w.spaces[b]) && Phys(userStack, w.spaces[b], vb).Some?
    ensures var w' := Apply(userStack, w, op);
            && Inv(w') && w'.spaces == w.spaces
            && Read(userStack, w', b, vb) ==
               if (op.id, op.va) == (b, vb) then op.byte else Read(userStack, w, b, vb)
  {
    WriteKeeps(userStack, w, op.id, op.va, op.byte);
    WriteByte(userStack, w, op.id, op.va, op.byte, b, vb);
  }

  /** Three moves of ranges below `limit` to ranges above it that do not overlap. */
  lemma ThreeMoves(mem: seq<nat>, p1: nat, c1: nat, n1: nat, p2: nat, c2: nat, n2: nat, p3: nat, c3: nat, n3: nat,
                   limit: nat, i: nat)
    requires p1 + n1 <= limit <= c1 && c1 + n1 <= |mem|
    requires p2 + n2 <= limit <= c2 && c2 + n2 <= |mem|
    requires p3 + n3 <= limit <= c3 && c3 + n3 <= |mem|
    requires !Overlap(c1, n1, c2, n2) && !Overlap(c1, n1, c3, n3) && !Overlap(c2, n2, c3, n3)
    requires i < limit
    ensures var m := MemMove(MemMove(MemMove(mem, c1, p1, n1), c2, p2, n2), c3, p3, n3);
            && m[i] == mem[i]
            && (p1 <= i < p1 + n1 ==> m[c1 + (i - p1)] == mem[i])
            && (p2 <= i < p2 + n2 ==> m[c2 + (i - p2)] == mem[i])
            && (p3 <= i < p3 + n3 ==> m[c3 + (i - p3)] == mem[i])
  {
    var m1 := MemMove(mem, c1, p1, n1);
    var m2 := MemMove(m1, c2, p2, n2);
    var m3 := MemMove(m2, c3, p3, n3);
    assert m1[i] == mem[i] && m2[i] == mem[i] && m3[i] == mem[i];
    if p1 <= i < p1 + n1 {
      var d := c1 + (i - p1);
      assert m1[d] == mem[i] && m2[d] == m1[d] && m3[d] == m2[d];
    }
    if p2 <= i < p2 + n2 {
      var d := c2 + (i - p2);
      assert m2[d] == m1[i] && m3[d] == m2[d];
    }
  }

  /** Spaces of the same shape map the same addresses, each to its own frames. */
  lemma SameShape(userStack: nat, s: Space, t: Space, va: nat)
    requires Layout(userStack) && Formed(s) && Shape(s) == Shape(t)
    ensures RegionOf(userStack, s, PageBase(va)) == RegionOf(userStack, t, PageBase(va))
    ensures Phys(userStack, s, va).Some? == Phys(userStack, t, va).Some?
    ensures Phys(userStack, s, va).Some? ==>
              var r := RegionOf(userStack, s, PageBase(va)).value;
              && Phys(userStack, t, va).value - PBase(t, r) == Phys(userStack, s, va).value - PBase(s, r)
              && PBase(s, r) <= Phys(userStack, s, va).value < PBase(s, r) + Bytes(NPages(s, r))
  {
    if Phys(userStack, s, va).Some? {
      PhysInFrames(userStack, s, va);
      PhysInFrames(userStack, t, va);
    }
  }

  /** The child's frames are new, fit into memory and do not overlap; the parent's are below
      `limit`. */
  predicate CanMove(size: nat, p: Space, c: Space, limit: nat) {
    && c.npages1 == p.npages1 && c.npages2 == p.npages2
    && p.pbase1 + Bytes(p.npages1) <= limit <= c.pbase1 && c.pbase1 + Bytes(p.npages1) <= size
    && p.pbase2 + Bytes(p.npages2) <= limit <= c.pbase2 && c.pbase2 + Bytes(p.npages2) <= size
    && p.stackpbase + Bytes(STACKPAGES) <= limit <= c.stackpbase && c.stackpbase + Bytes(STACKPAGES) <= size
    && SelfApart(c)
  }

  /** Bytes below the new frames stay, and each byte of a region arrives in the new one. */
  lemma CopyFramesAt(mem: seq<nat>, p: Space, c: Space, limit: nat, r: Region, i: nat)
    requires CanMove(|mem|, p, c, limit) && i < limit
    ensures CopyFrames(mem, p, c)[i] == mem[i]
    ensures PBase(p, r) <= i < PBase(p, r) + Bytes(NPages(p, r)) ==>
              var d := PBase(c, r) + (i - PBase(p, r)); d < |mem| && CopyFrames(mem, p, c)[d] == mem[i]
  {
    ThreeMoves(mem, p.pbase1, c.pbase1, Bytes(p.npages1), p.pbase2, c.pbase2, Bytes(p.npages2),
               p.stackpbase, c.stackpbase, Bytes(STACKPAGES), limit, i);
  }

  lemma CopyCanMove(w: World, id: nat, child: nat)
    requires Inv(w) && id in w.spaces && Loaded(w.spaces[id]) && child !in w.spaces && CanCopy(w, id)
    ensures var w' := ApplyCopy(w, id, child);
            var p, c := w.spaces[id], w'.spaces[child];
            && Shape(p) == Shape(c) && Loaded(c) && w.ram.first <= |w.ram.mem|
            && CanMove(|w.ram.mem|, p, c, w.ram.first)
            && w'.ram.mem == CopyFrames(w.ram.mem, p, c)
  {
    CopyFits(w, id);
    var p, c := w.spaces[id], ApplyCopy(w, id, child).spaces[child];
    assert NPages(c, First) == NPages(p, First) && PBase(c, First) == c.pbase1 && PBase(p, First) == p.pbase1;
    assert NPages(c, Second) == NPages(p, Second) && PBase(c, Second) == c.pbase2 && PBase(p, Second) == p.pbase2;
    assert NPages(c, Stack) == NPages(p, Stack) && PBase(c, Stack) == c.stackpbase && PBase(p, Stack) == p.stackpbase;
  }

  /** Memory that was allocated before the copy keeps its contents. */
  lemma CopyLeaves(w: World, id: nat, child: nat, i: nat)
    requires Inv(w) && id in w.spaces && Loaded(w.spaces[id]) && child !in w.spaces && i < w.ram.first
    ensures i < |w.ram.mem| == |ApplyCopy(w, id, child).ram.mem|
    ensures ApplyCopy(w, id, child).ram.mem[i] == w.ram.mem[i]
  {
    if CanCopy(w, id) {
      CopyCanMove(w, id, child);
      CopyFramesAt(w.ram.mem, w.spaces[id], ApplyCopy(w, id, child).spaces[child], w.ram.first, First, i);
    } else {
      LoadedIsSafe(w, id);
      PrepareFresh(w.ram, Shape(w.spaces[id]));
    }
  }

  /** After the three moves the new frames hold, at every mapped address, the old byte. */
  lemma CopiedByte(userStack: nat, mem: seq<nat>, p: Space, c: Space, limit: nat, va: nat)
    requires Layout(userStack) && Formed(p) && Shape(p) == Shape(c) && limit <= |mem| && CanMove(|mem|, p, c, limit)
    ensures Phys(userStack, c, va).Some? == Phys(userStack, p, va).Some?
    ensures Phys(userStack, p, va).Some? ==>
              var i, d := Phys(userStack, p, va).value, Phys(userStack, c, va).value;
              i < limit && d < |mem| && CopyFrames(mem, p, c)[d] == mem[i]
  {
    SameShape(userStack, p, c, va);
    if Phys(userStack, p, va).Some? {
      CopyFramesAt(mem, p, c, limit, RegionOf(userStack, p, PageBase(va)).value, Phys(userStack, p, va).value);
    }
  }

  /** A copy reads the same bytes as its parent at every mapped address. */
  lemma CopyRefines(userStack: nat, w: World, id: nat, child: nat, va: nat)
    requires Layout(userStack) && Inv(w) && id in w.spaces && Loaded(w.spaces[id]) && child !in w.spaces
    requires CanCopy(w, id)
    ensures var w' := ApplyCopy(w, id, child);
            && Inv(w') && child in w'.spaces && Loaded(w'.spaces[child])
            && Phys(userStack, w'.spaces[child], va).Some? == Phys(userStack, w.spaces[id], va).Some?
            && (Phys(userStack, w.spaces[id], va).Some? ==>
                  Read(userStack, w', child, va) == Read(userStack, w, id, va))
  {
    CopyKeeps(w, id, child);
    CopyCanMove(w, id, child);
    assert SpaceOk(w, id);
    var p, c := w.spaces[id], ApplyCopy(w, id, child).spaces[child];
    CopiedByte(userStack, w.ram.mem, p, c, w.ram.first, va);
  }

  /** The operation neither writes through space `b` nor destroys it, nor gives it a region
      when it has one left to define. */
  predicate Leaves(op: Op, b: nat, sp: Space) {
    op != Destroy(b) && !(op.Write? && op.id == b) && (op.DefineRegion? && op.id == b ==> Filled(sp).None?)
  }

  /** Such an operation leaves the space and the memory behind its addresses as they were. */
  lemma StepFrame(userStack: nat, w: World, op: Op, b: nat, vb: nat)
    requires Layout(userStack) && Inv(w) && Enabled(userStack, w, op)
    requires b in w.spaces && Loaded(w.spaces[b]) && Phys(userStack, w.spaces[b], vb).Some?
    requires Leaves(op, b, w.spaces[b])
    ensures var w', i := Apply(userStack, w, op), Phys(userStack, w.spaces[b], vb).value;
            && b in w'.spaces && w'.spaces[b] == w.spaces[b]
            && i < |w.ram.mem| == |w'.ram.mem| && w'.ram.mem[i] == w.ram.mem[i]
  {
    MappedInMemory(userStack, w, b, vb);
    match op
    case Write(id, va, _) =>
      MappedInMemory(userStack, w, id, va);
      LocationsDistinct(userStack, w, id, va, b, vb);
    case Copy(id, child) => CopyLeaves(w, id, child, Phys(userStack, w.spaces[b], vb).value);
    case PrepareLoad(id) => PrepareLater(w.ram, w.spaces[id]);
    case KernelAlloc(npages) => StealSafe(w.ram, npages);
    case Create(_) =>
    case DefineRegion(_, _, _) =>
    case Destroy(_) =>
  }

  /** So it leaves everything that a loaded space maps and reads as it was. */
  lemma StepIsolation(userStack: nat, w: World, op: Op, b: nat, vb: nat)
    requires Layout(userStack) && Inv(w) && Enabled(userStack, w, op)
    requires b in w.spaces && Loaded(w.spaces[b]) && Phys(userStack, w.spaces[b], vb).Some?
    requires Leaves(op, b, w.spaces[b])
    ensures var w' := Apply(userStack, w, op);
            && Inv(w') && b in w'.spaces && w'.spaces[b] == w.spaces[b]
            && Read(userStack, w', b, vb) == Read(userStack, w, b, vb)
  {
    StepKeeps(userStack, w, op);
    StepFrame(userStack, w, op, b, vb);
  }

  // ---------------------------------------------------------------------
  // Runs

  predicate CanRun(userStack: nat, w: World, ops: seq<Op>)
    requires Layout(userStack) && Inv(w)
    decreases |ops|
  {
    ops == [] ||
    (Enabled(userStack, w, ops[0]) &&
     (StepKeeps(userStack, w, ops[0]); CanRun(userStack, Apply(userStack, w, ops[0]), ops[1..])))
  }

  function Run(userStack: nat, w: World, ops: seq<Op>): (w': World)
    requires Layout(userStack) && Inv(w) && CanRun(userStack, w, ops)
    ensures Inv(w')
    decreases |ops|
  {
    if ops == [] then w
    else
      StepKeeps(userStack, w, ops[0]);
      Run(userStack, Apply(userStack, w, ops[0]), ops[1..])
  }

  predicate LeavesAlone(ops: seq<Op>, b: nat, sp: Space) {
    forall i :: 0 <= i < |ops| ==> Leaves(ops[i], b, sp)
  }

  lemma {:induction false} RunIsolation(userStack: nat, w: World, ops: seq<Op>, b: nat, vb: nat)
    requires Layout(userStack) && Inv(w) && CanRun(userStack, w, ops)
    requires b in w.spaces && LeavesAlone(ops, b, w.spaces[b]) && Loaded(w.spaces[b]) && Phys(userStack, w.spaces[b], vb).Some?
    ensures var w' := Run(userStack, w, ops);
            && b in w'.spaces && w'.spaces[b] == w.spaces[b]
            && Read(userStack, w', b, vb) == Read(userStack, w, b, vb)
    decreases |ops|
  {
    if ops != [] {
      assert Leaves(ops[0], b, w.spaces[b]);
      StepIsolation(userStack, w, ops[0], b, vb);
      RunIsolation(userStack, Apply(userStack, w, ops[0]), ops[1..], b, vb);
    }
  }

  /** After a successful copy, whatever is written through other spaces (the parent
      included), the child still reads what the parent read when it was copied. */
  lemma CopyIsSnapshot(userStack: nat, w: World, id: nat, child: nat, ops: seq<Op>, va: nat)
    requires Layout(userStack) && Inv(w) && Enabled(userStack, w, Copy(id, child)) && CanCopy(w, id)
    requires Phys(userStack, w.spaces[id], va).Some?
    requires CanRun(userStack, w, [Copy(id, child)] + ops) && LeavesAlone(ops, child, w.spaces[id])
    ensures var w' := Run(userStack, w, [Copy(id, child)] + ops);
            && child in w'.spaces && Loaded(w'.spaces[child]) && Phys(userStack, w'.spaces[child], va).Some?
            && Read(userStack, w', child, va) == Read(userStack, w, id, va)
  {
    assert ([Copy(id, child)] + ops)[1..] == ops;
    CopyRefines(userStack, w, id, child, va);
    RunIsolation(userStack, ApplyCopy(w, id, child), ops, child, va);
  }

  // ---------------------------------------------------------------------
  // Everything ever handed out

  /** All frame ranges ever handed out, to whatever purpose and however it ended, are
      page-aligned, lie in the memory that was free at boot and are pairwise disjoint; every
      region of every loaded space lies in one of them. */
  lemma GrantsApart(userStack: nat, ram: Ram, ops: seq<Op>)
    requires Layout(userStack) && Sane(ram) && ram.grants == []
    requires CanRun(userStack, World(ram, map[]), ops)
    ensures var w := Run(userStack, World(ram, map[]), ops);
            var gs := w.ram.grants;
            && (forall i :: 0 <= i < |gs| ==> Aligned(gs[i].addr) && ram.base <= gs[i].addr && End(gs[i]) <= ram.last)
            && (forall i, j :: 0 <= i < j < |gs| ==>
                  !Overlap(gs[i].addr, Bytes(gs[i].npages), gs[j].addr, Bytes(gs[j].npages)))
            && (forall id, r: Region :: id in w.spaces && Loaded(w.spaces[id]) ==>
                  Granted(w.ram, PBase(w.spaces[id], r), NPages(w.spaces[id], r)))
  {
    RunLater(userStack, World(ram, map[]), ops);
    var w := Run(userStack, World(ram, map[]), ops);
    forall id, r: Region | id in w.spaces && Loaded(w.spaces[id])
      ensures Granted(w.ram, PBase(w.spaces[id], r), NPages(w.spaces[id], r))
    {
      assert SpaceOk(w, id);
    }
  }

  lemma {:induction false} RunLater(userStack: nat, w: World, ops: seq<Op>)
    requires Layout(userStack) && Inv(w) && CanRun(userStack, w, ops)
    ensures Later(w.ram, Run(userStack, w, ops).ram)
    decreases |ops|
  {
    if ops != [] {
      StepKeeps(userStack, w, ops[0]);
      StepLater(userStack, w, ops[0]);
      RunLater(userStack, Apply(userStack, w, ops[0]), ops[1..]);
    }
  }

  predicate InFrames(sp: Space, r: Region, i: nat) {
    PBase(sp, r) <= i < PBase(sp, r) + Bytes(NPages(sp, r))
  }

  /** Byte `i` is not free and belongs to no loaded space. */
  predicate Unmapped(w: World, i: nat) {
    i < w.ram.first && forall id, r: Region :: id in w.spaces && Loaded(w.spaces[id]) ==> !InFrames(w.spaces[id], r, i)
  }

  lemma UnmappedCopy(w: World, id: nat, child: nat, i: nat)
    requires Inv(w) && id in w.spaces && Loaded(w.spaces[id]) && child !in w.spaces && Unmapped(w, i)
    ensures Unmapped(ApplyCopy(w, id, child), i)
  {
    if CanCopy(w, id) {
      CopyFits(w, id);
    } else {
      LoadedIsSafe(w, id);
      PrepareLater(w.ram, Shape(w.spaces[id]));
    }
  }

  lemma UnmappedPrepare(w: World, id: nat, i: nat)
    requires Inv(w) && id in w.spaces && Unloaded(w.spaces[id]) && Unmapped(w, i)
    requires SafeSpace(w.ram, w.spaces[id])
    ensures var (ram', sp', _) := Prepare(w.ram, w.spaces[id]); Unmapped(World(ram', w.spaces[id := sp']), i)
  {
    PrepareFresh(w.ram, w.spaces[id]);
    PrepareFails(w.ram, w.spaces[id]);
  }

  lemma UnmappedDefine(w: World, id: nat, vaddr: nat, sz: nat, i: nat)
    requires id in w.spaces && Unmapped(w, i) && Define(w.spaces[id], vaddr, sz).Some?
    requires Loaded(w.spaces[id]) ==> FitsLate(w.spaces[id], vaddr, sz)
    ensures Unmapped(w.(spaces := w.spaces[id := Define(w.spaces[id], vaddr, sz).value]), i)
  {
    var sp, sp' := w.spaces[id], Define(w.spaces[id], vaddr, sz).value;
    if Loaded(sp) {
      DefinedApart(sp, sp, vaddr, sz);
      forall r: Region ensures !InFrames(sp', r, i) {
        assert !InFrames(sp, r, i);
        assert Bytes(NPages(sp', r)) <= Bytes(NPages(sp, r));
      }
    }
  }

  /** No operation maps it again or changes its contents. */
  lemma StepSpares(userStack: nat, w: World, op: Op, i: nat)
    requires Layout(userStack) && Inv(w) && Enabled(userStack, w, op) && Unmapped(w, i)
    ensures var w' := Apply(userStack, w, op);
            Unmapped(w', i) && i < |w.ram.mem| == |w'.ram.mem| && w'.ram.mem[i] == w.ram.mem[i]
  {
    match op
    case Create(_) =>
    case DefineRegion(id, vaddr, sz) =>
      if Define(w.spaces[id], vaddr, sz).Some? {
        UnmappedDefine(w, id, vaddr, sz, i);
      }
    case PrepareLoad(id) =>
      UnmappedPrepare(w, id, i);
      PrepareLater(w.ram, w.spaces[id]);
    case Copy(id, child) =>
      UnmappedCopy(w, id, child, i);
      CopyLeaves(w, id, child, i);
    case Write(id, va, byte) => WriteSpares(userStack, w, id, va, byte, i);
    case KernelAlloc(npages) => StealSafe(w.ram, npages);
    case Destroy(_) =>
  }

  lemma WriteSpares(userStack: nat, w: World, id: nat, va: nat, byte: nat, i: nat)
    requires Layout(userStack) && Inv(w) && id in w.spaces && Loaded(w.spaces[id]) && Unmapped(w, i)
    requires Phys(userStack, w.spaces[id], va).Some?
    ensures var w' := ApplyWrite(userStack, w, id, va, byte);
            Unmapped(w', i) && i < |w.ram.mem| == |w'.ram.mem| && w'.ram.mem[i] == w.ram.mem[i]
  {
    MappedInMemory(userStack, w, id, va);
    assert SpaceOk(w, id);
    PhysInFrames(userStack, w.spaces[id], va);
    assert !InFrames(w.spaces[id], RegionOf(userStack, w.spaces[id], PageBase(va)).value, i);
  }

  /** So memory that belongs to no loaded space, such as that of a destroyed one, is never
      seen or changed through any space again. */
  lemma {:induction false} RunSpares(userStack: nat, w: World, ops: seq<Op>, i: nat)
    requires Layout(userStack) && Inv(w) && CanRun(userStack, w, ops) && Unmapped(w, i)
    ensures var w' := Run(userStack, w, ops);
            Unmapped(w', i) && i < |w.ram.mem| == |w'.ram.mem| && w'.ram.mem[i] == w.ram.mem[i]
    decreases |ops|
  {
    if ops != [] {
      StepKeeps(userStack, w, ops[0]);
      StepSpares(userStack, w, ops[0], i);
      RunSpares(userStack, Apply(userStack, w, ops[0]), ops[1..], i);
    }
  }

  /** No user program touches the kernel: not its image below the memory that was free at
      boot, and not the pages that alloc_kpages gave it. */
  lemma KernelMemorySafe(userStack: nat, w: World, npages: nat, ops: seq<Op>, i: nat)
    requires Layout(userStack) && Inv(w) && CanRun(userStack, w, [KernelAlloc(npages)] + ops)
    requires var p := Steal(w.ram, npages).1; i < w.ram.base || (p != 0 && p <= i < p + Bytes(npages))
    ensures var w' := Run(userStack, w, [KernelAlloc(npages)] + ops);
            i < |w.ram.mem| == |w'.ram.mem| && w'.ram.mem[i] == w.ram.mem[i]
  {
    assert ([KernelAlloc(npages)] + ops)[1..] == ops;
    var w1 := Apply(userStack, w, KernelAlloc(npages));
    StealSafe(w.ram, npages);
    StepKeeps(userStack, w, KernelAlloc(npages));
    forall id, r: Region | id in w1.spaces && Loaded(w1.spaces[id]) ensures !InFrames(w1.spaces[id], r, i) {
      assert SpaceOk(w, id);
      AllocatedInside(w.ram, w.spaces[id]);
    }
    RunSpares(userStack, w1, ops, i);
  }
}
