/** The physical page allocator and the three-region address spaces of dumbvm, on values.

    Words are 32 bits wide: every sum that the kernel computes in a u_int32_t is taken
    modulo WORD here. */
module Dumbvm {
  import opened Wrappers

  const PAGE: nat := 4096
  const WORD: nat := 0x1_0000_0000
  const STACKPAGES: nat := 12

  function PageBase(addr: nat): (base: nat)
    ensures base <= addr < base + PAGE && base % PAGE == 0
  {
    addr - addr % PAGE
  }

  predicate Aligned(addr: nat) {
    addr % PAGE == 0
  }

  // ---------------------------------------------------------------------
  // ram.c

  /** A range of frames handed out by the allocator. */
  datatype Grant = Grant(addr: nat, npages: nat)

  /** Free physical memory is [first, last); `mem` is the contents of RAM.  `base` and
      `grants` are history: where free memory began at boot, and every range handed out. */
  datatype Ram = Ram(base: nat, first: nat, last: nat, mem: seq<nat>, grants: seq<Grant>)

  /** Free memory begins past the kernel, page-aligned (so not at 0), and ends below 508 MB;
      all ranges handed out are page-aligned, lie between where free memory began at boot
      and where it begins now, and do not overlap. */
  predicate Sane(ram: Ram) {
    && 0 < ram.base <= ram.first <= ram.last <= 508 * 1024 * 1024
    && Aligned(ram.base) && Aligned(ram.first)
    && |ram.mem| == ram.last
    && (forall i :: 0 <= i < |ram.grants| ==>
          Aligned(ram.grants[i].addr) && ram.base <= ram.grants[i].addr && End(ram.grants[i]) <= ram.first)
    && (forall i, j :: 0 <= i < j < |ram.grants| ==> End(ram.grants[i]) <= ram.grants[j].addr)
  }

  function Bytes(npages: nat): nat {
    npages * PAGE
  }

  function End(g: Grant): nat {
    g.addr + Bytes(g.npages)
  }

  /** ram_stealmem: the new allocator state and the address handed out, 0 for failure. */
  function Steal(ram: Ram, npages: nat): (r: (Ram, nat)) {
    var next := (ram.first + Bytes(npages) % WORD) % WORD;
    if next > ram.last then (ram, 0)
    else (ram.(first := next, grants := ram.grants + [Grant(ram.first, npages)]), ram.first)
  }

  /** The request's size fits the word, so nothing wraps around. */
  predicate Fits(ram: Ram, npages: nat) {
    ram.first + Bytes(npages) < WORD
  }

  lemma NoWrap(ram: Ram, npages: nat)
    requires Fits(ram, npages)
    ensures Steal(ram, npages) ==
            if ram.first + Bytes(npages) > ram.last then (ram, 0)
            else (ram.(first := ram.first + Bytes(npages), grants := ram.grants + [Grant(ram.first, npages)]), ram.first)
  {
  }

  /** A granted range lies inside RAM exactly when the request does not wrap around. */
  lemma GrantInsideIffFits(ram: Ram, npages: nat)
    requires Sane(ram) && Steal(ram, npages).1 != 0
    ensures Steal(ram, npages).1 + Bytes(npages) <= ram.last <==> Fits(ram, npages)
  {
  }

  /** A request keeps all ranges handed out so far and the new one aligned, inside RAM and
      apart exactly when it is refused or does not wrap around. */
  lemma StealKeepsIffFits(ram: Ram, npages: nat)
    requires Sane(ram)
    ensures Sane(Steal(ram, npages).0) <==> Steal(ram, npages).1 == 0 || Fits(ram, npages)
  {
    var (ram', p) := Steal(ram, npages);
    if p != 0 {
      var n := |ram.grants|;
      assert ram'.grants[n] == Grant(ram.first, npages);
      if Fits(ram, npages) {
        NoWrap(ram, npages);
        assert forall i :: 0 <= i < n ==> ram'.grants[i] == ram.grants[i];
      }
    }
  }

  /** It can wrap: asking for one page less than the whole address space is granted and
      moves the allocator back onto memory that it may already have handed out. */
  lemma WrappingGrant(ram: Ram)
    requires Sane(ram)
    ensures var (ram', p) := Steal(ram, 0xf_ffff);
            p == ram.first && ram'.first == ram.first - PAGE && !Sane(ram')
  {
    StealKeepsIffFits(ram, 0xf_ffff);
  }

  // ---------------------------------------------------------------------
  // Address spaces

  datatype Space = Space(vbase1: nat, pbase1: nat, npages1: nat,
                         vbase2: nat, pbase2: nat, npages2: nat, stackpbase: nat)

  const EMPTY_SPACE := Space(0, 0, 0, 0, 0, 0, 0)

  /** The three regions: the two defined ones and the stack. */
  datatype Region = First | Second | Stack

  function PBase(sp: Space, r: Region): nat {
    match r case First => sp.pbase1 case Second => sp.pbase2 case Stack => sp.stackpbase
  }

  function NPages(sp: Space, r: Region): nat {
    match r case First => sp.npages1 case Second => sp.npages2 case Stack => STACKPAGES
  }

  /** Where regions start in the virtual address space, given the top of the user stack. */
  function VBase(userStack: nat, sp: Space, r: Region): nat
    requires Bytes(STACKPAGES) <= userStack
  {
    match r case First => sp.vbase1 case Second => sp.vbase2 case Stack => userStack - Bytes(STACKPAGES)
  }

  function VTop(userStack: nat, sp: Space, r: Region): nat
    requires Bytes(STACKPAGES) <= userStack
  {
    if r.Stack? then userStack else (VBase(userStack, sp, r) + Bytes(NPages(sp, r))) % WORD
  }

  predicate InRegion(userStack: nat, sp: Space, r: Region, page: nat)
    requires Bytes(STACKPAGES) <= userStack
  {
    VBase(userStack, sp, r) <= page < VTop(userStack, sp, r)
  }

  /** The region that vm_fault picks for a page: the first one that contains it. */
  function RegionOf(userStack: nat, sp: Space, page: nat): Option<Region>
    requires Bytes(STACKPAGES) <= userStack
  {
    if InRegion(userStack, sp, First, page) then Some(First)
    else if InRegion(userStack, sp, Second, page) then Some(Second)
    else if InRegion(userStack, sp, Stack, page) then Some(Stack)
    else None
  }

  /** The frame of a page. */
  function Lookup(userStack: nat, sp: Space, page: nat): Option<nat>
    requires Bytes(STACKPAGES) <= userStack
  {
    match RegionOf(userStack, sp, page)
    case None => None
    case Some(r) => Some(page - VBase(userStack, sp, r) + PBase(sp, r))
  }

  /** The physical address of a byte. */
  function Phys(userStack: nat, sp: Space, va: nat): Option<nat>
    requires Bytes(STACKPAGES) <= userStack
  {
    match Lookup(userStack, sp, PageBase(va))
    case None => None
    case Some(frame) => Some(frame + va % PAGE)
  }

  predicate Layout(userStack: nat) {
    Bytes(STACKPAGES) <= userStack < WORD && Aligned(userStack)
  }

  /** Virtual bases that as_define_region leaves behind are page-aligned, and sizes fit a
      word. */
  predicate Formed(sp: Space) {
    && Aligned(sp.vbase1) && Aligned(sp.vbase2) && sp.vbase1 < WORD && sp.vbase2 < WORD
    && Bytes(sp.npages1) < WORD && Bytes(sp.npages2) < WORD
  }

  predicate Overlap(a: nat, m: nat, b: nat, n: nat) {
    a < b + n && b < a + m
  }

  /** Two regions, possibly of two spaces, share no frame. */
  predicate Apart(s: Space, r: Region, t: Space, q: Region) {
    !Overlap(PBase(s, r), Bytes(NPages(s, r)), PBase(t, q), Bytes(NPages(t, q)))
  }

  predicate SelfApart(sp: Space) {
    Apart(sp, First, sp, Second) && Apart(sp, First, sp, Stack) && Apart(sp, Second, sp, Stack)
  }

  // ---------------------------------------------------------------------
  // Translation

  /** A page-aligned offset inside a region leaves room for its whole page. */
  lemma WholePage(off: nat, npages: nat)
    requires off < Bytes(npages) && Aligned(off)
    ensures off + PAGE <= Bytes(npages)
  {
    assert off == off / 4096 * 4096;
  }

  /** The address is one of the `npages` pages at `base`; pages that reach up to the end of
      the 32-bit address space wrap around, and then there are none. */
  predicate Within(va: nat, base: nat, npages: nat) {
    base <= va < base + npages * 4096 < 0x1_0000_0000
  }

  /** The address is among the 12 pages below the top of the user stack. */
  predicate OnStack(userStack: nat, va: nat) {
    userStack - 12 * 4096 <= va < userStack
  }

  predicate Mapped(userStack: nat, sp: Space, va: nat) {
    Within(va, sp.vbase1, sp.npages1) || Within(va, sp.vbase2, sp.npages2) || OnStack(userStack, va)
  }

  lemma InRegionExactly(base: nat, npages: nat, va: nat)
    requires Aligned(base) && base < WORD && Bytes(npages) < WORD
    ensures base <= PageBase(va) < (base + Bytes(npages)) % WORD <==> Within(va, base, npages)
  {
    if base <= PageBase(va) && PageBase(va) - base < Bytes(npages) {
      WholePage(PageBase(va) - base, npages);
    }
  }

  /** Exactly which addresses are mapped, and to which byte: those of the two regions and of
      the stack, each to its place in the frames of the first of these that contains it. */
  lemma MappedExactly(userStack: nat, sp: Space, va: nat)
    requires Layout(userStack) && Formed(sp)
    ensures Phys(userStack, sp, va) ==
            if Within(va, sp.vbase1, sp.npages1) then Some(va - sp.vbase1 + sp.pbase1)
            else if Within(va, sp.vbase2, sp.npages2) then Some(va - sp.vbase2 + sp.pbase2)
            else if OnStack(userStack, va) then Some(va - (userStack - 12 * 4096) + sp.stackpbase)
            else None
    ensures Phys(userStack, sp, va).Some? <==> Mapped(userStack, sp, va)
  {
    InRegionExactly(sp.vbase1, sp.npages1, va);
    InRegionExactly(sp.vbase2, sp.npages2, va);
    InRegionExactly(userStack - Bytes(STACKPAGES), STACKPAGES, va);
  }

  /** A mapped byte lies in the frames of the region that maps it. */
  lemma PhysInFrames(userStack: nat, sp: Space, va: nat)
    requires Layout(userStack) && Formed(sp) && Phys(userStack, sp, va).Some?
    ensures var r := RegionOf(userStack, sp, PageBase(va)).value;
            var pa := Phys(userStack, sp, va).value;
            && PBase(sp, r) <= pa < PBase(sp, r) + Bytes(NPages(sp, r))
            && pa == va - VBase(userStack, sp, r) + PBase(sp, r)
            && VBase(userStack, sp, r) <= va
  {
    InRegionExactly(sp.vbase1, sp.npages1, va);
    InRegionExactly(sp.vbase2, sp.npages2, va);
    InRegionExactly(userStack - Bytes(STACKPAGES), STACKPAGES, va);
  }

  /** Distinct mapped addresses of one space are distinct bytes of memory. */
  lemma PhysInjective(userStack: nat, sp: Space, va: nat, vb: nat)
    requires Layout(userStack) && Formed(sp) && SelfApart(sp) && va != vb
    requires Phys(userStack, sp, va).Some? && Phys(userStack, sp, vb).Some?
    ensures Phys(userStack, sp, va) != Phys(userStack, sp, vb)
  {
    PhysInFrames(userStack, sp, va);
    PhysInFrames(userStack, sp, vb);
  }

  /** Distinct pages of one space have distinct frames. */
  lemma FramesDistinct(userStack: nat, sp: Space, p: nat, q: nat)
    requires Layout(userStack) && Formed(sp) && SelfApart(sp) && p != q && Aligned(p) && Aligned(q)
    requires Lookup(userStack, sp, p).Some? && Lookup(userStack, sp, q).Some?
    ensures Lookup(userStack, sp, p) != Lookup(userStack, sp, q)
  {
    assert PageBase(p) == p && PageBase(q) == q;
    PhysInjective(userStack, sp, p, q);
  }

  // ---------------------------------------------------------------------
  // as_define_region

  /** Pages that as_define_region computes for `sz` bytes at `vaddr`. */
  function RegionPages(vaddr: nat, sz: nat): (npages: nat)
    ensures Bytes(npages) < WORD
  {
    var whole := (sz + vaddr % PAGE) % WORD;
    PageBase((whole + PAGE - 1) % WORD) / PAGE
  }

  function Define(sp: Space, vaddr: nat, sz: nat): Option<Space> {
    if sp.vbase1 == 0 then Some(sp.(vbase1 := PageBase(vaddr), npages1 := RegionPages(vaddr, sz)))
    else if sp.vbase2 == 0 then Some(sp.(vbase2 := PageBase(vaddr), npages2 := RegionPages(vaddr, sz)))
    else None
  }

  /** The rounded region covers the requested bytes exactly when the rounding does not
      wrap around, and then with no page to spare. */
  lemma RegionCoversIffFits(vaddr: nat, sz: nat)
    requires vaddr < WORD && sz < WORD
    ensures var end := PageBase(vaddr) + Bytes(RegionPages(vaddr, sz));
            && (vaddr + sz <= end <==> sz + vaddr % PAGE + PAGE - 1 < WORD)
            && (sz + vaddr % PAGE + PAGE - 1 < WORD && 0 < sz ==> end < vaddr + sz + PAGE)
  {
    var off := vaddr % PAGE;
    var s := ((sz + off) % WORD + PAGE - 1) % WORD;
    assert Bytes(RegionPages(vaddr, sz)) == PageBase(s);
  }

  /** It can wrap: a region of almost the whole address space gets no page at all. */
  lemma RegionVanishes(vaddr: nat)
    requires vaddr < WORD && Aligned(vaddr)
    ensures RegionPages(vaddr, WORD - 1) == 0
  {
  }

  /** The region that as_define_region fills, if there is one left. */
  function Filled(sp: Space): Option<Region> {
    if sp.vbase1 == 0 then Some(First) else if sp.vbase2 == 0 then Some(Second) else None
  }

  // ---------------------------------------------------------------------
  // as_prepare_load and as_copy

  /** as_prepare_load: allocate frames for the three regions, in order, stopping at the
      first failure.  Frames taken before a failure stay taken. */
  function Prepare(ram: Ram, sp: Space): (r: (Ram, Space, bool)) {
    var (ram1, p1) := Steal(ram, sp.npages1);
    if p1 == 0 then (ram1, sp.(pbase1 := 0), false) else
    var (ram2, p2) := Steal(ram1, sp.npages2);
    if p2 == 0 then (ram2, sp.(pbase1 := p1, pbase2 := 0), false) else
    var (ram3, p3) := Steal(ram2, STACKPAGES);
    (ram3, sp.(pbase1 := p1, pbase2 := p2, stackpbase := p3), p3 != 0)
  }

  /** memmove within physical memory. */
  function MemMove(mem: seq<nat>, dst: nat, src: nat, n: nat): (r: seq<nat>)
    requires dst + n <= |mem| && src + n <= |mem|
    ensures |r| == |mem|
  {
    seq(|mem|, i requires 0 <= i < |mem| => if dst <= i < dst + n then mem[src + (i - dst)] else mem[i])
  }

  /** The region's frames, if it starts at `base`, lie inside memory. */
  predicate InMemory(mem: seq<nat>, base: nat, npages: nat) {
    base + Bytes(npages) <= |mem|
  }

  /** The three memmoves of as_copy. */
  function CopyFrames(mem: seq<nat>, parent: Space, child: Space): (r: seq<nat>)
    requires InMemory(mem, parent.pbase1, parent.npages1) && InMemory(mem, child.pbase1, parent.npages1)
    requires InMemory(mem, parent.pbase2, parent.npages2) && InMemory(mem, child.pbase2, parent.npages2)
    requires InMemory(mem, parent.stackpbase, STACKPAGES) && InMemory(mem, child.stackpbase, STACKPAGES)
    ensures |r| == |mem|
  {
    var m1 := MemMove(mem, child.pbase1, parent.pbase1, Bytes(parent.npages1));
    var m2 := MemMove(m1, child.pbase2, parent.pbase2, Bytes(parent.npages2));
    MemMove(m2, child.stackpbase, parent.stackpbase, Bytes(STACKPAGES))
  }
}
