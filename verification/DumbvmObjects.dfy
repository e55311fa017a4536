/** The allocator and the address spaces as the kernel's mutable structures. */
module DumbvmObjects {
  import opened Wrappers
  import opened Dumbvm
  import opened DumbvmWorld

  const KSEG0: nat := 0x8000_0000

  /** What a request does to an allocator all of whose ranges are apart. */
  predicate HandsOut(ram: Ram, npages: nat, ram': Ram, paddr: nat) {
    && (Sane(ram') <==> paddr == 0 || Fits(ram, npages))
    && (Fits(ram, npages) ==> (paddr != 0 <==> Bytes(npages) <= ram.last - ram.first))
    && (paddr == 0 ==> ram' == ram)
    && (paddr != 0 ==> paddr == ram.first && ram'.grants == ram.grants + [Grant(paddr, npages)] && ram'.mem == ram.mem)
    && (paddr != 0 ==> forall i :: 0 <= i < |ram.grants| ==>
          !Overlap(ram.grants[i].addr, Bytes(ram.grants[i].npages), paddr, Bytes(npages)))
  }

  lemma StealHandsOut(ram: Ram, npages: nat)
    requires Sane(ram)
    ensures var (ram', paddr) := Steal(ram, npages); HandsOut(ram, npages, ram', paddr)
  {
    StealKeepsIffFits(ram, npages);
  }

  /** The statics of ram.c and the contents of memory; `base` and `grants` are history. */
  class PhysMem {
    var firstpaddr: nat
    var lastpaddr: nat
    var mem: seq<nat>
    ghost var base: nat
    ghost var grants: seq<Grant>

    ghost function R(): Ram
      reads this
    {
      Ram(base, firstpaddr, lastpaddr, mem, grants)
    }

    /** All ranges handed out are aligned, inside RAM and pairwise disjoint. */
    ghost predicate Valid()
      reads this
    {
      Sane(R())
    }

    /** ram_bootstrap, with the start-up code's rounded first free address. */
    constructor (ramsize: nat, firstfree: nat, contents: seq<nat>)
      requires KSEG0 < firstfree && Aligned(firstfree)
      requires |contents| == ramsize && firstfree - KSEG0 <= ramsize && firstfree - KSEG0 <= 508 * 1024 * 1024
      ensures Valid() && R().first == firstfree - KSEG0 && grants == []
      ensures R().last == (if ramsize <= 508 * 1024 * 1024 then ramsize else 508 * 1024 * 1024)
      ensures R().mem == contents[..R().last]
    {
      var size := if ramsize > 508 * 1024 * 1024 then 508 * 1024 * 1024 else ramsize;
      lastpaddr := size;
      firstpaddr := firstfree - KSEG0;
      mem := contents[..size];
      base, grants := firstfree - KSEG0, [];
    }

    /** ram_stealmem.  A request that does not wrap around is granted exactly when it fits
        what is left, as a range that begins where free memory did; the ranges handed out
        stay apart exactly unless a wrapping request is granted. */
    method StealMem(npages: nat) returns (paddr: nat)
      modifies `firstpaddr, `grants
      ensures old(Valid()) ==> HandsOut(old(R()), npages, R(), paddr)
      ensures (R(), paddr) == Steal(old(R()), npages)
    {
      if Sane(R()) {
        StealHandsOut(R(), npages);
      }
      var size := npages * PAGE % WORD;
      if (firstpaddr + size) % WORD > lastpaddr {
        return 0;
      }
      paddr := firstpaddr;
      firstpaddr := (firstpaddr + size) % WORD;
      grants := grants + [Grant(paddr, npages)];
    }

    /** getppages. */
    method GetPages(npages: nat) returns (paddr: nat)
      modifies `firstpaddr, `grants
      ensures (R(), paddr) == Steal(old(R()), npages)
    {
      paddr := StealMem(npages);
    }
  }

  class AddrSpace {
    var vbase1: nat
    var pbase1: nat
    var npages1: nat
    var vbase2: nat
    var pbase2: nat
    var npages2: nat
    var stackpbase: nat

    ghost function Sp(): Space
      reads this
    {
      Space(vbase1, pbase1, npages1, vbase2, pbase2, npages2, stackpbase)
    }

    ghost predicate Valid()
      reads this
    {
      Formed(Sp())
    }

    /** as_create. */
    constructor ()
      ensures Valid() && Sp() == EMPTY_SPACE
    {
      vbase1, pbase1, npages1, vbase2, pbase2, npages2, stackpbase := 0, 0, 0, 0, 0, 0, 0;
    }

    /** as_define_region; false is EUNIMP.  It succeeds exactly while a region is undefined,
        and changes that one only; the region then holds all requested bytes exactly when
        rounding up their number does not wrap around; it begins less than a page before
        them and ends less than a page after them.  If the space has its frames already, they
        stay apart when the region fits the frames it has. */
    method DefineRegion(vaddr: nat, sz: nat) returns (ok: bool)
      requires Valid() && vaddr < WORD && sz < WORD
      modifies `vbase1, `npages1, `vbase2, `npages2
      ensures Valid()
      ensures ok <==> Filled(old(Sp())).Some?
      ensures !ok ==> Sp() == old(Sp())
      ensures ok ==> OthersKept(old(Sp()), Sp(), Filled(old(Sp())).value)
      ensures ok ==>
                var r := Filled(old(Sp())).value;
                && (Covers(Sp(), r, vaddr, sz) <==> sz + vaddr % PAGE + PAGE - 1 < WORD)
                && (Covers(Sp(), r, vaddr, sz) && 0 < sz ==> Tight(Sp(), r, vaddr, sz))
      ensures SelfApart(old(Sp())) && FitsLate(old(Sp()), vaddr, sz) ==> SelfApart(Sp())
      ensures ok == Define(old(Sp()), vaddr, sz).Some?
      ensures ok ==> Sp() == Define(old(Sp()), vaddr, sz).value
    {
      ghost var before := Sp();
      CoversIffFits(before, vaddr, sz);
      if Filled(before).Some? && FitsLate(before, vaddr, sz) {
        DefinedApart(before, before, vaddr, sz);
      }
      var size := (sz + vaddr % PAGE) % WORD;
      var base := vaddr - vaddr % PAGE;
      size := (size + PAGE - 1) % WORD;
      var npages := (size - size % PAGE) / PAGE;
      if vbase1 == 0 {
        vbase1, npages1 := base, npages;
        assert Sp() == Define(before, vaddr, sz).value;
        return true;
      }
      if vbase2 == 0 {
        vbase2, npages2 := base, npages;
        assert Sp() == Define(before, vaddr, sz).value;
        return true;
      }
      return false;
    }

    /** as_prepare_load; false is ENOMEM.  It succeeds exactly when what is left of memory
        suffices for all three regions, and then each has a range of its own that nobody had
        before. */
    method PrepareLoad(ram: PhysMem) returns (ok: bool)
      requires Valid() && Unloaded(Sp())
      modifies `pbase1, `pbase2, `stackpbase, ram`firstpaddr, ram`grants
      ensures Valid() && (ram.R(), Sp(), ok) == Prepare(old(ram.R()), old(Sp()))
      ensures old(ram.Valid() && SafeSpace(ram.R(), Sp())) ==>
                HasOwnFrames(old(ram.R()), old(Sp()), ram.R(), Sp(), ok)
    {
      ghost var r, sp := ram.R(), Sp();
      pbase1 := ram.GetPages(npages1);
      ok := pbase1 != 0;
      if ok {
        pbase2 := ram.GetPages(npages2);
        ok := pbase2 != 0;
        if ok {
          stackpbase := ram.GetPages(STACKPAGES);
          ok := stackpbase != 0;
        }
      }
      assert (ram.R(), Sp(), ok) == Prepare(r, sp);
      if Sane(r) && SafeSpace(r, sp) {
        OwnFrames(r, sp);
      }
    }
  }

  /** What preparing `sp` does: the allocator keeps what it handed out, and if there is memory
      for all three regions each gets a range of its own that nobody had before. */
  predicate HasOwnFrames(ram: Ram, sp: Space, ram': Ram, sp': Space, ok: bool) {
    && Sane(ram') && ram'.mem == ram.mem && Later(ram, ram') && Shape(sp') == Shape(sp)
    && (ok <==> ram.first + Bytes(sp.npages1) + Bytes(sp.npages2) + Bytes(STACKPAGES) <= ram.last)
    && (ok ==> Loaded(sp') && SelfApart(sp') && Allocated(ram', sp') && forall r: Region :: ram.first <= PBase(sp', r))
    && (ok ==> sp'.pbase1 <= sp'.pbase2 <= sp'.stackpbase)
  }

  lemma OwnFrames(ram: Ram, sp: Space)
    requires Sane(ram) && SafeSpace(ram, sp) && Unloaded(sp)
    ensures var (ram', sp', ok) := Prepare(ram, sp); HasOwnFrames(ram, sp, ram', sp', ok)
  {
    PrepareFresh(ram, sp);
    PrepareFails(ram, sp);
    if Prepare(ram, sp).2 {
      PrepareAdjacent(ram, sp);
    }
  }

  /** All of the `sz` bytes at `vaddr` are in the region. */
  ghost predicate Covers(sp: Space, r: Region, vaddr: nat, sz: nat)
    requires !r.Stack?
  {
    forall va: nat :: vaddr <= va < vaddr + sz ==> InPages(sp, r, va)
  }

  predicate InPages(sp: Space, r: Region, va: nat)
    requires !r.Stack?
  {
    var base := if r.First? then sp.vbase1 else sp.vbase2;
    base <= va < base + Bytes(NPages(sp, r))
  }

  /** The region begins less than a page before `vaddr` and ends less than a page after the
      last of the `sz` bytes. */
  predicate Tight(sp: Space, r: Region, vaddr: nat, sz: nat)
    requires !r.Stack?
  {
    var base := if r.First? then sp.vbase1 else sp.vbase2;
    vaddr < base + PAGE && base + Bytes(NPages(sp, r)) < vaddr + sz + PAGE
  }

  /** Only the place and the size of region `r` may differ. */
  predicate OthersKept(sp: Space, sp': Space, r: Region) {
    && (forall q: Region :: PBase(sp', q) == PBase(sp, q) && (q != r ==> NPages(sp', q) == NPages(sp, q)))
    && (r != First ==> sp'.vbase1 == sp.vbase1) && (r != Second ==> sp'.vbase2 == sp.vbase2)
  }

  lemma CoversIffFits(sp: Space, vaddr: nat, sz: nat)
    requires vaddr < WORD && sz < WORD
    ensures Filled(sp).Some? ==>
              var sp', r := Define(sp, vaddr, sz).value, Filled(sp).value;
              && (Covers(sp', r, vaddr, sz) <==> sz + vaddr % PAGE + PAGE - 1 < WORD)
              && (Covers(sp', r, vaddr, sz) && 0 < sz ==> Tight(sp', r, vaddr, sz))
  {
    RegionCoversIffFits(vaddr, sz);
    if Filled(sp).Some? && 0 < sz {
      var sp', r := Define(sp, vaddr, sz).value, Filled(sp).value;
      var last := vaddr + sz - 1;
      assert InPages(sp', r, last) <==> vaddr + sz <= PageBase(vaddr) + Bytes(RegionPages(vaddr, sz));
    }
  }

  /** The copy `c` has its own frames, maps the addresses that its parent `p` maps, holds at
      each the byte that the parent holds, and memory below `limit` is as it was. */
  ghost predicate IsCopy(mem: seq<nat>, p: Space, mem': seq<nat>, c: Space, limit: nat) {
    && (forall userStack: nat, va: nat :: Layout(userStack) ==>
          && Phys(userStack, c, va).Some? == Phys(userStack, p, va).Some?
          && (Phys(userStack, p, va).Some? ==>
                SameByte(mem, Phys(userStack, p, va).value, mem', Phys(userStack, c, va).value)))
    && (forall i :: 0 <= i < limit ==> SameByte(mem, i, mem', i))
  }

  /** as_copy; null is ENOMEM.  The copy maps the addresses that the parent maps and holds at
      each the byte that the parent holds, and no memory that was in use is changed. */
  method AsCopy(parent: AddrSpace, ram: PhysMem) returns (child: AddrSpace?)
    requires parent.Valid() && ram.Valid() && Loaded(parent.Sp()) && Allocated(ram.R(), parent.Sp())
    modifies ram
    ensures ram.Valid() && Later(old(ram.R()), ram.R())
    ensures child != null <==>
              old(ram.firstpaddr) + Bytes(parent.npages1) + Bytes(parent.npages2) + Bytes(STACKPAGES) <= ram.lastpaddr
    ensures child == null ==> ram.mem == old(ram.mem)
    ensures child != null ==>
              && fresh(child) && child.Valid() && Shape(child.Sp()) == Shape(parent.Sp())
              && Loaded(child.Sp()) && SelfApart(child.Sp()) && Allocated(ram.R(), child.Sp())
              && (forall r: Region :: old(ram.firstpaddr) <= PBase(child.Sp(), r))
              && IsCopy(old(ram.mem), parent.Sp(), ram.mem, child.Sp(), old(ram.firstpaddr))
  {
    var nu := new AddrSpace();
    nu.vbase1, nu.npages1 := parent.vbase1, parent.npages1;
    nu.vbase2, nu.npages2 := parent.vbase2, parent.npages2;
    ghost var p, r := parent.Sp(), ram.R();
    AllocatedSafe(r, p);
    assert nu.Sp() == Shape(p);
    var ok := nu.PrepareLoad(ram);
    if !ok {
      return null;
    }
    ghost var c, r' := nu.Sp(), ram.R();
    MovesFit(r, p, r', c);
    CopiedAll(r.mem, p, c, r.first);
    ram.mem := MemMove(ram.mem, nu.pbase1, parent.pbase1, parent.npages1 * PAGE);
    ram.mem := MemMove(ram.mem, nu.pbase2, parent.pbase2, parent.npages2 * PAGE);
    ram.mem := MemMove(ram.mem, nu.stackpbase, parent.stackpbase, STACKPAGES * PAGE);
    assert ram.mem == CopyFrames(r.mem, p, c);
    ContentsOnly(r', ram.R(), c);
    return nu;
  }

  /** The contents of memory do not matter to what was handed out. */
  lemma ContentsOnly(ram: Ram, ram': Ram, c: Space)
    requires Sane(ram) && Allocated(ram, c) && |ram'.mem| == |ram.mem| && ram' == ram.(mem := ram'.mem)
    ensures Sane(ram') && Allocated(ram', c)
  {
    AllocatedLater(ram, ram', c);
  }

  predicate SameByte(mem: seq<nat>, i: nat, mem': seq<nat>, j: nat) {
    i < |mem| && j < |mem'| && mem'[j] == mem[i]
  }

  lemma AllocatedSafe(ram: Ram, sp: Space)
    requires Sane(ram) && Allocated(ram, sp)
    ensures SafeSpace(ram, Shape(sp))
  {
    AllocatedInside(ram, sp);
    assert PBase(sp, First) + Bytes(NPages(sp, First)) <= ram.first;
    assert PBase(sp, Second) + Bytes(NPages(sp, Second)) <= ram.first;
  }

  lemma MovesFit(ram: Ram, p: Space, ram': Ram, c: Space)
    requires Sane(ram) && Allocated(ram, p) && HasOwnFrames(ram, Shape(p), ram', c, true)
    ensures ram.first <= |ram.mem| && CanMove(|ram.mem|, p, c, ram.first)
  {
    AllocatedInside(ram, p);
    AllocatedInside(ram', c);
    assert PBase(c, First) == c.pbase1 && PBase(c, Second) == c.pbase2 && PBase(c, Stack) == c.stackpbase;
    assert PBase(p, First) == p.pbase1 && PBase(p, Second) == p.pbase2 && PBase(p, Stack) == p.stackpbase;
    assert NPages(c, First) == NPages(p, First) && NPages(c, Second) == NPages(p, Second);
  }

  lemma CopiedAll(mem: seq<nat>, p: Space, c: Space, limit: nat)
    requires Formed(p) && Shape(p) == Shape(c) && limit <= |mem| && CanMove(|mem|, p, c, limit)
    ensures IsCopy(mem, p, CopyFrames(mem, p, c), c, limit)
  {
    var mem' := CopyFrames(mem, p, c);
    forall i | 0 <= i < limit ensures SameByte(mem, i, mem', i) {
      CopyFramesAt(mem, p, c, limit, First, i);
    }
    forall userStack: nat, va: nat | Layout(userStack)
      ensures Phys(userStack, c, va).Some? == Phys(userStack, p, va).Some?
      ensures Phys(userStack, p, va).Some? ==>
                SameByte(mem, Phys(userStack, p, va).value, mem', Phys(userStack, c, va).value)
    {
      CopiedByte(userStack, mem, p, c, limit, va);
    }
  }
}
