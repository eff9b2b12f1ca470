/**
 `kmem_map_kernel_memory`: the boot-module window, the kernel sections, the guard page, the
 stack, the console page and the kernel heap, built by a sequence of `kmap` calls.
 */
module KernelMap {
  import opened Paging
  import opened Mmap
  import opened AddressSpace
  import opened Accounting
  import opened MmapRuns
  import opened Window

  const K_BOOT_VMA: nat := 0x10_0000
  const K_HIGH_VMA: nat := 0xFE80_0000
  const K_HIGH_PAGE: nat := 0xF_E800
  const K_SLOT: nat := 1018
  const KHEAP_SIZE: nat := 0x100_0000
  const CONSOLE_PADDR: nat := 0xB_8000

  /** The linker symbols in link order; they are page-aligned, so the layout holds page numbers. */
  datatype Layout = Layout(start: nat, ktableEnd: nat, textEnd: nat, bssEnd: nat, rodataEnd: nat, guard: nat,
                           stackEnd: nat) {
    predicate Ok() {
      && K_HIGH_VMA + K_BOOT_VMA <= 4096 * start && start <= ktableEnd <= textEnd <= bssEnd <= rodataEnd <= guard
         && guard + 1 <= stackEnd
      && 4096 * (stackEnd + 1) + KHEAP_SIZE <= ADDRESS_LIMIT
    }
    /** The image, the stack and the console page end inside the kernel's own table. */
    predicate Snug() { Heap() < 1024 * (K_SLOT + 1) }
    /** `__console_debug` directly follows the stack and the heap follows it. */
    function Heap(): nat { stackEnd + 1 }
    /** `__kernel_end`, as a physical address: behind the page set aside for the console. */
    function KernelEnd(): (end: nat)
      requires Ok()
      ensures end % 4096 == 0 && K_BOOT_VMA < end
    {
      4096 * (Heap() - K_HIGH_PAGE)
    }
    /** Pages of the image, the stack and the console. */
    predicate HasPage(vp: int) { start <= vp <= stackEnd && vp != guard }
    /** Where they are. */
    function PageFrame(vp: int): int { if vp == stackEnd then CONSOLE_PADDR / 4096 else vp - K_HIGH_PAGE }
  }

  function Kmap(pd: nat, vaddr: nat, paddr: nat, size: nat, flags: nat): Request {
    Request(pd, true, paddr, vaddr, size, flags)
  }

  function Section(pd: nat, from: nat, to: nat, flags: nat): Request
    requires K_HIGH_VMA <= 4096 * from && from <= to
  {
    Kmap(pd, 4096 * from, 4096 * from - K_HIGH_VMA, 4096 * to - 4096 * from, flags)
  }

  const RD: nat := PROT_READ
  const RDWR: nat := PROT_READ + PROT_WRITE
  const RDEX: nat := PROT_READ + PROT_EXEC

  /** Call number `k`: tables, text, bss, rodata, data, guard, stack, console, heap. */
  function Call(l: Layout, pd: nat, k: nat): Request
    requires l.Ok()
  {
    if k == 0 then Section(pd, l.start, l.ktableEnd, RDWR)
    else if k == 1 then Section(pd, l.ktableEnd, l.textEnd, RDEX)
    else if k == 2 then Section(pd, l.textEnd, l.bssEnd, RDWR)
    else if k == 3 then Section(pd, l.bssEnd, l.rodataEnd, RD)
    else if k == 4 then Section(pd, l.rodataEnd, l.guard, RDWR)
    else if k == 5 then Kmap(pd, 4096 * l.guard, 0, 4096, PROT_NONE)
    else if k == 6 then Section(pd, l.guard + 1, l.stackEnd, RDWR)
    else if k == 7 then Kmap(pd, 4096 * l.stackEnd, CONSOLE_PADDR, 4096, RDWR)
    else Kmap(pd, 4096 * l.Heap(), 0, KHEAP_SIZE, RDWR)
  }

  /** The first `n` calls. */
  function Plan(l: Layout, pd: nat, n: nat): (p: seq<Request>)
    requires l.Ok()
    ensures |p| == n && forall k | 0 <= k < n :: p[k] == Call(l, pd, k)
  {
    seq(n, k requires 0 <= k < n => Call(l, pd, k))
  }

  // ---- the boot-module window ------------------------------------------------------------

  /** `bootstrap_map_boot_modules`: hang up the kernel table and the identity window. */
  method MapBootModules(m: Machine, pd: nat, kernelPt: nat, bootstrapPt: nat, mods: seq<Range>) returns (ok: bool)
    requires IsTable(m.mem, pd) && IsTable(m.mem, kernelPt) && IsTable(m.mem, bootstrapPt) && Window.Aligned(mods)
    requires pd != kernelPt && pd != bootstrapPt && kernelPt != bootstrapPt
    modifies m`mem
    ensures ok <==> AllHold(mods)
    ensures ok ==> Hung(old(m.mem), m.mem, pd, kernelPt, bootstrapPt, mods)
  {
    m.mem := WithEntry(m.mem, pd, K_SLOT, Pte(kernelPt, WINDOW));
    m.mem := WithEntry(m.mem, pd, 0, Pte(bootstrapPt, WINDOW));
    var window;
    ok, window := BuildWindow(mods);
    if ok { m.mem := m.mem[bootstrapPt := Table(window)]; }
  }

  /** Two slots of the directory and one table are written. */
  ghost predicate Hung(mem: Memory, mem': Memory, pd: nat, kernelPt: nat, bootstrapPt: nat, mods: seq<Range>) {
    && |mem'| == |mem| && IsTable(mem, pd) && bootstrapPt < |mem| && mem'[bootstrapPt].Table?
    && mem'[pd] == Table(mem[pd].entries[K_SLOT := Pte(kernelPt, WINDOW)][0 := Pte(bootstrapPt, WINDOW)])
    && WindowUpTo(mem'[bootstrapPt].entries, mods, |mods|)
    && (forall f | 0 <= f < |mem'| && f != pd && f != bootstrapPt :: mem'[f] == mem[f])
  }

  // ---- the kernel address space ----------------------------------------------------------

  /** Where the static tables are at boot: empty, distinct, and outside the free region. */
  ghost predicate Cold(s: State, pd: nat, kernelPt: nat, bootstrapPt: nat) {
    && pd != kernelPt && pd != bootstrapPt && kernelPt != bootstrapPt && kernelPt != 0 && bootstrapPt != 0
    && pd < |s.mem| && kernelPt < |s.mem| && bootstrapPt < |s.mem|
    && s.mem[pd] == ZeroTable() && s.mem[kernelPt] == ZeroTable() && IsTable(s.mem, bootstrapPt)
    && !InRegion(s, pd) && !InRegion(s, kernelPt) && !InRegion(s, bootstrapPt)
    && Backed(s) && (forall f | InRegion(s, f) :: IsData(s.mem, f))
  }

  /** The directory after the window is in place: ready for mapping, empty above slot zero. */
  ghost predicate Warm(s: State, pd: nat, kernelPt: nat, bootstrapPt: nat, mods: seq<Range>) {
    && Ready(s, pd)
    && (forall i :: Pde(s.mem, pd, i) ==
                      if i == 0 then Pte(bootstrapPt, WINDOW) else if i == K_SLOT then Pte(kernelPt, WINDOW) else NONE)
    && (forall vp | 1024 <= vp < VPAGES :: Entry(s.mem, pd, vp) == NONE)
    && (forall vp | 0 <= vp < 1024 :: Entry(s.mem, pd, vp) == WindowPte(mods, |mods|, vp))
  }

  lemma WarmDirectory(s: State, s': State, pd: nat, kernelPt: nat, bootstrapPt: nat, mods: seq<Range>)
    requires Cold(s, pd, kernelPt, bootstrapPt) && s' == s.(mem := s'.mem)
    requires Hung(s.mem, s'.mem, pd, kernelPt, bootstrapPt, mods)
    ensures Warm(s', pd, kernelPt, bootstrapPt, mods)
    ensures PurseOf(s', pd) == Purse(s.len, {0, K_SLOT}, s.checked)
  {
    assert forall i | i != 0 && i != K_SLOT :: Pde(s'.mem, pd, i) == NONE;
    assert Pde(s'.mem, pd, 0) == Pte(bootstrapPt, WINDOW) && Pde(s'.mem, pd, K_SLOT) == Pte(kernelPt, WINDOW);
    forall i | 0 <= i < 1024 ensures SlotOk(s'.mem, pd, i) {}
    forall f | InRegion(s', f) ensures IsData(s'.mem, f) { assert InRegion(s, f); }
    assert SlotsOf(s'.mem, pd) == {0, K_SLOT};
  }

  predicate CallAligned(q: Request, pd: nat) {
    q.Ok() && q.pd == pd && q.kernel && q.size % 4096 == 0 && K_HIGH_VMA < q.vaddr
  }

  lemma SectionAligned(pd: nat, from: nat, to: nat, flags: nat)
    requires K_HIGH_VMA < 4096 * from && from <= to && 4096 * to < ADDRESS_LIMIT
    ensures CallAligned(Section(pd, from, to, flags), pd)
    ensures Section(pd, from, to, flags).vaddr + Section(pd, from, to, flags).size == 4096 * to
  {
    assert 4096 * from - K_HIGH_VMA == 4096 * (from - 0xF_E800);
    assert 4096 * to - 4096 * from == 4096 * (to - from);
  }

  /** Every call is aligned, and each starts where the one before it ends. */
  lemma CallOk(l: Layout, pd: nat, k: nat)
    requires l.Ok() && k < 9
    ensures CallAligned(Call(l, pd, k), pd)
    ensures k < 8 ==> Call(l, pd, k).vaddr + Call(l, pd, k).size == Call(l, pd, k + 1).vaddr
  {
    if k == 0 { SectionAligned(pd, l.start, l.ktableEnd, RDWR); }
    else if k == 1 { SectionAligned(pd, l.ktableEnd, l.textEnd, RDEX); }
    else if k == 2 { SectionAligned(pd, l.textEnd, l.bssEnd, RDWR); }
    else if k == 3 { SectionAligned(pd, l.bssEnd, l.rodataEnd, RD); }
    else if k == 4 { SectionAligned(pd, l.rodataEnd, l.guard, RDWR); }
    else if k == 6 { SectionAligned(pd, l.guard + 1, l.stackEnd, RDWR); }
  }

  lemma CallsApart(l: Layout, pd: nat, i: nat, j: nat)
    requires l.Ok() && i < j < 9
    ensures ApartRequests(Call(l, pd, i), Call(l, pd, j))
    ensures Call(l, pd, i).vaddr + Call(l, pd, i).size <= Call(l, pd, j).vaddr
    decreases j
  {
    CallOk(l, pd, j - 1);
    CallOk(l, pd, i);
    CallOk(l, pd, j);
    if i < j - 1 { CallsApart(l, pd, i, j - 1); }
    PageOrder(Call(l, pd, i), Call(l, pd, j));
  }

  lemma PageOrder(p: Request, q: Request)
    requires p.Ok() && q.Ok() && p.size % 4096 == 0 && p.vaddr + p.size <= q.vaddr
    ensures p.First() + p.Count() <= q.First()
  {}

  /** What page `vp` of call `k` ends with: the wanted rights over its linear frame, or over a
      data frame taken from the region where the call allocates. */
  predicate KernelPage(l: Layout, pd: nat, s0: State, s: State, k: nat, vp: int)
    requires l.Ok()
  {
    var q, e := Call(l, pd, k), Entry(s.mem, pd, vp);
    && e.access == Rights(q.flags)
    && if q.paddr != 0 then e.frame == q.paddr / 4096 + (vp - q.First())
       else s0.next <= e.frame < s.next && IsData(s.mem, e.frame)
  }

  /** Pages that get frames of their own: the guard page and the heap. */
  predicate Allocates(l: Layout, pd: nat, vp: int)
    requires l.Ok()
  {
    Call(l, pd, 5).Includes(vp) || Call(l, pd, 8).Includes(vp)
  }

  /** A slot keeps what it had below and at the kernel's table, and above it has a table taken
      from the region if any. */
  predicate KernelSlot(pd: nat, s0: State, s: State, i: int) {
    var d0, d := Pde(s0.mem, pd, i), Pde(s.mem, pd, i);
    if i <= K_SLOT || d0 != NONE then d == d0
    else d != NONE ==> s0.next <= d.frame < s.next && d.access == Access(true, true, false)
  }

  /** The kernel address space. */
  ghost predicate KernelSpace(l: Layout, pd: nat, s0: State, s: State)
    requires l.Ok()
  {
    && Ready(s, pd) && Advances(s0, s) && |s.mem| == |s0.mem| && Limit(s) == Limit(s0)
    && (forall k, vp | 0 <= k < 9 && Call(l, pd, k).Includes(vp) :: KernelPage(l, pd, s0, s, k, vp))
    && (forall vp, wp | Allocates(l, pd, vp) && Allocates(l, pd, wp) && vp < wp ::
          Entry(s.mem, pd, vp).frame < Entry(s.mem, pd, wp).frame)
    && (forall i :: KernelSlot(pd, s0, s, i))
    && (forall vp | 0 <= vp < 1024 :: Entry(s.mem, pd, vp) == Entry(s0.mem, pd, vp))
    && (forall f | 0 <= f < |s.mem| && f != pd && !(s0.next <= f < s.next) && !HighTable(s0, pd, K_SLOT, f) ::
          s.mem[f] == s0.mem[f])
  }

  /** A page that the kernel's calls allocate has a data frame taken on the way. */
  lemma AllocatedFrame(l: Layout, pd: nat, s0: State, s: State, vp: int)
    requires l.Ok() && KernelSpace(l, pd, s0, s) && Allocates(l, pd, vp)
    ensures var f := Entry(s.mem, pd, vp).frame; s0.next <= f < s.next && IsData(s.mem, f)
  {
    var k := if Call(l, pd, 5).Includes(vp) then 5 else 8;
    assert Call(l, pd, k).paddr == 0;
    assert KernelPage(l, pd, s0, s, k, vp);
  }

  ghost predicate KernelRun(trace: seq<State>, l: Layout, pd: nat) {
    && l.Ok() && IsRun(trace, Plan(l, pd, 9), pd)
    && forall wp | 1024 <= wp < VPAGES :: Entry(trace[0].mem, pd, wp) == NONE
  }

  lemma PlanHigh(l: Layout, pd: nat)
    requires l.Ok()
    ensures forall j | 0 <= j < 9 :: K_SLOT <= Plan(l, pd, 9)[j].First() / 1024
    ensures forall i, j | 0 <= i < j < 9 :: ApartRequests(Plan(l, pd, 9)[i], Plan(l, pd, 9)[j])
  {
    var reqs := Plan(l, pd, 9);
    forall j | 0 <= j < 9 ensures K_SLOT <= reqs[j].First() / 1024 { CallOk(l, pd, j); }
    forall i, j | 0 <= i < j < 9 ensures ApartRequests(reqs[i], reqs[j]) { CallsApart(l, pd, i, j); }
  }

  /** The entry of a page after all the calls is the one its own call gave it. */
  lemma OwnEntry(trace: seq<State>, l: Layout, pd: nat, k: nat, vp: int)
    requires KernelRun(trace, l, pd) && k < 9 && Call(l, pd, k).Includes(vp)
    ensures 1024 <= vp < VPAGES && Entry(trace[k].mem, pd, vp) == NONE
    ensures Entry(trace[9].mem, pd, vp) == Pte(FrameFor(trace[k], Call(l, pd, k), vp), Rights(Call(l, pd, k).flags))
  {
    CallOk(l, pd, k);
    PlanHigh(l, pd);
    OwnCallDecides(trace, Plan(l, pd, 9), pd, k, vp);
  }

  /** A frame given to a page is data, at its own call and after all the calls. */
  lemma OwnFrameTaken(trace: seq<State>, l: Layout, pd: nat, k: nat, vp: int)
    requires KernelRun(trace, l, pd) && k < 9 && Call(l, pd, k).Includes(vp) && Call(l, pd, k).paddr == 0
    ensures var f := Entry(trace[9].mem, pd, vp).frame;
            trace[k].next <= f < trace[k + 1].next && trace[0].next <= f < trace[9].next && IsData(trace[9].mem, f)
  {
    var reqs, q, f := Plan(l, pd, 9), Call(l, pd, k), Entry(trace[9].mem, pd, vp).frame;
    OwnEntry(trace, l, pd, k, vp);
    RunAdvances(trace, reqs, pd, 0, k);
    RunAdvances(trace, reqs, pd, k + 1, 9);
    assert Step(trace[k], trace[k + 1], q, pd);
    FreshFrame(trace[k], q, vp);
    assert InRegion(trace[k], f) && IsData(trace[k].mem, f);
    DataKept(trace[k], trace[k + 1], q, f);
    DataStays(trace, reqs, pd, k + 1, 9, f);
  }

  lemma KernelPageHolds(trace: seq<State>, l: Layout, pd: nat, k: nat, vp: int)
    requires KernelRun(trace, l, pd) && k < 9 && Call(l, pd, k).Includes(vp)
    ensures KernelPage(l, pd, trace[0], trace[9], k, vp)
  {
    OwnEntry(trace, l, pd, k, vp);
    if Call(l, pd, k).paddr == 0 { OwnFrameTaken(trace, l, pd, k, vp); }
  }

  /** Frames that the calls allocate ascend. */
  lemma FramesAscend(trace: seq<State>, l: Layout, pd: nat, i: nat, vp: int, j: nat, wp: int)
    requires KernelRun(trace, l, pd) && i <= j < 9 && Call(l, pd, i).Includes(vp) && Call(l, pd, j).Includes(wp)
             && vp < wp
    requires Call(l, pd, i).paddr == 0 && Call(l, pd, j).paddr == 0
    ensures Entry(trace[9].mem, pd, vp).frame < Entry(trace[9].mem, pd, wp).frame
  {
    OwnEntry(trace, l, pd, i, vp);
    OwnEntry(trace, l, pd, j, wp);
    if i == j {
      FreshFramesDistinct(trace[i], Call(l, pd, i), vp, wp);
    } else {
      OwnFrameTaken(trace, l, pd, i, vp);
      OwnFrameTaken(trace, l, pd, j, wp);
      RunAdvances(trace, Plan(l, pd, 9), pd, i + 1, j);
    }
  }

  lemma OwnFramesAscend(trace: seq<State>, l: Layout, pd: nat, vp: int, wp: int)
    requires KernelRun(trace, l, pd) && Allocates(l, pd, vp) && Allocates(l, pd, wp) && vp < wp
    ensures Entry(trace[9].mem, pd, vp).frame < Entry(trace[9].mem, pd, wp).frame
  {
    var i, j := if Call(l, pd, 5).Includes(vp) then 5 else 8, if Call(l, pd, 5).Includes(wp) then 5 else 8;
    CallsApart(l, pd, 5, 8);
    assert Call(l, pd, 8).paddr == 0 && Call(l, pd, 5).paddr == 0 && i <= j;
    FramesAscend(trace, l, pd, i, vp, j, wp);
  }

  lemma KernelSlotHolds(trace: seq<State>, l: Layout, pd: nat, i: int)
    requires KernelRun(trace, l, pd) && Pde(trace[0].mem, pd, K_SLOT) != NONE
    ensures KernelSlot(pd, trace[0], trace[9], i)
  {
    var reqs := Plan(l, pd, 9);
    PlanHigh(l, pd);
    if Pde(trace[0].mem, pd, i) != NONE {
      SlotStays(trace, reqs, pd, i, 0, 9);
    } else if i < K_SLOT {
      LowSlotsKept(trace, reqs, pd, K_SLOT, 9, i);
    } else if Pde(trace[9].mem, pd, i) != NONE {
      NewTablesTaken(trace, reqs, pd, 9, i);
      KernelMade(trace, l, pd, i);
    }
  }

  /** Tables that the calls make are closed to user mode. */
  lemma KernelMade(trace: seq<State>, l: Layout, pd: nat, i: int)
    requires KernelRun(trace, l, pd) && Pde(trace[0].mem, pd, i) == NONE && Pde(trace[9].mem, pd, i) != NONE
    ensures Pde(trace[9].mem, pd, i).access == Access(true, true, false)
  {
    MakerExists(trace, pd, i, 9);
    var k :| Makes(trace, pd, i, k) && k < 9;
    CallOk(l, pd, k);
    MakerDecides(trace, Plan(l, pd, 9), pd, i, k);
  }

  /** Composing the nine calls gives the kernel address space. */
  lemma KernelSpaceHolds(trace: seq<State>, l: Layout, pd: nat)
    requires KernelRun(trace, l, pd) && Pde(trace[0].mem, pd, K_SLOT) != NONE
    ensures KernelSpace(l, pd, trace[0], trace[9])
  {
    var reqs := Plan(l, pd, 9);
    PlanHigh(l, pd);
    RunAdvances(trace, reqs, pd, 0, 9);
    assert Step(trace[8], trace[9], reqs[8], pd);
    forall k, vp | 0 <= k < 9 && Call(l, pd, k).Includes(vp) ensures KernelPage(l, pd, trace[0], trace[9], k, vp) {
      KernelPageHolds(trace, l, pd, k, vp);
    }
    forall vp, wp | Allocates(l, pd, vp) && Allocates(l, pd, wp) && vp < wp
      ensures Entry(trace[9].mem, pd, vp).frame < Entry(trace[9].mem, pd, wp).frame
    {
      OwnFramesAscend(trace, l, pd, vp, wp);
    }
    forall i ensures KernelSlot(pd, trace[0], trace[9], i) { KernelSlotHolds(trace, l, pd, i); }
    WindowStays(trace, l, pd);
    forall f | 0 <= f < |trace[9].mem| && f != pd && !(trace[0].next <= f < trace[9].next)
               && !HighTable(trace[0], pd, K_SLOT, f)
      ensures trace[9].mem[f] == trace[0].mem[f]
    {
      RunWrites(trace, reqs, pd, K_SLOT, 9, f);
    }
  }

  lemma WindowStays(trace: seq<State>, l: Layout, pd: nat)
    requires KernelRun(trace, l, pd)
    ensures forall vp | 0 <= vp < 1024 :: Entry(trace[9].mem, pd, vp) == Entry(trace[0].mem, pd, vp)
  {
    var reqs := Plan(l, pd, 9);
    forall vp | 0 <= vp < 1024 ensures Entry(trace[9].mem, pd, vp) == Entry(trace[0].mem, pd, vp) {
      forall i | 0 <= i < 9 ensures !reqs[i].Includes(vp) { CallOk(l, pd, i); }
      EntryKept(trace, reqs, pd, 0, 9, vp);
    }
  }

  /** The kernel's own sections are mapped linearly below K_HIGH_VMA, and never to user mode. */
  lemma SectionsLinear(l: Layout, pd: nat, s0: State, s: State, k: nat, vp: int)
    requires l.Ok() && KernelSpace(l, pd, s0, s) && (k < 5 || k == 6) && Call(l, pd, k).Includes(vp)
    ensures Walk(s.mem, pd, vp) == Mapped(vp - K_HIGH_VMA / 4096, Rights(Call(l, pd, k).flags).writable, false)
  {
    CallOk(l, pd, k);
    assert KernelPage(l, pd, s0, s, k, vp);
    assert SlotOk(s.mem, pd, vp / 1024);
  }

  /** The call that maps a page of the image. */
  lemma CallOf(l: Layout, pd: nat, vp: int) returns (k: nat)
    requires l.Ok() && l.HasPage(vp)
    ensures k < 8 && k != 5 && Call(l, pd, k).Includes(vp) && (k == 7 <==> vp == l.stackEnd)
  {
    k := if vp < l.ktableEnd then 0 else if vp < l.textEnd then 1 else if vp < l.bssEnd then 2
         else if vp < l.rodataEnd then 3 else if vp < l.guard then 4 else if vp < l.stackEnd then 6 else 7;
  }

  /** Every page of the image lies where it should. */
  lemma ImageFrame(l: Layout, pd: nat, s0: State, s: State, vp: int)
    requires l.Ok() && KernelSpace(l, pd, s0, s) && l.HasPage(vp)
    ensures Entry(s.mem, pd, vp).frame == l.PageFrame(vp)
  {
    var k := CallOf(l, pd, vp);
    CallOk(l, pd, k);
    assert KernelPage(l, pd, s0, s, k, vp);
  }

  lemma ImageOnce(l: Layout, vp: int, wp: int)
    requires l.Ok() && l.HasPage(vp) && l.HasPage(wp) && l.PageFrame(vp) == l.PageFrame(wp)
    ensures vp == wp
  {}

  /** The guard page below the stack is not present. */
  lemma GuardAbsent(l: Layout, pd: nat, s0: State, s: State)
    requires l.Ok() && KernelSpace(l, pd, s0, s)
    ensures Walk(s.mem, pd, l.guard) == NotPresent
  {
    assert Call(l, pd, 5).Includes(l.guard);
    assert KernelPage(l, pd, s0, s, 5, l.guard);
  }

  // ---- what the processor sees ----------------------------------------------------------------

  /** A page of the image: code and read-only data are closed to writes, the page below the stack is
      not present, and the last page is the console's. */
  predicate ImageSeen(l: Layout, mem: Memory, pd: nat, vp: int)
    requires l.Ok() && l.start <= vp
  {
    Walk(mem, pd, vp) ==
      if vp == l.guard then NotPresent
      else if vp == l.stackEnd then Mapped(0xB8, true, false)
      else if l.ktableEnd <= vp < l.textEnd || l.bssEnd <= vp < l.rodataEnd then Mapped(vp - 0xF_E800, false, false)
      else Mapped(vp - 0xF_E800, true, false)
  }

  /** A page of the heap: the kernel's to read and write, in a frame of `lo..hi`. */
  predicate HeapSeen(mem: Memory, pd: nat, lo: nat, hi: nat, vp: int) {
    var w := Walk(mem, pd, vp);
    w.Mapped? && w.writable && !w.user && lo <= w.frame < hi
  }

  predicate HeapApart(mem: Memory, pd: nat, vp: int, wp: int) {
    Walk(mem, pd, vp).Mapped? && Walk(mem, pd, wp).Mapped? && Walk(mem, pd, vp).frame != Walk(mem, pd, wp).frame
  }

  /** The image, the stack and the console, and then sixteen megabytes of heap. */
  ghost predicate KernelSeen(l: Layout, mem: Memory, pd: nat, lo: nat, hi: nat)
    requires l.Ok()
  {
    && (forall vp | l.start <= vp <= l.stackEnd :: ImageSeen(l, mem, pd, vp))
    && (forall vp | l.stackEnd < vp <= l.stackEnd + 0x1000 :: HeapSeen(mem, pd, lo, hi, vp))
    && (forall vp, wp | l.stackEnd < vp < wp <= l.stackEnd + 0x1000 :: HeapApart(mem, pd, vp, wp))
  }

  lemma ImageIsSeen(l: Layout, pd: nat, s0: State, s: State, vp: int)
    requires l.Ok() && KernelSpace(l, pd, s0, s) && l.start <= vp <= l.stackEnd
    ensures ImageSeen(l, s.mem, pd, vp)
  {
    if vp == l.guard {
      GuardAbsent(l, pd, s0, s);
    } else {
      var k := CallOf(l, pd, vp);
      CallOk(l, pd, k);
      ImageFrame(l, pd, s0, s, vp);
      assert KernelPage(l, pd, s0, s, k, vp);
      assert SlotOk(s.mem, pd, vp / 1024);
    }
  }

  lemma HeapIsSeen(l: Layout, pd: nat, s0: State, s: State, vp: int)
    requires l.Ok() && KernelSpace(l, pd, s0, s) && l.stackEnd < vp <= l.stackEnd + 0x1000
    ensures HeapSeen(s.mem, pd, s0.next, s.next, vp) && Walk(s.mem, pd, vp).frame == Entry(s.mem, pd, vp).frame
    ensures Allocates(l, pd, vp)
  {
    CallOk(l, pd, 8);
    assert Call(l, pd, 8).Includes(vp);
    assert KernelPage(l, pd, s0, s, 8, vp);
    assert SlotOk(s.mem, pd, vp / 1024);
  }

  /** The kernel address space as the processor sees it. */
  lemma KernelIsSeen(l: Layout, pd: nat, s0: State, s: State)
    requires l.Ok() && KernelSpace(l, pd, s0, s)
    ensures KernelSeen(l, s.mem, pd, s0.next, s.next)
  {
    forall vp | l.start <= vp <= l.stackEnd ensures ImageSeen(l, s.mem, pd, vp) { ImageIsSeen(l, pd, s0, s, vp); }
    forall vp | l.stackEnd < vp <= l.stackEnd + 0x1000 ensures HeapSeen(s.mem, pd, s0.next, s.next, vp) {
      HeapIsSeen(l, pd, s0, s, vp);
    }
    forall vp, wp | l.stackEnd < vp < wp <= l.stackEnd + 0x1000 ensures HeapApart(s.mem, pd, vp, wp) {
      HeapIsSeen(l, pd, s0, s, vp);
      HeapIsSeen(l, pd, s0, s, wp);
    }
  }

  // ---- when the whole sequence completes ------------------------------------------------------

  /** Frames taken in all: one for the guard page, four tables and 4096 pages for the heap. */
  const KERNEL_FRAMES: nat := 1 + 4 + KHEAP_SIZE / 4096

  /** The calls up to the console page stay inside the kernel's table. */
  lemma SnugCall(l: Layout, pd: nat, n: nat)
    requires l.Ok() && l.Snug() && n < 8
    ensures var q := Call(l, pd, n);
            && q.Count() < 1024 && q.First() % 1024 + q.Count() <= 1024 && q.First() / 1024 == K_SLOT
            && q.First() < VPAGES && q.size % 4096 == 0 && Wants(q) == if n == 5 then 1 else 0
  {
    CallOk(l, pd, n);
    CallOk(l, pd, n + 1);
    CallBounds(l, pd, n);
    var q := Call(l, pd, n);
    assert 1024 * K_SLOT < q.First() && q.First() + q.Count() < 1024 * (K_SLOT + 1);
  }

  lemma CallBounds(l: Layout, pd: nat, n: nat)
    requires l.Ok() && n < 8
    ensures Call(l, pd, n).vaddr + Call(l, pd, n).size <= 4096 * l.Heap()
    ensures Call(l, pd, n).paddr == 0 <==> n == 5
    ensures n == 5 ==> Call(l, pd, n).size == 4096
  {}

  predicate IsPlan(reqs: seq<Request>, l: Layout, pd: nat)
    requires l.Ok()
  {
    |reqs| == 9 && forall k | 0 <= k < |reqs| :: reqs[k] == Call(l, pd, k)
  }

  /** Before the heap only the guard page costs anything. */
  function SnugAt(p: Purse, n: nat): Balance {
    if n <= 5 then Left(p) else if !p.Affords(1) then Broke else Left(p.Less(1))
  }

  lemma {:induction false} SnugPurse(l: Layout, pd: nat, reqs: seq<Request>, p: Purse, n: nat)
    requires l.Ok() && l.Snug() && IsPlan(reqs, l, pd) && n < |reqs| && p.slots == {0, K_SLOT}
    ensures PayAll(p, reqs, n) == SnugAt(p, n)
  {
    if n > 0 {
      SnugPurse(l, pd, reqs, p, n - 1);
      SnugNext(l, pd, reqs, p, n - 1);
    }
  }

  lemma SnugNext(l: Layout, pd: nat, reqs: seq<Request>, p: Purse, n: nat)
    requires l.Ok() && l.Snug() && IsPlan(reqs, l, pd) && n < 8 && p.slots == {0, K_SLOT}
    requires PayAll(p, reqs, n) == SnugAt(p, n)
    ensures PayAll(p, reqs, n + 1) == SnugAt(p, n + 1)
  {
    if SnugAt(p, n) == Broke {
      BrokeStays(p, reqs, n, n + 1);
    } else {
      var p' := SnugAt(p, n).purse;
      PayNext(p, reqs, n, p');
      SnugStep(l, pd, reqs[n], p', n);
    }
  }

  lemma SnugStep(l: Layout, pd: nat, q: Request, p: Purse, n: nat)
    requires l.Ok() && l.Snug() && n < 8 && q == Call(l, pd, n) && p.slots == {0, K_SLOT}
    ensures PayCall(p, q) == if n != 5 then Left(p) else if !p.Affords(1) then Broke else Left(p.Less(1))
  {
    SnugCall(l, pd, n);
    OneTablePays(p, q.First(), q.size, Wants(q));
    assert p.slots + {K_SLOT} == p.slots;
  }

  /** The heap needs four tables and a frame a page. */
  lemma HeapPays(l: Layout, pd: nat, q: Request, p: Purse)
    requires l.Ok() && l.Snug() && q == Call(l, pd, 8) && p.slots == {0, K_SLOT}
    ensures PayCall(p, q) ==
              if !p.Affords(4 + KHEAP_SIZE / 4096) then Broke
              else Left(p.Less(4 + KHEAP_SIZE / 4096).(slots := {0} + SlotRange(K_SLOT, 5)))
  {
    CallOk(l, pd, 8);
    var o := q.First() % 1024;
    assert q.First() == l.Heap() && q.First() / 1024 == K_SLOT && 0 < o && Wants(q) == 4096;
    assert Visits(p.slots, q.First(), q.size) == 5;
    assert Fits(o, q.size, false);
    HeapMisses(p.slots);
    assert p.slots + SlotRange(K_SLOT, 5) == {0} + SlotRange(K_SLOT, 5);
  }

  lemma HeapMisses(slots: set<nat>)
    requires slots == {0, K_SLOT}
    ensures Missing(slots, K_SLOT, 5) == 4
  {
    assert Missing(slots, K_SLOT, 1) == 0;
    assert Missing(slots, K_SLOT, 2) == 1 && Missing(slots, K_SLOT, 3) == 2;
  }

  /** For an image inside the kernel's table the whole sequence takes exactly 4101 frames. */
  lemma SnugKernel(l: Layout, pd: nat, p: Purse)
    requires l.Ok() && l.Snug() && p.slots == {0, K_SLOT}
    ensures PayFor(p, Plan(l, pd, 9)) ==
              if !p.Affords(KERNEL_FRAMES) then Broke
              else Left(p.Less(KERNEL_FRAMES).(slots := {0} + SlotRange(K_SLOT, 5)))
  {
    var reqs := Plan(l, pd, 9);
    var n := |reqs| - 1;
    SnugPurse(l, pd, reqs, p, n);
    if p.Affords(1) {
      PayNext(p, reqs, n, p.Less(1));
      HeapPays(l, pd, reqs[n], p.Less(1));
    } else {
      BrokeStays(p, reqs, n, n + 1);
    }
  }

  // ---- the sequence ------------------------------------------------------------------------------

  /** The first `n` calls have been made, from state `s0` to state `s`. */
  ghost predicate Made(l: Layout, pd: nat, n: nat, trace: seq<State>, s0: State, s: State)
    requires l.Ok() && n <= 9
  {
    && IsRun(trace, Plan(l, pd, n), pd) && trace[0] == s0 && trace[n] == s && Ready(s, pd)
    && PayAll(PurseOf(s0, pd), Plan(l, pd, 9), n) == Left(PurseOf(s, pd))
    && (n < 9 ==> forall vp | Call(l, pd, n).First() <= vp < VPAGES :: Entry(s.mem, pd, vp) == NONE)
  }

  /** A call pays as the purse foresees, and leaves the pages behind it empty. */
  lemma CallPays(l: Layout, pd: nat, n: nat, q: Request, s: State)
    requires l.Ok() && n < 9 && q == Call(l, pd, n)
             && forall vp | q.First() <= vp < VPAGES :: Entry(s.mem, pd, vp) == NONE
    ensures NewPages(s, q) == Wants(q) && (Admissible(s, q) <==> PayCall(PurseOf(s, pd), q).Left?)
  {
    CallOk(l, pd, n);
    AllZero(s.mem, pd, q.First(), q.Count());
    PaysExactly(s, q);
  }

  lemma CallLeaves(l: Layout, pd: nat, n: nat, s: State, s': State)
    requires l.Ok() && n < 8 && forall vp | Call(l, pd, n).First() <= vp < VPAGES :: Entry(s.mem, pd, vp) == NONE
    requires Mmapped(s, s', Call(l, pd, n))
    ensures forall vp | Call(l, pd, n + 1).First() <= vp < VPAGES :: Entry(s'.mem, pd, vp) == NONE
  {
    var q := Call(l, pd, n);
    CallOk(l, pd, n);
    CallOk(l, pd, n + 1);
    PageOrder(q, Call(l, pd, n + 1));
    forall vp | Call(l, pd, n + 1).First() <= vp < VPAGES ensures Entry(s'.mem, pd, vp) == NONE {
      assert PageAfter(s, s', q, vp) && !q.Includes(vp);
    }
  }

  /** One `kmap` call, recorded in the run. */
  method KmapNext(m: Machine, l: Layout, pd: nat, n: nat, q: Request, ghost trace: seq<State>, ghost s0: State)
    returns (r: Outcome, ghost trace': seq<State>)
    requires m.regionAddr % 4096 == 0 && l.Ok() && n < 8 && q == Call(l, pd, n)
    requires Made(l, pd, n, trace, s0, m.S())
    modifies m`mem, m`regionAddr, m`regionLen
    ensures m.regionAddr % 4096 == 0
    ensures r == Done ==> Made(l, pd, n + 1, trace', s0, m.S())
    ensures r != Done ==> PayFor(PurseOf(s0, pd), Plan(l, pd, 9)) == Broke
  {
    ghost var s := m.S();
    CallOk(l, pd, n);
    r := m.Mmap(q);
    trace' := trace + [m.S()];
    if r == Done { MadeNext(l, pd, n, trace, s0, s, m.S()); } else { NotMade(l, pd, n, trace, s0, s); }
  }

  lemma MadeNext(l: Layout, pd: nat, n: nat, trace: seq<State>, s0: State, s: State, s': State)
    requires l.Ok() && n < 8 && Made(l, pd, n, trace, s0, s) && Admissible(s, Call(l, pd, n))
    requires Mmapped(s, s', Call(l, pd, n)) && Ready(s', pd)
    ensures Made(l, pd, n + 1, trace + [s'], s0, s')
  {
    var q := Call(l, pd, n);
    CallOk(l, pd, n);
    PaidNext(l, pd, n, PurseOf(s0, pd), s, s');
    RunNext(l, pd, n, trace, s');
    CallLeaves(l, pd, n, s, s');
  }

  lemma RunNext(l: Layout, pd: nat, n: nat, trace: seq<State>, s': State)
    requires l.Ok() && n < 9 && IsRun(trace, Plan(l, pd, n), pd) && Step(trace[n], s', Call(l, pd, n), pd)
    ensures IsRun(trace + [s'], Plan(l, pd, n + 1), pd)
  {
    RunExtends(trace, Plan(l, pd, n), pd, s', Call(l, pd, n));
    assert Plan(l, pd, n) + [Call(l, pd, n)] == Plan(l, pd, n + 1);
  }

  /** A call that completes is paid for. */
  lemma PaidNext(l: Layout, pd: nat, n: nat, p: Purse, s: State, s': State)
    requires l.Ok() && n < 9 && PayAll(p, Plan(l, pd, 9), n) == Left(PurseOf(s, pd))
    requires forall vp | Call(l, pd, n).First() <= vp < VPAGES :: Entry(s.mem, pd, vp) == NONE
    requires Admissible(s, Call(l, pd, n)) && Mmapped(s, s', Call(l, pd, n))
    ensures PayAll(p, Plan(l, pd, 9), n + 1) == Left(PurseOf(s', pd))
  {
    var q := Call(l, pd, n);
    CallOk(l, pd, n);
    CallPays(l, pd, n, q, s);
    PaysFor(s, s', q);
    PayNext(p, Plan(l, pd, 9), n, PurseOf(s, pd));
  }

  lemma NotMade(l: Layout, pd: nat, n: nat, trace: seq<State>, s0: State, s: State)
    requires l.Ok() && n < 9 && Made(l, pd, n, trace, s0, s) && !Admissible(s, Call(l, pd, n))
    ensures PayFor(PurseOf(s0, pd), Plan(l, pd, 9)) == Broke
  {
    CallPays(l, pd, n, Call(l, pd, n), s);
    Stops(PurseOf(s0, pd), Plan(l, pd, 9), n, PurseOf(s, pd));
  }

  /** The call on the kernel's tables. */
  method MapTables(m: Machine, l: Layout, pd: nat) returns (r: Outcome, curr: nat, phys: nat, ghost trace: seq<State>)
    requires m.regionAddr % 4096 == 0 && l.Ok() && Made(l, pd, 0, [m.S()], m.S(), m.S())
    modifies m`mem, m`regionAddr, m`regionLen
    ensures m.regionAddr % 4096 == 0
    ensures r == Done ==> Made(l, pd, 1, trace, old(m.S()), m.S())
    ensures r == Done ==> curr == 4096 * l.ktableEnd && phys == curr - K_HIGH_VMA
    ensures r != Done ==> PayFor(PurseOf(old(m.S()), pd), Plan(l, pd, 9)) == Broke
  {
    ghost var s0 := m.S();
    curr, trace := 4096 * l.start, [s0];
    phys := curr - K_HIGH_VMA;
    var size := 4096 * l.ktableEnd - 4096 * l.start;
    var q := Kmap(pd, curr, phys, size, PROT_READ + PROT_WRITE);
    assert q == Call(l, pd, 0);
    r, trace := KmapNext(m, l, pd, 0, q, trace, s0);
    phys, curr := phys + size, curr + size;
  }

  /** Then its code. */
  method MapText(m: Machine, l: Layout, pd: nat) returns (r: Outcome, curr: nat, phys: nat, ghost trace: seq<State>)
    requires m.regionAddr % 4096 == 0 && l.Ok() && Made(l, pd, 0, [m.S()], m.S(), m.S())
    modifies m`mem, m`regionAddr, m`regionLen
    ensures m.regionAddr % 4096 == 0
    ensures r == Done ==> Made(l, pd, 2, trace, old(m.S()), m.S())
    ensures r == Done ==> curr == 4096 * l.textEnd && phys == curr - K_HIGH_VMA
    ensures r != Done ==> PayFor(PurseOf(old(m.S()), pd), Plan(l, pd, 9)) == Broke
  {
    ghost var s0 := m.S();
    r, curr, phys, trace := MapTables(m, l, pd);
    if r != Done { return; }
    var size := 4096 * l.textEnd - 4096 * l.ktableEnd;
    var q := Kmap(pd, curr, phys, size, PROT_READ + PROT_EXEC);
    assert q == Call(l, pd, 1);
    r, trace := KmapNext(m, l, pd, 1, q, trace, s0);
    phys, curr := phys + size, curr + size;
  }

  /** Then its uninitialised data. */
  method MapBss(m: Machine, l: Layout, pd: nat) returns (r: Outcome, curr: nat, phys: nat, ghost trace: seq<State>)
    requires m.regionAddr % 4096 == 0 && l.Ok() && Made(l, pd, 0, [m.S()], m.S(), m.S())
    modifies m`mem, m`regionAddr, m`regionLen
    ensures m.regionAddr % 4096 == 0
    ensures r == Done ==> Made(l, pd, 3, trace, old(m.S()), m.S())
    ensures r == Done ==> curr == 4096 * l.bssEnd && phys == curr - K_HIGH_VMA
    ensures r != Done ==> PayFor(PurseOf(old(m.S()), pd), Plan(l, pd, 9)) == Broke
  {
    ghost var s0 := m.S();
    r, curr, phys, trace := MapText(m, l, pd);
    if r != Done { return; }
    var size := 4096 * l.bssEnd - 4096 * l.textEnd;
    var q := Kmap(pd, curr, phys, size, PROT_WRITE + PROT_READ);
    assert q == Call(l, pd, 2);
    r, trace := KmapNext(m, l, pd, 2, q, trace, s0);
    phys, curr := phys + size, curr + size;
  }

  /** Then its read-only data. */
  method MapRodata(m: Machine, l: Layout, pd: nat) returns (r: Outcome, curr: nat, phys: nat, ghost trace: seq<State>)
    requires m.regionAddr % 4096 == 0 && l.Ok() && Made(l, pd, 0, [m.S()], m.S(), m.S())
    modifies m`mem, m`regionAddr, m`regionLen
    ensures m.regionAddr % 4096 == 0
    ensures r == Done ==> Made(l, pd, 4, trace, old(m.S()), m.S())
    ensures r == Done ==> curr == 4096 * l.rodataEnd && phys == curr - K_HIGH_VMA
    ensures r != Done ==> PayFor(PurseOf(old(m.S()), pd), Plan(l, pd, 9)) == Broke
  {
    ghost var s0 := m.S();
    r, curr, phys, trace := MapBss(m, l, pd);
    if r != Done { return; }
    var size := 4096 * l.rodataEnd - 4096 * l.bssEnd;
    var q := Kmap(pd, curr, phys, size, PROT_READ);
    assert q == Call(l, pd, 3);
    r, trace := KmapNext(m, l, pd, 3, q, trace, s0);
    phys, curr := phys + size, curr + size;
  }

  /** Then its initialised data. */
  method MapData(m: Machine, l: Layout, pd: nat) returns (r: Outcome, curr: nat, phys: nat, ghost trace: seq<State>)
    requires m.regionAddr % 4096 == 0 && l.Ok() && Made(l, pd, 0, [m.S()], m.S(), m.S())
    modifies m`mem, m`regionAddr, m`regionLen
    ensures m.regionAddr % 4096 == 0
    ensures r == Done ==> Made(l, pd, 5, trace, old(m.S()), m.S())
    ensures r == Done ==> curr == 4096 * l.guard && phys == curr - K_HIGH_VMA
    ensures r != Done ==> PayFor(PurseOf(old(m.S()), pd), Plan(l, pd, 9)) == Broke
  {
    ghost var s0 := m.S();
    r, curr, phys, trace := MapRodata(m, l, pd);
    if r != Done { return; }
    var size := 4096 * l.guard - 4096 * l.rodataEnd;
    var q := Kmap(pd, curr, phys, size, PROT_READ + PROT_WRITE);
    assert q == Call(l, pd, 4);
    r, trace := KmapNext(m, l, pd, 4, q, trace, s0);
    phys, curr := phys + size, curr + size;
  }

  /** Then the guard page. */
  method MapGuard(m: Machine, l: Layout, pd: nat) returns (r: Outcome, curr: nat, phys: nat, ghost trace: seq<State>)
    requires m.regionAddr % 4096 == 0 && l.Ok() && Made(l, pd, 0, [m.S()], m.S(), m.S())
    modifies m`mem, m`regionAddr, m`regionLen
    ensures m.regionAddr % 4096 == 0
    ensures r == Done ==> Made(l, pd, 6, trace, old(m.S()), m.S())
    ensures r == Done ==> curr == 4096 * (l.guard + 1) && phys == curr - K_HIGH_VMA
    ensures r != Done ==> PayFor(PurseOf(old(m.S()), pd), Plan(l, pd, 9)) == Broke
  {
    ghost var s0 := m.S();
    var q;
    r, curr, phys, trace := MapData(m, l, pd);
    if r != Done { return; }
    q := Kmap(pd, curr, 0, 4096, PROT_NONE);
    assert q == Call(l, pd, 5);
    r, trace := KmapNext(m, l, pd, 5, q, trace, s0);
    curr, phys := curr + 4096, phys + 4096;
  }

  /** Then the stack. */
  method MapStackPages(m: Machine, l: Layout, pd: nat) returns (r: Outcome, curr: nat, ghost trace: seq<State>)
    requires m.regionAddr % 4096 == 0 && l.Ok() && Made(l, pd, 0, [m.S()], m.S(), m.S())
    modifies m`mem, m`regionAddr, m`regionLen
    ensures m.regionAddr % 4096 == 0
    ensures r == Done ==> Made(l, pd, 7, trace, old(m.S()), m.S()) && curr == 4096 * l.stackEnd
    ensures r != Done ==> PayFor(PurseOf(old(m.S()), pd), Plan(l, pd, 9)) == Broke
  {
    ghost var s0 := m.S();
    var q, phys;
    r, curr, phys, trace := MapGuard(m, l, pd);
    if r != Done { return; }
    var size := 4096 * l.stackEnd - 4096 * (l.guard + 1);
    q := Kmap(pd, curr, phys, size, PROT_READ + PROT_WRITE);
    assert q == Call(l, pd, 6);
    r, trace := KmapNext(m, l, pd, 6, q, trace, s0);
    curr := curr + size;
  }

  /** Then the console page. */
  method MapImage(m: Machine, l: Layout, pd: nat) returns (r: Outcome, curr: nat, ghost trace: seq<State>)
    requires m.regionAddr % 4096 == 0 && l.Ok() && Made(l, pd, 0, [m.S()], m.S(), m.S())
    modifies m`mem, m`regionAddr, m`regionLen
    ensures m.regionAddr % 4096 == 0
    ensures r == Done ==> Made(l, pd, 8, trace, old(m.S()), m.S()) && curr == 4096 * l.Heap()
    ensures r != Done ==> PayFor(PurseOf(old(m.S()), pd), Plan(l, pd, 9)) == Broke
  {
    ghost var s0 := m.S();
    var q;
    r, curr, trace := MapStackPages(m, l, pd);
    if r != Done { return; }
    q := Kmap(pd, 4096 * l.stackEnd, CONSOLE_PADDR, 4096, PROT_READ + PROT_WRITE);
    assert q == Call(l, pd, 7);
    r, trace := KmapNext(m, l, pd, 7, q, trace, s0);
    curr := curr + 4096;
  }

  /** The heap, and with it the end of the plan. */
  method MapHeap(m: Machine, l: Layout, pd: nat, ghost trace: seq<State>, ghost s0: State) returns (r: Outcome)
    requires m.regionAddr % 4096 == 0 && l.Ok() && Made(l, pd, 8, trace, s0, m.S())
    requires Pde(s0.mem, pd, K_SLOT) != NONE && forall vp | 1024 <= vp < VPAGES :: Entry(s0.mem, pd, vp) == NONE
    modifies m`mem, m`regionAddr, m`regionLen
    ensures m.regionAddr % 4096 == 0
    ensures r == Done ==> KernelSpace(l, pd, s0, m.S())
    ensures PayFor(PurseOf(s0, pd), Plan(l, pd, 9)) == if r == Done then Left(PurseOf(m.S(), pd)) else Broke
  {
    var q := Kmap(pd, 4096 * l.Heap(), 0, KHEAP_SIZE, PROT_READ + PROT_WRITE);
    ghost var s := m.S();
    CallOk(l, pd, 8);
    if !Admissible(s, q) { NotMade(l, pd, 8, trace, s0, s); }
    HeapNeeds(l, pd, q, s);
    if m.checked && m.regionLen <= KHEAP_SIZE { return OutOfFrames; }
    r := m.Mmap(q);
    if r == Done { HeapMade(l, pd, trace, s0, s, m.S()); }
  }

  /** The assertion before the heap call demands no more than the call. */
  lemma HeapNeeds(l: Layout, pd: nat, q: Request, s: State)
    requires l.Ok() && q == Call(l, pd, 8) && forall vp | q.First() <= vp < VPAGES :: Entry(s.mem, pd, vp) == NONE
    ensures Admissible(s, q) && s.checked ==> s.len > KHEAP_SIZE
  {
    CallPays(l, pd, 8, q, s);
    assert Need(s, q) >= 4096;
  }

  lemma HeapMade(l: Layout, pd: nat, trace: seq<State>, s0: State, s: State, s': State)
    requires l.Ok() && Made(l, pd, 8, trace, s0, s) && Admissible(s, Call(l, pd, 8))
    requires Mmapped(s, s', Call(l, pd, 8)) && Ready(s', pd)
    requires Pde(s0.mem, pd, K_SLOT) != NONE && forall vp | 1024 <= vp < VPAGES :: Entry(s0.mem, pd, vp) == NONE
    ensures KernelSpace(l, pd, s0, s')
    ensures PayFor(PurseOf(s0, pd), Plan(l, pd, 9)) == Left(PurseOf(s', pd))
  {
    var q := Call(l, pd, 8);
    CallOk(l, pd, 8);
    PaidNext(l, pd, 8, PurseOf(s0, pd), s, s');
    RunExtends(trace, Plan(l, pd, 8), pd, s', q);
    assert Plan(l, pd, 8) + [q] == Plan(l, pd, 9);
    KernelSpaceHolds(trace + [s'], l, pd);
  }

  /** `kmem_map_kernel_memory`; `warm` is the state once the window is in place. */
  method MapKernelMemory(m: Machine, l: Layout, pd: nat, kernelPt: nat, bootstrapPt: nat, mods: seq<Range>)
    returns (r: Outcome, heapStart: nat, ghost warm: State)
    requires m.regionAddr % 4096 == 0 && l.Ok() && Window.Aligned(mods) && Cold(m.S(), pd, kernelPt, bootstrapPt)
    modifies m`mem, m`regionAddr, m`regionLen
    ensures m.regionAddr % 4096 == 0
    ensures r == Done ==> heapStart == 4096 * l.Heap() && Advances(old(m.S()), m.S())
    ensures r == Done ==> warm == old(m.S()).(mem := warm.mem) && Warm(warm, pd, kernelPt, bootstrapPt, mods)
    ensures r == Done ==> Hung(old(m.mem), warm.mem, pd, kernelPt, bootstrapPt, mods) && KernelSpace(l, pd, warm, m.S())
    ensures r == Done ==> KernelSeen(l, m.mem, pd, old(m.S()).next, m.S().next)
    ensures var b := PayFor(Purse(old(m.S()).len, {0, K_SLOT}, m.checked), Plan(l, pd, 9));
            (r == Done <==> AllHold(mods) && b.Left?) && (r == Done ==> b.purse == PurseOf(m.S(), pd))
  {
    ghost var cold := m.S();
    heapStart, warm := 0, cold;
    var ok := MapBootModules(m, pd, kernelPt, bootstrapPt, mods);
    if !ok { return Fault, heapStart, warm; }
    warm := m.S();
    WarmDirectory(cold, warm, pd, kernelPt, bootstrapPt, mods);
    CallOk(l, pd, 0);
    ghost var trace;
    r, heapStart, trace := MapImage(m, l, pd);
    if r != Done { return; }
    r := MapHeap(m, l, pd, trace, warm);
    if r == Done { KernelIsSeen(l, pd, warm, m.S()); }
  }
}
