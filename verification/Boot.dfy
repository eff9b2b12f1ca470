/**
 The way from the boot loader's tags to loaded programs: `early_main`, the kernel's address space,
 the template directory and the module loop, composed over one physical memory.
 */
module Boot {
  import opened Paging
  import opened Mmap
  import opened Accounting
  import opened UserMemory
  import opened ElfFormat
  import opened ElfLoad
  import opened Window
  import opened MmapRuns
  import opened InitMap
  import opened Packing
  import KernelMap
  import EarlyBoot
  import BootModules
  import BootMemory

  // ---- memory --------------------------------------------------------------------------------

  /** Frames of the kernel's static tables, inside the pages that the linker sets aside for them. */
  datatype Statics = Statics(pd: nat, kernelPt: nat, bootstrapPt: nat, bootPd: nat, modulePt: nat) {
    function All(): set<nat> { {pd, kernelPt, bootstrapPt, bootPd, modulePt} }
    predicate Ok(l: KernelMap.Layout) {
      && |All()| == 5 && (forall f | f in All() :: l.start <= f + KernelMap.K_HIGH_PAGE < l.ktableEnd)
      && pd != kernelPt && pd != bootstrapPt && pd != bootPd && pd != modulePt && kernelPt != bootstrapPt
      && kernelPt != bootPd && kernelPt != modulePt && bootstrapPt != bootPd && bootstrapPt != modulePt
         && bootPd != modulePt
    }
  }

  function PageBytes(bytes: seq<nat>, f: nat): seq<nat>
    requires 4096 * f + 4096 <= |bytes|
  {
    bytes[4096 * f..4096 * f + 4096]
  }

  /** Memory as frames: the static tables are empty, all else is data. */
  function Typed(bytes: seq<nat>, st: Statics): (mem: Memory)
    ensures |mem| == |bytes| / 4096
  {
    seq(|bytes| / 4096, f requires 0 <= f < |bytes| / 4096 =>
      if f in st.All() then ZeroTable() else Data(PageBytes(bytes, f)))
  }

  /** The frames from the kernel end up to `last` hold their bytes. */
  ghost predicate HoldsFiles(mem: Memory, bytes: seq<nat>, kernelEnd: nat, last: nat) {
    forall f | kernelEnd <= 4096 * f && 4096 * f + 4096 <= last :: FrameHolds(mem, bytes, f)
  }

  predicate FrameHolds(mem: Memory, bytes: seq<nat>, f: int) {
    0 <= f < |mem| && 4096 * f + 4096 <= |bytes| && mem[f] == Data(PageBytes(bytes, f))
  }

  lemma StaticFrame(st: Statics, l: KernelMap.Layout, f: nat)
    requires st.Ok(l) && l.Ok() && f in st.All()
    ensures 0 < f && 4096 * f < l.KernelEnd()
  {}

  lemma ColdStart(bytes: seq<nat>, st: Statics, l: KernelMap.Layout, kernelEnd: nat, last: nat, s: State)
    requires st.Ok(l) && l.Ok() && kernelEnd == l.KernelEnd() && kernelEnd <= last && last == 4096 * s.next
             && End(s) <= |bytes| <= ADDRESS_LIMIT
    requires s.mem == Typed(bytes, st)
    ensures KernelMap.Cold(s, st.pd, st.kernelPt, st.bootstrapPt) && HoldsFiles(s.mem, bytes, kernelEnd, last)
    ensures s.mem[st.bootPd] == ZeroTable() && s.mem[st.modulePt] == ZeroTable()
  {
    assert st.pd in st.All() && st.kernelPt in st.All() && st.bootstrapPt in st.All();
    assert st.bootPd in st.All() && st.modulePt in st.All();
    forall f | f in st.All() ensures 0 < f && 4096 * f < kernelEnd { StaticFrame(st, l, f); }
    forall f | InRegion(s, f) ensures IsData(s.mem, f) {}
  }

  /** Files are out of reach of writes to static tables and region frames. */
  lemma FilesStay(a: Memory, b: Memory, st: Statics, l: KernelMap.Layout, bytes: seq<nat>, kernelEnd: nat, last: nat)
    requires HoldsFiles(a, bytes, kernelEnd, last) && st.Ok(l) && l.Ok() && kernelEnd == l.KernelEnd() && |b| == |a|
    requires forall f | 0 <= f < |a| && f !in st.All() && 4096 * f < last :: b[f] == a[f]
    ensures HoldsFiles(b, bytes, kernelEnd, last)
  {
    forall f | kernelEnd <= 4096 * f && 4096 * f + 4096 <= last ensures FrameHolds(b, bytes, f) {
      assert FrameHolds(a, bytes, f) && f !in st.All();
    }
  }

  // ---- the template -----------------------------------------------------------------------------

  /** The template for modules: the window in slot 0, slot `d` for the region, nothing else below
      the kernel. */
  ghost predicate TemplateFor(s: State, st: Statics, ranges: seq<Range>, d: nat) {
    && Ready(s, st.bootPd) && 0 < d < KernelMap.K_SLOT
    && Pde(s.mem, st.bootPd, 0) == Pte(st.bootstrapPt, WINDOW)
    && (forall i | 0 < i < KernelMap.K_SLOT && i != d :: Pde(s.mem, st.bootPd, i) == NONE)
    && (forall vp | 0 <= vp < 1024 :: Entry(s.mem, st.bootPd, vp) == WindowPte(ranges, |ranges|, vp))
  }

  function RangesOf(modules: seq<Module>): (rs: seq<Range>)
    ensures |rs| == |modules| && forall i | 0 <= i < |rs| :: rs[i] == Range(modules[i].start, modules[i].end)
  {
    seq(|modules|, i requires 0 <= i < |modules| => Range(modules[i].start, modules[i].end))
  }

  /** A packed module as `load_boot_modules` sees it, up to the end of its last page. */
  function FileOf(bytes: seq<nat>, mod: Module): BootModules.BootModule
    requires mod.start <= mod.end <= |bytes|
  {
    BootModules.BootModule(mod.start, bytes[mod.start..mod.end])
  }

  /** Every page of a module is mapped, by the template, at its physical address. */
  lemma FilePageMapped(s: State, st: Statics, modules: seq<Module>, d: nat, kernelEnd: nat, last: nat, i: nat, p: int)
    requires TemplateFor(s, st, RangesOf(modules), d) && last <= 0x40_0000
    requires Consecutive(modules, kernelEnd, last) && kernelEnd % 4096 == 0
    requires i < |modules| && modules[i].start <= 4096 * p < modules[i].end
    ensures Entry(s.mem, st.bootPd, p) == Pte(p, WINDOW)
  {
    var ranges := RangesOf(modules);
    ModuleRanges(modules, kernelEnd, last);
    assert Below(ranges) && Window.Aligned(ranges);
    PageOfModule(modules[i], 4096 * p);
    assert ranges[i].HasPage(p);
    WindowLinear(ranges, |ranges|, p);
  }

  /** Every byte of a module is read, through the template, at its physical address. */
  lemma FileByteMapped(s: State, st: Statics, modules: seq<Module>, d: nat, bytes: seq<nat>, kernelEnd: nat, last: nat,
                       i: nat, va: nat)
    requires TemplateFor(s, st, RangesOf(modules), d) && HoldsFiles(s.mem, bytes, kernelEnd, last)
    requires Consecutive(modules, kernelEnd, last) && kernelEnd % 4096 == 0 && last <= 4096 * s.next
    requires last <= 0x40_0000 && i < |modules| && modules[i].start <= va < modules[i].end
    ensures ImageByte(s, st.bootPd, va) && va < |bytes| && VByte(s.mem, st.bootPd, va) == bytes[va]
  {
    var p := va / 4096;
    ModuleRanges(modules, kernelEnd, last);
    FilePageMapped(s, st, modules, d, kernelEnd, last, i, p);
    FrameInside(kernelEnd, last, modules[i], va);
    assert FrameHolds(s.mem, bytes, p);
  }

  lemma PageOfModule(mod: Module, va: nat)
    requires mod.start % 4096 == 0 && mod.start <= va < mod.end
    ensures Range(mod.start, mod.end).HasPage(va / 4096)
  {}

  lemma FrameInside(kernelEnd: nat, last: nat, mod: Module, va: nat)
    requires kernelEnd % 4096 == 0 && last % 4096 == 0 && kernelEnd <= mod.start <= va < mod.end <= last
    ensures kernelEnd <= 4096 * (va / 4096) && 4096 * (va / 4096) + 4096 <= last
  {}

  // ---- programs ----------------------------------------------------------------------------------

  /** A loadable segment of a user program: page-aligned, inside the file, above the window, below
      the kernel, and clear of slot `d` and of the stack. */
  predicate UserSegment(ph: Phdr, size: nat, d: nat) {
    && ph.vaddr % 4096 == 0 && 0x40_0000 <= ph.vaddr && ph.vaddr + ph.memsz <= KernelMap.K_HIGH_VMA
    && ph.offset + ph.filesz <= size
    && (ph.vaddr + ph.memsz <= 0x40_0000 * d || 0x40_0000 * (d + 1) <= ph.vaddr)
    && (ph.vaddr + ph.memsz <= STACK_ADDR - STACK_SIZE || STACK_ADDR + 4096 <= ph.vaddr)
  }

  predicate UserPhdrs(phs: seq<Phdr>, size: nat, d: nat) {
    && (forall i | 0 <= i < |phs| && phs[i].ptype == PT_LOAD :: phs[i].align >= 1)
    && (forall i | 0 <= i < |phs| && phs[i].Loads() :: UserSegment(phs[i], size, d))
    && (forall i, j | 0 <= i < j < |phs| && phs[i].Loads() && phs[j].Loads() :: Apart(phs[i], phs[j]))
  }

  /** A program that the boot loader may hand over as a module. */
  predicate UserFile(file: seq<nat>, d: nat) { HoldsHeaders(file) && UserPhdrs(BootModules.Headers(file), |file|, d) }

  /** The slots of a user segment are empty in the template. */
  lemma SegmentSlots(s: State, st: Statics, ranges: seq<Range>, d: nat, ph: Phdr, size: nat, vp: int)
    requires TemplateFor(s, st, ranges, d) && UserSegment(ph, size, d) && ph.HasPage(vp)
    ensures 1024 <= vp < VPAGES && !HasTable(s.mem, st.bootPd, vp) && Entry(s.mem, st.bootPd, vp) == NONE
    ensures !StackRequest(st.bootPd).Includes(vp)
  {
    assert 0 < vp / 1024 < KernelMap.K_SLOT && vp / 1024 != d;
  }

  lemma StackSlots(s: State, st: Statics, ranges: seq<Range>, d: nat, vp: int)
    requires TemplateFor(s, st, ranges, d) && d != 511 && d != 512 && StackRequest(st.bootPd).Includes(vp)
    ensures !HasTable(s.mem, st.bootPd, vp)
  {
    assert 0x7_FFFC <= vp < 0x8_0001;
    assert vp / 1024 == 511 || vp / 1024 == 512;
  }

  /** User segments meet the loader's demands, wherever the file is read. */
  lemma UserPhdrsOk(s: State, st: Statics, ranges: seq<Range>, d: nat, phs: seq<Phdr>, file: nat, base: nat, size: nat)
    requires TemplateFor(s, st, ranges, d) && d != 511 && d != 512
    requires UserPhdrs(phs, file, d) && file <= size && base + size <= 0x40_0000
    requires forall va | InRange(base, size, va) :: ImageByte(s, st.bootPd, va)
    ensures ImageOk(s, st.bootPd, base, size, phs) && PrivateImage(s, st.bootPd, phs)
  {
    forall j | 0 <= j < |phs| && phs[j].Loads()
      ensures SegmentOk(s, st.bootPd, base, size, phs[j])
      ensures forall vp | phs[j].HasPage(vp) :: !StackRequest(st.bootPd).Includes(vp) && !HasTable(s.mem, st.bootPd, vp)
    {
      SegmentIsOk(s, st, ranges, d, phs[j], file, base, size);
    }
    forall vp | StackRequest(st.bootPd).Includes(vp) ensures !HasTable(s.mem, st.bootPd, vp) {
      StackSlots(s, st, ranges, d, vp);
    }
  }

  lemma HeadersOfPrefix(img: seq<nat>, file: seq<nat>)
    requires Extends(img, file) && HoldsHeaders(file)
    ensures BootModules.Headers(img) == BootModules.Headers(file)
  {
    CreateFromPrefix(img, file);
  }

  /** A packed user program meets all the demands of the module loader. */
  lemma UserModuleOk(s: State, st: Statics, modules: seq<Module>, d: nat, bytes: seq<nat>, file: seq<nat>,
                     kernelEnd: nat, last: nat, i: nat)
    requires TemplateFor(s, st, RangesOf(modules), d) && HoldsFiles(s.mem, bytes, kernelEnd, last) && d != 511
             && d != 512
    requires Consecutive(modules, kernelEnd, last) && kernelEnd % 4096 == 0 && last <= 4096 * s.next
    requires last <= 0x40_0000 && last <= |bytes| && i < |modules| && modules[i].start <= modules[i].end <= last
    requires UserFile(file, d) && Extends(FileOf(bytes, modules[i]).img, file)
    ensures BootModules.ModuleOk(s, st.bootPd, FileOf(bytes, modules[i]))
  {
    var mod := FileOf(bytes, modules[i]);
    HeadersOfPrefix(mod.img, file);
    forall k | 0 <= k < |mod.img| ensures BootModules.FileMapped(s, st.bootPd, mod, k) {
      FileByteMapped(s, st, modules, d, bytes, kernelEnd, last, i, mod.base + k);
    }
    forall va | InRange(mod.base, |mod.img|, va) ensures ImageByte(s, st.bootPd, va) {
      FileByteMapped(s, st, modules, d, bytes, kernelEnd, last, i, va);
    }
    UserPhdrsOk(s, st, RangesOf(modules), d, BootModules.Headers(mod.img), |file|, mod.base, |mod.img|);
  }

  lemma SegmentIsOk(s: State, st: Statics, ranges: seq<Range>, d: nat, ph: Phdr, file: nat, base: nat, size: nat)
    requires TemplateFor(s, st, ranges, d) && UserSegment(ph, file, d) && file <= size && base + size <= 0x40_0000
    ensures SegmentOk(s, st.bootPd, base, size, ph)
    ensures forall vp | ph.HasPage(vp) :: !StackRequest(st.bootPd).Includes(vp) && !HasTable(s.mem, st.bootPd, vp)
  {
    forall vp | ph.HasPage(vp)
      ensures Entry(s.mem, st.bootPd, vp) == NONE
      ensures !StackRequest(st.bootPd).Includes(vp) && !HasTable(s.mem, st.bootPd, vp)
    {
      SegmentSlots(s, st, ranges, d, ph, file, vp);
    }
    forall va | InRange(base, size, va) ensures !ph.HasPage(va / 4096) {
      assert va / 4096 < 1024 <= ph.vaddr / 4096;
    }
  }

  // ---- the phases ----------------------------------------------------------------------------------

  /** What the phases of a boot are about: kernel end, static tables, linker layout, packed memory,
      packed modules and their end, and the slot in which the free region then starts. */
  datatype Plan = Plan(kernelEnd: nat, st: Statics, l: KernelMap.Layout, bytes: seq<nat>, modules: seq<Module>,
                       last: nat) {
    /** First frame behind the modules and what the kernel takes. */
    function Free(): nat { last / 4096 + KernelMap.KERNEL_FRAMES }
    function Slot(): nat { Free() / 1024 }
    /** The start of the region that the template is to map. */
    function Aside(): Range { Reserved(4096 * Free(), RangesOf(modules)) }
    predicate Ok() {
      && st.Ok(l) && l.Ok() && l.Snug() && kernelEnd == l.KernelEnd() && |bytes| <= ADDRESS_LIMIT
      && Consecutive(modules, kernelEnd, last) && last <= 0x40_0000 && last <= |bytes| && |modules| < 8
    }
    function Files(): (fs: seq<BootModules.BootModule>)
      requires Ok()
      ensures |fs| == |modules|
      ensures forall i | 0 <= i < |fs| ::
                modules[i].start <= modules[i].end <= last && fs[i] == FileOf(bytes, modules[i])
    {
      ModuleRanges(modules, kernelEnd, last);
      seq(|modules|, i requires 0 <= i < |modules| => FileOf(bytes, modules[i]))
    }
  }

  lemma AsideSlot(p: Plan)
    ensures PtOffset(p.Aside().start, 1) == p.Slot() && p.Aside().start == 4096 * p.Free() <= p.Aside().end
    ensures p.Aside().end == 4096 * p.Free() + Shares(RangesOf(p.modules), |p.modules|)
  {}

  lemma PlanFacts(p: Plan)
    requires p.Ok()
    ensures p.last % 4096 == 0 && p.kernelEnd <= p.last && 0 < p.Slot() < 6
    ensures Window.Aligned(RangesOf(p.modules)) && AllHold(RangesOf(p.modules)) && Below(RangesOf(p.modules))
  {
    ModuleRanges(p.modules, p.kernelEnd, p.last);
    var rs := RangesOf(p.modules);
    forall i | 0 <= i < |rs| ensures rs[i].Holds() {
      if rs[i].start < rs[i].end { BelowIsLinear(rs[i]); }
    }
  }

  /** States of a boot: at the hand-over, with the window, with the kernel, with the template, and
      around the loads of the modules. */
  datatype Log = Log(cold: State, warm: State, kern: State, tmpl: State, trace: seq<State>,
                     ls: seq<BootModules.Loaded>) {
    function Final(): State { if trace == [] then tmpl else trace[|trace| - 1] }
  }

  /** The kernel's address space is in place. */
  ghost predicate KernelUp(p: Plan, log: Log)
    requires p.Ok()
  {
    && 4096 * log.cold.next == p.last && End(log.cold) <= |p.bytes| && log.cold.mem == Typed(p.bytes, p.st)
    && log.warm == log.cold.(mem := log.warm.mem)
    && KernelMap.Hung(log.cold.mem, log.warm.mem, p.st.pd, p.st.kernelPt, p.st.bootstrapPt, RangesOf(p.modules))
    && KernelMap.Warm(log.warm, p.st.pd, p.st.kernelPt, p.st.bootstrapPt, RangesOf(p.modules))
    && KernelMap.KernelSpace(p.l, p.st.pd, log.warm, log.kern)
    && log.kern.next == p.Free()
  }

  /** And so is the template. */
  ghost predicate TemplateUp(p: Plan, log: Log)
    requires p.Ok()
  {
    && KernelUp(p, log)
    && log.tmpl == log.kern.(mem := log.tmpl.mem)
    && Templated(log.kern.mem, log.tmpl.mem, p.st.pd, p.st.bootPd, p.st.modulePt, p.Aside()) && p.Aside().Holds()
  }

  /** The kernel's directory uses the window, its own table, and tables taken from the region. */
  lemma KernelTables(p: Plan, log: Log, i: int, f: int)
    requires p.Ok() && KernelUp(p, log) && UsesTable(log.kern.mem, p.st.pd, i, f)
    ensures (i == 0 && f == p.st.bootstrapPt) || (i == KernelMap.K_SLOT && f == p.st.kernelPt)
            || (i > KernelMap.K_SLOT && log.cold.next <= f < log.kern.next)
  {
    assert KernelMap.KernelSlot(p.st.pd, log.warm, log.kern, i);
  }

  /** Static tables lie below the region. */
  lemma StaticsBelow(p: Plan, f: nat)
    requires p.Ok() && f in p.st.All()
    ensures 0 < f && 4096 * f < p.last && 4096 * f < p.kernelEnd
  {
    PlanFacts(p);
  }

  lemma KernelFiles(p: Plan, log: Log)
    requires p.Ok() && KernelUp(p, log)
    ensures HoldsFiles(log.kern.mem, p.bytes, p.kernelEnd, p.last)
  {
    PlanFacts(p);
    ColdStart(p.bytes, p.st, p.l, p.kernelEnd, p.last, log.cold);
    FilesStay(log.cold.mem, log.warm.mem, p.st, p.l, p.bytes, p.kernelEnd, p.last);
    forall f | 0 <= f < |log.warm.mem| && f !in p.st.All() && 4096 * f < p.last
      ensures log.kern.mem[f] == log.warm.mem[f]
    {
      forall i | KernelMap.K_SLOT <= i ensures !UsesTable(log.warm.mem, p.st.pd, i, f) {
        assert Pde(log.warm.mem, p.st.pd, i) == if i == KernelMap.K_SLOT then Pte(p.st.kernelPt, WINDOW) else NONE;
      }
      assert !HighTable(log.warm, p.st.pd, KernelMap.K_SLOT, f);
    }
    FilesStay(log.warm.mem, log.kern.mem, p.st, p.l, p.bytes, p.kernelEnd, p.last);
  }

  lemma KernelSlots(p: Plan, log: Log, i: int)
    requires p.Ok() && KernelUp(p, log) && 0 <= i < KernelMap.K_SLOT
    ensures Pde(log.kern.mem, p.st.pd, i) == if i == 0 then Pte(p.st.bootstrapPt, WINDOW) else NONE
  {
    assert KernelMap.KernelSlot(p.st.pd, log.warm, log.kern, i);
  }

  /** The template is ready, with the pages of all slots but one as the kernel's directory has them. */
  lemma TemplateEntries(p: Plan, log: Log)
    requires p.Ok() && TemplateUp(p, log)
    ensures Ready(log.tmpl, p.st.bootPd)
    ensures forall vp | 0 <= vp < VPAGES && vp / 1024 != p.Slot() ::
              Entry(log.tmpl.mem, p.st.bootPd, vp) == Entry(log.kern.mem, p.st.pd, vp)
    ensures SlotsOf(log.tmpl.mem, p.st.bootPd) == SlotsOf(log.kern.mem, p.st.pd) + {p.Slot()}
  {
    var st, d := p.st, p.Slot();
    PlanFacts(p);
    KernelSlots(p, log, d);
    StaticsBelow(p, st.bootPd);
    StaticsBelow(p, st.modulePt);
    forall i, f | UsesTable(log.kern.mem, st.pd, i, f) ensures f != st.bootPd && f != st.modulePt {
      KernelTables(p, log, i, f);
    }
    AsideSlot(p);
    TemplateReady(log.kern, log.tmpl, st.pd, st.bootPd, st.modulePt, p.Aside(), d);
  }

  /** The template is what the module loader needs. */
  lemma TemplateHolds(p: Plan, log: Log)
    requires p.Ok() && TemplateUp(p, log)
    ensures TemplateFor(log.tmpl, p.st, RangesOf(p.modules), p.Slot())
    ensures HoldsFiles(log.tmpl.mem, p.bytes, p.kernelEnd, p.last)
    ensures SlotsOf(log.tmpl.mem, p.st.bootPd) == SlotsOf(log.kern.mem, p.st.pd) + {p.Slot()}
  {
    var st, d := p.st, p.Slot();
    PlanFacts(p);
    TemplateEntries(p, log);
    forall i | 0 <= i < KernelMap.K_SLOT && i != d
      ensures Pde(log.tmpl.mem, st.bootPd, i) == if i == 0 then Pte(st.bootstrapPt, WINDOW) else NONE
    {
      TemplateSlot(p, log, i);
    }
    TemplateFiles(p, log);
  }

  lemma TemplateSlot(p: Plan, log: Log, i: int)
    requires p.Ok() && TemplateUp(p, log) && 0 <= i < KernelMap.K_SLOT && i != p.Slot()
    ensures Pde(log.tmpl.mem, p.st.bootPd, i) == if i == 0 then Pte(p.st.bootstrapPt, WINDOW) else NONE
  {
    AsideSlot(p);
    TemplateSlots(log.kern.mem, log.tmpl.mem, p.st.pd, p.st.bootPd, p.st.modulePt, p.Aside());
    KernelSlots(p, log, i);
  }

  lemma TemplateFiles(p: Plan, log: Log)
    requires p.Ok() && TemplateUp(p, log)
    ensures HoldsFiles(log.tmpl.mem, p.bytes, p.kernelEnd, p.last)
  {
    KernelFiles(p, log);
    StaticsBelow(p, p.st.bootPd);
    StaticsBelow(p, p.st.modulePt);
    FilesStay(log.kern.mem, log.tmpl.mem, p.st, p.l, p.bytes, p.kernelEnd, p.last);
  }

  // ---- what the processor sees of the template -------------------------------------------------

  /** The packed modules in whole pages. */
  lemma {:induction false} PagesPacked(modules: seq<Module>, kernelEnd: nat, last: nat, n: nat)
    requires Consecutive(modules, kernelEnd, last) && kernelEnd % 4096 == 0 && n <= |modules|
    ensures 4096 * PagesOf(RangesOf(modules), n) == Boundary(modules, kernelEnd, n) - kernelEnd
  {
    if n > 0 {
      PagesPacked(modules, kernelEnd, last, n - 1);
      BoundariesAscend(modules, kernelEnd, last, n - 1, n);
      assert InPlace(modules, kernelEnd, n - 1);
      BoundariesAscend(modules, kernelEnd, last, n - 1, n - 1);
    }
  }

  /** The first megabyte and the packed modules, at their own addresses. */
  predicate WindowSeen(p: Plan, mem: Memory, pd: nat, vp: int) {
    Walk(mem, pd, vp) ==
      if 0 <= vp < 0x100 || (vp >= 0 && p.kernelEnd <= 4096 * vp < p.last) then Mapped(vp, true, false) else NotPresent
  }

  /** End of the region set aside for the module loop: nine pages a module and its whole pages. */
  function AsideEnd(p: Plan): int { 4096 * (p.Free() + 9 * |p.modules|) + (p.last - p.kernelEnd) }

  /** The template: the window, the region set aside, the kernel, and nothing else. */
  ghost predicate TemplateSeen(p: Plan, log: Log)
    requires p.Ok()
  {
    var mem, pd := log.tmpl.mem, p.st.bootPd;
    && (forall vp | 0 <= vp < 1024 :: WindowSeen(p, mem, pd, vp))
    && (forall vp | vp / 1024 == p.Slot() :: SelfSeen(mem, pd, 4096 * p.Free(), AsideEnd(p), vp))
    && (forall vp | 1024 <= vp < 1018 * 1024 && vp / 1024 != p.Slot() :: Walk(mem, pd, vp) == NotPresent)
    && KernelMap.KernelSeen(p.l, mem, pd, log.cold.next, log.kern.next)
  }

  lemma WindowIsSeen(p: Plan, log: Log, vp: int)
    requires p.Ok() && TemplateUp(p, log) && 0 <= vp < 1024
    ensures WindowSeen(p, log.tmpl.mem, p.st.bootPd, vp)
  {
    TemplateHolds(p, log);
    PlanFacts(p);
    WindowReaches(p, vp);
  }

  /** The window has an entry for a page exactly if it lies in the first megabyte or in a module. */
  lemma WindowReaches(p: Plan, vp: int)
    requires p.Ok() && 0 <= vp < 1024 && p.kernelEnd % 4096 == 0 && p.last % 4096 == 0
    requires var rs := RangesOf(p.modules); Window.Aligned(rs) && AllHold(rs) && Below(rs)
    ensures WindowPte(RangesOf(p.modules), |p.modules|, vp) ==
            if vp < 0x100 || p.kernelEnd <= 4096 * vp < p.last then Pte(vp, Access(true, true, false)) else NONE
  {
    var rs := RangesOf(p.modules);
    WindowLinear(rs, |rs|, vp);
    ModuleRanges(p.modules, p.kernelEnd, p.last);
    if p.kernelEnd <= 4096 * vp < p.last {
      var i := NoGap(p.modules, p.kernelEnd, p.last, |p.modules|, 4096 * vp);
      PageOfModule(p.modules[i], 4096 * vp);
      assert rs[i].HasPage(vp);
    } else if vp >= 0x100 {
      forall i | 0 <= i < |rs| ensures !rs[i].HasPage(vp) { OutsidePage(p.modules[i], p.kernelEnd, p.last, vp); }
    }
  }

  lemma OutsidePage(mod: Module, kernelEnd: nat, last: nat, vp: int)
    requires mod.start % 4096 == 0 && kernelEnd <= mod.start && mod.end <= last && last % 4096 == 0
    requires !(kernelEnd <= 4096 * vp < last)
    ensures !Range(mod.start, mod.end).HasPage(vp)
  {}

  lemma AsideIsSeen(p: Plan, log: Log, vp: int)
    requires p.Ok() && TemplateUp(p, log) && vp / 1024 == p.Slot()
    ensures SelfSeen(log.tmpl.mem, p.st.bootPd, 4096 * p.Free(), AsideEnd(p), vp)
  {
    AsideSeenIn(p, log.kern.mem, log.tmpl.mem, vp);
  }

  lemma AsideSeenIn(p: Plan, mem: Memory, mem': Memory, vp: int)
    requires p.Ok() && p.Aside().Holds() && vp / 1024 == p.Slot()
    requires Templated(mem, mem', p.st.pd, p.st.bootPd, p.st.modulePt, p.Aside())
    ensures SelfSeen(mem', p.st.bootPd, 4096 * p.Free(), AsideEnd(p), vp)
  {
    AsideEndIs(p);
    TemplatedSelf(mem, mem', p.st.pd, p.st.bootPd, p.st.modulePt, p.Aside(), vp);
  }

  lemma AsideEndIs(p: Plan)
    requires p.Ok()
    ensures p.Aside().end == AsideEnd(p) && AsideEnd(p) % 4096 == 0 && p.Aside().start / 0x40_0000 == p.Slot()
    ensures p.Aside().start < ADDRESS_LIMIT
  {
    PlanFacts(p);
    AsideIs(p);
  }

  lemma AsideIs(p: Plan)
    requires Consecutive(p.modules, p.kernelEnd, p.last) && p.kernelEnd % 4096 == 0 && p.last % 4096 == 0
    requires p.kernelEnd <= p.last && p.Slot() < 6
    ensures p.Aside().end == AsideEnd(p) && AsideEnd(p) % 4096 == 0 && p.Aside().start / 0x40_0000 == p.Slot()
    ensures p.Aside().start < ADDRESS_LIMIT
  {
    SharesArePacked(p);
    AsideSlot(p);
    SlotStart(p.Free());
    WholeFrames(p.Free() + 9 * |p.modules|, p.last - p.kernelEnd);
  }

  lemma SlotStart(f: nat)
    ensures 4096 * f / 0x40_0000 == f / 1024 && 4096 * f % 4096 == 0
  {}

  lemma WholeFrames(n: nat, size: nat)
    requires size % 4096 == 0
    ensures (4096 * n + size) % 4096 == 0
  {}

  lemma SharesArePacked(p: Plan)
    requires Consecutive(p.modules, p.kernelEnd, p.last) && p.kernelEnd % 4096 == 0
    ensures Shares(RangesOf(p.modules), |p.modules|) == 4096 * 9 * |p.modules| + (p.last - p.kernelEnd)
  {
    SharesArePages(RangesOf(p.modules), |p.modules|);
    PagesPacked(p.modules, p.kernelEnd, p.last, |p.modules|);
  }

  /** The template maps the kernel's half as the kernel's own directory does. */
  lemma KernelHalf(p: Plan, log: Log, vp: int)
    requires p.Ok() && TemplateUp(p, log) && 1018 * 1024 <= vp < VPAGES
    ensures Walk(log.tmpl.mem, p.st.bootPd, vp) == Walk(log.kern.mem, p.st.pd, vp)
  {
    var st := p.st;
    PlanFacts(p);
    TemplateEntries(p, log);
    AsideSlot(p);
    TemplateSlots(log.kern.mem, log.tmpl.mem, st.pd, st.bootPd, st.modulePt, p.Aside());
  }

  lemma KernelStaysSeen(l: KernelMap.Layout, a: Memory, pa: nat, b: Memory, pb: nat, lo: nat, hi: nat)
    requires l.Ok() && KernelMap.KernelSeen(l, a, pa, lo, hi)
    requires forall vp | 1018 * 1024 <= vp < VPAGES :: Walk(b, pb, vp) == Walk(a, pa, vp)
    ensures KernelMap.KernelSeen(l, b, pb, lo, hi)
  {
    forall vp | l.start <= vp <= l.stackEnd ensures KernelMap.ImageSeen(l, b, pb, vp) {
      assert KernelMap.ImageSeen(l, a, pa, vp);
    }
    forall vp | l.stackEnd < vp <= l.stackEnd + 0x1000 ensures KernelMap.HeapSeen(b, pb, lo, hi, vp) {
      assert KernelMap.HeapSeen(a, pa, lo, hi, vp);
    }
    forall vp, wp | l.stackEnd < vp < wp <= l.stackEnd + 0x1000 ensures KernelMap.HeapApart(b, pb, vp, wp) {
      assert KernelMap.HeapApart(a, pa, vp, wp);
    }
  }

  /** What the processor sees through the template, page by page. */
  lemma TemplateIsSeen(p: Plan, log: Log)
    requires p.Ok() && TemplateUp(p, log)
    ensures TemplateSeen(p, log)
  {
    forall vp | 0 <= vp < 1024 ensures WindowSeen(p, log.tmpl.mem, p.st.bootPd, vp) { WindowIsSeen(p, log, vp); }
    forall vp | vp / 1024 == p.Slot()
      ensures SelfSeen(log.tmpl.mem, p.st.bootPd, 4096 * p.Free(), AsideEnd(p), vp)
    {
      AsideIsSeen(p, log, vp);
    }
    forall vp | 1024 <= vp < 1018 * 1024 && vp / 1024 != p.Slot()
      ensures Walk(log.tmpl.mem, p.st.bootPd, vp) == NotPresent
    {
      TemplateSlot(p, log, vp / 1024);
    }
    KernelMap.KernelIsSeen(p.l, p.st.pd, log.warm, log.kern);
    forall vp | 1018 * 1024 <= vp < VPAGES
      ensures Walk(log.tmpl.mem, p.st.bootPd, vp) == Walk(log.kern.mem, p.st.pd, vp)
    {
      KernelHalf(p, log, vp);
    }
    KernelStaysSeen(p.l, log.kern.mem, p.st.pd, log.tmpl.mem, p.st.bootPd, log.cold.next, log.kern.next);
  }

  // ---- the whole boot -------------------------------------------------------------------------------

  /** The file of a module where the boot loader had put it. */
  function ProgramFile(orig: seq<nat>, mod: Module): seq<nat> {
    if mod.source + mod.size <= |orig| then orig[mod.source..mod.source + mod.size] else []
  }

  /** The programs that the boot loader handed over, as they were then. */
  ghost predicate Programs(orig: seq<nat>, p: Plan) {
    && |orig| == |p.bytes|
    && forall i | 0 <= i < |p.modules| ::
         Intact(orig, p.bytes, p.modules[i]) && UserFile(ProgramFile(orig, p.modules[i]), p.Slot())
  }

  lemma FileExtends(orig: seq<nat>, bytes: seq<nat>, mod: Module)
    requires Intact(orig, bytes, mod) && mod.start + mod.size <= mod.end <= |bytes|
    ensures Extends(FileOf(bytes, mod).img, ProgramFile(orig, mod))
  {
    var file, img := ProgramFile(orig, mod), FileOf(bytes, mod).img;
    forall k | 0 <= k < |file| ensures img[k] == file[k] {
      assert bytes[mod.start..mod.start + mod.size][k] == file[k];
    }
  }

  /** Each packed program extends its original. */
  lemma ProgramExtends(orig: seq<nat>, p: Plan, i: nat)
    requires p.Ok() && Programs(orig, p) && i < |p.modules|
    ensures p.modules[i].start <= p.modules[i].end <= p.last
    ensures Extends(FileOf(p.bytes, p.modules[i]).img, ProgramFile(orig, p.modules[i]))
    ensures UserFile(ProgramFile(orig, p.modules[i]), p.Slot())
  {
    ModuleRanges(p.modules, p.kernelEnd, p.last);
    assert Intact(orig, p.bytes, p.modules[i]);
    FileExtends(orig, p.bytes, p.modules[i]);
  }

  lemma ProgramsMeetDemands(orig: seq<nat>, p: Plan, log: Log, i: nat)
    requires p.Ok() && TemplateUp(p, log) && Programs(orig, p) && i < |p.modules|
    ensures BootModules.ModuleOk(log.tmpl, p.st.bootPd, p.Files()[i])
  {
    PlanFacts(p);
    TemplateHolds(p, log);
    ProgramExtends(orig, p, i);
    UserModuleOk(log.tmpl, p.st, p.modules, p.Slot(), p.bytes, ProgramFile(orig, p.modules[i]), p.kernelEnd, p.last, i);
  }

  /** The module loop may start. */
  lemma DemandsMet(orig: seq<nat>, p: Plan, log: Log)
    requires p.Ok() && TemplateUp(p, log) && Programs(orig, p)
    ensures Ready(log.tmpl, p.st.bootPd)
    ensures forall i | 0 <= i < |p.modules| :: BootModules.ModuleOk(log.tmpl, p.st.bootPd, p.Files()[i])
  {
    TemplateHolds(p, log);
    forall i | 0 <= i < |p.modules| ensures BootModules.ModuleOk(log.tmpl, p.st.bootPd, p.Files()[i]) {
      ProgramsMeetDemands(orig, p, log, i);
    }
  }

  /** A finished boot. */
  ghost predicate Up(orig: seq<nat>, p: Plan, log: Log) {
    && p.Ok() && TemplateUp(p, log) && Programs(orig, p)
    && |log.ls| == |p.modules| && BootModules.BootRun(log.tmpl, p.st.bootPd, log.trace, log.ls, p.Files())
  }

  /** The modules of a finished boot, seen apart from how the template came about. */
  ghost predicate ModulesUp(p: Plan, log: Log)
    requires p.Ok()
  {
    LoopDone(log, p.st.bootPd, p.Files())
  }

  ghost predicate LoopDone(log: Log, template: nat, files: seq<BootModules.BootModule>) {
    && Ready(log.tmpl, template) && |log.ls| == |files| && |log.trace| == |log.ls| + 1
    && BootModules.BootRun(log.tmpl, template, log.trace, log.ls, files)
    && (forall i | 0 <= i < |files| :: BootModules.ModuleOk(log.tmpl, template, files[i]))
  }

  lemma FileDone(log: Log, template: nat, files: seq<BootModules.BootModule>, i: nat)
    requires LoopDone(log, template, files) && i < |files|
    ensures BootModules.ModuleOk(log.tmpl, template, files[i])
    ensures BootModules.ModuleDone(log.tmpl, template, log.Final(), log.ls[i], files[i])
    ensures log.tmpl.next <= log.ls[i].pd < log.ls[i].hi <= log.Final().next
  {
    BootModules.AllStay(log.tmpl, template, log.trace, log.ls, files, i);
  }

  lemma UpModules(orig: seq<nat>, p: Plan, log: Log)
    requires Up(orig, p, log)
    ensures ModulesUp(p, log)
  {
    DemandsMet(orig, p, log);
  }

  /** Module number `i` is as its load left it. */
  lemma ModuleUp(p: Plan, log: Log, i: nat)
    requires p.Ok() && ModulesUp(p, log) && i < |log.ls|
    ensures BootModules.ModuleDone(log.tmpl, p.st.bootPd, log.Final(), log.ls[i], p.Files()[i])
    ensures log.tmpl.next <= log.ls[i].pd < log.ls[i].hi <= log.Final().next
  {
    FileDone(log, p.st.bootPd, p.Files(), i);
  }

  predicate ByteSeen(mem: Memory, pd: nat, file: seq<nat>, ph: Phdr, k: int) {
    0 <= k && VByte(mem, pd, ph.vaddr + k) == ByteAt(file, ph.offset + k)
  }

  /** Address `va` is translated for user mode, and writable exactly if bit 1 of `flags` is set;
      without that bit and bit 2 it is not translated. */
  predicate AddressSeen(mem: Memory, pd: nat, flags: nat, va: int) {
    Walk(mem, pd, va / 4096) ==
      if flags / 2 % 2 == 1 then Mapped(Entry(mem, pd, va / 4096).frame, true, true)
      else if flags / 4 % 2 == 1 then Mapped(Entry(mem, pd, va / 4096).frame, false, true)
      else NotPresent
  }

  ghost predicate SegmentSeen(mem: Memory, pd: nat, file: seq<nat>, ph: Phdr) {
    && ph.filesz <= ph.memsz
    && (forall k | 0 <= k < ph.filesz :: ByteSeen(mem, pd, file, ph, k))
    && (forall va | ph.vaddr <= va < ph.vaddr + ph.memsz :: AddressSeen(mem, pd, ph.flags, va))
  }

  /** What the processor sees of a program: for each of the headers in the file that are of type 1
      and not empty, its bytes and its rights, and five pages of stack. */
  ghost predicate FileSeen(mem: Memory, pd: nat, file: seq<nat>) {
    && (forall j | 0 <= j < U16(file, 44) && PhdrAt(file, j).ptype == 1 && PhdrAt(file, j).filesz > 0 ::
          SegmentSeen(mem, pd, file, PhdrAt(file, j)))
    && (forall vp | 0x7_FFFC <= vp <= 0x8_0000 :: Walk(mem, pd, vp) == Mapped(Entry(mem, pd, vp).frame, true, true))
  }

  /** Page `vp` belongs to a header of type 1 that is not empty. */
  ghost predicate InFile(file: seq<nat>, vp: int) {
    exists j | 0 <= j < U16(file, 44) :: PageOfHeader(PhdrAt(file, j), vp)
  }

  predicate PageOfHeader(ph: Phdr, vp: int) {
    ph.ptype == 1 && ph.filesz > 0 && ph.vaddr <= 4096 * vp < ph.vaddr + ph.memsz
  }

  /** All pages but those of the file and the stack are translated alike by two directories. */
  ghost predicate OthersSeen(mem: Memory, pd: nat, tmem: Memory, template: nat, file: seq<nat>) {
    forall vp | 0 <= vp < VPAGES && !InFile(file, vp) && !(0x7_FFFC <= vp <= 0x8_0000) ::
      Walk(mem, pd, vp) == Walk(tmem, template, vp)
  }

  lemma OthersAreSeen(s0: State, template: nat, s: State, l: BootModules.Loaded, mod: BootModules.BootModule,
                      file: seq<nat>, d: nat)
    requires BootModules.ModuleDone(s0, template, s, l, mod) && Paging.Directory(s0.mem, template)
    requires Extends(mod.img, file) && UserFile(file, d)
    ensures OthersSeen(s.mem, l.pd, s0.mem, template, file)
  {
    CreateFromPrefix(mod.img, file);
    var phs := BootModules.Headers(mod.img);
    assert ElfCtxCreate(file).Created? && ElfCtxCreate(file).ctx.phs == phs;
    forall vp | 0 <= vp < VPAGES && !InFile(file, vp) && !(0x7_FFFC <= vp <= 0x8_0000)
      ensures Walk(s.mem, l.pd, vp) == Walk(s0.mem, template, vp)
    {
      forall j | 0 <= j < |phs| && phs[j].Loads() ensures !phs[j].HasPage(vp) {
        assert phs[j] == PhdrAt(file, j) && !PageOfHeader(PhdrAt(file, j), vp);
        assert UserSegment(phs[j], |file|, d);
      }
      BootModules.OthersTranslated(s0, template, s, l, mod, vp);
    }
  }

  /** A finished module is seen so, as long as its headers and segments lie in `file`. */
  lemma ModuleSeen(s0: State, template: nat, s: State, l: BootModules.Loaded, mod: BootModules.BootModule,
                   file: seq<nat>, d: nat)
    requires BootModules.ModuleOk(s0, template, mod) && BootModules.ModuleDone(s0, template, s, l, mod)
    requires Extends(mod.img, file) && UserFile(file, d)
    ensures FileSeen(s.mem, l.pd, file)
  {
    CreateFromPrefix(mod.img, file);
    var phs := BootModules.Headers(mod.img);
    assert ElfCtxCreate(file).Created? && ElfCtxCreate(file).ctx.phs == phs;
    forall j | 0 <= j < U16(file, 44) && PhdrAt(file, j).ptype == 1 && PhdrAt(file, j).filesz > 0
      ensures SegmentSeen(s.mem, l.pd, file, PhdrAt(file, j))
    {
      assert phs[j] == PhdrAt(file, j);
      HeaderSeen(s0, template, s, l, mod, file, d, j);
    }
    forall vp | 0x7_FFFC <= vp <= 0x8_0000
      ensures Walk(s.mem, l.pd, vp) == Mapped(Entry(s.mem, l.pd, vp).frame, true, true)
    {
      BootModules.StackTranslated(s0, template, s, l, mod, vp);
    }
  }

  lemma HeaderSeen(s0: State, template: nat, s: State, l: BootModules.Loaded, mod: BootModules.BootModule,
                   file: seq<nat>, d: nat, j: nat)
    requires BootModules.ModuleOk(s0, template, mod) && BootModules.ModuleDone(s0, template, s, l, mod)
    requires Extends(mod.img, file) && UserFile(file, d) && BootModules.Headers(mod.img) == BootModules.Headers(file)
    requires j < |BootModules.Headers(file)| && BootModules.Headers(file)[j].Loads()
    ensures SegmentSeen(s.mem, l.pd, file, BootModules.Headers(file)[j])
  {
    var ph := BootModules.Headers(file)[j];
    assert UserSegment(ph, |file|, d);
    forall k | 0 <= k < ph.filesz ensures ByteSeen(s.mem, l.pd, file, ph, k) {
      assert BootModules.SegmentByteOk(s.mem, l.pd, mod.img, ph, k);
      SameWords(mod.img, file, ph.offset + k);
    }
    forall va | ph.vaddr <= va < ph.vaddr + ph.memsz ensures AddressSeen(s.mem, l.pd, ph.flags, va) {
      PageOfByte(ph, va - ph.vaddr);
      BootModules.SegmentTranslated(s0, template, s, l, mod, j, va / 4096);
    }
  }

  /** From the boot loader's memory to the address spaces of the programs: every segment of every
      program reads, with the rights of its header, the bytes of the file that the boot loader had
      put somewhere in memory. */
  lemma ProgramsLoaded(orig: seq<nat>, p: Plan, log: Log, i: nat)
    requires Up(orig, p, log) && i < |p.modules|
    ensures FileSeen(log.Final().mem, log.ls[i].pd, ProgramFile(orig, p.modules[i]))
    ensures OthersSeen(log.Final().mem, log.ls[i].pd, log.tmpl.mem, p.st.bootPd, ProgramFile(orig, p.modules[i]))
  {
    UpModules(orig, p, log);
    ModuleUp(p, log, i);
    ProgramExtends(orig, p, i);
    ModuleSeen(log.tmpl, p.st.bootPd, log.Final(), log.ls[i], p.Files()[i], ProgramFile(orig, p.modules[i]), p.Slot());
    OthersAreSeen(log.tmpl, p.st.bootPd, log.Final(), log.ls[i], p.Files()[i], ProgramFile(orig, p.modules[i]),
                  p.Slot());
  }

  /** In user mode a program reaches its segments and its stack, and nothing else. */
  lemma NothingElseInUserMode(orig: seq<nat>, p: Plan, log: Log, i: nat, vp: int)
    requires Up(orig, p, log) && i < |p.modules| && 0 <= vp < VPAGES
    requires var w := Walk(log.Final().mem, log.ls[i].pd, vp); w.Mapped? && w.user
    ensures InFile(ProgramFile(orig, p.modules[i]), vp) || 0x7_FFFC <= vp <= 0x8_0000
  {
    ProgramsLoaded(orig, p, log, i);
    TemplateClosed(p, log, vp);
  }

  /** The template opens no page to user mode. */
  lemma TemplateClosed(p: Plan, log: Log, vp: int)
    requires p.Ok() && TemplateUp(p, log) && 0 <= vp < VPAGES
    ensures var w := Walk(log.tmpl.mem, p.st.bootPd, vp); w.Mapped? ==> !w.user
  {
    if vp < 1024 {
      WindowIsSeen(p, log, vp);
    } else if vp / 1024 == p.Slot() {
      AsideIsSeen(p, log, vp);
    } else if vp < 1018 * 1024 {
      TemplateSlot(p, log, vp / 1024);
    } else {
      KernelHalf(p, log, vp);
      KernelSlotClosed(p, log, vp / 1024);
    }
  }

  lemma KernelSlotClosed(p: Plan, log: Log, i: int)
    requires p.Ok() && KernelUp(p, log) && i >= KernelMap.K_SLOT
    ensures !Pde(log.kern.mem, p.st.pd, i).access.user
  {
    assert KernelMap.KernelSlot(p.st.pd, log.warm, log.kern, i);
  }

  /** The frames that the module loop takes are all at their own addresses in the template if and
      only if they are no more than the region set aside holds. */
  lemma FramesReached(orig: seq<nat>, p: Plan, log: Log)
    requires Up(orig, p, log)
    ensures (forall f | p.Free() <= f < log.Final().next :: Reached(log.tmpl.mem, p.st.bootPd, f)) <==>
              4096 * log.Final().next <= AsideEnd(p)
  {
    UpModules(orig, p, log);
    AsideEndIs(p);
    var end := AsideEnd(p) / 4096;
    forall f | p.Free() <= f < end ensures Reached(log.tmpl.mem, p.st.bootPd, f) { InsideReached(p, log, f); }
    EndNotReached(p, log);
  }

  predicate Reached(mem: Memory, pd: nat, f: int) { 0 <= f && Walk(mem, pd, f) == Mapped(f, true, false) }

  lemma InsideReached(p: Plan, log: Log, f: int)
    requires p.Ok() && TemplateUp(p, log) && p.Free() <= f && 4096 * f < AsideEnd(p)
    ensures Reached(log.tmpl.mem, p.st.bootPd, f)
  {
    AsideEndIs(p);
    InSlot(p, f);
    AsideIsSeen(p, log, f);
  }

  lemma InSlot(p: Plan, f: int)
    requires p.Ok() && p.Aside().Holds() && p.Aside().end == AsideEnd(p) && p.Free() <= f && 4096 * f < AsideEnd(p)
    ensures f / 1024 == p.Slot()
  {
    assert p.Aside().Offset() == p.Free() % 1024;
  }

  lemma EndNotReached(p: Plan, log: Log)
    requires p.Ok() && TemplateUp(p, log)
    ensures p.Free() <= AsideEnd(p) / 4096 && !Reached(log.tmpl.mem, p.st.bootPd, AsideEnd(p) / 4096)
  {
    var f := AsideEnd(p) / 4096;
    PlanFacts(p);
    AsideEndIs(p);
    if f / 1024 == p.Slot() {
      AsideIsSeen(p, log, f);
    } else {
      NextSlot(p, f);
      TemplateSlot(p, log, f / 1024);
    }
  }

  lemma NextSlot(p: Plan, f: int)
    requires p.Ok() && p.Aside().Holds() && p.Aside().end == AsideEnd(p) == 4096 * f && f / 1024 != p.Slot()
    requires 0 < p.Slot() < 6
    ensures f / 1024 == p.Slot() + 1 < KernelMap.K_SLOT
  {
    assert p.Aside().Offset() == p.Free() % 1024;
  }

  // ---- every frame once -------------------------------------------------------------------------

  /** What a frame may be in use for: a page of the kernel's image, stack or console, a page of a
      packed module, and what frames of the region have been taken for. */
  datatype Use =
    | KernelImage(vp: int)
    | FilePage(i: nat, vp: int)
    | KernelTable(slot: int)
    | KernelPage(vp: int)
    | Directory(i: nat)
    | ModuleTable(i: nat, slot: int)
    | ModulePage(i: nat, vp: int)

  /** The uses that a boot has made of frames. */
  predicate Live(p: Plan, log: Log, u: Use)
    requires p.Ok()
  {
    match u
    case KernelImage(vp) => p.l.HasPage(vp)
    case FilePage(i, vp) => i < |p.modules| && p.modules[i].start <= 4096 * vp < p.modules[i].end
    case KernelTable(slot) => slot > KernelMap.K_SLOT && Pde(log.kern.mem, p.st.pd, slot) != NONE
    case KernelPage(vp) => KernelMap.Allocates(p.l, p.st.pd, vp)
    case Directory(i) => i < |log.ls|
    case ModuleTable(i, slot) =>
      i < |log.ls| && Pde(log.tmpl.mem, p.st.bootPd, slot) == NONE && Pde(log.Final().mem, log.ls[i].pd, slot) != NONE
    case ModulePage(i, vp) =>
      && i < |log.ls| && 0 <= vp < VPAGES && !HasTable(log.tmpl.mem, p.st.bootPd, vp)
      && Entry(log.Final().mem, log.ls[i].pd, vp) != NONE
  }

  function FrameOf(p: Plan, log: Log, u: Use): nat {
    match u
    case KernelImage(vp) => Entry(log.kern.mem, p.st.pd, vp).frame
    case FilePage(_, vp) => Entry(log.tmpl.mem, p.st.bootPd, vp).frame
    case KernelTable(slot) => Pde(log.kern.mem, p.st.pd, slot).frame
    case KernelPage(vp) => Entry(log.kern.mem, p.st.pd, vp).frame
    case Directory(i) => if i < |log.ls| then log.ls[i].pd else 0
    case ModuleTable(i, slot) => if i < |log.ls| then Pde(log.Final().mem, log.ls[i].pd, slot).frame else 0
    case ModulePage(i, vp) => if i < |log.ls| then Entry(log.Final().mem, log.ls[i].pd, vp).frame else 0
  }

  /** Frames that no fetch has handed out. */
  predicate Fixed(u: Use) { u.KernelImage? || u.FilePage? }

  predicate OfKernel(u: Use) { u.KernelTable? || u.KernelPage? }

  predicate OfModule(u: Use) { u.Directory? || u.ModuleTable? || u.ModulePage? }

  /** The image lies below the modules, and those below the region. */
  lemma FixedFrame(p: Plan, log: Log, u: Use)
    requires p.Ok() && TemplateUp(p, log) && Fixed(u) && Live(p, log, u)
    ensures FrameOf(p, log, u) == if u.KernelImage? then p.l.PageFrame(u.vp) else u.vp
    ensures if u.KernelImage? then 4096 * FrameOf(p, log, u) < p.kernelEnd
            else p.kernelEnd <= 4096 * FrameOf(p, log, u) < p.last
  {
    if u.KernelImage? {
      KernelMap.ImageFrame(p.l, p.st.pd, log.warm, log.kern, u.vp);
    } else {
      FilePageFrame(p, log, u.i, u.vp);
    }
  }

  lemma FilePageFrame(p: Plan, log: Log, i: nat, vp: int)
    requires p.Ok() && TemplateUp(p, log)
    requires i < |p.modules| && p.modules[i].start <= 4096 * vp < p.modules[i].end
    ensures Entry(log.tmpl.mem, p.st.bootPd, vp).frame == vp && p.kernelEnd <= 4096 * vp < p.last
  {
    TemplateHolds(p, log);
    ModuleRanges(p.modules, p.kernelEnd, p.last);
    FilePageMapped(log.tmpl, p.st, p.modules, p.Slot(), p.kernelEnd, p.last, i, vp);
  }

  lemma OneModule(p: Plan, i: nat, j: nat, vp: int)
    requires p.Ok() && i < |p.modules| && p.modules[i].start <= 4096 * vp < p.modules[i].end
    requires j < |p.modules| && p.modules[j].start <= 4096 * vp < p.modules[j].end
    ensures i == j
  {
    ModuleRanges(p.modules, p.kernelEnd, p.last);
  }

  lemma FixedOnce(p: Plan, log: Log, u: Use, v: Use)
    requires p.Ok() && TemplateUp(p, log) && Fixed(u) && Fixed(v) && Live(p, log, u) && Live(p, log, v)
    requires FrameOf(p, log, u) == FrameOf(p, log, v)
    ensures u == v
  {
    FixedFrame(p, log, u);
    FixedFrame(p, log, v);
    if u.KernelImage? && v.KernelImage? {
      KernelMap.ImageOnce(p.l, u.vp, v.vp);
    } else if u.FilePage? && v.FilePage? {
      OneModule(p, u.i, v.i, u.vp);
    } else {
      assert false;
    }
  }

  lemma KernelTableFrame(p: Plan, log: Log, slot: int)
    requires p.Ok() && KernelUp(p, log) && slot > KernelMap.K_SLOT && Pde(log.kern.mem, p.st.pd, slot) != NONE
    ensures var f := Pde(log.kern.mem, p.st.pd, slot).frame;
            log.cold.next <= f < log.kern.next && IsTable(log.kern.mem, f) && UsesTable(log.kern.mem, p.st.pd, slot, f)
  {
    assert SlotOk(log.kern.mem, p.st.pd, slot);
    KernelTables(p, log, slot, Pde(log.kern.mem, p.st.pd, slot).frame);
  }

  lemma KernelPageFrame(p: Plan, log: Log, vp: int)
    requires p.Ok() && KernelUp(p, log) && KernelMap.Allocates(p.l, p.st.pd, vp)
    ensures var f := Entry(log.kern.mem, p.st.pd, vp).frame;
            log.cold.next <= f < log.kern.next && IsData(log.kern.mem, f)
  {
    KernelMap.AllocatedFrame(p.l, p.st.pd, log.warm, log.kern, vp);
  }

  /** A frame of the kernel was taken before the template was made. */
  lemma KernelFrame(p: Plan, log: Log, u: Use)
    requires p.Ok() && KernelUp(p, log) && OfKernel(u) && Live(p, log, u)
    ensures log.cold.next <= FrameOf(p, log, u) < log.kern.next
    ensures if u.KernelTable? then IsTable(log.kern.mem, FrameOf(p, log, u))
            else IsData(log.kern.mem, FrameOf(p, log, u))
  {
    if u.KernelTable? { KernelTableFrame(p, log, u.slot); } else { KernelPageFrame(p, log, u.vp); }
  }

  lemma KernelOnce(p: Plan, log: Log, u: Use, v: Use)
    requires p.Ok() && KernelUp(p, log) && OfKernel(u) && OfKernel(v) && Live(p, log, u) && Live(p, log, v)
    requires FrameOf(p, log, u) == FrameOf(p, log, v)
    ensures u == v
  {
    KernelFrame(p, log, u);
    KernelFrame(p, log, v);
    if u.KernelTable? && v.KernelTable? {
      KernelTableFrame(p, log, u.slot);
      KernelTableFrame(p, log, v.slot);
    }
  }

  function ModuleNumber(u: Use): nat
    requires OfModule(u)
  {
    match u case Directory(i) => i case ModuleTable(i, _) => i case ModulePage(i, _) => i
  }

  lemma ModuleFrame(p: Plan, log: Log, u: Use)
    requires p.Ok() && ModulesUp(p, log) && OfModule(u) && Live(p, log, u)
    ensures var l, f := log.ls[ModuleNumber(u)], FrameOf(p, log, u);
            && l.pd <= f < l.hi && (u.Directory? <==> f == l.pd)
            && (u.ModuleTable? ==> IsTable(log.Final().mem, f)) && (u.ModulePage? ==> IsData(log.Final().mem, f))
  {
    var i := ModuleNumber(u);
    var l, mem := log.ls[i], log.Final().mem;
    ModuleUp(p, log, i);
    match u {
      case Directory(_) =>
      case ModuleTable(_, slot) =>
        assert BootModules.PrivateSlot(log.tmpl.mem, p.st.bootPd, mem, l.pd, l.hi, slot) && SlotOk(mem, l.pd, slot);
      case ModulePage(_, vp) =>
        assert BootModules.PrivatePage(log.tmpl.mem, p.st.bootPd, mem, l.pd, l.hi, vp);
    }
  }

  lemma ModuleOnce(p: Plan, log: Log, u: Use, v: Use)
    requires p.Ok() && ModulesUp(p, log) && OfModule(u) && OfModule(v) && Live(p, log, u) && Live(p, log, v)
    requires FrameOf(p, log, u) == FrameOf(p, log, v)
    ensures u == v
  {
    var i, j, f := ModuleNumber(u), ModuleNumber(v), FrameOf(p, log, u);
    ModuleFrame(p, log, u);
    ModuleFrame(p, log, v);
    if i != j {
      var lo, hi := if i < j then i else j, if i < j then j else i;
      BootModules.RunsAscend(log.tmpl, p.st.bootPd, log.trace, log.ls, p.Files(), lo, hi);
    } else {
      ModuleUp(p, log, i);
      var mem, pd := log.Final().mem, log.ls[i].pd;
      if u.ModuleTable? && v.ModuleTable? {
        assert UsesTable(mem, pd, u.slot, f) && UsesTable(mem, pd, v.slot, f);
      } else if u.ModulePage? && v.ModulePage? {
        assert BootModules.OwnPage(log.tmpl.mem, p.st.bootPd, mem, pd, u.vp, f);
        assert BootModules.OwnPage(log.tmpl.mem, p.st.bootPd, mem, pd, v.vp, f);
      }
    }
  }

  /** No fetch hands out a frame twice. */
  lemma TakenOnce(p: Plan, log: Log, u: Use, v: Use)
    requires p.Ok() && KernelUp(p, log) && ModulesUp(p, log) && log.tmpl.next == log.kern.next
    requires !Fixed(u) && !Fixed(v) && Live(p, log, u) && Live(p, log, v) && FrameOf(p, log, u) == FrameOf(p, log, v)
    ensures u == v
  {
    if OfKernel(u) && OfKernel(v) {
      KernelOnce(p, log, u, v);
    } else if OfModule(u) && OfModule(v) {
      ModuleOnce(p, log, u, v);
    } else {
      var k, m := if OfKernel(u) then u else v, if OfKernel(u) then v else u;
      KernelFrame(p, log, k);
      ModuleFrame(p, log, m);
      ModuleUp(p, log, ModuleNumber(m));
    }
  }

  /** Over the whole boot no frame is used twice: not for the kernel's image, stack and console, the
      packed modules, the guard page, the heap, the kernel's tables, the directories, and the tables
      and pages of all modules. */
  lemma EveryFrameOnce(orig: seq<nat>, p: Plan, log: Log, u: Use, v: Use)
    requires Up(orig, p, log) && Live(p, log, u) && Live(p, log, v) && FrameOf(p, log, u) == FrameOf(p, log, v)
    ensures u == v
  {
    UpModules(orig, p, log);
    if Fixed(u) && Fixed(v) {
      FixedOnce(p, log, u, v);
    } else if !Fixed(u) && !Fixed(v) {
      TakenOnce(p, log, u, v);
    } else {
      var fixed, taken := if Fixed(u) then u else v, if Fixed(u) then v else u;
      FixedFrame(p, log, fixed);
      UseTaken(orig, p, log, taken);
      PlanFacts(p);
    }
  }

  /** The region over the whole boot. */
  lemma BootAdvances(p: Plan, log: Log)
    requires p.Ok() && ModulesUp(p, log) && Advances(log.cold, log.kern) && log.tmpl == log.kern.(mem := log.tmpl.mem)
    ensures BootMemory.Advancing([log.cold, log.kern, log.Final()])
  {
    BootModules.RunOutside(log.tmpl, p.st.bootPd, log.trace, log.ls, p.Files(), 0, |log.ls|);
    var all := [log.cold, log.kern, log.Final()];
    assert Advances(all[0], all[1]) && Advances(all[1], all[2]);
  }

  /** A frame used was taken in one of the two phases. */
  lemma UseTaken(orig: seq<nat>, p: Plan, log: Log, u: Use)
    requires Up(orig, p, log) && Live(p, log, u) && !Fixed(u)
    ensures var f := FrameOf(p, log, u);
            log.cold.next <= log.kern.next <= log.Final().next &&
            if OfKernel(u) then log.cold.next <= f < log.kern.next else log.kern.next <= f < log.Final().next
  {
    UpModules(orig, p, log);
    if OfKernel(u) {
      KernelFrame(p, log, u);
    } else {
      ModuleFrame(p, log, u);
      ModuleUp(p, log, ModuleNumber(u));
    }
  }

  /** And every frame taken is clear of the kernel and of all packed modules. */
  lemma EveryFrameClear(orig: seq<nat>, p: Plan, log: Log, r: EarlyBoot.Region, u: Use)
    requires Up(orig, p, log) && Live(p, log, u) && !Fixed(u)
    requires BootMemory.Handover(log.cold, r, p.modules, p.kernelEnd, p.last)
    ensures BootMemory.Clear(FrameOf(p, log, u), r, p.modules, p.kernelEnd)
    ensures End(log.Final()) == r.addr + r.len
  {
    UpModules(orig, p, log);
    BootAdvances(p, log);
    UseTaken(orig, p, log, u);
    TakenClear(log, r, p.modules, p.kernelEnd, p.last, FrameOf(p, log, u));
  }

  lemma TakenClear(log: Log, r: EarlyBoot.Region, modules: seq<Module>, kernelEnd: nat, last: nat, f: nat)
    requires BootMemory.Advancing([log.cold, log.kern, log.Final()]) && log.cold.next <= f < log.Final().next
    requires BootMemory.Handover(log.cold, r, modules, kernelEnd, last)
    ensures BootMemory.Clear(f, r, modules, kernelEnd) && End(log.Final()) == r.addr + r.len
  {
    var phase := if f < log.kern.next then 0 else 1;
    BootMemory.MemoryConserved([log.cold, log.kern, log.Final()], r, modules, kernelEnd, last, phase, f);
  }
}
