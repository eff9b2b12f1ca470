/**
 `early_main` followed by the part of `bootstrap` that builds address spaces: one run over one
 physical memory, from the boot loader's tags to processes ready to be scheduled.
 */
module Bootstrap {
  import opened Paging
  import opened Mmap
  import opened Accounting
  import opened Window
  import opened InitMap
  import opened Packing
  import opened EarlyBoot
  import opened Boot
  import KernelMap
  import BootModules
  import BootMemory

  /** End of the packed modules. */
  function PackedEnd(tags: seq<Tag>, kernelEnd: nat): nat { kernelEnd + Taken(tags, |tags|) }

  /** Slot in which the free region starts once the kernel has its frames. */
  function RegionSlot(tags: seq<Tag>, kernelEnd: nat): nat {
    (PackedEnd(tags, kernelEnd) / 4096 + KernelMap.KERNEL_FRAMES) / 1024
  }

  function TagFile(orig: seq<nat>, tag: Tag): seq<nat> {
    if tag.ModuleTag? && tag.start <= tag.end <= |orig| then orig[tag.start..tag.end] else []
  }

  /** Demands on the boot loader and the linker: module sources in order behind the kernel, modules
      that end below four megabytes, a first usable region inside memory, and user programs. */
  ghost predicate InputOk(orig: seq<nat>, tags: seq<Tag>, kernelEnd: nat, st: Statics, l: KernelMap.Layout) {
    && TagsFit(tags, kernelEnd, |orig|) && SourcesOk(Chosen(tags, |tags|), kernelEnd)
    && st.Ok(l) && l.Ok() && l.Snug() && kernelEnd == l.KernelEnd()
    && PackedEnd(tags, kernelEnd) <= 0x40_0000 && |orig| < ADDRESS_LIMIT
    && (UsableIn(tags, |tags|) != [] ==> UsableIn(tags, |tags|)[0].addr + UsableIn(tags, |tags|)[0].len <= |orig|)
    && UserTags(orig, Chosen(tags, |tags|), RegionSlot(tags, kernelEnd))
  }

  /** The files of the tags are user programs. */
  ghost predicate UserTags(orig: seq<nat>, ms: seq<Tag>, slot: nat) {
    forall i | 0 <= i < |ms| :: UserFile(TagFile(orig, ms[i]), slot)
  }

  lemma PackedNumbers(info: Info, ms: seq<Tag>, kernelEnd: nat)
    requires FromTags(info.modules, ms) && Consecutive(info.modules, kernelEnd, info.lastEnd)
    ensures info.lastEnd == kernelEnd + TagTotal(ms, |ms|)
  {
    TotalIsSpan(info.modules, kernelEnd, info.lastEnd, |info.modules|);
    SameTotal(info.modules, ms, |ms|);
  }

  /** Each packed module holds the program that its tag had named. */
  lemma ProgramsFrom(orig: seq<nat>, p: Plan, ms: seq<Tag>, slot: nat)
    requires |p.bytes| == |orig| && FromTags(p.modules, ms)
    requires forall i | 0 <= i < |p.modules| :: Intact(orig, p.bytes, p.modules[i])
    requires SourcesOk(ms, p.kernelEnd) && UserTags(orig, ms, slot) && slot == p.Slot()
    ensures Programs(orig, p)
  {
    forall i | 0 <= i < |p.modules|
      ensures Intact(orig, p.bytes, p.modules[i]) && UserFile(ProgramFile(orig, p.modules[i]), p.Slot())
    {
      assert FromTag(p.modules[i], ms[i]);
      assert ProgramFile(orig, p.modules[i]) == TagFile(orig, ms[i]);
    }
  }

  /** What `early_main` has left is what the later phases start from. */
  lemma PackedPlan(orig: seq<nat>, bytes: seq<nat>, info: Info, tags: seq<Tag>, kernelEnd: nat, p: Plan)
    requires InputOk(orig, tags, kernelEnd, p.st, p.l) && Walked(orig, bytes, info, tags, |tags|, kernelEnd)
    requires p == Plan(kernelEnd, p.st, p.l, bytes, info.modules, info.lastEnd)
    ensures p.last == PackedEnd(tags, kernelEnd) && p.Slot() == RegionSlot(tags, kernelEnd)
    ensures p.Ok() && Programs(orig, p)
  {
    PlanNumbers(orig, bytes, info, tags, kernelEnd);
    assert p.Slot() == RegionSlot(tags, kernelEnd);
    ProgramsFrom(orig, p, Chosen(tags, |tags|), RegionSlot(tags, kernelEnd));
  }

  lemma PlanNumbers(orig: seq<nat>, bytes: seq<nat>, info: Info, tags: seq<Tag>, kernelEnd: nat)
    requires TagsFit(tags, kernelEnd, |orig|) && SourcesOk(Chosen(tags, |tags|), kernelEnd)
    requires Walked(orig, bytes, info, tags, |tags|, kernelEnd)
    ensures |bytes| == |orig| && |info.modules| <= 5 && info.lastEnd == PackedEnd(tags, kernelEnd) <= |bytes|
    ensures forall i | 0 <= i < |info.modules| :: Intact(orig, bytes, info.modules[i])
    ensures Consecutive(info.modules, kernelEnd, info.lastEnd) && FromTags(info.modules, Chosen(tags, |tags|))
  {
    var ms := Chosen(tags, |tags|);
    TagsPacked(orig, bytes, info, ms, kernelEnd);
    PackedNumbers(info, ms, kernelEnd);
    assert |ms| <= NO_MODULES;
  }

  /** Length of the first usable region behind the kernel and the modules; none if it does not span
      them, since then the region left over is not part of it. */
  function LengthBehind(tags: seq<Tag>, kernelEnd: nat): nat {
    var u, last := UsableIn(tags, |tags|), PackedEnd(tags, kernelEnd);
    if u != [] && Spans(u[0], kernelEnd, last) then u[0].addr + u[0].len - last else 0
  }

  /** The region that `early_main` leaves is the one the machine starts with. */
  lemma HandedOver(orig: seq<nat>, bytes: seq<nat>, info: Info, tags: seq<Tag>, kernelEnd: nat, p: Plan, s: State,
                   r: Region)
    requires InputOk(orig, tags, kernelEnd, p.st, p.l) && Walked(orig, bytes, info, tags, |tags|, kernelEnd)
    requires p == Plan(kernelEnd, p.st, p.l, bytes, info.modules, info.lastEnd) && info.memmaps != []
             && r == info.memmaps[0] && Spans(r, kernelEnd, info.lastEnd)
    requires var left := Adjust(r, kernelEnd, TotalSize(info.modules, |info.modules|), info.lastEnd);
             s == State(Typed(bytes, p.st), left.addr / 4096, left.len, s.checked)
    ensures BootMemory.Handover(s, r, p.modules, kernelEnd, p.last) && r == UsableIn(tags, |tags|)[0]
    ensures 4096 * s.next == p.last && End(s) == r.addr + r.len <= |bytes| && s.len == LengthBehind(tags, kernelEnd)
  {
    PackedPlan(orig, bytes, info, tags, kernelEnd, p);
    RegionConserved(r, info.modules, kernelEnd, info.lastEnd);
  }

  /** Exactly when a boot comes up that starts with `len` bytes behind the modules. */
  ghost predicate ComesUp(p: Plan, len: nat, checked: bool)
    requires p.Ok()
  {
    Room(checked, len, KernelMap.KERNEL_FRAMES) && ModulesComeUp(p, KernelPurse(len, checked))
  }

  /** The table for the region can map what it is to map, and the module loop completes on what
      the kernel has left. */
  ghost predicate ModulesComeUp(p: Plan, purse: Purse)
    requires p.Ok()
  {
    p.Aside().Holds() && ProgramsLoad(p, WithSlot(purse, p.Slot()))
  }

  ghost predicate ProgramsLoad(p: Plan, purse: Purse)
    requires p.Ok()
  {
    BootModules.BootForecast(purse, p.Files(), 0).AllLoaded?
  }

  function KernelPurse(len: nat, checked: bool): Purse
    requires len >= 4096 * KernelMap.KERNEL_FRAMES
  {
    Purse(len - 4096 * KernelMap.KERNEL_FRAMES, {0} + SlotRange(KernelMap.K_SLOT, 5), checked)
  }

  function WithSlot(purse: Purse, d: nat): Purse { purse.(slots := purse.slots + {d}) }

  lemma KernelRoom(checked: bool, len: nat)
    ensures Room(checked, len, KernelMap.KERNEL_FRAMES) <==> if checked then len > 0x100_5000 else len >= 0x100_5000
  {}

  /** The kernel's part: it takes 0x100_5000 bytes. */
  method MapKernel(m: Machine, ghost p: Plan, st: Statics, l: KernelMap.Layout, modules: seq<Module>)
    returns (ok: bool, ghost log: Log)
    requires p.Ok() && st == p.st && l == p.l && modules == p.modules && m.regionAddr == p.last
    requires m.S().mem == Typed(p.bytes, st) && 4096 * m.S().next == p.last && End(m.S()) <= |p.bytes|
    modifies m`mem, m`regionAddr, m`regionLen
    ensures m.regionAddr % 4096 == 0
    ensures ok <==> Room(m.checked, old(m.S()).len, KernelMap.KERNEL_FRAMES)
    ensures m.checked ==> (ok <==> old(m.regionLen) > 0x100_5000)
    ensures !m.checked ==> (ok <==> old(m.regionLen) >= 0x100_5000)
    ensures ok ==> KernelUp(p, log) && log.cold == old(m.S()) && log.kern == m.S()
    ensures ok ==> PurseOf(m.S(), st.pd) == KernelPurse(old(m.S()).len, m.checked)
  {
    ghost var cold := m.S();
    log := Log(cold, cold, cold, cold, [], []);
    PlanFacts(p);
    ColdStart(p.bytes, st, l, p.kernelEnd, p.last, cold);
    KernelMap.SnugKernel(l, st.pd, Purse(cold.len, {0, KernelMap.K_SLOT}, m.checked));
    var o, heapStart;
    ghost var warm;
    o, heapStart, warm := KernelMap.MapKernelMemory(m, l, st.pd, st.kernelPt, st.bootstrapPt, RangesOf(modules));
    ok := o == Done;
    log := Log(cold, warm, m.S(), m.S(), [], []);
    KernelRoom(m.checked, cold.len);
    if ok { FreeAfter(p, cold, m.S()); }
  }

  lemma FreeAfter(p: Plan, s: State, s': State)
    requires 4096 * s.next == p.last && Advances(s, s') && s'.len == s.len - 4096 * KernelMap.KERNEL_FRAMES
    ensures s'.next == p.Free()
  {}

  /** Then the template for modules. */
  method MakeTemplate(m: Machine, ghost p: Plan, st: Statics, modules: seq<Module>, ghost log: Log)
    returns (ok: bool, ghost log': Log)
    requires p.Ok() && st == p.st && modules == p.modules && KernelUp(p, log) && log.kern == m.S()
    requires m.regionAddr % 4096 == 0
    modifies m`mem, m`cr3
    ensures ok <==> p.Aside().Holds()
    ensures ok ==> log' == log.(tmpl := m.S()) && TemplateUp(p, log')
    ensures ok ==> PurseOf(m.S(), st.bootPd) == WithSlot(PurseOf(log.kern, st.pd), p.Slot())
  {
    StaticTables(p, log);
    PlanFacts(p);
    assert m.regionAddr == 4096 * p.Free();
    SlotOfRegion(m.regionAddr, p);
    ok := IdentityMapInit(m, st.pd, st.bootPd, st.modulePt, RangesOf(modules));
    log' := log.(tmpl := m.S());
    if ok { TemplatePurse(p, log', PurseOf(log.kern, st.pd)); }
  }

  lemma SlotOfRegion(addr: nat, p: Plan)
    requires addr == 4096 * p.Free()
    ensures PtOffset(addr, 1) == p.Slot()
  {
    assert addr / 4096 == p.Free();
  }

  /** The tables of the template are still in place after the kernel is mapped. */
  lemma StaticTables(p: Plan, log: Log)
    requires p.Ok() && KernelUp(p, log)
    ensures IsTable(log.kern.mem, p.st.bootPd) && IsTable(log.kern.mem, p.st.modulePt) && IsTable(log.kern.mem, p.st.pd)
  {
    PlanFacts(p);
    ColdStart(p.bytes, p.st, p.l, p.kernelEnd, p.last, log.cold);
    forall f | f == p.st.bootPd || f == p.st.modulePt ensures log.kern.mem[f] == log.cold.mem[f] {
      StaticsBelow(p, f);
      forall i | KernelMap.K_SLOT <= i ensures !UsesTable(log.warm.mem, p.st.pd, i, f) {
        assert Pde(log.warm.mem, p.st.pd, i) == if i == KernelMap.K_SLOT then Pte(p.st.kernelPt, WINDOW) else NONE;
      }
    }
  }

  lemma TemplatePurse(p: Plan, log: Log, purse: Purse)
    requires p.Ok() && TemplateUp(p, log) && PurseOf(log.kern, p.st.pd) == purse
    ensures PurseOf(log.tmpl, p.st.bootPd) == WithSlot(purse, p.Slot())
  {
    TemplateHolds(p, log);
  }

  /** The phases behind `early_main`. */
  method BringUp(m: Machine, ghost orig: seq<nat>, ghost p: Plan, bytes: seq<nat>, st: Statics, l: KernelMap.Layout,
                 modules: seq<Module>)
    returns (up: bool, procs: seq<BootModules.Proc>, ghost log: Log)
    requires p.Ok() && Programs(orig, p) && st == p.st && l == p.l && modules == p.modules && bytes == p.bytes
    requires m.regionAddr == p.last && m.S().mem == Typed(bytes, st)
    requires 4096 * m.S().next == p.last && End(m.S()) <= |bytes|
    modifies m
    ensures up <==> ComesUp(p, old(m.S()).len, m.checked)
    ensures up ==> Up(orig, p, log) && log.cold == old(m.S()) && BootModules.ProcsOk(procs, log.ls, p.Files())
  {
    procs := [];
    ghost var kern;
    up, kern := MapKernel(m, p, st, l, modules);
    log := kern;
    if up { up, procs, log := BringUpModules(m, orig, p, bytes, st, modules, kern); }
  }

  /** The phases behind the kernel's. */
  method BringUpModules(m: Machine, ghost orig: seq<nat>, ghost p: Plan, bytes: seq<nat>, st: Statics,
                        modules: seq<Module>, ghost kern: Log)
    returns (up: bool, procs: seq<BootModules.Proc>, ghost log: Log)
    requires p.Ok() && Programs(orig, p) && st == p.st && modules == p.modules && bytes == p.bytes
    requires KernelUp(p, kern) && kern.kern == m.S() && m.regionAddr % 4096 == 0
    modifies m
    ensures up <==> ModulesComeUp(p, PurseOf(old(m.S()), st.pd))
    ensures up ==> Up(orig, p, log) && log.cold == kern.cold && BootModules.ProcsOk(procs, log.ls, p.Files())
  {
    procs := [];
    up, log := MakeTemplate(m, p, st, modules, kern);
    if up { up, procs, log := LoadPrograms(m, orig, p, bytes, st, modules, log); }
  }

  /** The packed programs, as the module loop takes them. */
  method CollectFiles(ghost p: Plan, bytes: seq<nat>, modules: seq<Module>) returns (files: seq<BootModules.BootModule>)
    requires p.Ok() && bytes == p.bytes && modules == p.modules
    ensures files == p.Files()
  {
    ModuleRanges(modules, p.kernelEnd, p.last);
    files := seq(|modules|, i requires 0 <= i < |modules| => FileOf(bytes, modules[i]));
  }

  /** The module loop, on the packed programs. */
  method LoadPrograms(m: Machine, ghost orig: seq<nat>, ghost p: Plan, bytes: seq<nat>, st: Statics,
                      modules: seq<Module>,
                      ghost log: Log)
    returns (up: bool, procs: seq<BootModules.Proc>, ghost log': Log)
    requires p.Ok() && Programs(orig, p) && TemplateUp(p, log) && log.tmpl == m.S() && m.regionAddr % 4096 == 0
    requires st == p.st && modules == p.modules && bytes == p.bytes
    modifies m
    ensures up <==> ProgramsLoad(p, PurseOf(old(m.S()), st.bootPd))
    ensures up ==> Up(orig, p, log') && log'.cold == log.cold && BootModules.ProcsOk(procs, log'.ls, p.Files())
  {
    var files := CollectFiles(p, bytes, modules);
    DemandsMet(orig, p, log);
    var res;
    ghost var ls, trace;
    res, procs, ls, trace := BootModules.LoadBootModules(m, st.bootPd, files);
    up := res == BootModules.Booted;
    log' := log.(ls := ls, trace := trace);
  }

  /** `r` is the first region of the tags that has kind 1 and lies above the first megabyte. */
  ghost predicate FirstRegion(tags: seq<Tag>, r: Region) { exists at :: FirstAt(tags, at, r) }

  lemma FirstRegionIs(tags: seq<Tag>)
    requires UsableIn(tags, |tags|) != []
    ensures FirstRegion(tags, UsableIn(tags, |tags|)[0])
  {
    var at := FirstUsable(tags);
  }

  /** The part of the boot that runs on the packed memory. */
  method StartMachine(bytes: seq<nat>, r: EarlyBoot.Outcome, tags: seq<Tag>, kernelEnd: nat, st: Statics,
                      l: KernelMap.Layout, checked: bool, ghost orig: seq<nat>, ghost p: Plan)
    returns (up: bool, procs: seq<BootModules.Proc>, ghost log: Log)
    requires InputOk(orig, tags, kernelEnd, st, l) && r.Booted? && r.info.memmaps != []
    requires Walked(orig, bytes, r.info, tags, |tags|, kernelEnd)
    requires r.region ==
             Adjust(r.info.memmaps[0], kernelEnd, TotalSize(r.info.modules, |r.info.modules|), r.info.lastEnd)
    requires p == Plan(kernelEnd, st, l, bytes, r.info.modules, r.info.lastEnd) && p.Ok() && Programs(orig, p)
    ensures up <==> ComesUp(p, LengthBehind(tags, kernelEnd), checked)
    ensures up ==> Up(orig, p, log) && BootModules.ProcsOk(procs, log.ls, p.Files()) && UsableIn(tags, |tags|) != []
    ensures up ==> BootMemory.Handover(log.cold, UsableIn(tags, |tags|)[0], p.modules, kernelEnd, p.last)
  {
    ghost var none := State([], 0, 0, checked);
    log := Log(none, none, none, none, [], []);
    PlanNumbers(orig, bytes, r.info, tags, kernelEnd);
    // a region that does not span kernel and modules: the source goes on with frames outside it
    if !Spans(r.info.memmaps[0], kernelEnd, r.info.lastEnd) { return false, [], log; }
    var m := new Machine(Typed(bytes, st), r.region.addr, r.region.len, checked);
    HandedOver(orig, bytes, r.info, tags, kernelEnd, p, m.S(), r.info.memmaps[0]);
    up, procs, log := BringUp(m, orig, p, bytes, st, l, r.info.modules);
  }

  /** The boot, from tags to processes, in a build with assertions or without.  It is `up` if the
      region left over keeps the upper end of the first one and the boot ends with frames of it alone. */
  method Run(mem: array<nat>, tags: seq<Tag>, kernelEnd: nat, st: Statics, l: KernelMap.Layout, checked: bool)
    returns (up: bool, procs: seq<BootModules.Proc>, ghost p: Plan, ghost log: Log)
    requires InputOk(mem[..], tags, kernelEnd, st, l)
    modifies mem
    ensures up ==> Complete(tags)
    ensures Complete(tags) ==>
              && p.Ok() && FromTags(p.modules, Chosen(tags, |tags|))
              && (up <==> ComesUp(p, LengthBehind(tags, kernelEnd), checked))
    ensures up ==> Up(old(mem[..]), p, log) && BootModules.ProcsOk(procs, log.ls, p.Files())
    ensures up ==>
              && BootMemory.Handover(log.cold, UsableIn(tags, |tags|)[0], p.modules, kernelEnd, p.last)
              && FirstRegion(tags, UsableIn(tags, |tags|)[0])
  {
    CompleteIff(tags);
    ghost var orig, none := mem[..], State([], 0, 0, checked);
    procs, p, log := [], Plan(kernelEnd, st, l, [], [], 0), Log(none, none, none, none, [], []);
    var r := EarlyMain(mem, tags, kernelEnd);
    if r.Panicked? { return false, procs, p, log; }
    var modules, bytes := r.info.modules, mem[..];
    p := Plan(kernelEnd, st, l, bytes, modules, r.info.lastEnd);
    PackedPlan(orig, bytes, r.info, tags, kernelEnd, p);
    FirstRegionIs(tags);
    up, procs, log := StartMachine(bytes, r, tags, kernelEnd, st, l, checked, orig, p);
  }
}
