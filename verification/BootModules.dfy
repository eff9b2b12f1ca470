/**
 `load_boot_modules`: one page directory per boot module, a copy of the template directory,
 into which the module is loaded.  The main results are that every module ends with its own
 file in its own address space, and that no two address spaces share a private frame.
 */
module BootModules {
  import opened Paging
  import opened Mmap
  import opened AddressSpace
  import opened Accounting
  import opened UserMemory
  import opened ElfLoad
  import opened ElfFormat
  import opened Threads

  /** A packed module: where its file lies and what the file holds. */
  datatype BootModule = BootModule(base: nat, img: seq<nat>)

  datatype Proc = Proc(id: nat, pageDir: nat, priority: nat, threadCount: nat, context: Context)

  datatype BootResult = Booted | Panicked

  // ---- views of a directory ----------------------------------------------------------------

  /** Two directories, in two memories, map alike. */
  ghost predicate SameView(a: Memory, pa: nat, b: Memory, pb: nat) {
    && (forall i :: Pde(b, pb, i) == Pde(a, pa, i))
    && (forall vp | 0 <= vp < VPAGES :: Entry(b, pb, vp) == Entry(a, pa, vp))
  }

  /** All frames outside `lo..hi` hold what they held. */
  predicate SameOutside(a: Memory, b: Memory, lo: nat, hi: nat) {
    |b| == |a| && forall f | 0 <= f < |a| && !(lo <= f < hi) :: b[f] == a[f]
  }

  /** A directory whose frame and tables lie outside a range keeps its view when only the
      range changes, and so does a copy of it placed inside the range. */
  lemma ViewOutside(a: Memory, b: Memory, pd: nat, copy: nat, lo: nat, hi: nat)
    requires Directory(a, pd) && SameOutside(a, b, lo, hi)
    requires !(lo <= pd < hi) && (forall i, f | UsesTable(a, pd, i, f) :: !(lo <= f < hi))
    requires copy == pd || (lo <= copy < hi && copy < |b| && b[copy] == a[pd])
    ensures SameView(a, pd, b, copy) && Directory(b, copy)
  {
    assert forall i :: Pde(b, copy, i) == Pde(a, pd, i);
    forall i | 0 <= i < 1024 ensures SlotOk(b, copy, i) {
      assert SlotOk(a, pd, i);
      assert Pde(a, pd, i) != NONE ==> UsesTable(a, pd, i, Pde(a, pd, i).frame);
    }
    forall i, j, f | UsesTable(b, copy, i, f) && UsesTable(b, copy, j, f) ensures i == j {
      assert UsesTable(a, pd, i, f) && UsesTable(a, pd, j, f);
    }
    forall vp | 0 <= vp < VPAGES ensures Entry(b, copy, vp) == Entry(a, pd, vp) {
      assert SlotOk(a, pd, vp / 1024);
      assert Pde(a, pd, vp / 1024) != NONE ==> UsesTable(a, pd, vp / 1024, Pde(a, pd, vp / 1024).frame);
    }
  }

  // ---- one address space ----------------------------------------------------------------------

  predicate PrivateSlot(tmem: Memory, template: nat, mem: Memory, pd: nat, hi: nat, i: int) {
    var t, d := Pde(tmem, template, i), Pde(mem, pd, i);
    if t != NONE then d == t else d != NONE ==> pd < d.frame < hi && d.access == TableAccess(false)
  }

  predicate PrivatePage(tmem: Memory, template: nat, mem: Memory, pd: nat, hi: nat, vp: int) {
    var e := Entry(mem, pd, vp);
    !HasTable(tmem, template, vp) && e != NONE ==> pd < e.frame < hi && IsData(mem, e.frame)
  }

  /** A directory that shares the template's slots, with all its own tables and pages among
      the frames after it and below `hi`, no frame serving two private pages. */
  ghost predicate Space(tmem: Memory, template: nat, mem: Memory, pd: nat, hi: nat) {
    && Directory(mem, pd)
    && (forall i :: PrivateSlot(tmem, template, mem, pd, hi, i))
    && (forall vp | 0 <= vp < VPAGES :: PrivatePage(tmem, template, mem, pd, hi, vp))
    && (forall vp, wp, f | OwnPage(tmem, template, mem, pd, vp, f)
         && OwnPage(tmem, template, mem, pd, wp, f) :: vp == wp)
  }

  predicate OwnPage(tmem: Memory, template: nat, mem: Memory, pd: nat, vp: int, f: int) {
    && 0 <= vp < VPAGES && !HasTable(tmem, template, vp)
    && Entry(mem, pd, vp) != NONE && Entry(mem, pd, vp).frame == f
  }

  /** A private load into a copy of the template makes such a space. */
  lemma GrownSpace(tmem: Memory, template: nat, s1: State, s2: State, pd: nat)
    requires SameView(tmem, template, s1.mem, pd) && Grown(s1, s2, pd, true) && Ready(s2, pd)
    requires s1.next == pd + 1
    ensures Space(tmem, template, s2.mem, pd, s2.next)
  {
    forall i ensures PrivateSlot(tmem, template, s2.mem, pd, s2.next, i) {
      assert SlotGrown(s1, s2, pd, i);
    }
    forall vp | 0 <= vp < VPAGES ensures PrivatePage(tmem, template, s2.mem, pd, s2.next, vp) {
      assert PageGrown(s1, s2, pd, vp);
    }
    forall vp, wp, f | OwnPage(tmem, template, s2.mem, pd, vp, f) && OwnPage(tmem, template, s2.mem, pd, wp, f)
      ensures vp == wp
    {
      assert NewPage(s1, s2, pd, vp, f) && NewPage(s1, s2, pd, wp, f);
    }
  }

  /** A space keeps its view, and is still a space, when nothing changes but frames of the
      region outside its own. */
  lemma SpaceKept(tmem: Memory, template: nat, a: Memory, b: Memory, pd: nat, hi: nat, r0: nat, r1: nat)
    requires Space(tmem, template, a, pd, hi) && Directory(tmem, template)
    requires r0 <= pd && hi <= r1 && SameOutside(a, b, hi, r1)
    requires forall i, f | UsesTable(tmem, template, i, f) :: !(r0 <= f < r1)
    requires pd < hi
    ensures SameView(a, pd, b, pd) && Space(tmem, template, b, pd, hi)
  {
    forall i, f | UsesTable(a, pd, i, f) ensures !(hi <= f < r1) {
      assert PrivateSlot(tmem, template, a, pd, hi, i);
      assert Pde(tmem, template, i) != NONE ==> UsesTable(tmem, template, i, f);
    }
    ViewOutside(a, b, pd, pd, hi, r1);
    forall i ensures PrivateSlot(tmem, template, b, pd, hi, i) {
      assert PrivateSlot(tmem, template, a, pd, hi, i);
    }
    forall vp | 0 <= vp < VPAGES ensures PrivatePage(tmem, template, b, pd, hi, vp) {
      assert PrivatePage(tmem, template, a, pd, hi, vp);
    }
    forall vp, wp, f | OwnPage(tmem, template, b, pd, vp, f) && OwnPage(tmem, template, b, pd, wp, f)
      ensures vp == wp
    {
      assert OwnPage(tmem, template, a, pd, vp, f) && OwnPage(tmem, template, a, pd, wp, f);
    }
  }

  // ---- one module ---------------------------------------------------------------------------

  /** Headers of a module's file; none if `elf_ctx_create` rejects it. */
  function Headers(img: seq<nat>): seq<Phdr> {
    match ElfCtxCreate(img)
    case Created(ctx) => ctx.phs
    case Rejected(_) => []
  }

  predicate FileMapped(s: State, template: nat, mod: BootModule, k: nat) {
    k < |mod.img| && VByte(s.mem, template, mod.base + k) == mod.img[k]
  }

  /** The module's file is mapped by the template, its segments are page-aligned, disjoint and
      clear of the stack, and all of them lie in slots the template leaves empty. */
  ghost predicate ModuleOk(s: State, template: nat, mod: BootModule) {
    && (forall k | 0 <= k < |mod.img| :: FileMapped(s, template, mod, k))
    && ImageOk(s, template, mod.base, |mod.img|, Headers(mod.img))
    && PrivateImage(s, template, Headers(mod.img))
  }

  predicate SegmentByteOk(mem: Memory, pd: nat, img: seq<nat>, ph: Phdr, k: nat) {
    VByte(mem, pd, ph.vaddr + k) == ByteAt(img, ph.offset + k)
  }

  /** Every loadable segment reads, through directory `pd`, the bytes of the file, with the
      rights of its header. */
  ghost predicate FileLoaded(mem: Memory, pd: nat, img: seq<nat>) {
    forall j | 0 <= j < |Headers(img)| && Headers(img)[j].Loads() ::
      && Headers(img)[j].filesz <= Headers(img)[j].memsz
      && (forall vp | Headers(img)[j].HasPage(vp) :: Entry(mem, pd, vp).access == SegmentRights(Headers(img)[j].flags))
      && (forall k | 0 <= k < Headers(img)[j].filesz :: SegmentByteOk(mem, pd, img, Headers(img)[j], k))
  }

  /** The five pages of the stack, up to and including the one that starts at two gigabytes. */
  ghost predicate StackMapped(mem: Memory, pd: nat) {
    forall vp | 0x7_FFFC <= vp <= 0x8_0000 :: Entry(mem, pd, vp).access == Access(true, true, true)
  }

  /** Pages that are neither in a segment nor of the stack are mapped as by the template. */
  ghost predicate NothingElse(tmem: Memory, template: nat, mem: Memory, pd: nat, phs: seq<Phdr>) {
    forall vp | 0 <= vp < VPAGES && !InSegments(phs, |phs|, vp) && !(0x7_FFFC <= vp <= 0x8_0000) ::
      Entry(mem, pd, vp) == Entry(tmem, template, vp)
  }

  /** A finished module: its directory and the end of its frames. */
  datatype Loaded = Loaded(pd: nat, hi: nat)

  ghost predicate ModuleDone(s0: State, template: nat, s: State, l: Loaded, mod: BootModule) {
    && s0.next <= l.pd < l.hi <= s.next
    && Space(s0.mem, template, s.mem, l.pd, l.hi)
    && Supported(mod.img) && FileLoaded(s.mem, l.pd, mod.img) && StackMapped(s.mem, l.pd)
    && NothingElse(s0.mem, template, s.mem, l.pd, Headers(mod.img))
  }

  /** The loader's demands on an image carry over from the template to a fresh copy of it. */
  lemma ImageTransfer(s0: State, s1: State, template: nat, pd: nat, base: nat, size: nat, phs: seq<Phdr>)
    requires SameView(s0.mem, template, s1.mem, pd) && SameOutside(s0.mem, s1.mem, s0.next, s1.next)
    requires s0.next <= s1.next <= Limit(s1) == Limit(s0)
    requires ImageOk(s0, template, base, size, phs)
    ensures ImageOk(s1, pd, base, size, phs)
  {
    forall va | InRange(base, size, va) ensures ImageByte(s1, pd, va) {
      ByteTransfer(s0, s1, template, pd, va);
    }
    forall i | 0 <= i < |phs| && phs[i].Loads()
      ensures SegmentOk(s1, pd, base, size, phs[i])
              && (forall vp | phs[i].HasPage(vp) :: !StackRequest(pd).Includes(vp))
    {
      assert SegmentOk(s0, template, base, size, phs[i]);
      forall vp | phs[i].HasPage(vp) ensures Entry(s1.mem, pd, vp) == NONE && !StackRequest(pd).Includes(vp) {
        assert Entry(s0.mem, template, vp) == NONE && !StackRequest(template).Includes(vp);
      }
    }
  }

  lemma ByteTransfer(s0: State, s1: State, template: nat, pd: nat, va: int)
    requires SameView(s0.mem, template, s1.mem, pd) && SameOutside(s0.mem, s1.mem, s0.next, s1.next)
    requires s0.next <= s1.next <= Limit(s1) == Limit(s0)
    requires ImageByte(s0, template, va)
    ensures ImageByte(s1, pd, va) && VByte(s1.mem, pd, va) == VByte(s0.mem, template, va)
  {
    assert va / 4096 < VPAGES;
    assert Entry(s1.mem, pd, va / 4096) == Entry(s0.mem, template, va / 4096);
    assert Pde(s1.mem, pd, va / 4096 / 1024) == Pde(s0.mem, template, va / 4096 / 1024);
  }

  lemma PrivateTransfer(s0: State, s1: State, template: nat, pd: nat, phs: seq<Phdr>)
    requires SameView(s0.mem, template, s1.mem, pd) && PrivateImage(s0, template, phs)
    ensures PrivateImage(s1, pd, phs)
  {
    forall j, vp | 0 <= j < |phs| && phs[j].Loads() && phs[j].HasPage(vp) ensures !HasTable(s1.mem, pd, vp) {
      assert !HasTable(s0.mem, template, vp);
    }
    forall vp | StackRequest(pd).Includes(vp) ensures !HasTable(s1.mem, pd, vp) {
      assert StackRequest(template).Includes(vp);
      assert !HasTable(s0.mem, template, vp);
    }
  }

  /** A finished load, told in bytes of the file. */
  lemma LoadedFile(s0: State, s1: State, s2: State, template: nat, pd: nat, mod: BootModule)
    requires SameView(s0.mem, template, s1.mem, pd) && SameOutside(s0.mem, s1.mem, s0.next, s1.next)
    requires s0.next <= s1.next <= Limit(s1) == Limit(s0)
    requires ModuleOk(s0, template, mod) && ImageLoaded(s1, s2, pd, mod.base, Headers(mod.img))
    requires forall j | 0 <= j < |Headers(mod.img)| && Headers(mod.img)[j].ptype == 1 ::
               Headers(mod.img)[j].filesz <= Headers(mod.img)[j].memsz
    ensures FileLoaded(s2.mem, pd, mod.img)
  {
    forall j | 0 <= j < |Headers(mod.img)| && Headers(mod.img)[j].Loads()
      ensures Headers(mod.img)[j].filesz <= Headers(mod.img)[j].memsz
      ensures (forall vp | Headers(mod.img)[j].HasPage(vp) ::
                 Entry(s2.mem, pd, vp).access == SegmentRights(Headers(mod.img)[j].flags))
      ensures (forall k | 0 <= k < Headers(mod.img)[j].filesz ::
                SegmentByteOk(s2.mem, pd, mod.img, Headers(mod.img)[j], k))
    {
      var ph := Headers(mod.img)[j];
      assert SegmentLoaded(s1, s2, pd, mod.base, ph) && SegmentOk(s0, template, mod.base, |mod.img|, ph);
      LoadedSegment(s0, s1, s2, template, pd, mod, ph);
    }
  }

  lemma LoadedSegment(s0: State, s1: State, s2: State, template: nat, pd: nat, mod: BootModule, ph: Phdr)
    requires SameView(s0.mem, template, s1.mem, pd) && SameOutside(s0.mem, s1.mem, s0.next, s1.next)
    requires s0.next <= s1.next <= Limit(s1) == Limit(s0) && ModuleOk(s0, template, mod)
    requires SegmentLoaded(s1, s2, pd, mod.base, ph) && ph.offset + ph.filesz <= |mod.img|
    ensures forall k | 0 <= k < ph.filesz :: SegmentByteOk(s2.mem, pd, mod.img, ph, k)
  {
    forall k | 0 <= k < ph.filesz ensures SegmentByteOk(s2.mem, pd, mod.img, ph, k) {
      assert FileByte(s1.mem, s2.mem, pd, mod.base, ph, k);
      FileByteTransfer(s0, s1, template, pd, mod, ph.offset + k);
    }
  }

  lemma FileByteTransfer(s0: State, s1: State, template: nat, pd: nat, mod: BootModule, k: nat)
    requires SameView(s0.mem, template, s1.mem, pd) && SameOutside(s0.mem, s1.mem, s0.next, s1.next)
    requires s0.next <= s1.next <= Limit(s1) == Limit(s0)
    requires ModuleOk(s0, template, mod) && k < |mod.img|
    ensures VByte(s1.mem, pd, mod.base + k) == ByteAt(mod.img, k)
  {
    assert InRange(mod.base, |mod.img|, mod.base + k) && ImageByte(s0, template, mod.base + k);
    ByteTransfer(s0, s1, template, pd, mod.base + k);
    assert FileMapped(s0, template, mod, k);
  }

  /** A private page keeps its bytes when nothing changes but frames past its space. */
  lemma PrivateByteKept(s0: State, template: nat, a: Memory, b: Memory, l: Loaded, r1: nat, va: nat)
    requires Space(s0.mem, template, a, l.pd, l.hi) && SameView(a, l.pd, b, l.pd) && SameOutside(a, b, l.hi, r1)
    requires va < ADDRESS_LIMIT && !HasTable(s0.mem, template, va / 4096) && l.pd < l.hi
    ensures VByte(b, l.pd, va) == VByte(a, l.pd, va)
  {
    assert va / 4096 < VPAGES;
    assert PrivatePage(s0.mem, template, a, l.pd, l.hi, va / 4096);
    assert Entry(b, l.pd, va / 4096) == Entry(a, l.pd, va / 4096);
  }

  lemma FileKept(s0: State, template: nat, a: Memory, b: Memory, l: Loaded, r1: nat, mod: BootModule)
    requires Space(s0.mem, template, a, l.pd, l.hi) && SameView(a, l.pd, b, l.pd) && SameOutside(a, b, l.hi, r1)
    requires ModuleOk(s0, template, mod) && FileLoaded(a, l.pd, mod.img) && l.pd < l.hi
    ensures FileLoaded(b, l.pd, mod.img)
  {
    var phs := Headers(mod.img);
    forall j | 0 <= j < |phs| && phs[j].Loads()
      ensures phs[j].filesz <= phs[j].memsz
      ensures forall vp | phs[j].HasPage(vp) :: Entry(b, l.pd, vp).access == SegmentRights(phs[j].flags)
      ensures forall k | 0 <= k < phs[j].filesz :: SegmentByteOk(b, l.pd, mod.img, phs[j], k)
    {
      assert SegmentOk(s0, template, mod.base, |mod.img|, phs[j]);
      SegmentKept(s0, template, a, b, l, r1, mod, phs[j]);
    }
  }

  lemma SegmentKept(s0: State, template: nat, a: Memory, b: Memory, l: Loaded, r1: nat, mod: BootModule, ph: Phdr)
    requires Space(s0.mem, template, a, l.pd, l.hi) && SameView(a, l.pd, b, l.pd) && SameOutside(a, b, l.hi, r1)
    requires l.pd < l.hi && ph.Loads() && ph.filesz <= ph.memsz && SegmentOk(s0, template, mod.base, |mod.img|, ph)
    requires forall vp | ph.HasPage(vp) :: !HasTable(s0.mem, template, vp)
    requires forall vp | ph.HasPage(vp) :: Entry(a, l.pd, vp).access == SegmentRights(ph.flags)
    requires forall k | 0 <= k < ph.filesz :: SegmentByteOk(a, l.pd, mod.img, ph, k)
    ensures forall vp | ph.HasPage(vp) :: Entry(b, l.pd, vp).access == SegmentRights(ph.flags)
    ensures forall k | 0 <= k < ph.filesz :: SegmentByteOk(b, l.pd, mod.img, ph, k)
  {
    forall vp | ph.HasPage(vp) ensures Entry(b, l.pd, vp).access == SegmentRights(ph.flags) {
      assert Entry(b, l.pd, vp) == Entry(a, l.pd, vp);
    }
    forall k | 0 <= k < ph.filesz ensures SegmentByteOk(b, l.pd, mod.img, ph, k) {
      assert SegmentByteOk(a, l.pd, mod.img, ph, k);
      PageOfByte(ph, k);
      PrivateByteKept(s0, template, a, b, l, r1, ph.vaddr + k);
    }
  }

  /** Loading later modules leaves a finished one as it was. */
  lemma ModuleKept(s0: State, template: nat, s: State, s': State, l: Loaded, mod: BootModule)
    requires Ready(s0, template) && ModuleOk(s0, template, mod) && ModuleDone(s0, template, s, l, mod)
    requires s.next <= s'.next <= Limit(s0) && SameOutside(s.mem, s'.mem, s.next, s'.next)
    ensures ModuleDone(s0, template, s', l, mod) && SameView(s.mem, l.pd, s'.mem, l.pd)
  {
    forall i, f | UsesTable(s0.mem, template, i, f) ensures !(s0.next <= f < s'.next) {
      assert !InRegion(s0, f);
    }
    SpaceKept(s0.mem, template, s.mem, s'.mem, l.pd, l.hi, s0.next, s'.next);
    FileKept(s0, template, s.mem, s'.mem, l, s'.next, mod);
    forall vp | 0x7_FFFC <= vp <= 0x8_0000 ensures Entry(s'.mem, l.pd, vp).access == Access(true, true, true) {
      assert Entry(s'.mem, l.pd, vp) == Entry(s.mem, l.pd, vp);
    }
    NothingElseKept(s0.mem, template, s.mem, s'.mem, l.pd, Headers(mod.img));
  }

  lemma NothingElseKept(tmem: Memory, template: nat, a: Memory, b: Memory, pd: nat, phs: seq<Phdr>)
    requires NothingElse(tmem, template, a, pd, phs) && SameView(a, pd, b, pd)
    ensures NothingElse(tmem, template, b, pd, phs)
  {}

  /** A new directory: the first region frame, zeroed and then filled with the template. */
  lemma NewDirectory(s0: State, s: State, template: nat, s1: State)
    requires Ready(s0, template) && SameOutside(s0.mem, s.mem, s0.next, s.next)
    requires s0.next <= s.next && Limit(s) == Limit(s0) && s.len >= 4096
    requires s.next < |s.mem| && 0 <= template < |s.mem|
    requires s1 == State(s.mem[s.next := s.mem[template]], s.next + 1, s.len - 4096, s.checked)
    ensures SameView(s0.mem, template, s1.mem, s.next) && SameOutside(s0.mem, s1.mem, s0.next, s1.next)
    ensures Ready(s1, s.next)
  {
    assert !InRegion(s0, template);
    forall i, f | UsesTable(s0.mem, template, i, f) ensures !(s0.next <= f < s1.next) {
      assert !InRegion(s0, f);
    }
    ViewOutside(s0.mem, s1.mem, template, s.next, s0.next, s1.next);
    forall i, f | UsesTable(s1.mem, s.next, i, f) ensures !InRegion(s1, f) {
      assert UsesTable(s0.mem, template, i, f);
    }
    forall f | InRegion(s1, f) ensures IsData(s1.mem, f) {
      assert InRegion(s0, f);
    }
  }

  predicate ProcOk(proc: Proc, pid: nat, l: Loaded, mod: BootModule) {
    && proc.id == pid && proc.pageDir == 4096 * l.pd && proc.priority == 0
    && proc.threadCount == 1
    && proc.context.eip == U32(mod.img, 24) && proc.context.esp == 0x8000_0000
    && proc.context.gp == GpRegs(0, 0, 0, 0, 0, 0, 0, 0) && proc.context.eflags == 0x202
    && proc.context.cs == 0x1B && proc.context.ss == proc.context.ds == 0x23
  }

  // ---- when the modules load ---------------------------------------------------------------

  /** The end of a load into a fresh copy of a directory, whose tables are those of the purse. */
  function ModuleForecast(p: Purse, img: seq<nat>): Verdict {
    if !p.Affords(1) then Short
    else if !Supported(img) then BadHeader
    else Forecast(p.Less(1), Headers(img), 0, 5)
  }

  datatype BootEnd = AllLoaded(len: nat) | Refused

  /** The end of the module loop, computed from the template's purse and the files. */
  function BootForecast(p: Purse, mods: seq<BootModule>, i: nat): BootEnd
    requires i <= |mods|
    decreases |mods| - i
  {
    if i == |mods| then AllLoaded(p.len) else
    match ModuleForecast(p, mods[i].img)
    case Fine(p') => BootForecast(p.(len := p'.len), mods, i + 1)
    case _ => Refused
  }

  /** The two tests an image must pass. */
  predicate Loadable(mod: BootModule) {
    && Supported(mod.img)
    && forall j | 0 <= j < |Headers(mod.img)| && Headers(mod.img)[j].ptype == 1 ::
         Headers(mod.img)[j].filesz <= Headers(mod.img)[j].memsz
  }

  /** Frames that suffice for one module: its directory and its image. */
  function ModuleBudget(mod: BootModule): nat { 1 + Budget(Headers(mod.img), 0) }

  function BootBudget(mods: seq<BootModule>, i: nat): nat
    requires i <= |mods|
    decreases |mods| - i
  {
    if i == |mods| then 0 else ModuleBudget(mods[i]) + BootBudget(mods, i + 1)
  }

  /** Compact loadable images boot whenever the region holds their budgets. */
  lemma {:induction false} BootBudgetSuffices(p: Purse, mods: seq<BootModule>, i: nat)
    requires i <= |mods| && p.len > 4096 * BootBudget(mods, i) && STACK_SLOT !in p.slots
    requires forall k | i <= k < |mods| :: Loadable(mods[k]) && Compact(Headers(mods[k].img))
    requires p.checked ==> forall k | i <= k < |mods| :: WholePages(Headers(mods[k].img))
    ensures BootForecast(p, mods, i).AllLoaded?
    decreases |mods| - i
  {
    if i < |mods| {
      var phs := Headers(mods[i].img);
      assert Loadable(mods[i]) && Compact(phs);
      BudgetPositive(phs, 0);
      BudgetSuffices(p.Less(1), phs, 0, 5);
      BootBudgetSuffices(p.(len := ModuleForecast(p, mods[i].img).purse.len), mods, i + 1);
    }
  }

  /** A fresh copy of the template has the template's slots, and no stack page yet. */
  lemma FreshPurse(s0: State, s1: State, template: nat, pd: nat, phs: seq<Phdr>)
    requires SameView(s0.mem, template, s1.mem, pd) && PrivateImage(s0, template, phs)
    ensures PurseOf(s1, pd) == Purse(s1.len, SlotsOf(s0.mem, template), s1.checked) && StackZeros(s1, pd) == 5
  {
    assert forall i: nat | i < 1024 :: Pde(s1.mem, pd, i) == Pde(s0.mem, template, i);
    assert SlotsOf(s1.mem, pd) == SlotsOf(s0.mem, template);
    forall vp | STACK_FIRST <= vp < STACK_FIRST + 5 ensures Entry(s1.mem, pd, vp) == NONE {
      assert StackRequest(template).Includes(vp) && !HasTable(s0.mem, template, vp);
      assert Entry(s1.mem, pd, vp) == Entry(s0.mem, template, vp);
    }
    AllZero(s1.mem, pd, STACK_FIRST, 5);
  }

  /** A page directory for a module, filled from the template and loaded. */
  method CreateDirectory(m: Machine, template: nat, ghost s0: State) returns (ok: bool, page: nat)
    requires m.regionAddr % 4096 == 0 && Ready(s0, template)
    requires SameOutside(s0.mem, m.mem, s0.next, m.S().next) && s0.next <= m.S().next && Limit(m.S()) == Limit(s0)
    modifies m
    ensures m.regionAddr % 4096 == 0 && (ok <==> Room(m.checked, old(m.S()).len, 1))
    ensures ok ==> page == 4096 * m.cr3 && m.cr3 == old(m.S()).next && Ready(m.S(), m.cr3)
    ensures ok ==> m.S().next == m.cr3 + 1 && m.S().len == old(m.S()).len - 4096 && Advances(old(m.S()), m.S())
    ensures ok ==> Limit(m.S()) == Limit(s0)
    ensures ok ==> SameView(s0.mem, template, m.mem, m.cr3) && SameOutside(s0.mem, m.mem, s0.next, m.S().next)
    ensures ok ==> SameOutside(old(m.mem), m.mem, old(m.S()).next, m.S().next)
  {
    ghost var s := m.S();
    assert Backed(s);
    if s.len >= 4096 { PlainFetch(s); } else { LastFetch(s); }
    var before := m.regionLen;
    ok, page := m.FetchPage();
    if !ok { return; }
    if m.regionLen > before { return false, page; }
    if page == 0 { return false, page; }
    var pd := page / 4096;
    assert !InRegion(s0, template) && IsTable(s0.mem, template);
    m.mem := m.mem[pd := m.mem[template]];
    m.cr3 := pd;
    NewDirectory(s0, s, template, m.S());
  }

  /** One module loaded between states `s` and `s'`, into the frames taken on the way. */
  ghost predicate LoadStep(s0: State, template: nat, s: State, s': State, l: Loaded, mod: BootModule) {
    && Advances(s, s') && SameOutside(s.mem, s'.mem, s.next, s'.next)
    && l.pd == s.next && l.hi == s'.next && ModuleDone(s0, template, s', l, mod)
  }

  lemma ForecastInside(p: Purse, img: seq<nat>)
    ensures !Room(p.checked, p.len, 1) ==> ModuleForecast(p, img) == Short
    ensures Room(p.checked, p.len, 1) ==>
              && p.len >= 4096
              && ModuleForecast(p, img) ==
                 if Supported(img) then Forecast(Purse(p.len - 4096, p.slots, p.checked), Headers(img), 0, 5)
                 else BadHeader
  {}

  /** Turn of the module loop for one module. */
  method LoadModule(m: Machine, template: nat, mod: BootModule, pid: nat, ghost s0: State)
    returns (ok: bool, proc: Proc, ghost l: Loaded)
    requires m.regionAddr % 4096 == 0 && Ready(s0, template) && ModuleOk(s0, template, mod)
    requires SameOutside(s0.mem, m.mem, s0.next, m.S().next) && s0.next <= m.S().next && Limit(m.S()) == Limit(s0)
    modifies m
    ensures m.regionAddr % 4096 == 0
    ensures ok ==> LoadStep(s0, template, old(m.S()), m.S(), l, mod) && m.cr3 == l.pd && ProcOk(proc, pid, l, mod)
    ensures var v := ModuleForecast(Purse(old(m.S()).len, SlotsOf(s0.mem, template), m.checked), mod.img);
            (ok <==> v.Fine?) && (ok ==> v.purse.len == m.S().len)
  {
    ghost var s := m.S();
    var empty := Context(0, ZERO_REGS, 0, 0, 0, 0, 0, 0);
    proc := Proc(pid, 0, 0, 1, empty);
    ForecastInside(Purse(s.len, SlotsOf(s0.mem, template), m.checked), mod.img);
    l := Loaded(s.next, s.next);
    var fetched, page := CreateDirectory(m, template, s0);
    if !fetched { return false, proc, l; }
    ghost var s1 := m.S();
    var entry, top;
    ok, entry, top := LoadProgram(m, template, mod, s0);
    if !ok { return; }
    l := Loaded(m.cr3, m.S().next);
    proc := MakeProc(pid, page, empty, entry, top, l, mod);
    StepMade(s0, template, s, s1, m.S(), l, mod);
  }

  /** The process of a module, and its one thread. */
  method MakeProc(pid: nat, page: nat, empty: Context, entry: nat, top: nat, ghost l: Loaded, ghost mod: BootModule)
    returns (proc: Proc)
    requires page == 4096 * l.pd && entry == U32(mod.img, 24) && top == STACK_ADDR
    requires empty == Context(0, ZERO_REGS, 0, 0, 0, 0, 0, 0)
    ensures ProcOk(proc, pid, l, mod)
  {
    proc := Proc(pid, page, 0, 1, CreateThread(empty, entry, top));
  }

  lemma StepMade(s0: State, template: nat, s: State, s1: State, s': State, l: Loaded, mod: BootModule)
    requires Advances(s, s1) && Advances(s1, s') && l.pd == s.next && l.hi == s'.next && s1.next == l.pd + 1
    requires SameOutside(s.mem, s1.mem, s.next, s1.next) && SameOutside(s1.mem, s'.mem, l.pd, s'.next)
    requires ModuleDone(s0, template, s', l, mod)
    ensures LoadStep(s0, template, s, s', l, mod)
  {}

  /** Context and image of a module, in the directory just made. */
  method LoadProgram(m: Machine, template: nat, mod: BootModule, ghost s0: State)
    returns (ok: bool, entry: nat, top: nat)
    requires m.regionAddr % 4096 == 0 && ModuleOk(s0, template, mod)
    requires SameView(s0.mem, template, m.mem, m.cr3) && SameOutside(s0.mem, m.mem, s0.next, m.S().next)
    requires Ready(m.S(), m.cr3) && m.S().next == m.cr3 + 1 && s0.next < m.S().next && Limit(m.S()) == Limit(s0)
    modifies m`mem, m`regionAddr, m`regionLen
    ensures m.regionAddr % 4096 == 0
    ensures ok ==> ModuleDone(s0, template, m.S(), Loaded(m.cr3, m.S().next), mod) && Advances(old(m.S()), m.S())
    ensures ok ==> SameOutside(old(m.mem), m.mem, m.cr3, m.S().next)
    ensures ok ==> entry == U32(mod.img, 24) && top == STACK_ADDR
    ensures var p := Purse(old(m.S()).len, SlotsOf(s0.mem, template), m.checked);
            var v := if Supported(mod.img) then Forecast(p, Headers(mod.img), 0, 5) else BadHeader;
            (ok <==> v.Fine?) && (ok ==> v.purse.len == m.S().len)
  {
    entry, top := 0, 0;
    var created := ElfCtxCreate(mod.img);
    if created.Rejected? { return false, entry, top; }
    var r;
    r, top := LoadInto(m, template, mod, created.ctx.phs, s0);
    ok, entry := r == ElfOk, created.ctx.entry;
  }

  /** The load of an image into the directory just made. */
  method LoadInto(m: Machine, template: nat, mod: BootModule, phs: seq<Phdr>, ghost s0: State)
    returns (r: LoadResult, top: nat)
    requires m.regionAddr % 4096 == 0 && ModuleOk(s0, template, mod) && phs == Headers(mod.img) && Supported(mod.img)
    requires SameView(s0.mem, template, m.mem, m.cr3) && SameOutside(s0.mem, m.mem, s0.next, m.S().next)
    requires Ready(m.S(), m.cr3) && m.S().next == m.cr3 + 1 && s0.next < m.S().next && Limit(m.S()) == Limit(s0)
    modifies m`mem, m`regionAddr, m`regionLen
    ensures m.regionAddr % 4096 == 0
    ensures r == ElfOk ==> ModuleDone(s0, template, m.S(), Loaded(m.cr3, m.S().next), mod) && top == STACK_ADDR
    ensures r == ElfOk ==> Advances(old(m.S()), m.S())
    ensures r == ElfOk ==> SameOutside(old(m.mem), m.mem, m.cr3, m.S().next)
    ensures var v := Forecast(Purse(old(m.S()).len, SlotsOf(s0.mem, template), m.checked), phs, 0, 5);
            (r == ElfOk <==> v.Fine?) && (r == ElfOk ==> v.purse.len == m.S().len)
  {
    ghost var s1 := m.S();
    ImageTransfer(s0, s1, template, m.cr3, mod.base, |mod.img|, phs);
    PrivateTransfer(s0, s1, template, m.cr3, phs);
    FreshPurse(s0, s1, template, m.cr3, phs);
    r, top := ElfCtxLoad(m, mod.base, |mod.img|, phs);
    if r != ElfOk { return; }
    GrownSpace(s0.mem, template, s1, m.S(), m.cr3);
    LoadedFile(s0, s1, m.S(), template, m.cr3, mod);
    StackIsMapped(s0, s1, m.S(), template, m.cr3, mod.base, phs);
    GrownOutside(s1, m.S(), m.cr3);
  }

  lemma StackIsMapped(s0: State, s1: State, s2: State, template: nat, pd: nat, base: nat, phs: seq<Phdr>)
    requires ImageLoaded(s1, s2, pd, base, phs) && SameView(s0.mem, template, s1.mem, pd)
    ensures StackMapped(s2.mem, pd) && NothingElse(s0.mem, template, s2.mem, pd, phs)
  {
    forall vp | 0 <= vp < VPAGES && !InSegments(phs, |phs|, vp) && !(0x7_FFFC <= vp <= 0x8_0000)
      ensures Entry(s2.mem, pd, vp) == Entry(s0.mem, template, vp)
    {
      assert !StackRequest(pd).Includes(vp);
    }
    forall vp | 0x7_FFFC <= vp <= 0x8_0000 ensures Entry(s2.mem, pd, vp).access == Access(true, true, true) {
      assert StackRequest(pd).Includes(vp);
    }
  }

  lemma GrownOutside(s: State, s': State, pd: nat)
    requires Grown(s, s', pd, true) && s.next == pd + 1
    ensures SameOutside(s.mem, s'.mem, pd, s'.next)
  {
    forall f | 0 <= f < |s.mem| && !(pd <= f < s'.next) ensures s'.mem[f] == s.mem[f] {
      assert Untouched(s, s', pd, true, f);
    }
  }

  // ---- the module loop ------------------------------------------------------------------------

  /** The states around the loads of the first `|ls|` modules. */
  ghost predicate BootRun(s0: State, template: nat, trace: seq<State>, ls: seq<Loaded>, mods: seq<BootModule>) {
    && |trace| == |ls| + 1 && |ls| <= |mods| && trace[0] == s0
    && (forall k | 0 <= k < |ls| :: LoadStep(s0, template, trace[k], trace[k + 1], ls[k], mods[k]))
  }

  lemma WithinLimit(s: State, s': State)
    requires Advances(s, s')
    ensures s'.next <= Limit(s)
  {}

  lemma {:induction false} RunOutside(s0: State, template: nat, trace: seq<State>, ls: seq<Loaded>,
                                      mods: seq<BootModule>,
                                      i: nat, j: nat)
    requires BootRun(s0, template, trace, ls, mods) && i <= j <= |ls|
    ensures Advances(trace[i], trace[j]) && SameOutside(trace[i].mem, trace[j].mem, trace[i].next, trace[j].next)
  {
    if i < j {
      RunOutside(s0, template, trace, ls, mods, i, j - 1);
      assert LoadStep(s0, template, trace[j - 1], trace[j], ls[j - 1], mods[j - 1]);
    }
  }

  lemma RunExtends(s0: State, template: nat, trace: seq<State>, ls: seq<Loaded>, mods: seq<BootModule>, s': State,
                   l: Loaded)
    requires BootRun(s0, template, trace, ls, mods) && |ls| < |mods|
    requires LoadStep(s0, template, trace[|ls|], s', l, mods[|ls|])
    ensures BootRun(s0, template, trace + [s'], ls + [l], mods)
  {
    var trace', ls' := trace + [s'], ls + [l];
    forall k | 0 <= k < |ls'| ensures LoadStep(s0, template, trace'[k], trace'[k + 1], ls'[k], mods[k]) {
      if k < |ls| { assert LoadStep(s0, template, trace[k], trace[k + 1], ls[k], mods[k]); }
    }
  }

  /** What module `i` finds when it is loaded, and later loads write none of its frames. */
  lemma AfterLoad(s0: State, template: nat, trace: seq<State>, ls: seq<Loaded>, mods: seq<BootModule>, i: nat, j: nat)
    requires BootRun(s0, template, trace, ls, mods) && i < j <= |ls|
    ensures ModuleDone(s0, template, trace[i + 1], ls[i], mods[i]) && trace[i + 1].next == ls[i].hi
    ensures SameOutside(trace[i + 1].mem, trace[j].mem, trace[i + 1].next, trace[j].next)
    ensures trace[i + 1].next <= trace[j].next <= Limit(s0)
  {
    assert LoadStep(s0, template, trace[i], trace[i + 1], ls[i], mods[i]);
    RunOutside(s0, template, trace, ls, mods, i + 1, j);
    RunOutside(s0, template, trace, ls, mods, 0, j);
    WithinLimit(s0, trace[j]);
  }

  /** Loading later modules leaves a finished one as it was right after its own load. */
  lemma ModuleStays(s0: State, template: nat, trace: seq<State>, ls: seq<Loaded>, mods: seq<BootModule>, i: nat, j: nat)
    requires BootRun(s0, template, trace, ls, mods) && i < j <= |ls| && Ready(s0, template)
    requires ModuleOk(s0, template, mods[i])
    ensures ModuleDone(s0, template, trace[j], ls[i], mods[i])
    ensures SameView(trace[i + 1].mem, ls[i].pd, trace[j].mem, ls[i].pd)
  {
    AfterLoad(s0, template, trace, ls, mods, i, j);
    ModuleKept(s0, template, trace[i + 1], trace[j], ls[i], mods[i]);
  }

  /** And at the end of the loop. */
  lemma AllStay(s0: State, template: nat, trace: seq<State>, ls: seq<Loaded>, mods: seq<BootModule>, i: nat)
    requires BootRun(s0, template, trace, ls, mods) && i < |ls| && Ready(s0, template)
    requires ModuleOk(s0, template, mods[i])
    ensures ModuleDone(s0, template, trace[|ls|], ls[i], mods[i])
    ensures s0.next <= ls[i].pd < ls[i].hi <= trace[|ls|].next
  {
    ModuleStays(s0, template, trace, ls, mods, i, |ls|);
  }

  /** No page of a module is translated differently after any number of later loads. */
  lemma TranslationsKept(s0: State, template: nat, trace: seq<State>, ls: seq<Loaded>, mods: seq<BootModule>,
                         i: nat, j: nat, vp: int)
    requires BootRun(s0, template, trace, ls, mods) && i < j <= |ls| && Ready(s0, template)
    requires ModuleOk(s0, template, mods[i]) && 0 <= vp < VPAGES
    ensures Walk(trace[j].mem, ls[i].pd, vp) == Walk(trace[i + 1].mem, ls[i].pd, vp)
  {
    ModuleStays(s0, template, trace, ls, mods, i, j);
    assert Pde(trace[j].mem, ls[i].pd, vp / 1024) == Pde(trace[i + 1].mem, ls[i].pd, vp / 1024);
  }

  /** Nor does any byte of its own pages change: code, data and stack. */
  lemma PrivateBytesKept(s0: State, template: nat, trace: seq<State>, ls: seq<Loaded>, mods: seq<BootModule>,
                         i: nat, j: nat, va: nat)
    requires BootRun(s0, template, trace, ls, mods) && i < j <= |ls| && Ready(s0, template)
    requires ModuleOk(s0, template, mods[i]) && va < ADDRESS_LIMIT && !HasTable(s0.mem, template, va / 4096)
    ensures VByte(trace[j].mem, ls[i].pd, va) == VByte(trace[i + 1].mem, ls[i].pd, va)
  {
    AfterLoad(s0, template, trace, ls, mods, i, j);
    ByteStays(s0, template, trace[i + 1], trace[j], ls[i], mods[i], va);
  }

  lemma ByteStays(s0: State, template: nat, s: State, s': State, l: Loaded, mod: BootModule, va: nat)
    requires Ready(s0, template) && ModuleOk(s0, template, mod) && ModuleDone(s0, template, s, l, mod)
    requires s.next == l.hi <= s'.next <= Limit(s0) && SameOutside(s.mem, s'.mem, s.next, s'.next)
    requires va < ADDRESS_LIMIT && !HasTable(s0.mem, template, va / 4096)
    ensures VByte(s'.mem, l.pd, va) == VByte(s.mem, l.pd, va)
  {
    ModuleKept(s0, template, s, s', l, mod);
    PrivateByteKept(s0, template, s.mem, s'.mem, l, s'.next, va);
  }

  /** Modules take ascending, disjoint runs of frames. */
  lemma RunsAscend(s0: State, template: nat, trace: seq<State>, ls: seq<Loaded>, mods: seq<BootModule>, i: nat, j: nat)
    requires BootRun(s0, template, trace, ls, mods) && i < j < |ls|
    ensures s0.next <= ls[i].pd < ls[i].hi <= ls[j].pd < ls[j].hi <= trace[|ls|].next
  {
    assert LoadStep(s0, template, trace[i], trace[i + 1], ls[i], mods[i]);
    assert LoadStep(s0, template, trace[j], trace[j + 1], ls[j], mods[j]);
    RunOutside(s0, template, trace, ls, mods, i + 1, j);
    RunOutside(s0, template, trace, ls, mods, j + 1, |ls|);
  }

  predicate ProcsOk(procs: seq<Proc>, ls: seq<Loaded>, mods: seq<BootModule>) {
    |procs| == |ls| <= |mods| && forall k | 0 <= k < |ls| :: ProcOk(procs[k], k + 1, ls[k], mods[k])
  }

  /** `load_boot_modules`; `trace` holds the states around the loads.  A loop that would go on with
      frames from behind the region counts as panicked. */
  method LoadBootModules(m: Machine, template: nat, mods: seq<BootModule>)
    returns (r: BootResult, procs: seq<Proc>, ghost ls: seq<Loaded>, ghost trace: seq<State>)
    requires m.regionAddr % 4096 == 0 && Ready(m.S(), template) && |mods| < 8
    requires forall i | 0 <= i < |mods| :: ModuleOk(m.S(), template, mods[i])
    modifies m
    ensures m.regionAddr % 4096 == 0
    ensures r == Booted ==> |ls| == |mods| && BootRun(old(m.S()), template, trace, ls, mods) && trace[|mods|] == m.S()
    ensures r == Booted ==> ProcsOk(procs, ls, mods)
    ensures var e := BootForecast(old(PurseOf(m.S(), template)), mods, 0);
            (r == Booted <==> e.AllLoaded?) && (r == Booted ==> e.len == m.S().len)
  {
    ghost var s0 := m.S();
    ghost var purse := PurseOf(s0, template);
    procs, ls, trace := [], [], [s0];
    var i := 0;
    while i < |mods|
      invariant i <= |mods| && |procs| == |ls| == i && m.regionAddr % 4096 == 0
      invariant BootRun(s0, template, trace, ls, mods) && trace[i] == m.S() && ProcsOk(procs, ls, mods)
      invariant BootForecast(purse.(len := m.S().len), mods, i) == BootForecast(purse, mods, 0)
    {
      RunOutside(s0, template, trace, ls, mods, 0, i);
      var ok, proc;
      ghost var l;
      ok, proc, l := LoadModule(m, template, mods[i], i + 1, s0);
      if !ok { return Panicked, procs, ls, trace; }
      RunExtends(s0, template, trace, ls, mods, m.S(), l);
      procs, ls, trace, i := procs + [proc], ls + [l], trace + [m.S()], i + 1;
    }
    r := Booted;
  }

  // ---- isolation ------------------------------------------------------------------------------

  /** Frames that belong to one address space alone: its directory, its own tables and pages. */
  ghost predicate OwnFrame(tmem: Memory, template: nat, mem: Memory, pd: nat, f: int) {
    || f == pd
    || (exists i :: Pde(tmem, template, i) == NONE && UsesTable(mem, pd, i, f))
    || (exists vp :: OwnPage(tmem, template, mem, pd, vp, f))
  }

  lemma OwnFrameRange(tmem: Memory, template: nat, mem: Memory, pd: nat, hi: nat, f: int)
    requires Space(tmem, template, mem, pd, hi) && pd < hi && OwnFrame(tmem, template, mem, pd, f)
    ensures pd <= f < hi
  {
    if i :| Pde(tmem, template, i) == NONE && UsesTable(mem, pd, i, f) {
      assert PrivateSlot(tmem, template, mem, pd, hi, i);
    } else if vp :| OwnPage(tmem, template, mem, pd, vp, f) {
      assert PrivatePage(tmem, template, mem, pd, hi, vp);
    }
  }

  /** Address-space isolation: two loaded modules own no frame in common. */
  lemma Isolation(s0: State, template: nat, s: State, a: Loaded, ma: BootModule, b: Loaded, mb: BootModule, f: int)
    requires ModuleDone(s0, template, s, a, ma) && ModuleDone(s0, template, s, b, mb) && a.hi <= b.pd
    ensures !(OwnFrame(s0.mem, template, s.mem, a.pd, f) && OwnFrame(s0.mem, template, s.mem, b.pd, f))
  {
    if OwnFrame(s0.mem, template, s.mem, a.pd, f) { OwnFrameRange(s0.mem, template, s.mem, a.pd, a.hi, f); }
    if OwnFrame(s0.mem, template, s.mem, b.pd, f) { OwnFrameRange(s0.mem, template, s.mem, b.pd, b.hi, f); }
  }

  /** All other pages are translated as by the template. */
  lemma OthersTranslated(s0: State, template: nat, s: State, l: Loaded, mod: BootModule, vp: int)
    requires ModuleDone(s0, template, s, l, mod) && Directory(s0.mem, template) && 0 <= vp < VPAGES
    requires !InSegments(Headers(mod.img), |Headers(mod.img)|, vp) && !(0x7_FFFC <= vp <= 0x8_0000)
    ensures Walk(s.mem, l.pd, vp) == Walk(s0.mem, template, vp)
  {
    assert PrivateSlot(s0.mem, template, s.mem, l.pd, l.hi, vp / 1024);
    assert SlotOk(s0.mem, template, vp / 1024);
  }

  /** The stack is the program's to read and write. */
  lemma StackTranslated(s0: State, template: nat, s: State, l: Loaded, mod: BootModule, vp: int)
    requires ModuleOk(s0, template, mod) && ModuleDone(s0, template, s, l, mod) && 0x7_FFFC <= vp <= 0x8_0000
    ensures Walk(s.mem, l.pd, vp) == Mapped(Entry(s.mem, l.pd, vp).frame, true, true)
  {
    assert StackRequest(template).Includes(vp);
    assert PrivateSlot(s0.mem, template, s.mem, l.pd, l.hi, vp / 1024);
  }

  /** The processor sees a loaded segment with exactly the rights of its header, in user mode. */
  lemma SegmentTranslated(s0: State, template: nat, s: State, l: Loaded, mod: BootModule, j: nat, vp: int)
    requires ModuleOk(s0, template, mod) && ModuleDone(s0, template, s, l, mod)
    requires j < |Headers(mod.img)| && Headers(mod.img)[j].Loads() && Headers(mod.img)[j].HasPage(vp)
    ensures var a := SegmentRights(Headers(mod.img)[j].flags);
            Walk(s.mem, l.pd, vp) ==
              if a.present then Mapped(Entry(s.mem, l.pd, vp).frame, a.writable, a.user) else NotPresent
  {
    var ph := Headers(mod.img)[j];
    assert SegmentOk(s0, template, mod.base, |mod.img|, ph);
    assert !HasTable(s0.mem, template, vp) && 0 <= vp < VPAGES;
    assert PrivateSlot(s0.mem, template, s.mem, l.pd, l.hi, vp / 1024);
    assert Entry(s.mem, l.pd, vp).access == SegmentRights(ph.flags);
  }
}
