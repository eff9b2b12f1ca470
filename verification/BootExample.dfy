/**
 A boot that comes up, so that what is proved of finished boots is proved of something: 48 MiB of
 memory, a kernel that ends at 0x11_C000, and one program right behind it, with an endless loop at
 0x40_0000 and a page of data behind it.  It comes up in a build with assertions and in one without.
 */
module BootExample {
  import opened Paging
  import opened Accounting
  import opened ElfFormat
  import opened ElfLoad
  import opened UserMemory
  import opened InitMap
  import opened Packing
  import opened EarlyBoot
  import opened Boot
  import opened Bootstrap
  import KernelMap
  import BootModules

  const MEMORY: nat := 0x300_0000
  const KERNEL_END: nat := 0x11_C000
  const STATICS := Statics(0x105, 0x106, 0x108, 0x104, 0x109)
  const LAYOUT := KernelMap.Layout(0xF_E904, 0xF_E90A, 0xF_E90C, 0xF_E90E, 0xF_E90F, 0xF_E910, 0xF_E91B)

  /** The header of an executable for the i386, entered at 0x40_0000, with two program headers from 52 on. */
  function HeaderByte(k: nat): nat {
    if k == 0 then 0x7F else if k == 1 then 0x45 else if k == 2 then 0x4C else if k == 3 then 0x46
    else if k == 4 || k == 5 || k == 6 then 1 else if k == 16 then 2 else if k == 18 then 3
    else if k == 26 then 0x40 else if k == 28 then 52 else if k == 44 then 2 else 0
  }

  /** The header of the code: two bytes at 116. */
  function CodeHeaderByte(k: nat): nat {
    if k == 52 then 1 else if k == 56 then 116 else if k == 62 then 0x40 else if k == 68 then 2
    else if k == 73 then 0x10 else if k == 76 then 5 else if k == 81 then 0x10 else 0
  }

  /** The header of the data, a page at 4096 that fills its page of memory. */
  function DataHeaderByte(k: nat): nat {
    if k == 84 then 1 else if k == 89 then 0x10 else if k == 93 then 0x10 else if k == 94 then 0x40
    else if k == 101 then 0x10 else if k == 105 then 0x10 else if k == 108 then 6 else if k == 113 then 0x10 else 0
  }

  /** Code, and the first and last byte of data. */
  function ContentByte(k: nat): nat {
    if k == 116 then 0xEB else if k == 117 then 0xFE else if k == 4096 then 0x2A else if k == 8191 then 0x2B else 0
  }

  function ElfByte(k: nat): nat {
    if k < 52 then HeaderByte(k) else if k < 84 then CodeHeaderByte(k) else if k < 116 then DataHeaderByte(k)
    else ContentByte(k)
  }

  function CodePhdr(): Phdr { Phdr(1, 116, 0x40_0000, 2, 4096, 5, 4096) }
  function DataPhdr(): Phdr { Phdr(1, 4096, 0x40_1000, 4096, 4096, 6, 4096) }
  function ThePhdrs(): seq<Phdr> { [CodePhdr(), DataPhdr()] }

  function MemoryByte(f: nat): nat {
    if KERNEL_END <= f < KERNEL_END + 8192 then ElfByte(f - KERNEL_END) else 0
  }

  function Memory(): (m: seq<nat>)
    ensures |m| == MEMORY
    ensures forall k | 0 <= k < 8192 :: m[KERNEL_END + k] == ElfByte(k)
  {
    seq(MEMORY, f requires 0 <= f => MemoryByte(f))
  }

  function TheRegion(): Region { Region(0x10_0000, MEMORY - 0x10_0000, 1) }

  function TheModule(): Tag { ModuleTag(KERNEL_END, KERNEL_END + 8192, "") }

  function Tags(): seq<Tag> { [MmapTag([TheRegion()]), MeminfoTag(1), TheModule()] }

  lemma TagsSay()
    ensures UsableIn(Tags(), 3) == [TheRegion()] && LastUpper(Tags(), 3) == 1 && Chosen(Tags(), 3) == [TheModule()]
    ensures ModuleTags(Tags(), 3) == [TheModule()] && Taken(Tags(), 3) == 8192
  {
    var tags := Tags();
    assert Entries(tags, 1) == [TheRegion()] && Entries(tags, 3) == Entries(tags, 1);
    assert UsableOf([TheRegion()], 1) == UsableOf([TheRegion()], 0) + [TheRegion()];
    assert ModuleTags(tags, 2) == [] && ModuleTags(tags, 3) == [TheModule()];
    assert TagTotal([TheModule()], 1) == RoundUp(8192);
  }

  // ---- the file --------------------------------------------------------------------------------

  predicate IsFile(file: seq<nat>) { |file| == 8192 && forall k | 0 <= k < 8192 :: file[k] == ElfByte(k) }

  /** The file is supported and has its program headers at 52. */
  lemma HeaderSays(file: seq<nat>)
    requires IsFile(file)
    ensures Supported(file) && U32(file, 28) == 52 && U16(file, 44) == 2
  {
    assert ByteAt(file, 44) == 2 && ByteAt(file, 45) == 0 && ByteAt(file, 16) == 2 && ByteAt(file, 17) == 0;
    assert ByteAt(file, 18) == 3 && ByteAt(file, 19) == 0;
    assert U16(file, 28) == 52 && U16(file, 30) == 0;
  }

  /** A word of the program headers. */
  lemma WordSays(file: seq<nat>, o: nat)
    requires IsFile(file) && 52 <= o <= 112
    ensures U32(file, o) == ElfByte(o) + 0x100 * ElfByte(o + 1) + 0x1_0000 * ElfByte(o + 2)
                            + 0x100_0000 * ElfByte(o + 3)
  {
    assert ByteAt(file, o) == ElfByte(o) && ByteAt(file, o + 1) == ElfByte(o + 1);
    assert ByteAt(file, o + 2) == ElfByte(o + 2) && ByteAt(file, o + 3) == ElfByte(o + 3);
  }

  lemma CodeSays(file: seq<nat>)
    requires IsFile(file) && U32(file, 28) == 52
    ensures PhdrAt(file, 0) == CodePhdr()
  {
    WordSays(file, 52);
    WordSays(file, 56);
    WordSays(file, 60);
    WordSays(file, 68);
    WordSays(file, 72);
    WordSays(file, 76);
    WordSays(file, 80);
  }

  lemma DataSays(file: seq<nat>)
    requires IsFile(file) && U32(file, 28) == 52
    ensures PhdrAt(file, 1) == DataPhdr()
  {
    WordSays(file, 84);
    WordSays(file, 88);
    WordSays(file, 92);
    WordSays(file, 100);
    WordSays(file, 104);
    WordSays(file, 108);
    WordSays(file, 112);
  }

  lemma FileSays(file: seq<nat>)
    requires IsFile(file)
    ensures Supported(file) && HoldsHeaders(file) && BootModules.Headers(file) == ThePhdrs()
  {
    HeaderSays(file);
    CodeSays(file);
    DataSays(file);
  }

  lemma TheFile()
    ensures IsFile(TagFile(Memory(), TheModule()))
  {
    var m, file := Memory(), TagFile(Memory(), TheModule());
    forall k | 0 <= k < 8192 ensures file[k] == ElfByte(k) { assert file[k] == m[KERNEL_END + k]; }
  }

  lemma FileIsUser(file: seq<nat>)
    requires IsFile(file)
    ensures UserFile(file, 4)
  {
    FileSays(file);
    assert UserSegment(CodePhdr(), 8192, 4) && UserSegment(DataPhdr(), 8192, 4) && Apart(CodePhdr(), DataPhdr());
  }

  // ---- the demands -----------------------------------------------------------------------------

  lemma StaticsOk()
    ensures LAYOUT.Ok() && LAYOUT.Snug() && LAYOUT.KernelEnd() == KERNEL_END && STATICS.Ok(LAYOUT)
  {
    var all := STATICS.All();
    assert all == {0x104, 0x105, 0x106, 0x108, 0x109};
    assert |{0x104, 0x105, 0x106, 0x108, 0x109}| == 5;
  }

  lemma FitIf(tags: seq<Tag>, size: nat)
    requires |tags| == 3 && !tags[0].ModuleTag? && !tags[1].ModuleTag? && tags[2] == TheModule()
    requires Taken(tags, 3) == 8192 && KERNEL_END + 8192 <= size
    ensures TagsFit(tags, KERNEL_END, size)
  {}

  lemma SourceIsFine(ms: seq<Tag>)
    requires ms == [TheModule()]
    ensures SourcesOk(ms, KERNEL_END)
  {}

  lemma FilesAreUsers(ms: seq<Tag>)
    requires ms == [TheModule()]
    ensures UserTags(Memory(), ms, 4)
  {
    TheFile();
    forall i | 0 <= i < |ms| ensures UserFile(TagFile(Memory(), ms[i]), 4) { FileIsUser(TagFile(Memory(), ms[i])); }
  }

  lemma InputIsOk()
    ensures InputOk(Memory(), Tags(), KERNEL_END, STATICS, LAYOUT)
  {
    var tags := Tags();
    assert Says(tags) by { TagsSay(); }
    StaticsOk();
    DemandsOf(Memory(), tags);
  }

  lemma CanBoot()
    ensures Complete(Tags())
  {
    CompleteIff(Tags());
    TagsSay();
  }

  predicate Says(tags: seq<Tag>) {
    && |tags| == 3 && !tags[0].ModuleTag? && !tags[1].ModuleTag? && tags[2] == TheModule()
    && UsableIn(tags, 3) == [TheRegion()] && Chosen(tags, 3) == [TheModule()] && Taken(tags, 3) == 8192
  }

  lemma DemandsOf(orig: seq<nat>, tags: seq<Tag>)
    requires orig == Memory() && Says(tags)
    requires LAYOUT.Ok() && LAYOUT.Snug() && LAYOUT.KernelEnd() == KERNEL_END && STATICS.Ok(LAYOUT)
    ensures InputOk(orig, tags, KERNEL_END, STATICS, LAYOUT)
  {
    FitIf(tags, MEMORY);
    SourceIsFine(Chosen(tags, 3));
    FilesAreUsers(Chosen(tags, 3));
    assert RegionSlot(tags, KERNEL_END) == 4;
  }

  // ---- the boot --------------------------------------------------------------------------------

  /** Memory after packing: the module stays where it is. */
  function Packed1(): Module { Module(KERNEL_END, KERNEL_END + 8192, "", KERNEL_END, 8192) }

  function TheInfo(): Info { Info([TheRegion()], 1, [Packed1()], KERNEL_END + 8192, 8192) }

  function Bytes(): seq<nat> { Moved(Memory(), KERNEL_END, 8192, KERNEL_END) }

  function ThePlan(): Plan { Plan(KERNEL_END, STATICS, LAYOUT, Bytes(), [Packed1()], KERNEL_END + 8192) }

  lemma TagsLeadThere()
    ensures Walked(Memory(), Bytes(), TheInfo(), Tags(), 3, KERNEL_END)
  {
    TagsSay();
    var ms := [Packed1()];
    assert ModuleName("") == "" && FromTag(Packed1(), TheModule());
    assert InPlace(ms, KERNEL_END, 0);
    assert TotalSize(ms, 1) == RoundUp(8192);
    assert MovedAll(Memory(), ms, 1) == Moved(MovedAll(Memory(), ms, 0), KERNEL_END, 8192, KERNEL_END);
    assert Keep([TheRegion()]) == [TheRegion()];
  }

  /** The plan of this boot. */
  lemma ThePlanIs()
    ensures ThePlan().Ok() && Programs(Memory(), ThePlan())
  {
    InputIsOk();
    TagsLeadThere();
    PackedPlan(Memory(), Bytes(), TheInfo(), Tags(), KERNEL_END, ThePlan());
  }

  /** This boot comes up, in either build. */
  lemma TheBootComesUp(checked: bool)
    ensures InputOk(Memory(), Tags(), KERNEL_END, STATICS, LAYOUT) && Complete(Tags())
    ensures Walked(Memory(), Bytes(), TheInfo(), Tags(), 3, KERNEL_END)
    ensures ThePlan().Ok() && ComesUp(ThePlan(), LengthBehind(Tags(), KERNEL_END), checked)
  {
    InputIsOk();
    CanBoot();
    TagsLeadThere();
    ThePlanIs();
    LengthIs();
    PlanFits(ThePlan());
    LoadsOn(ThePlan(), LengthBehind(Tags(), KERNEL_END), checked);
  }

  lemma PlanFits(p: Plan)
    requires p == ThePlan() && p.Ok() && Programs(Memory(), p)
    ensures p.Slot() == 4 && p.Aside().Holds() && OneFile(p.Files())
  {
    RegionFits(p);
    FileLoads(p);
  }

  lemma LengthIs()
    ensures LengthBehind(Tags(), KERNEL_END) == MEMORY - KERNEL_END - 8192
  {
    TagsSay();
  }

  lemma RegionFits(p: Plan)
    requires p == ThePlan() && p.Ok()
    ensures p.Slot() == 4 && p.Aside().Holds()
  {
    var rs := RangesOf(p.modules);
    assert p.Free() == 4387;
    assert Shares(rs, 1) == Shares(rs, 0) + Share(rs[0]) && Share(rs[0]) == 11 * 4096;
    assert Reserved(4096 * 4387, rs).Offset() == 291;
  }

  /** The one file to load is that program. */
  predicate OneFile(files: seq<BootModules.BootModule>) {
    |files| == 1 && Supported(files[0].img) && BootModules.Headers(files[0].img) == ThePhdrs()
  }

  lemma FileLoads(p: Plan)
    requires p == ThePlan() && p.Ok() && Programs(Memory(), p)
    ensures OneFile(p.Files())
  {
    var img, file := p.Files()[0].img, ProgramFile(Memory(), Packed1());
    TheFile();
    assert file == TagFile(Memory(), TheModule());
    FileSays(file);
    ProgramExtends(Memory(), p, 0);
    CreateFromPrefix(img, file);
  }

  lemma LoadsOn(p: Plan, len: nat, checked: bool)
    requires p.Ok() && p.Slot() == 4 && len > 4096 * (KernelMap.KERNEL_FRAMES + 12)
    requires p.Aside().Holds()
    requires OneFile(p.Files())
    ensures ComesUp(p, len, checked)
  {
    OneLoads(WithSlot(KernelPurse(len, checked), p.Slot()), p.Files());
  }

  /** The one file needs a directory, two pages, a table for each of them, and the stack. */
  lemma {:induction false} OneLoads(purse: Purse, files: seq<BootModules.BootModule>)
    requires OneFile(files)
    requires purse.len > 4096 * 12 && STACK_SLOT !in purse.slots
    ensures BootModules.BootForecast(purse, files, 0).AllLoaded?
  {
    OneBudget(files);
    FileIsPlain(files);
    BootModules.BootBudgetSuffices(purse, files, 0);
  }

  lemma {:induction false} FileIsPlain(files: seq<BootModules.BootModule>)
    requires OneFile(files)
    ensures forall k | 0 <= k < |files| ::
              BootModules.Loadable(files[k]) && Compact(BootModules.Headers(files[k].img))
    ensures forall k | 0 <= k < |files| :: WholePages(BootModules.Headers(files[k].img))
  {
    forall k | 0 <= k < |files|
      ensures BootModules.Loadable(files[k]) && Compact(BootModules.Headers(files[k].img))
      ensures WholePages(BootModules.Headers(files[k].img))
    {
      OneIsPlain(files[k]);
    }
  }

  lemma OneIsPlain(mod: BootModules.BootModule)
    requires Supported(mod.img) && BootModules.Headers(mod.img) == ThePhdrs()
    ensures BootModules.Loadable(mod) && Compact(ThePhdrs()) && WholePages(ThePhdrs())
  {
    PhdrIsPlain(ThePhdrs());
  }

  lemma PhdrIsPlain(phs: seq<Phdr>)
    requires phs == ThePhdrs()
    ensures Compact(phs) && WholePages(phs) && Budget(phs, 0) == 11
    ensures forall j | 0 <= j < |phs| :: phs[j].filesz <= phs[j].memsz
  {
    assert PageCount(4096) == 1;
    assert Budget(phs, 2) == 7;
    assert Budget(phs, 1) == 9;
  }

  lemma {:induction false} OneBudget(files: seq<BootModules.BootModule>)
    requires |files| == 1 && BootModules.Headers(files[0].img) == ThePhdrs()
    ensures BootModules.BootBudget(files, 0) == 12
  {
    PhdrIsPlain(ThePhdrs());
    assert BootModules.BootBudget(files, 1) == 0;
  }

  /** And then the program sees its own code, which it can run but not change, and its data. */
  lemma TheProgramSeesItself(log: Log)
    requires Up(Memory(), ThePlan(), log)
    ensures var mem, pd := log.Final().mem, log.ls[0].pd;
            && VByte(mem, pd, 0x40_0000) == 0xEB && VByte(mem, pd, 0x40_0001) == 0xFE
            && VByte(mem, pd, 0x40_1000) == 0x2A && VByte(mem, pd, 0x40_1FFF) == 0x2B
            && Walk(mem, pd, 0x400) == Mapped(Entry(mem, pd, 0x400).frame, false, true)
            && Walk(mem, pd, 0x401) == Mapped(Entry(mem, pd, 0x401).frame, true, true)
            && Walk(mem, pd, 0x11E) == NotPresent && Walk(mem, pd, 0x402) == NotPresent
  {
    var file, mem, pd := ProgramFile(Memory(), Packed1()), log.Final().mem, log.ls[0].pd;
    ProgramsLoaded(Memory(), ThePlan(), log, 0);
    TheFile();
    assert file == TagFile(Memory(), TheModule());
    SeesItself(mem, pd, file);
    RegionFits(ThePlan());
    TemplateBehind(ThePlan(), log);
    NothingBehind(mem, pd, log.tmpl.mem, ThePlan().st.bootPd, file);
  }

  lemma SeesItself(mem: Memory, pd: nat, file: seq<nat>)
    requires IsFile(file) && FileSeen(mem, pd, file)
    ensures VByte(mem, pd, 0x40_0000) == 0xEB && VByte(mem, pd, 0x40_0001) == 0xFE
    ensures VByte(mem, pd, 0x40_1000) == 0x2A && VByte(mem, pd, 0x40_1FFF) == 0x2B
    ensures Walk(mem, pd, 0x400) == Mapped(Entry(mem, pd, 0x400).frame, false, true)
    ensures Walk(mem, pd, 0x401) == Mapped(Entry(mem, pd, 0x401).frame, true, true)
  {
    FileSays(file);
    var code, data := PhdrAt(file, 0), PhdrAt(file, 1);
    assert code == CodePhdr() && data == DataPhdr();
    assert ByteSeen(mem, pd, file, code, 0) && ByteSeen(mem, pd, file, code, 1);
    assert ByteSeen(mem, pd, file, data, 0) && ByteSeen(mem, pd, file, data, 4095);
    assert AddressSeen(mem, pd, 5, 0x40_0000) && AddressSeen(mem, pd, 6, 0x40_1000);
  }

  /** Behind the module and behind the data there is nothing, as in the template. */
  lemma NothingBehind(mem: Memory, pd: nat, tmem: Memory, template: nat, file: seq<nat>)
    requires IsFile(file) && OthersSeen(mem, pd, tmem, template, file)
    requires Walk(tmem, template, 0x11E) == NotPresent && Walk(tmem, template, 0x402) == NotPresent
    ensures Walk(mem, pd, 0x11E) == NotPresent && Walk(mem, pd, 0x402) == NotPresent
  {
    TwoPages(file);
  }

  lemma TwoPages(file: seq<nat>)
    requires IsFile(file)
    ensures forall vp :: InFile(file, vp) ==> vp == 0x400 || vp == 0x401
  {
    FileSays(file);
    forall vp | InFile(file, vp) ensures vp == 0x400 || vp == 0x401 {
      assert PageOfHeader(CodePhdr(), vp) || PageOfHeader(DataPhdr(), vp);
    }
  }

  lemma TemplateBehind(p: Plan, log: Log)
    requires p.Ok() && TemplateUp(p, log) && p.Slot() == 4 && p.kernelEnd == KERNEL_END && p.last == 0x11_E000
    ensures var mem, pd := log.tmpl.mem, p.st.bootPd;
            Walk(mem, pd, 0x11E) == NotPresent && Walk(mem, pd, 0x402) == NotPresent
  {
    WindowIsSeen(p, log, 0x11E);
    TemplateSlot(p, log, 1);
  }
}
