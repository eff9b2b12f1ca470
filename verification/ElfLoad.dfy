/**
 `elf_ctx_load` on top of `bootstrap_elf_mmap`: every loadable segment is mapped writable,
 filled by a byte copy through the page tables, and mapped again with its own rights.
 */
module ElfLoad {
  import opened Paging
  import opened Mmap
  import opened AddressSpace
  import opened Accounting
  import opened UserMemory

  const PT_LOAD: nat := 1
  const PF_W: nat := 2
  const PF_R: nat := 4
  const STACK_ADDR: nat := 0x8000_0000
  const STACK_SIZE: nat := 0x4000

  /** A program header (System V gABI, chapter 5, "Program Header"). */
  datatype Phdr = Phdr(ptype: nat, offset: nat, vaddr: nat, filesz: nat, memsz: nat, flags: nat, align: nat) {
    predicate Loads() { ptype == PT_LOAD && filesz != 0 }
    predicate BadSize() { ptype == PT_LOAD && filesz > memsz }
    predicate HasPage(vp: int) { vaddr / 4096 <= vp < vaddr / 4096 + PageCount(memsz) }
  }

  datatype LoadResult = ElfOk | InvalidPh | Halted(cause: Outcome)

  /** `bootstrap_elf_mmap` turns ELF flags into mapping flags and always adds the user bit. */
  function InternalFlags(pflags: nat): (flags: nat)
    ensures Rights(flags) == SegmentRights(pflags)
  {
    PROT_EXEC * (pflags % 2) + PROT_READ * (pflags / 4 % 2) + PROT_WRITE * (pflags / 2 % 2) + PROT_USER
  }

  /** Rights of a segment: readable or writable pages are present, and then open to the user. */
  function SegmentRights(pflags: nat): Access {
    var r, w := pflags / 4 % 2 == 1, pflags / 2 % 2 == 1;
    Access(r || w, w, r || w)
  }

  function OrWrite(pflags: nat): (f: nat)
    ensures f / 2 % 2 == 1 && f % 2 == pflags % 2 && f / 4 % 2 == pflags / 4 % 2
  {
    if pflags / 2 % 2 == 1 then pflags else pflags + PF_W
  }

  function ElfRequest(pd: nat, vaddr: nat, size: nat, pflags: nat): Request {
    Request(pd, false, 0, vaddr, size, InternalFlags(pflags))
  }

  function SegRequest(pd: nat, ph: Phdr, pflags: nat): Request { ElfRequest(pd, ph.vaddr, ph.memsz, pflags) }

  function StackRequest(pd: nat): Request { ElfRequest(pd, STACK_ADDR - STACK_SIZE, STACK_SIZE + 4096, PF_W + PF_R) }

  // ---- what must hold of an image ----------------------------------------------------------

  /** The file byte at `va` is mapped, outside the free region. */
  predicate ImageByte(s: State, pd: nat, va: int) {
    va >= 0 && ReadableAt(s.mem, pd, va) && !InRegion(s, Entry(s.mem, pd, va / 4096).frame)
  }

  /** One loadable header: page-aligned, inside the file, over pages not mapped yet and clear
      of the pages through which the file is read. */
  ghost predicate SegmentOk(s: State, pd: nat, base: nat, size: nat, ph: Phdr) {
    && ph.vaddr % 4096 == 0 && ph.vaddr + ph.memsz <= ADDRESS_LIMIT && ph.vaddr < ADDRESS_LIMIT
    && ph.offset + ph.filesz <= size
    && (forall vp | ph.HasPage(vp) :: Entry(s.mem, pd, vp) == NONE)
    && (forall va | InRange(base, size, va) :: !ph.HasPage(va / 4096))
  }

  predicate Apart(p: Phdr, q: Phdr) {
    p.vaddr / 4096 + PageCount(p.memsz) <= q.vaddr / 4096 || q.vaddr / 4096 + PageCount(q.memsz) <= p.vaddr / 4096
  }

  /** Segments are page-disjoint, clear of the stack, and every header has a nonzero alignment. */
  ghost predicate ImageOk(s: State, pd: nat, base: nat, size: nat, phs: seq<Phdr>) {
    && (forall va | InRange(base, size, va) :: ImageByte(s, pd, va))
    && (forall i | 0 <= i < |phs| && phs[i].ptype == PT_LOAD :: phs[i].align >= 1)
    && (forall i | 0 <= i < |phs| && phs[i].Loads() ::
          SegmentOk(s, pd, base, size, phs[i]) && (forall vp | phs[i].HasPage(vp) :: !StackRequest(pd).Includes(vp)))
    && (forall i, j | 0 <= i < j < |phs| && phs[i].Loads() && phs[j].Loads() :: Apart(phs[i], phs[j]))
  }

  // ---- one segment ----------------------------------------------------------------------------

  /** Every file byte of the segment is at its virtual address in `mem'`. */
  ghost predicate FileCopied(mem: Memory, mem': Memory, pd: nat, base: nat, ph: Phdr) {
    forall k | 0 <= k < ph.filesz :: FileByte(mem, mem', pd, base, ph, k)
  }

  predicate FileByte(mem: Memory, mem': Memory, pd: nat, base: nat, ph: Phdr, k: nat) {
    VByte(mem', pd, ph.vaddr + k) == VByte(mem, pd, base + ph.offset + k)
  }

  /** The segment is in place: its rights, and every file byte at its virtual address. */
  ghost predicate SegmentLoaded(s0: State, s: State, pd: nat, base: nat, ph: Phdr) {
    && (forall vp | ph.HasPage(vp) :: Entry(s.mem, pd, vp) != NONE
         && Entry(s.mem, pd, vp).access == SegmentRights(ph.flags))
    && FileCopied(s0.mem, s.mem, pd, base, ph)
  }

  /** Page `vp` is mapped as before and, if its frame is settled, reads as before. */
  predicate PageKept(s: State, s': State, pd: nat, vp: int) {
    var e := Entry(s.mem, pd, vp);
    && Entry(s'.mem, pd, vp) == e
    && (IsData(s.mem, e.frame) && !InRegion(s, e.frame) ==>
          IsData(s'.mem, e.frame) && s'.mem[e.frame] == s.mem[e.frame])
  }

  /** Effect of loading one segment. */
  ghost predicate SegmentStep(s: State, s': State, pd: nat, base: nat, ph: Phdr) {
    && |s'.mem| == |s.mem| && s.next <= s'.next
    && SegmentLoaded(s, s', pd, base, ph)
    && (forall vp | 0 <= vp < VPAGES && !ph.HasPage(vp) :: PageKept(s, s', pd, vp))
    && (forall i | Pde(s.mem, pd, i) != NONE :: Pde(s'.mem, pd, i) == Pde(s.mem, pd, i))
  }

  /** After the writable mapping the copy of the segment is possible. */
  lemma CopyReady(s: State, a: State, pd: nat, base: nat, size: nat, ph: Phdr)
    requires Ready(s, pd) && SegmentOk(s, pd, base, size, ph) && ph.Loads() && ph.filesz <= ph.memsz
    requires forall va | InRange(base, size, va) :: ImageByte(s, pd, va)
    requires Mmapped(s, a, SegRequest(pd, ph, OrWrite(ph.flags))) && Ready(a, pd)
    ensures CopyOk(a.mem, pd, ph.vaddr, base + ph.offset, ph.filesz, s.next, a.next)
  {
    var q := SegRequest(pd, ph, OrWrite(ph.flags));
    forall va | InRange(ph.vaddr, ph.filesz, va) ensures Target(a.mem, pd, s.next, a.next, va) {
      SegmentPage(s, a, pd, base, size, ph, va / 4096);
    }
    forall va | InRange(base + ph.offset, ph.filesz, va) ensures Source(a.mem, pd, s.next, a.next, va) {
      SourcePage(s, a, pd, base, size, ph, va);
    }
    forall va, wa | InRange(ph.vaddr, ph.filesz, va) && InRange(ph.vaddr, ph.filesz, wa) && SameFrame(a.mem, pd, va, wa)
      ensures va / 4096 == wa / 4096
    {
      SegmentPagesDistinct(s, a, pd, base, size, ph, va / 4096, wa / 4096);
    }
  }

  lemma SegmentPage(s: State, a: State, pd: nat, base: nat, size: nat, ph: Phdr, vp: int)
    requires Ready(s, pd) && SegmentOk(s, pd, base, size, ph)
    requires Mmapped(s, a, SegRequest(pd, ph, OrWrite(ph.flags))) && Ready(a, pd)
    requires ph.HasPage(vp)
    ensures 0 <= vp < VPAGES
    ensures var e := Entry(a.mem, pd, vp);
            && s.next <= e.frame < a.next && IsData(a.mem, e.frame)
            && Walk(a.mem, pd, vp).Mapped? && Walk(a.mem, pd, vp).writable
  {
    var q := SegRequest(pd, ph, OrWrite(ph.flags));
    assert q.Includes(vp) && q.Ok();
    assert Entry(s.mem, pd, vp) == NONE;
    assert PageAfter(s, a, q, vp);
    FreshFrame(s, q, vp);
    assert InRegion(s, Entry(a.mem, pd, vp).frame);
    DataKept(s, a, q, Entry(a.mem, pd, vp).frame);
    WalkAfter(s, a, q, vp);
  }

  lemma SegmentPagesDistinct(s: State, a: State, pd: nat, base: nat, size: nat, ph: Phdr, vp: int, wp: int)
    requires SegmentOk(s, pd, base, size, ph)
    requires Mmapped(s, a, SegRequest(pd, ph, OrWrite(ph.flags)))
    requires ph.HasPage(vp) && ph.HasPage(wp) && Entry(a.mem, pd, vp).frame == Entry(a.mem, pd, wp).frame
    ensures vp == wp
  {
    var q := SegRequest(pd, ph, OrWrite(ph.flags));
    assert Entry(s.mem, pd, vp) == NONE && Entry(s.mem, pd, wp) == NONE;
    assert PageAfter(s, a, q, vp);
    assert PageAfter(s, a, q, wp);
    if vp < wp { FreshFramesDistinct(s, q, vp, wp); }
    if wp < vp { FreshFramesDistinct(s, q, wp, vp); }
  }

  lemma SourcePage(s: State, a: State, pd: nat, base: nat, size: nat, ph: Phdr, va: int)
    requires Ready(s, pd) && SegmentOk(s, pd, base, size, ph)
    requires InRange(base, size, va) && ImageByte(s, pd, va)
    requires Mmapped(s, a, SegRequest(pd, ph, OrWrite(ph.flags))) && Ready(a, pd)
    ensures Source(a.mem, pd, s.next, a.next, va)
    ensures VByte(a.mem, pd, va) == VByte(s.mem, pd, va)
  {
    var q, vp := SegRequest(pd, ph, OrWrite(ph.flags)), va / 4096;
    assert !ph.HasPage(vp) && !q.Includes(vp);
    assert PageAfter(s, a, q, vp);
    WalkAfter(s, a, q, vp);
    DataKept(s, a, q, Entry(s.mem, pd, vp).frame);
  }

  /** A copy inside the frames just allocated keeps the machine ready and the growth growth. */
  lemma CopyKeeps(s0: State, a: State, b: State, pd: nat, lo: nat, private: bool)
    requires Ready(a, pd) && Grown(s0, a, pd, private) && s0.next <= lo
    requires PagesKept(a.mem, b.mem, pd, lo, a.next) && b == a.(mem := b.mem)
    ensures Ready(b, pd) && Grown(s0, b, pd, private)
  {
    forall i, f | UsesTable(b.mem, pd, i, f) ensures !InRegion(b, f) { assert UsesTable(a.mem, pd, i, f); }
    forall f | InRegion(b, f) ensures IsData(b.mem, f) { assert InRegion(a, f) && IsData(a.mem, f); }
    forall i ensures SlotGrown(s0, b, pd, i) { assert SlotGrown(s0, a, pd, i); }
    forall vp | 0 <= vp < VPAGES ensures PageGrown(s0, b, pd, vp) { assert PageGrown(s0, a, pd, vp); }
    forall vp, wp, f | NewPage(s0, b, pd, vp, f) && NewPage(s0, b, pd, wp, f) ensures vp == wp {
      assert NewPage(s0, a, pd, vp, f) && NewPage(s0, a, pd, wp, f);
    }
    forall f | Untouched(s0, b, pd, private, f) ensures b.mem[f] == s0.mem[f] {
      assert Untouched(s0, a, pd, private, f);
    }
  }

  /** The states of one segment: before, mapped writable, copied, mapped with its rights. */
  ghost predicate SegmentRun(s: State, a: State, b: State, s': State, pd: nat, base: nat, size: nat, ph: Phdr) {
    && Ready(s, pd) && SegmentOk(s, pd, base, size, ph) && ph.Loads() && ph.filesz <= ph.memsz
    && (forall va | InRange(base, size, va) :: ImageByte(s, pd, va))
    && Mmapped(s, a, SegRequest(pd, ph, OrWrite(ph.flags))) && Ready(a, pd)
    && PagesKept(a.mem, b.mem, pd, s.next, a.next) && b == a.(mem := b.mem) && Ready(b, pd)
    && Mmapped(b, s', SegRequest(pd, ph, ph.flags)) && Ready(s', pd)
  }

  /** The second mapping of a segment consumes no frame and changes no frame: rights only. */
  lemma SecondMapping(s: State, a: State, b: State, s': State, pd: nat, base: nat, size: nat, ph: Phdr)
    requires SegmentRun(s, a, b, s', pd, base, size, ph)
    ensures Need(b, SegRequest(pd, ph, ph.flags)) == 0 && NewTables(b, SegRequest(pd, ph, ph.flags)) == 0
    ensures s'.next == a.next
    ensures forall vp | ph.HasPage(vp) ::
              Entry(s'.mem, pd, vp) == Pte(Entry(a.mem, pd, vp).frame, SegmentRights(ph.flags))
  {
    var q, q' := SegRequest(pd, ph, OrWrite(ph.flags)), SegRequest(pd, ph, ph.flags);
    forall vp | ph.HasPage(vp) ensures Entry(b.mem, pd, vp) == Entry(a.mem, pd, vp) != NONE {
      SegmentPage(s, a, pd, base, size, ph, vp);
    }
    RemapNeedsNothing(s, a, b, q, q');
    forall vp | ph.HasPage(vp)
      ensures Entry(s'.mem, pd, vp) == Pte(Entry(a.mem, pd, vp).frame, SegmentRights(ph.flags))
    {
      assert q'.Includes(vp);
      assert PageAfter(b, s', q', vp);
    }
  }

  lemma PageOfByte(ph: Phdr, k: nat)
    requires ph.vaddr % 4096 == 0 && k < ph.memsz && ph.vaddr + ph.memsz <= ADDRESS_LIMIT
    ensures ph.HasPage((ph.vaddr + k) / 4096)
  {}

  /** The second mapping leaves the bytes just copied where they are. */
  lemma TargetKept(s: State, a: State, b: State, s': State, pd: nat, base: nat, size: nat, ph: Phdr, k: nat)
    requires SegmentRun(s, a, b, s', pd, base, size, ph) && k < ph.filesz
    ensures VByte(s'.mem, pd, ph.vaddr + k) == VByte(b.mem, pd, ph.vaddr + k)
  {
    PageOfByte(ph, k);
    var vp := (ph.vaddr + k) / 4096;
    SegmentPage(s, a, pd, base, size, ph, vp);
    SecondMapping(s, a, b, s', pd, base, size, ph);
    var f := Entry(a.mem, pd, vp).frame;
    assert IsData(b.mem, f) && Entry(b.mem, pd, vp).frame == f == Entry(s'.mem, pd, vp).frame;
    DataKept(b, s', SegRequest(pd, ph, ph.flags), f);
  }

  lemma SegmentByte(s: State, a: State, b: State, s': State, pd: nat, base: nat, size: nat, ph: Phdr, k: nat)
    requires FileCopied(a.mem, b.mem, pd, base, ph)
    requires SegmentRun(s, a, b, s', pd, base, size, ph) && k < ph.filesz
    ensures FileByte(s.mem, s'.mem, pd, base, ph, k)
  {
    SourceKept(s, a, pd, base, size, ph, k);
    TargetKept(s, a, b, s', pd, base, size, ph, k);
    ByteChain(s.mem, a.mem, b.mem, s'.mem, pd, base, ph, k);
  }

  lemma ByteChain(m0: Memory, m1: Memory, m2: Memory, m3: Memory, pd: nat, base: nat, ph: Phdr, k: nat)
    requires FileCopied(m1, m2, pd, base, ph) && k < ph.filesz
    requires VByte(m1, pd, base + ph.offset + k) == VByte(m0, pd, base + ph.offset + k)
    requires VByte(m3, pd, ph.vaddr + k) == VByte(m2, pd, ph.vaddr + k)
    ensures FileByte(m0, m3, pd, base, ph, k)
  {
    assert FileByte(m1, m2, pd, base, ph, k);
  }

  lemma SourceKept(s: State, a: State, pd: nat, base: nat, size: nat, ph: Phdr, k: nat)
    requires Ready(s, pd) && SegmentOk(s, pd, base, size, ph) && k < ph.filesz
    requires forall va | InRange(base, size, va) :: ImageByte(s, pd, va)
    requires Mmapped(s, a, SegRequest(pd, ph, OrWrite(ph.flags))) && Ready(a, pd)
    ensures VByte(a.mem, pd, base + ph.offset + k) == VByte(s.mem, pd, base + ph.offset + k)
  {
    var wa := base + ph.offset + k;
    assert InRange(base, size, wa) && ImageByte(s, pd, wa);
    SourcePage(s, a, pd, base, size, ph, wa);
  }

  lemma SegmentInPlace(s: State, a: State, b: State, s': State, pd: nat, base: nat, size: nat, ph: Phdr)
    requires FileCopied(a.mem, b.mem, pd, base, ph)
    requires SegmentRun(s, a, b, s', pd, base, size, ph)
    ensures SegmentLoaded(s, s', pd, base, ph)
  {
    forall vp | ph.HasPage(vp)
      ensures Entry(s'.mem, pd, vp) != NONE && Entry(s'.mem, pd, vp).access == SegmentRights(ph.flags)
    {
      SecondMapping(s, a, b, s', pd, base, size, ph);
      SegmentPage(s, a, pd, base, size, ph, vp);
    }
    forall k | 0 <= k < ph.filesz ensures FileByte(s.mem, s'.mem, pd, base, ph, k) {
      SegmentByte(s, a, b, s', pd, base, size, ph, k);
    }
  }

  lemma SlotKept(s: State, a: State, b: State, s': State, pd: nat, base: nat, size: nat, ph: Phdr, i: int)
    requires SegmentRun(s, a, b, s', pd, base, size, ph) && Pde(s.mem, pd, i) != NONE
    ensures Pde(s'.mem, pd, i) == Pde(s.mem, pd, i)
  {
    assert Pde(a.mem, pd, i) == PdeAfter(s, SegRequest(pd, ph, OrWrite(ph.flags)), i);
    assert Pde(s'.mem, pd, i) == PdeAfter(b, SegRequest(pd, ph, ph.flags), i);
  }

  lemma OtherPage(s: State, a: State, b: State, s': State, pd: nat, base: nat, size: nat, ph: Phdr, vp: int)
    requires SegmentRun(s, a, b, s', pd, base, size, ph) && 0 <= vp < VPAGES && !ph.HasPage(vp)
    ensures PageKept(s, s', pd, vp)
  {
    var q, q' := SegRequest(pd, ph, OrWrite(ph.flags)), SegRequest(pd, ph, ph.flags);
    assert !q.Includes(vp) && !q'.Includes(vp);
    assert PageAfter(s, a, q, vp);
    assert PageAfter(b, s', q', vp);
    var f := Entry(s.mem, pd, vp).frame;
    SecondMapping(s, a, b, s', pd, base, size, ph);
    if IsData(s.mem, f) && !InRegion(s, f) {
      DataKept(s, a, q, f);
      DataKept(b, s', q', f);
    }
  }

  /** Mapping, copying and mapping again puts the segment in place and keeps all other pages. */
  lemma SegmentStepHolds(s: State, a: State, b: State, s': State, pd: nat, base: nat, size: nat, ph: Phdr)
    requires FileCopied(a.mem, b.mem, pd, base, ph)
    requires SegmentRun(s, a, b, s', pd, base, size, ph)
    ensures SegmentStep(s, s', pd, base, ph)
  {
    SegmentInPlace(s, a, b, s', pd, base, size, ph);
    forall vp | 0 <= vp < VPAGES && !ph.HasPage(vp) ensures PageKept(s, s', pd, vp) {
      OtherPage(s, a, b, s', pd, base, size, ph, vp);
    }
    forall i | Pde(s.mem, pd, i) != NONE ensures Pde(s'.mem, pd, i) == Pde(s.mem, pd, i) {
      SlotKept(s, a, b, s', pd, base, size, ph, i);
    }
  }

  lemma CopiedFile(mem: Memory, mem': Memory, pd: nat, base: nat, ph: Phdr)
    requires Copied(mem, mem', pd, ph.vaddr, base + ph.offset, ph.filesz)
    ensures FileCopied(mem, mem', pd, base, ph)
  {
    forall k | 0 <= k < ph.filesz ensures FileByte(mem, mem', pd, base, ph, k) {
      CopiedAt(mem, mem', pd, ph.vaddr, base + ph.offset, ph.filesz, k);
    }
  }

  /** What a call consumes, whether it completes and which slots it fills do not depend on the rights. */
  lemma FlagsImmaterial(s: State, pd: nat, ph: Phdr, f: nat)
    ensures var q, q' := SegRequest(pd, ph, ph.flags), SegRequest(pd, ph, f);
            && (Admissible(s, q) <==> Admissible(s, q')) && Need(s, q) == Need(s, q')
            && (forall i :: PdeAfter(s, q, i) == PdeAfter(s, q', i))
  {}

  /** First two steps for a header with file contents: map writable, then copy. */
  method FillSegment(m: Machine, base: nat, ghost size: nat, ph: Phdr, ghost s0: State, ghost private: bool)
    returns (r: Outcome, ghost a: State)
    requires m.regionAddr % 4096 == 0
    requires Ready(m.S(), m.cr3) && SegmentOk(m.S(), m.cr3, base, size, ph) && ph.Loads() && ph.filesz <= ph.memsz
    requires forall va | InRange(base, size, va) :: ImageByte(m.S(), m.cr3, va)
    requires Grown(s0, m.S(), m.cr3, private) && UserRequest(s0, SegRequest(m.cr3, ph, OrWrite(ph.flags)), private)
    modifies m`mem, m`regionAddr, m`regionLen
    ensures m.regionAddr % 4096 == 0
    ensures r == Done <==> Admissible(old(m.S()), SegRequest(m.cr3, ph, ph.flags))
    ensures r == Done ==> Mmapped(old(m.S()), a, SegRequest(m.cr3, ph, OrWrite(ph.flags))) && Ready(a, m.cr3)
    ensures r == Done ==> PagesKept(a.mem, m.mem, m.cr3, old(m.S()).next, a.next) && m.S() == a.(mem := m.mem)
    ensures r == Done ==> FileCopied(a.mem, m.mem, m.cr3, base, ph)
    ensures r == Done ==> Ready(m.S(), m.cr3) && Grown(s0, m.S(), m.cr3, private)
  {
    ghost var s := m.S();
    assert Admissible(s, SegRequest(m.cr3, ph, ph.flags)) <==>
           Admissible(s, SegRequest(m.cr3, ph, OrWrite(ph.flags))) by {
      FlagsImmaterial(s, m.cr3, ph, OrWrite(ph.flags));
    }
    r := m.Mmap(SegRequest(m.cr3, ph, OrWrite(ph.flags)));
    a := m.S();
    if r != Done { return; }
    MmapGrows(s0, s, a, SegRequest(m.cr3, ph, OrWrite(ph.flags)), private);
    CopyReady(s, a, m.cr3, base, size, ph);
    CopySegment(m, base, ph, s.next);
    CopyKeeps(s0, a, m.S(), m.cr3, s.next, private);
  }

  lemma CopyIsMapped(mem: Memory, pd: nat, dst: nat, src: nat, n: nat, lo: nat, hi: nat)
    requires CopyOk(mem, pd, dst, src, n, lo, hi)
    ensures CopyMapped(mem, pd, dst, src, n)
  {
    forall va | InRange(dst, n, va) ensures va >= 0 && WritableAt(mem, pd, va) { assert Target(mem, pd, lo, hi, va); }
    forall va | InRange(src, n, va) ensures va >= 0 && ReadableAt(mem, pd, va) { assert Source(mem, pd, lo, hi, va); }
  }

  /** The copy of the file contents into the frames from `lo` on. */
  method CopySegment(m: Machine, base: nat, ph: Phdr, ghost lo: nat)
    requires Directory(m.mem, m.cr3) && CopyOk(m.mem, m.cr3, ph.vaddr, base + ph.offset, ph.filesz, lo, m.S().next)
    modifies m`mem
    ensures FileCopied(old(m.mem), m.mem, m.cr3, base, ph)
    ensures PagesKept(old(m.mem), m.mem, m.cr3, lo, m.S().next)
  {
    CopyIsMapped(m.mem, m.cr3, ph.vaddr, base + ph.offset, ph.filesz, lo, m.S().next);
    Memcpy(m, ph.vaddr, base + ph.offset, ph.filesz);
    CopiedFile(old(m.mem), m.mem, m.cr3, base, ph);
  }

  lemma SameRange(s0: State, pd: nat, ph: Phdr, f: nat, g: nat, private: bool)
    requires UserRequest(s0, SegRequest(pd, ph, f), private)
    ensures UserRequest(s0, SegRequest(pd, ph, g), private)
  {
    forall vp | SegRequest(pd, ph, g).Includes(vp) && private ensures !HasTable(s0.mem, pd, vp) {
      assert SegRequest(pd, ph, f).Includes(vp);
    }
  }

  /** The second mapping of a segment always completes. */
  lemma SecondCompletes(s: State, a: State, b: State, pd: nat, base: nat, size: nat, ph: Phdr)
    requires Ready(s, pd) && SegmentOk(s, pd, base, size, ph) && ph.Loads() && ph.filesz <= ph.memsz
    requires Admissible(s, SegRequest(pd, ph, ph.flags))
    requires Mmapped(s, a, SegRequest(pd, ph, OrWrite(ph.flags))) && Ready(a, pd)
    requires PagesKept(a.mem, b.mem, pd, s.next, a.next) && b.checked == a.checked
    ensures Admissible(b, SegRequest(pd, ph, ph.flags))
  {
    forall vp | ph.HasPage(vp) ensures Entry(b.mem, pd, vp) != NONE { SegmentPage(s, a, pd, base, size, ph, vp); }
    FlagsImmaterial(s, pd, ph, OrWrite(ph.flags));
    RemapAdmissible(s, a, b, SegRequest(pd, ph, OrWrite(ph.flags)), SegRequest(pd, ph, ph.flags));
  }

  /** Loading one segment costs what its first mapping costs. */
  lemma SegmentPays(s: State, a: State, b: State, s': State, pd: nat, base: nat, size: nat, ph: Phdr)
    requires SegmentRun(s, a, b, s', pd, base, size, ph) && Admissible(s, SegRequest(pd, ph, ph.flags))
    ensures Pay(PurseOf(s, pd), ph.vaddr / 4096, ph.memsz, PageCount(ph.memsz)) == Left(PurseOf(s', pd))
  {
    var q := SegRequest(pd, ph, OrWrite(ph.flags));
    FlagsImmaterial(s, pd, ph, OrWrite(ph.flags));
    SegmentIsNew(s, pd, base, size, ph, OrWrite(ph.flags));
    PaysFor(s, a, q);
    SecondCostsNothing(s, a, b, s', pd, base, size, ph);
  }

  lemma SecondCostsNothing(s: State, a: State, b: State, s': State, pd: nat, base: nat, size: nat, ph: Phdr)
    requires SegmentRun(s, a, b, s', pd, base, size, ph)
    ensures PurseOf(s', pd) == PurseOf(a, pd)
  {
    SecondMapping(s, a, b, s', pd, base, size, ph);
    forall i: nat | i < 1024 ensures i in SlotsOf(s'.mem, pd) <==> i in SlotsOf(a.mem, pd) {
      SlotAfterSecond(s, a, b, s', pd, ph, i);
    }
    assert SlotsOf(s'.mem, pd) == SlotsOf(a.mem, pd);
  }

  /** Every page of a segment needs a frame. */
  lemma SegmentIsNew(s: State, pd: nat, base: nat, size: nat, ph: Phdr, flags: nat)
    requires SegmentOk(s, pd, base, size, ph)
    ensures NewPages(s, SegRequest(pd, ph, flags)) == PageCount(ph.memsz)
  {
    var first, n := ph.vaddr / 4096, PageCount(ph.memsz);
    forall k | first <= k < first + n ensures Entry(s.mem, pd, k) == NONE { assert ph.HasPage(k); }
    AllZero(s.mem, pd, first, n);
  }

  lemma SlotAfterSecond(s: State, a: State, b: State, s': State, pd: nat, ph: Phdr, i: int)
    requires Mmapped(s, a, SegRequest(pd, ph, OrWrite(ph.flags))) && PagesKept(a.mem, b.mem, pd, s.next, a.next)
    requires Mmapped(b, s', SegRequest(pd, ph, ph.flags)) && NewTables(b, SegRequest(pd, ph, ph.flags)) == 0
    ensures Pde(s'.mem, pd, i) == Pde(a.mem, pd, i)
  {
    var q := SegRequest(pd, ph, ph.flags);
    assert Pde(s'.mem, pd, i) == PdeAfter(b, q, i) && Pde(b.mem, pd, i) == Pde(a.mem, pd, i);
    var d, c := q.First() / 1024, Slots(b, q);
    if d <= i < d + c { NoneAbsent(b.mem, pd, d, c, i); }
  }

  lemma {:induction false} NoneAbsent(mem: Memory, pd: nat, d: nat, c: nat, i: int)
    requires AbsentSlots(mem, pd, d, c) == 0 && d <= i < d + c
    ensures Pde(mem, pd, i) != NONE
  {
    if i < d + c - 1 { NoneAbsent(mem, pd, d, c - 1, i); }
  }

  /** The three steps of the loop body for a header with file contents. */
  method LoadSegment(m: Machine, base: nat, ghost size: nat, ph: Phdr, ghost s0: State, ghost private: bool)
    returns (r: Outcome)
    requires m.regionAddr % 4096 == 0
    requires Ready(m.S(), m.cr3) && SegmentOk(m.S(), m.cr3, base, size, ph) && ph.Loads() && ph.filesz <= ph.memsz
    requires forall va | InRange(base, size, va) :: ImageByte(m.S(), m.cr3, va)
    requires Grown(s0, m.S(), m.cr3, private) && UserRequest(s0, SegRequest(m.cr3, ph, ph.flags), private)
    modifies m`mem, m`regionAddr, m`regionLen
    ensures m.regionAddr % 4096 == 0
    ensures r == Done <==> Admissible(old(m.S()), SegRequest(m.cr3, ph, ph.flags))
    ensures r == Done ==> SegmentStep(old(m.S()), m.S(), m.cr3, base, ph)
    ensures r == Done ==>
              var p, p' := PurseOf(old(m.S()), m.cr3), PurseOf(m.S(), m.cr3);
              Pay(p, ph.vaddr / 4096, ph.memsz, PageCount(ph.memsz)) == Left(p')
    ensures r == Done ==> Ready(m.S(), m.cr3) && Grown(s0, m.S(), m.cr3, private)
  {
    ghost var a;
    SameRange(s0, m.cr3, ph, ph.flags, OrWrite(ph.flags), private);
    r, a := FillSegment(m, base, size, ph, s0, private);
    if r != Done { return; }
    ghost var b := m.S();
    SecondCompletes(old(m.S()), a, b, m.cr3, base, size, ph);
    r := m.Mmap(SegRequest(m.cr3, ph, ph.flags));
    SegmentPays(old(m.S()), a, b, m.S(), m.cr3, base, size, ph);
    MmapGrows(s0, b, m.S(), SegRequest(m.cr3, ph, ph.flags), private);
    SegmentStepHolds(old(m.S()), a, b, m.S(), m.cr3, base, size, ph);
  }

  // ---- the whole image ---------------------------------------------------------------------

  predicate ImageByteKept(s0: State, s: State, pd: nat, va: int) {
    ImageByte(s, pd, va) && VByte(s.mem, pd, va) == VByte(s0.mem, pd, va)
  }

  ghost predicate InSegments(phs: seq<Phdr>, n: nat, vp: int)
    requires n <= |phs|
  {
    exists j | 0 <= j < n :: phs[j].Loads() && phs[j].HasPage(vp)
  }

  /** Pages outside the first `n` segments and, at the end, the stack are as they were. */
  ghost predicate OthersSame(s0: State, s: State, pd: nat, phs: seq<Phdr>, n: nat, done: bool)
    requires n <= |phs|
  {
    forall vp | 0 <= vp < VPAGES && !InSegments(phs, n, vp) && !(done && StackRequest(pd).Includes(vp)) ::
      Entry(s.mem, pd, vp) == Entry(s0.mem, pd, vp)
  }

  lemma OthersSameStep(s0: State, s: State, s': State, pd: nat, base: nat, phs: seq<Phdr>, i: nat)
    requires i < |phs| && phs[i].Loads() && OthersSame(s0, s, pd, phs, i, false)
    requires SegmentStep(s, s', pd, base, phs[i])
    ensures OthersSame(s0, s', pd, phs, i + 1, false)
  {
    forall vp | 0 <= vp < VPAGES && !InSegments(phs, i + 1, vp)
      ensures Entry(s'.mem, pd, vp) == Entry(s0.mem, pd, vp)
    {
      assert !InSegments(phs, i, vp) && !phs[i].HasPage(vp);
      assert PageKept(s, s', pd, vp);
    }
  }

  lemma OthersSameEnd(s0: State, s: State, s': State, pd: nat, phs: seq<Phdr>)
    requires OthersSame(s0, s, pd, phs, |phs|, false) && Mmapped(s, s', StackRequest(pd))
    ensures OthersSame(s0, s', pd, phs, |phs|, true)
  {
    forall vp | 0 <= vp < VPAGES && !InSegments(phs, |phs|, vp) && !StackRequest(pd).Includes(vp)
      ensures Entry(s'.mem, pd, vp) == Entry(s0.mem, pd, vp)
    {
      assert PageAfter(s, s', StackRequest(pd), vp);
    }
  }

  /** After `i` headers: the file is still there, the segments so far are loaded, the
      remaining ones still have room, and all other pages are as they were. */
  ghost predicate Progress(s0: State, s: State, pd: nat, base: nat, size: nat, phs: seq<Phdr>, i: nat) {
    && i <= |phs| && OthersSame(s0, s, pd, phs, i, false)
    && (forall va | InRange(base, size, va) :: ImageByteKept(s0, s, pd, va))
    && (forall j | 0 <= j < i <= |phs| && phs[j].Loads() :: SegmentLoaded(s0, s, pd, base, phs[j]))
    && (forall j | i <= j < |phs| && phs[j].Loads() :: SegmentOk(s, pd, base, size, phs[j]))
  }

  lemma ImageSurvives(s0: State, s: State, s': State, pd: nat, base: nat, size: nat, ph: Phdr, va: int)
    requires SegmentStep(s, s', pd, base, ph) && SegmentOk(s, pd, base, size, ph)
    requires InRange(base, size, va) && ImageByteKept(s0, s, pd, va)
    requires s.next <= s'.next && Limit(s') == Limit(s)
    ensures ImageByteKept(s0, s', pd, va)
  {
    assert !ph.HasPage(va / 4096) && PageKept(s, s', pd, va / 4096);
  }

  lemma SettledPage(s0: State, s: State, pd: nat, private: bool, vp: int)
    requires Grown(s0, s, pd, private) && 0 <= vp < VPAGES
    requires Entry(s0.mem, pd, vp) == NONE && Entry(s.mem, pd, vp) != NONE
    ensures IsData(s.mem, Entry(s.mem, pd, vp).frame) && !InRegion(s, Entry(s.mem, pd, vp).frame)
  {
    assert PageGrown(s0, s, pd, vp);
  }

  /** A segment already loaded survives anything that keeps its pages. */
  lemma SegmentSurvives(s0: State, s: State, s': State, pd: nat, base: nat, size: nat, ph: Phdr, private: bool)
    requires SegmentLoaded(s0, s, pd, base, ph) && SegmentOk(s0, pd, base, size, ph) && ph.filesz <= ph.memsz
    requires Grown(s0, s, pd, private) && |s'.mem| == |s.mem|
    requires forall vp | ph.HasPage(vp) :: PageKept(s, s', pd, vp)
    ensures SegmentLoaded(s0, s', pd, base, ph)
  {
    forall vp | ph.HasPage(vp)
      ensures Entry(s'.mem, pd, vp) != NONE && Entry(s'.mem, pd, vp).access == SegmentRights(ph.flags)
    {
      assert PageKept(s, s', pd, vp);
    }
    forall k | 0 <= k < ph.filesz ensures FileByte(s0.mem, s'.mem, pd, base, ph, k) {
      assert FileByte(s0.mem, s.mem, pd, base, ph, k);
      PageOfByte(ph, k);
      var vp := (ph.vaddr + k) / 4096;
      assert PageKept(s, s', pd, vp);
      SettledPage(s0, s, pd, private, vp);
    }
  }

  /** Loading one more segment is progress. */
  lemma ProgressStep(s0: State, s: State, s': State, pd: nat, base: nat, size: nat, phs: seq<Phdr>, i: nat,
                     private: bool)
    requires ImageOk(s0, pd, base, size, phs) && i < |phs| && phs[i].Loads()
    requires Progress(s0, s, pd, base, size, phs, i) && SegmentStep(s, s', pd, base, phs[i])
    requires Grown(s0, s, pd, private) && Grown(s0, s', pd, private) && s.next <= s'.next
    requires forall j | 0 <= j < i && phs[j].Loads() :: phs[j].filesz <= phs[j].memsz
    ensures Progress(s0, s', pd, base, size, phs, i + 1)
  {
    forall va | InRange(base, size, va) ensures ImageByteKept(s0, s', pd, va) {
      ImageSurvives(s0, s, s', pd, base, size, phs[i], va);
    }
    LoadedSurvive(s0, s, s', pd, base, size, phs, i, private);
    LoadedFromStart(s0, s, s', pd, base, size, phs[i]);
    OthersSameStep(s0, s, s', pd, base, phs, i);
    forall j | i + 1 <= j < |phs| && phs[j].Loads() ensures SegmentOk(s', pd, base, size, phs[j]) {
      assert Apart(phs[i], phs[j]);
      OthersKept(s, s', pd, base, phs[i], phs[j]);
      assert SegmentOk(s, pd, base, size, phs[j]);
    }
  }

  lemma LoadedSurvive(s0: State, s: State, s': State, pd: nat, base: nat, size: nat, phs: seq<Phdr>, i: nat,
                      private: bool)
    requires ImageOk(s0, pd, base, size, phs) && i < |phs| && phs[i].Loads()
    requires SegmentStep(s, s', pd, base, phs[i]) && Grown(s0, s, pd, private)
    requires forall j | 0 <= j < i && phs[j].Loads() ::
               SegmentLoaded(s0, s, pd, base, phs[j]) && phs[j].filesz <= phs[j].memsz
    ensures forall j | 0 <= j < i && phs[j].Loads() :: SegmentLoaded(s0, s', pd, base, phs[j])
  {
    forall j | 0 <= j < i && phs[j].Loads() ensures SegmentLoaded(s0, s', pd, base, phs[j]) {
      assert Apart(phs[j], phs[i]);
      OthersKept(s, s', pd, base, phs[i], phs[j]);
      SegmentSurvives(s0, s, s', pd, base, size, phs[j], private);
    }
  }

  lemma OthersKept(s: State, s': State, pd: nat, base: nat, ph: Phdr, other: Phdr)
    requires SegmentStep(s, s', pd, base, ph) && (Apart(ph, other) || Apart(other, ph))
    requires other.vaddr % 4096 == 0 && other.vaddr + other.memsz <= ADDRESS_LIMIT
    ensures forall vp | other.HasPage(vp) :: PageKept(s, s', pd, vp)
  {
    forall vp | other.HasPage(vp) ensures PageKept(s, s', pd, vp) {
      assert 0 <= vp < VPAGES && !ph.HasPage(vp);
    }
  }

  lemma LoadedFromStart(s0: State, s: State, s': State, pd: nat, base: nat, size: nat, ph: Phdr)
    requires SegmentLoaded(s, s', pd, base, ph) && SegmentOk(s0, pd, base, size, ph)
    requires forall va | InRange(base, size, va) :: ImageByteKept(s0, s, pd, va)
    ensures SegmentLoaded(s0, s', pd, base, ph)
  {
    forall k | 0 <= k < ph.filesz ensures FileByte(s0.mem, s'.mem, pd, base, ph, k) {
      assert FileByte(s.mem, s'.mem, pd, base, ph, k);
      assert InRange(base, size, base + ph.offset + k);
      assert ImageByteKept(s0, s, pd, base + ph.offset + k);
    }
  }

  /** Mapping the stack keeps every loaded segment. */
  lemma StackKeeps(s0: State, s: State, s': State, pd: nat, base: nat, size: nat, ph: Phdr, private: bool)
    requires Ready(s, pd) && Grown(s0, s, pd, private) && Mmapped(s, s', StackRequest(pd))
    requires SegmentLoaded(s0, s, pd, base, ph) && SegmentOk(s0, pd, base, size, ph) && ph.filesz <= ph.memsz
    requires forall vp | ph.HasPage(vp) :: !StackRequest(pd).Includes(vp)
    ensures SegmentLoaded(s0, s', pd, base, ph)
  {
    var q := StackRequest(pd);
    forall vp | ph.HasPage(vp) ensures PageKept(s, s', pd, vp) {
      assert PageAfter(s, s', q, vp);
      SettledPage(s0, s, pd, private, vp);
      var f := Entry(s.mem, pd, vp).frame;
      assert s'.next <= Limit(s);
      DataKept(s, s', q, f);
    }
    SegmentSurvives(s0, s, s', pd, base, size, ph, private);
  }

  /** What a finished load has established. */
  ghost predicate ImageLoaded(s0: State, s: State, pd: nat, base: nat, phs: seq<Phdr>) {
    && (forall j | 0 <= j < |phs| && phs[j].Loads() :: SegmentLoaded(s0, s, pd, base, phs[j]))
    && (forall vp | StackRequest(pd).Includes(vp) :: Entry(s.mem, pd, vp).access == Access(true, true, true))
    && OthersSame(s0, s, pd, phs, |phs|, true)
  }

  /** Privacy: segments and stack stay in slots that were empty at the start. */
  ghost predicate PrivateImage(s0: State, pd: nat, phs: seq<Phdr>) {
    && (forall j, vp | 0 <= j < |phs| && phs[j].Loads() && phs[j].HasPage(vp) :: !HasTable(s0.mem, pd, vp))
    && (forall vp | StackRequest(pd).Includes(vp) :: !HasTable(s0.mem, pd, vp))
  }

  // ---- when an image loads -----------------------------------------------------------------

  /** How a load ends: with a purse, at a header with a bad size, or short of tables or frames; a
      build with assertions falls short of partial pages too. */
  datatype Verdict = Fine(purse: Purse) | BadHeader | Short

  /** The end of a load, computed from the purse, the headers from `i` on and the number of stack
      pages without a frame. */
  function Forecast(p: Purse, phs: seq<Phdr>, i: nat, stack: nat): Verdict
    requires i <= |phs|
    decreases |phs| - i
  {
    if i == |phs| then
      match Pay(p, STACK_FIRST, STACK_SIZE + 4096, stack)
      case Left(p') => Fine(p')
      case Broke => Short
    else if phs[i].BadSize() then BadHeader
    else if !phs[i].Loads() then Forecast(p, phs, i + 1, stack)
    else
      match Pay(p, phs[i].vaddr / 4096, phs[i].memsz, PageCount(phs[i].memsz))
      case Left(p') => Forecast(p', phs, i + 1, stack)
      case Broke => Short
  }

  /** Pages of the stack that have no frame yet. */
  function StackZeros(s: State, pd: nat): nat { ZeroPages(s.mem, pd, STACK_FIRST, 5) }

  /** The stack is as it was, and the rest of the load ends as the whole load was going to. */
  predicate OnCourse(s0: State, s: State, pd: nat, phs: seq<Phdr>, i: nat)
    requires i <= |phs|
  {
    && StackZeros(s, pd) == StackZeros(s0, pd)
    && Forecast(PurseOf(s, pd), phs, i, StackZeros(s0, pd)) == Forecast(PurseOf(s0, pd), phs, 0, StackZeros(s0, pd))
  }

  /** Loading a segment leaves the pages of the stack alone. */
  lemma StackAside(s: State, s': State, pd: nat, base: nat, ph: Phdr)
    requires SegmentStep(s, s', pd, base, ph) && forall vp | ph.HasPage(vp) :: !StackRequest(pd).Includes(vp)
    ensures StackZeros(s', pd) == StackZeros(s, pd)
  {
    forall vp | STACK_FIRST <= vp < STACK_FIRST + 5 ensures Entry(s'.mem, pd, vp) == Entry(s.mem, pd, vp) {
      assert StackRequest(pd).Includes(vp);
      assert !ph.HasPage(vp) && PageKept(s, s', pd, vp);
    }
    SameZeroPages(s.mem, s'.mem, pd, STACK_FIRST, 5);
  }

  const STACK_FIRST: nat := 0x7_FFFC
  const STACK_SLOT: nat := 511

  /** Every segment stays inside one table, and not in that of the stack. */
  predicate Compact(phs: seq<Phdr>) {
    forall j | 0 <= j < |phs| && phs[j].Loads() ::
      && PageCount(phs[j].memsz) < 1024 && phs[j].vaddr / 4096 % 1024 + PageCount(phs[j].memsz) <= 1024
      && phs[j].vaddr < ADDRESS_LIMIT && phs[j].vaddr / 0x40_0000 != STACK_SLOT
  }

  /** What the assertion on sizes asks of segments. */
  predicate WholePages(phs: seq<Phdr>) { forall j | 0 <= j < |phs| && phs[j].Loads() :: phs[j].memsz % 4096 == 0 }

  /** Frames that suffice for the headers from `i` on: the pages of a segment and one table
      each, then five pages and two tables for the stack. */
  function Budget(phs: seq<Phdr>, i: nat): nat
    requires i <= |phs|
    decreases |phs| - i
  {
    if i == |phs| then 7 else (if phs[i].Loads() then PageCount(phs[i].memsz) + 1 else 0) + Budget(phs, i + 1)
  }

  lemma {:induction false} BudgetPositive(phs: seq<Phdr>, i: nat)
    requires i <= |phs|
    ensures Budget(phs, i) >= 7
    decreases |phs| - i
  {
    if i < |phs| { BudgetPositive(phs, i + 1); }
  }

  /** A compact image without a bad size loads whenever the region holds its budget. */
  lemma {:induction false} BudgetSuffices(p: Purse, phs: seq<Phdr>, i: nat, stack: nat)
    requires i <= |phs| && Compact(phs) && stack <= 5 && STACK_SLOT !in p.slots
    requires p.len > 4096 * Budget(phs, i)
    requires forall j | i <= j < |phs| && phs[j].ptype == 1 :: phs[j].filesz <= phs[j].memsz
    requires p.checked ==> WholePages(phs)
    ensures var v := Forecast(p, phs, i, stack);
            v.Fine? && v.purse.len + 4096 * Budget(phs, i) >= p.len
    decreases |phs| - i
  {
    if i == |phs| {
      StackPays(p, stack);
    } else if phs[i].Loads() {
      var first, n := phs[i].vaddr / 4096, PageCount(phs[i].memsz);
      BudgetPositive(phs, i + 1);
      OneTablePays(p, first, phs[i].memsz, n);
      assert first / 1024 == phs[i].vaddr / 0x40_0000;
      BudgetSuffices(Pay(p, first, phs[i].memsz, n).purse, phs, i + 1, stack);
    } else {
      BudgetSuffices(p, phs, i + 1, stack);
    }
  }

  lemma StackPays(p: Purse, stack: nat)
    requires stack <= 5 && STACK_SLOT !in p.slots && p.len > 4096 * 7
    ensures var b := Pay(p, STACK_FIRST, STACK_SIZE + 4096, stack);
            b.Left? && b.purse.len + 4096 * 7 >= p.len
  {
    assert STACK_FIRST / 1024 == STACK_SLOT && STACK_FIRST % 1024 == 1020;
    assert Visits(p.slots, STACK_FIRST, STACK_SIZE + 4096) == 2;
  }

  /** Loop body for header `i` when it has file contents. */
  method LoadContents(m: Machine, base: nat, ghost size: nat, phs: seq<Phdr>, i: nat, ghost s0: State,
                      ghost private: bool)
    returns (o: Outcome)
    requires m.regionAddr % 4096 == 0 && i < |phs| && phs[i].Loads()
    requires ImageOk(s0, m.cr3, base, size, phs) && private == PrivateImage(s0, m.cr3, phs)
    requires Ready(m.S(), m.cr3) && Grown(s0, m.S(), m.cr3, private)
    requires Progress(s0, m.S(), m.cr3, base, size, phs, i)
    requires forall j | 0 <= j <= i :: !phs[j].BadSize()
    requires OnCourse(s0, m.S(), m.cr3, phs, i)
    modifies m`mem, m`regionAddr, m`regionLen
    ensures m.regionAddr % 4096 == 0
    ensures o == Done ==> Ready(m.S(), m.cr3) && Grown(s0, m.S(), m.cr3, private)
    ensures o == Done ==> Progress(s0, m.S(), m.cr3, base, size, phs, i + 1)
    ensures o == Done ==> OnCourse(s0, m.S(), m.cr3, phs, i + 1)
    ensures o != Done ==> Forecast(PurseOf(s0, m.cr3), phs, 0, StackZeros(s0, m.cr3)) == Short
  {
    ghost var s := m.S();
    SegmentPrivate(s0, m.cr3, base, size, phs, i, private);
    ImageReadable(s0, s, m.cr3, base, size, phs, i);
    SegmentIsNew(s, m.cr3, base, size, phs[i], phs[i].flags);
    PaysExactly(s, SegRequest(m.cr3, phs[i], phs[i].flags));
    o := LoadSegment(m, base, size, phs[i], s0, private);
    if o == Done {
      ProgressStep(s0, s, m.S(), m.cr3, base, size, phs, i, private);
      StackAside(s, m.S(), m.cr3, base, phs[i]);
    }
  }

  lemma SegmentPrivate(s0: State, pd: nat, base: nat, size: nat, phs: seq<Phdr>, i: nat, private: bool)
    requires ImageOk(s0, pd, base, size, phs) && i < |phs| && phs[i].Loads() && private == PrivateImage(s0, pd, phs)
    ensures UserRequest(s0, SegRequest(pd, phs[i], phs[i].flags), private)
  {
    var q := SegRequest(pd, phs[i], phs[i].flags);
    forall vp | q.Includes(vp) && private ensures !HasTable(s0.mem, pd, vp) {
      assert phs[i].HasPage(vp);
    }
  }

  lemma ImageReadable(s0: State, s: State, pd: nat, base: nat, size: nat, phs: seq<Phdr>, i: nat)
    requires Progress(s0, s, pd, base, size, phs, i) && i < |phs| && phs[i].Loads()
    ensures SegmentOk(s, pd, base, size, phs[i])
    ensures forall va | InRange(base, size, va) :: ImageByte(s, pd, va)
  {
    forall va | InRange(base, size, va) ensures ImageByte(s, pd, va) {
      assert ImageByteKept(s0, s, pd, va);
    }
  }

  /** The stack mapping that ends a load. */
  method MapStack(m: Machine, base: nat, ghost size: nat, phs: seq<Phdr>, ghost s0: State, ghost private: bool)
    returns (o: Outcome)
    requires m.regionAddr % 4096 == 0
    requires ImageOk(s0, m.cr3, base, size, phs) && private == PrivateImage(s0, m.cr3, phs)
    requires Ready(m.S(), m.cr3) && Grown(s0, m.S(), m.cr3, private)
    requires Progress(s0, m.S(), m.cr3, base, size, phs, |phs|)
    requires forall j | 0 <= j < |phs| :: !phs[j].BadSize()
    requires OnCourse(s0, m.S(), m.cr3, phs, |phs|)
    modifies m`mem, m`regionAddr, m`regionLen
    ensures m.regionAddr % 4096 == 0
    ensures o == Done ==> Ready(m.S(), m.cr3) && Grown(s0, m.S(), m.cr3, private)
    ensures o == Done ==> ImageLoaded(s0, m.S(), m.cr3, base, phs)
    ensures Forecast(PurseOf(s0, m.cr3), phs, 0, StackZeros(s0, m.cr3)) ==
              if o == Done then Fine(PurseOf(m.S(), m.cr3)) else Short
  {
    ghost var s := m.S();
    o := m.Mmap(StackRequest(m.cr3));
    StackEnds(s0, s, m.S(), m.cr3, phs, o);
    if o != Done { return; }
    MmapGrows(s0, s, m.S(), StackRequest(m.cr3), private);
    StackDone(s0, s, m.S(), m.cr3, base, size, phs, private);
  }

  lemma ForecastEnd(p: Purse, phs: seq<Phdr>, stack: nat, pd: nat)
    ensures var q, b := StackRequest(pd), Pay(p, STACK_FIRST, STACK_SIZE + 4096, stack);
            && q.First() == STACK_FIRST && q.size == STACK_SIZE + 4096 && q.Count() == 5
            && Forecast(p, phs, |phs|, stack) == if b.Left? then Fine(b.purse) else Short
  {}

  /** The stack decides how the load ends. */
  lemma StackEnds(s0: State, s: State, s': State, pd: nat, phs: seq<Phdr>, o: Outcome)
    requires OnCourse(s0, s, pd, phs, |phs|) && (o == Done <==> Admissible(s, StackRequest(pd)))
    requires o == Done ==> Mmapped(s, s', StackRequest(pd))
    ensures Forecast(PurseOf(s0, pd), phs, 0, StackZeros(s0, pd)) == if o == Done then Fine(PurseOf(s', pd)) else Short
  {
    ForecastEnd(PurseOf(s, pd), phs, StackZeros(s0, pd), pd);
    PaysExactly(s, StackRequest(pd));
    if o == Done { PaysFor(s, s', StackRequest(pd)); }
  }

  lemma StackDone(s0: State, s: State, s': State, pd: nat, base: nat, size: nat, phs: seq<Phdr>, private: bool)
    requires ImageOk(s0, pd, base, size, phs) && Progress(s0, s, pd, base, size, phs, |phs|)
    requires Ready(s, pd) && Grown(s0, s, pd, private) && Mmapped(s, s', StackRequest(pd))
    requires forall j | 0 <= j < |phs| :: !phs[j].BadSize()
    ensures ImageLoaded(s0, s', pd, base, phs)
  {
    forall j | 0 <= j < |phs| && phs[j].Loads() ensures SegmentLoaded(s0, s', pd, base, phs[j]) {
      StackKeeps(s0, s, s', pd, base, size, phs[j], private);
    }
    OthersSameEnd(s0, s, s', pd, phs);
    StackRights(s, s', pd);
  }

  lemma StackRights(s: State, s': State, pd: nat)
    requires Mmapped(s, s', StackRequest(pd))
    ensures forall vp | StackRequest(pd).Includes(vp) :: Entry(s'.mem, pd, vp).access == Access(true, true, true)
  {
    forall vp | StackRequest(pd).Includes(vp) ensures Entry(s'.mem, pd, vp).access == Access(true, true, true) {
      assert PageAfter(s, s', StackRequest(pd), vp);
    }
  }

  lemma ProgressSkip(s0: State, s: State, pd: nat, base: nat, size: nat, phs: seq<Phdr>, i: nat)
    requires Progress(s0, s, pd, base, size, phs, i) && i < |phs| && !phs[i].Loads()
    ensures Progress(s0, s, pd, base, size, phs, i + 1)
  {
    forall vp | 0 <= vp < VPAGES && !InSegments(phs, i + 1, vp) ensures !InSegments(phs, i, vp) {}
  }

  lemma ProgressStart(s0: State, pd: nat, base: nat, size: nat, phs: seq<Phdr>, private: bool)
    requires ImageOk(s0, pd, base, size, phs)
    ensures Progress(s0, s0, pd, base, size, phs, 0) && Grown(s0, s0, pd, private)
  {
    GrownRefl(s0, pd, private);
    forall va | InRange(base, size, va) ensures ImageByteKept(s0, s0, pd, va) {}
  }

  /** What the header loop keeps. */
  ghost predicate Loading(s0: State, s: State, pd: nat, base: nat, size: nat, phs: seq<Phdr>, i: nat, private: bool)
    requires i <= |phs|
  {
    && Ready(s, pd) && Grown(s0, s, pd, private)
    && Progress(s0, s, pd, base, size, phs, i) && OnCourse(s0, s, pd, phs, i)
    && (forall j | 0 <= j < i :: !phs[j].BadSize())
  }

  /** One turn of the header loop; `ElfOk` goes on. */
  method LoadHeader(m: Machine, base: nat, ghost size: nat, phs: seq<Phdr>, i: nat, ghost s0: State,
                    ghost private: bool)
    returns (r: LoadResult)
    requires m.regionAddr % 4096 == 0 && i < |phs|
    requires ImageOk(s0, m.cr3, base, size, phs) && private == PrivateImage(s0, m.cr3, phs)
    requires Loading(s0, m.S(), m.cr3, base, size, phs, i, private)
    modifies m`mem, m`regionAddr, m`regionLen
    ensures m.regionAddr % 4096 == 0
    ensures r == InvalidPh <==> phs[i].ptype == 1 && phs[i].filesz > phs[i].memsz
    ensures r == ElfOk ==> Loading(s0, m.S(), m.cr3, base, size, phs, i + 1, private)
    ensures r.Halted? ==> Forecast(PurseOf(s0, m.cr3), phs, 0, StackZeros(s0, m.cr3)) == Short
    ensures r == InvalidPh ==> Forecast(PurseOf(s0, m.cr3), phs, 0, StackZeros(s0, m.cr3)) == BadHeader
  {
    var ph := phs[i];
    r := ElfOk;
    if !ph.Loads() { ProgressSkip(s0, m.S(), m.cr3, base, size, phs, i); }
    if ph.ptype == PT_LOAD {
      if ph.filesz > ph.memsz { return InvalidPh; }
      // for alignments below two the source's power-of-two test always holds
      if ph.align < 2 && (ph.vaddr % ph.align != 0 || ph.offset % ph.align != 0) { return InvalidPh; }
      if ph.filesz != 0 {
        var o := LoadContents(m, base, size, phs, i, s0, private);
        if o != Done { return Halted(o); }
      }
    }
  }

  /** The header loop. */
  method LoadHeaders(m: Machine, base: nat, ghost size: nat, phs: seq<Phdr>, ghost private: bool)
    returns (r: LoadResult)
    requires m.regionAddr % 4096 == 0 && ImageOk(m.S(), m.cr3, base, size, phs)
    requires private == PrivateImage(m.S(), m.cr3, phs) && Loading(m.S(), m.S(), m.cr3, base, size, phs, 0, private)
    modifies m`mem, m`regionAddr, m`regionLen
    ensures m.regionAddr % 4096 == 0
    ensures r == ElfOk ==> Loading(old(m.S()), m.S(), m.cr3, base, size, phs, |phs|, private)
    ensures var v := Forecast(PurseOf(old(m.S()), m.cr3), phs, 0, StackZeros(old(m.S()), m.cr3));
            (r.Halted? ==> v == Short) && (r == InvalidPh ==> v == BadHeader)
    ensures r == InvalidPh ==> exists j | 0 <= j < |phs| :: phs[j].ptype == 1 && phs[j].filesz > phs[j].memsz
  {
    ghost var s0 := m.S();
    var i := 0;
    while i < |phs|
      invariant i <= |phs| && m.regionAddr % 4096 == 0
      invariant Loading(s0, m.S(), m.cr3, base, size, phs, i, private)
    {
      r := LoadHeader(m, base, size, phs, i, s0, private);
      if r != ElfOk { return; }
      i := i + 1;
    }
    r := ElfOk;
  }

  /** `elf_ctx_load`. */
  method ElfCtxLoad(m: Machine, base: nat, ghost size: nat, phs: seq<Phdr>) returns (r: LoadResult, stackTop: nat)
    requires m.regionAddr % 4096 == 0 && Ready(m.S(), m.cr3) && ImageOk(m.S(), m.cr3, base, size, phs)
    modifies m`mem, m`regionAddr, m`regionLen
    ensures m.regionAddr % 4096 == 0
    ensures r == ElfOk ==> ImageLoaded(old(m.S()), m.S(), m.cr3, base, phs) && stackTop == STACK_ADDR
    ensures r == ElfOk ==> forall j | 0 <= j < |phs| && phs[j].ptype == 1 :: phs[j].filesz <= phs[j].memsz
    ensures r == InvalidPh ==> exists j | 0 <= j < |phs| :: phs[j].ptype == 1 && phs[j].filesz > phs[j].memsz
    ensures r == ElfOk ==>
              Ready(m.S(), m.cr3) && Grown(old(m.S()), m.S(), m.cr3, PrivateImage(old(m.S()), m.cr3, phs))
    ensures var v := Forecast(PurseOf(old(m.S()), m.cr3), phs, 0, StackZeros(old(m.S()), m.cr3));
            && (r == ElfOk <==> v.Fine?) && (r == InvalidPh <==> v == BadHeader)
            && (r == ElfOk ==> v.purse == PurseOf(m.S(), m.cr3))
  {
    ghost var s0, private := m.S(), PrivateImage(m.S(), m.cr3, phs);
    ProgressStart(s0, m.cr3, base, size, phs, private);
    stackTop := 0;
    r := LoadHeaders(m, base, size, phs, private);
    if r != ElfOk { return; }
    var o := MapStack(m, base, size, phs, s0, private);
    if o != Done { return Halted(o), stackTop; }
    r, stackTop := ElfOk, STACK_ADDR;
  }
}
