/**
 Bytes through the page tables: the loads and stores of `memcpy` when its arguments are
 virtual addresses of the loaded page directory.
 */
module UserMemory {
  import opened Paging
  import opened Mmap

  // ---- memory through the page tables ---------------------------------------------------

  /** The byte that virtual address `va` reads. */
  function VByte(mem: Memory, pd: nat, va: nat): nat {
    var f := Entry(mem, pd, va / 4096).frame;
    if IsData(mem, f) then mem[f].bytes[va % 4096] else 0
  }

  predicate ReadableAt(mem: Memory, pd: nat, va: nat) {
    va < ADDRESS_LIMIT && Walk(mem, pd, va / 4096).Mapped? && IsData(mem, Entry(mem, pd, va / 4096).frame)
  }

  predicate WritableAt(mem: Memory, pd: nat, va: nat) {
    ReadableAt(mem, pd, va) && Walk(mem, pd, va / 4096).writable
  }

  function WithByte(mem: Memory, f: nat, at: nat, b: nat): Memory
    requires IsData(mem, f) && at < 4096
  {
    mem[f := Data(mem[f].bytes[at := b])]
  }

  /** Storing to a data frame moves no page. */
  lemma StoreKeepsPages(mem: Memory, pd: nat, f: nat, at: nat, b: nat)
    requires Directory(mem, pd) && IsData(mem, f) && at < 4096
    ensures Directory(WithByte(mem, f, at, b), pd)
    ensures forall i :: Pde(WithByte(mem, f, at, b), pd, i) == Pde(mem, pd, i)
    ensures forall vp | 0 <= vp < VPAGES :: Entry(WithByte(mem, f, at, b), pd, vp) == Entry(mem, pd, vp)
  {
    var mem' := WithByte(mem, f, at, b);
    assert forall i :: Pde(mem', pd, i) == Pde(mem, pd, i);
    forall i | 0 <= i < 1024 ensures SlotOk(mem', pd, i) { assert SlotOk(mem, pd, i); }
    forall i, j, g | UsesTable(mem', pd, i, g) && UsesTable(mem', pd, j, g) ensures i == j {
      assert UsesTable(mem, pd, i, g) && UsesTable(mem, pd, j, g);
    }
    forall vp | 0 <= vp < VPAGES ensures Entry(mem', pd, vp) == Entry(mem, pd, vp) {
      assert SlotOk(mem, pd, vp / 1024);
    }
  }

  lemma ReadAfterStore(mem: Memory, pd: nat, f: nat, at: nat, b: nat, va: nat)
    requires Directory(mem, pd) && IsData(mem, f) && at < 4096 && va < ADDRESS_LIMIT
    ensures VByte(WithByte(mem, f, at, b), pd, va) ==
              if Entry(mem, pd, va / 4096).frame == f && va % 4096 == at then b else VByte(mem, pd, va)
  {
    StoreKeepsPages(mem, pd, f, at, b);
    assert va / 4096 < VPAGES;
  }

  // ---- memcpy -----------------------------------------------------------------------------

  predicate InRange(base: int, n: int, va: int) { base <= va < base + n }

  predicate SameFrame(mem: Memory, pd: nat, va: int, wa: int) {
    Entry(mem, pd, va / 4096).frame == Entry(mem, pd, wa / 4096).frame
  }

  /** `va` may be written, and its frame is one of those set aside for the copy. */
  predicate Target(mem: Memory, pd: nat, lo: nat, hi: nat, va: int) {
    va >= 0 && WritableAt(mem, pd, va) && lo <= Entry(mem, pd, va / 4096).frame < hi
  }

  predicate Source(mem: Memory, pd: nat, lo: nat, hi: nat, va: int) {
    va >= 0 && ReadableAt(mem, pd, va) && !(lo <= Entry(mem, pd, va / 4096).frame < hi)
  }

  /** Every byte written goes to a writable data page among the frames `lo..hi`, every byte read
      is mapped elsewhere, and different pages written have different frames. */
  ghost predicate CopyOk(mem: Memory, pd: nat, dst: nat, src: nat, n: nat, lo: nat, hi: nat) {
    && (forall va | InRange(dst, n, va) :: Target(mem, pd, lo, hi, va))
    && (forall va | InRange(src, n, va) :: Source(mem, pd, lo, hi, va))
    && (forall va, wa | InRange(dst, n, va) && InRange(dst, n, wa)
         && SameFrame(mem, pd, va, wa) :: va / 4096 == wa / 4096)
  }

  /** Pages stay where they are and frames outside `lo..hi` are untouched. */
  ghost predicate PagesKept(mem: Memory, mem': Memory, pd: nat, lo: nat, hi: nat) {
    && |mem'| == |mem|
    && Directory(mem', pd)
    && (forall i :: Pde(mem', pd, i) == Pde(mem, pd, i))
    && (forall vp | 0 <= vp < VPAGES :: Entry(mem', pd, vp) == Entry(mem, pd, vp))
    && (forall f | 0 <= f < |mem| && !(lo <= f < hi) :: mem'[f] == mem[f])
    && (forall f :: IsData(mem', f) == IsData(mem, f))
  }

  predicate ByteCopied(mem: Memory, mem': Memory, pd: nat, dst: nat, src: nat, k: nat) {
    VByte(mem', pd, dst + k) == VByte(mem, pd, src + k)
  }

  ghost predicate Copied(mem: Memory, mem': Memory, pd: nat, dst: nat, src: nat, k: nat) {
    forall j | 0 <= j < k :: ByteCopied(mem, mem', pd, dst, src, j)
  }

  lemma CopiedAt(mem: Memory, mem': Memory, pd: nat, dst: nat, src: nat, n: nat, k: nat)
    requires Copied(mem, mem', pd, dst, src, n) && k < n
    ensures VByte(mem', pd, dst + k) == VByte(mem, pd, src + k)
  {
    assert ByteCopied(mem, mem', pd, dst, src, k);
  }

  /** The next byte can be moved. */
  lemma CopyEnabled(mem: Memory, mem': Memory, pd: nat, dst: nat, src: nat, n: nat, k: nat, lo: nat, hi: nat)
    requires CopyOk(mem, pd, dst, src, n, lo, hi) && k < n && PagesKept(mem, mem', pd, lo, hi)
    ensures ReadableAt(mem', pd, src + k) && Target(mem', pd, lo, hi, dst + k)
    ensures VByte(mem', pd, src + k) == VByte(mem, pd, src + k)
  {
    assert InRange(dst, n, dst + k) && InRange(src, n, src + k);
    assert Target(mem, pd, lo, hi, dst + k) && Source(mem, pd, lo, hi, src + k);
  }

  /** A store is read back at its address and leaves every other address of the copy alone. */
  lemma StoreElsewhere(mem: Memory, pd: nat, d: nat, w: nat, b: nat)
    requires Directory(mem, pd) && d < ADDRESS_LIMIT && w < ADDRESS_LIMIT
    requires IsData(mem, Entry(mem, pd, d / 4096).frame)
    requires SameFrame(mem, pd, d, w) ==> d / 4096 == w / 4096
    ensures var mem' := WithByte(mem, Entry(mem, pd, d / 4096).frame, d % 4096, b);
            VByte(mem', pd, w) == if w == d then b else VByte(mem, pd, w)
  {
    ReadAfterStore(mem, pd, Entry(mem, pd, d / 4096).frame, d % 4096, b, w);
    if d != w { OffsetsDiffer(d, w); }
  }

  lemma OffsetsDiffer(a: nat, b: nat)
    requires a != b
    ensures a / 4096 == b / 4096 ==> a % 4096 != b % 4096
  {}

  lemma TargetsDistinct(mem: Memory, mem': Memory, pd: nat, dst: nat, src: nat, n: nat, k: nat, j: nat, lo: nat,
                        hi: nat)
    requires CopyOk(mem, pd, dst, src, n, lo, hi) && j <= k < n && PagesKept(mem, mem', pd, lo, hi)
    ensures dst + k < ADDRESS_LIMIT && IsData(mem', Entry(mem', pd, (dst + k) / 4096).frame)
    ensures SameFrame(mem', pd, dst + k, dst + j) ==> (dst + k) / 4096 == (dst + j) / 4096
  {
    assert InRange(dst, n, dst + k) && InRange(dst, n, dst + j);
    assert Target(mem, pd, lo, hi, dst + k) && Target(mem, pd, lo, hi, dst + j);
    assert SameFrame(mem, pd, dst + k, dst + j) ==> (dst + k) / 4096 == (dst + j) / 4096;
  }

  /** Moving the next byte is progress. */
  lemma CopyStep(mem: Memory, mem': Memory, pd: nat, dst: nat, src: nat, n: nat, k: nat, lo: nat, hi: nat)
    requires CopyOk(mem, pd, dst, src, n, lo, hi) && k < n
    requires PagesKept(mem, mem', pd, lo, hi) && Copied(mem, mem', pd, dst, src, k)
    requires Target(mem', pd, lo, hi, dst + k)
    ensures var mem'' := WithByte(mem', Entry(mem', pd, (dst + k) / 4096).frame, (dst + k) % 4096,
              VByte(mem, pd, src + k));
            PagesKept(mem, mem'', pd, lo, hi) && Copied(mem, mem'', pd, dst, src, k + 1)
  {
    var f, b := Entry(mem', pd, (dst + k) / 4096).frame, VByte(mem, pd, src + k);
    StoreKeepsPages(mem', pd, f, (dst + k) % 4096, b);
    var mem'' := WithByte(mem', f, (dst + k) % 4096, b);
    forall j | 0 <= j < k + 1 ensures ByteCopied(mem, mem'', pd, dst, src, j) {
      assert j < k ==> ByteCopied(mem, mem', pd, dst, src, j);
      TargetsDistinct(mem, mem', pd, dst, src, n, k, j, lo, hi);
      StoreElsewhere(mem', pd, dst + k, dst + j, b);
    }
  }

  /** A store by the processor: it needs a present, writable translation. */
  method StoreByte(m: Machine, va: nat, b: nat)
    requires WritableAt(m.mem, m.cr3, va)
    modifies m`mem
    ensures m.mem == WithByte(old(m.mem), Entry(old(m.mem), m.cr3, va / 4096).frame, va % 4096, b)
  {
    var f := Entry(m.mem, m.cr3, va / 4096).frame;
    m.mem := WithByte(m.mem, f, va % 4096, b);
  }

  method LoadByte(m: Machine, va: nat) returns (b: nat)
    requires ReadableAt(m.mem, m.cr3, va)
    ensures b == VByte(m.mem, m.cr3, va)
  {
    b := m.mem[Entry(m.mem, m.cr3, va / 4096).frame].bytes[va % 4096];
  }

  // ---- the loop ------------------------------------------------------------------------------

  /** Both ranges of a copy are mapped, the one written to writably. */
  ghost predicate CopyMapped(mem: Memory, pd: nat, dst: nat, src: nat, n: nat) {
    && (forall va | InRange(dst, n, va) :: va >= 0 && WritableAt(mem, pd, va))
    && (forall va | InRange(src, n, va) :: va >= 0 && ReadableAt(mem, pd, va))
  }

  /** Memory after the first `k` bytes have been moved, one at a time, upwards. */
  function CopyBytes(mem: Memory, pd: nat, dst: nat, src: nat, k: nat): Memory {
    if k == 0 then mem else
    var m, d := CopyBytes(mem, pd, dst, src, k - 1), dst + k - 1;
    var f := Entry(m, pd, d / 4096).frame;
    if IsData(m, f) then WithByte(m, f, d % 4096, VByte(m, pd, src + k - 1)) else m
  }

  /** A copy moves no page, whatever it overlaps. */
  lemma {:induction false} CopyMovesNoPage(mem: Memory, pd: nat, dst: nat, src: nat, k: nat)
    requires Directory(mem, pd)
    ensures PagesKept(mem, CopyBytes(mem, pd, dst, src, k), pd, 0, |mem|)
  {
    if k > 0 {
      CopyMovesNoPage(mem, pd, dst, src, k - 1);
      var m, d := CopyBytes(mem, pd, dst, src, k - 1), dst + k - 1;
      if IsData(m, Entry(m, pd, d / 4096).frame) { StoreKept(mem, m, pd, d, VByte(m, pd, src + k - 1)); }
    }
  }

  lemma StoreKept(mem: Memory, m: Memory, pd: nat, d: nat, b: nat)
    requires PagesKept(mem, m, pd, 0, |mem|) && IsData(m, Entry(m, pd, d / 4096).frame) && Directory(mem, pd)
    ensures PagesKept(mem, WithByte(m, Entry(m, pd, d / 4096).frame, d % 4096, b), pd, 0, |mem|)
  {
    var f := Entry(m, pd, d / 4096).frame;
    StoreKeepsPages(m, pd, f, d % 4096, b);
    KeptAgain(mem, m, WithByte(m, f, d % 4096, b), pd);
  }

  lemma KeptAgain(a: Memory, b: Memory, c: Memory, pd: nat)
    requires PagesKept(a, b, pd, 0, |a|) && PagesKept(b, c, pd, 0, |b|)
    ensures PagesKept(a, c, pd, 0, |a|)
  {}

  lemma CopyNext(mem: Memory, m: Memory, pd: nat, dst: nat, src: nat, n: nat, k: nat, lo: nat, hi: nat)
    requires CopyOk(mem, pd, dst, src, n, lo, hi) && k < n && m == CopyBytes(mem, pd, dst, src, k)
    requires PagesKept(mem, m, pd, lo, hi) && Copied(mem, m, pd, dst, src, k)
    ensures var m' := CopyBytes(mem, pd, dst, src, k + 1);
            PagesKept(mem, m', pd, lo, hi) && Copied(mem, m', pd, dst, src, k + 1)
  {
    CopyEnabled(mem, m, pd, dst, src, n, k, lo, hi);
    CopyUnfold(mem, m, pd, dst, src, k);
    CopyStep(mem, m, pd, dst, src, n, k, lo, hi);
  }

  lemma CopyUnfold(mem: Memory, m: Memory, pd: nat, dst: nat, src: nat, k: nat)
    requires m == CopyBytes(mem, pd, dst, src, k) && IsData(m, Entry(m, pd, (dst + k) / 4096).frame)
    ensures CopyBytes(mem, pd, dst, src, k + 1) ==
              WithByte(m, Entry(m, pd, (dst + k) / 4096).frame, (dst + k) % 4096, VByte(m, pd, src + k))
  {}

  /** Where the target frames are apart from the source, every byte arrives. */
  lemma {:induction false} CopyDelivers(mem: Memory, pd: nat, dst: nat, src: nat, n: nat, k: nat, lo: nat, hi: nat)
    requires Directory(mem, pd) && CopyOk(mem, pd, dst, src, n, lo, hi) && k <= n
    ensures PagesKept(mem, CopyBytes(mem, pd, dst, src, k), pd, lo, hi)
    ensures Copied(mem, CopyBytes(mem, pd, dst, src, k), pd, dst, src, k)
  {
    if k > 0 {
      CopyDelivers(mem, pd, dst, src, n, k - 1, lo, hi);
      CopyNext(mem, CopyBytes(mem, pd, dst, src, k - 1), pd, dst, src, n, k - 1, lo, hi);
    }
  }

  /** The next byte can be moved, and moving it is the next step. */
  lemma NextMapped(mem: Memory, pd: nat, dst: nat, src: nat, n: nat, k: nat)
    requires Directory(mem, pd) && CopyMapped(mem, pd, dst, src, n) && k < n
    ensures var m, f := CopyBytes(mem, pd, dst, src, k),
                        Entry(CopyBytes(mem, pd, dst, src, k), pd, (dst + k) / 4096).frame;
            && WritableAt(m, pd, dst + k) && ReadableAt(m, pd, src + k)
            && CopyBytes(mem, pd, dst, src, k + 1) == WithByte(m, f, (dst + k) % 4096, VByte(m, pd, src + k))
  {
    var m := CopyBytes(mem, pd, dst, src, k);
    CopyMovesNoPage(mem, pd, dst, src, k);
    StillMapped(mem, m, pd, dst, src, n, k);
    CopyUnfold(mem, m, pd, dst, src, k);
  }

  /** `memcpy` on virtual addresses: a forward copy byte by byte, every store to a writable page. */
  method Memcpy(m: Machine, dst: nat, src: nat, n: nat)
    requires Directory(m.mem, m.cr3) && CopyMapped(m.mem, m.cr3, dst, src, n)
    modifies m`mem
    ensures m.mem == CopyBytes(old(m.mem), m.cr3, dst, src, n)
    ensures PagesKept(old(m.mem), m.mem, m.cr3, 0, |old(m.mem)|)
    ensures forall lo, hi | CopyOk(old(m.mem), m.cr3, dst, src, n, lo, hi) ::
              PagesKept(old(m.mem), m.mem, m.cr3, lo, hi) && Copied(old(m.mem), m.mem, m.cr3, dst, src, n)
  {
    ghost var mem := m.mem;
    var k := 0;
    while k < n
      invariant k <= n && m.mem == CopyBytes(mem, m.cr3, dst, src, k)
    {
      NextMapped(mem, m.cr3, dst, src, n, k);
      var b := LoadByte(m, src + k);
      StoreByte(m, dst + k, b);
      k := k + 1;
    }
    CopyMovesNoPage(mem, m.cr3, dst, src, n);
    CopyMeans(mem, m.cr3, dst, src, n);
  }

  lemma CopyMeans(mem: Memory, pd: nat, dst: nat, src: nat, n: nat)
    requires Directory(mem, pd)
    ensures forall lo, hi | CopyOk(mem, pd, dst, src, n, lo, hi) ::
              && PagesKept(mem, CopyBytes(mem, pd, dst, src, n), pd, lo, hi)
              && Copied(mem, CopyBytes(mem, pd, dst, src, n), pd, dst, src, n)
  {
    forall lo, hi | CopyOk(mem, pd, dst, src, n, lo, hi)
      ensures PagesKept(mem, CopyBytes(mem, pd, dst, src, n), pd, lo, hi)
      ensures Copied(mem, CopyBytes(mem, pd, dst, src, n), pd, dst, src, n)
    {
      CopyDelivers(mem, pd, dst, src, n, n, lo, hi);
    }
  }

  lemma StillMapped(mem: Memory, mem': Memory, pd: nat, dst: nat, src: nat, n: nat, k: nat)
    requires CopyMapped(mem, pd, dst, src, n) && PagesKept(mem, mem', pd, 0, |mem|) && k < n
    ensures WritableAt(mem', pd, dst + k) && ReadableAt(mem', pd, src + k)
  {
    assert InRange(dst, n, dst + k) && InRange(src, n, src + k);
    assert WritableAt(mem, pd, dst + k) && ReadableAt(mem, pd, src + k);
  }
}
