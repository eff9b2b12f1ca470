/** Addresses of slab objects: page, header, slot and the bytes an object occupies. */
module SlabAddress {
  import opened Arith
  import opened SlabModel

  const HEADER: nat := 8

  function SlotAddress(page: nat, index: nat, size: nat): nat { page + HEADER + index * size }

  /** `ptr & PAGE_MASK`. */
  function PageOf(ptr: nat): nat { ptr / 4096 * 4096 }

  /** The division in `freelist_enqueue`. */
  function IndexOf(ptr: nat, size: nat): int
    requires size > 0
  {
    (ptr - (PageOf(ptr) + HEADER)) / size
  }

  /** A slot starts inside its page. */
  lemma SlotStarts(index: nat, size: nat)
    requires size > 0 && index < SlotCount(size)
    ensures index * size < 4088
  {
    CeilDivMeaning(4088, size, index);
  }

  /** From the address of a slot, masking recovers its page and the division its number. */
  lemma AddressRoundTrip(page: nat, index: nat, size: nat)
    requires page % 4096 == 0 && size > 0 && index < SlotCount(size)
    ensures PageOf(SlotAddress(page, index, size)) == page
    ensures IndexOf(SlotAddress(page, index, size), size) == index
  {
    SlotStarts(index, size);
    var ptr := SlotAddress(page, index, size);
    assert page == page / 4096 * 4096;
    assert ptr / 4096 == page / 4096;
    assert ptr - (page + HEADER) == index * size;
    DivExact(index, size);
  }

  lemma DivExact(k: nat, m: nat)
    requires m > 0
    ensures k * m / m == k
  {
    DivModUnique(k * m, m, k, 0);
  }

  /** The bytes of an object stay inside its page. */
  predicate InsidePage(index: nat, size: nat) { HEADER + index * size + size <= 4096 }

  /** An object stays inside its page exactly if its number is below OBJS_PER_PAGE. */
  lemma InsideIff(index: nat, size: nat)
    requires size > 0
    ensures InsidePage(index, size) <==> index < 4088 / size
  {
    var n := 4088 / size;
    assert 4088 == size * n + 4088 % size;
    assert index * size + size == size * (index + 1);
    if index < n {
      MulMonotone(size, index + 1, n);
    } else {
      MulMonotone(size, n + 1, index + 1);
      assert size * (n + 1) == size * n + size;
    }
  }

  /** All slots that `init_page` makes stay inside the page exactly if the size divides the
      space behind the header; for powers of two that is sizes up to eight. */
  lemma AllInsideIff(size: nat)
    requires 0 < size <= 4088
    ensures (forall i | 0 <= i < SlotCount(size) :: InsidePage(i, size)) <==> 4088 % size == 0
  {
    var n, m := 4088 / size, SlotCount(size);
    CountIs(size);
    forall i | 0 <= i < m ensures InsidePage(i, size) <==> i < n { InsideIff(i, size); }
    if 4088 % size != 0 { assert !InsidePage(n, size); }
  }

  lemma CountIs(size: nat)
    requires size > 0
    ensures SlotCount(size) == if 4088 % size == 0 then 4088 / size else 4088 / size + 1
  {
    var n, r, c := 4088 / size, 4088 % size, SlotCount(size);
    var x := 4088 + size - 1;
    assert 4088 == size * n + r && x == size * c + x % size;
    assert size * (n + 1) == size * n + size;
    if r == 0 { DivModUnique(x, size, n, size - 1); } else { DivModUnique(x, size, n + 1, r - 1); }
  }

  predicate Overlap(p: nat, n: nat, q: nat, m: nat) { p < q + m && q < p + n }

  lemma {:induction false} Pow2Divides(i: nat, j: nat)
    requires i <= j
    ensures 0 < Pow2(i) <= Pow2(j) && Pow2(j) % Pow2(i) == 0
    decreases j - i
  {
    if i == j {
      PowPositive(i);
      DivModUnique(Pow2(i), Pow2(i), 1, 0);
    } else {
      PowPositive(i);
      Pow2Divides(i + 1, j);
      assert Pow2(i + 1) == 2 * Pow2(i);
      var k := Pow2(j) / Pow2(i + 1);
      assert Pow2(j) == Pow2(i + 1) * k + Pow2(j) % Pow2(i + 1);
      assert Pow2(i + 1) * k == Pow2(i) * (2 * k);
      DivModUnique(Pow2(j), Pow2(i), 2 * k, 0);
    }
  }

  lemma {:induction false} PowPositive(i: nat)
    ensures Pow2(i) > 0
  {
    if i > 0 { PowPositive(i - 1); }
  }

  /** Objects of a size that divides the page end at most eight bytes behind it: the tail of the
      last one covers the next page's header and no more. */
  lemma EndsAtHeader(index: nat, size: nat)
    requires size > 0 && 4096 % size == 0 && index < SlotCount(size)
    ensures index * size + size <= 4096
    ensures !InsidePage(index, size) <==> index * size + size == 4096
  {
    SlotStarts(index, size);
    var n := 4096 / size;
    assert 4096 == size * n && size * index == index * size;
    assert index < n by { if n <= index { MulMonotone(size, n, index); } }
    MulMonotone(size, index + 1, n);
    assert size * (index + 1) == index * size + size;
    if index + 1 < n {
      MulMonotone(size, index + 2, n);
      assert size * (index + 2) == index * size + 2 * size;
      if size < 8 { SmallDivisor(size, index); }
    }
  }

  /** Sizes below eight that divide the page divide what is behind the header. */
  lemma SmallDivisor(size: nat, index: nat)
    requires 0 < size < 8 && 4096 % size == 0
    ensures 4088 % size == 0
  {
    assert size == 1 || size == 2 || size == 3 || size == 4 || size == 5 || size == 6 || size == 7;
  }

  /** Two different objects share no byte, the spilled last one of a page included. */
  lemma DisjointBytes(s: Slot, n: nat, t: Slot, m: nat)
    requires s != t && s.page % 4096 == 0 && t.page % 4096 == 0 && (s.page == t.page ==> n == m)
    requires n >= 4 && 4096 % n == 0 && s.index < SlotCount(n)
    requires m >= 4 && 4096 % m == 0 && t.index < SlotCount(m)
    ensures !Overlap(SlotAddress(s.page, s.index, n), n, SlotAddress(t.page, t.index, m), m)
  {
    EndsAtHeader(s.index, n);
    EndsAtHeader(t.index, m);
    if s.page == t.page {
      if s.index < t.index { Apart(s.index, t.index, n); } else { Apart(t.index, s.index, n); }
    }
    BytesApart(s.page, s.index * n, n, t.page, t.index * m, m);
  }

  /** Two ranges behind the headers of their pages, told apart by page or by offset. */
  lemma BytesApart(p: nat, x: nat, n: nat, q: nat, y: nat, m: nat)
    requires p % 4096 == 0 && q % 4096 == 0 && x + n <= 4096 && y + m <= 4096
    requires p == q ==> x + n <= y || y + m <= x
    ensures !Overlap(p + HEADER + x, n, q + HEADER + y, m)
  {
    if p != q { PagesApart(p, q); }
  }

  lemma PagesApart(p: nat, q: nat)
    requires p % 4096 == 0 && q % 4096 == 0 && p != q
    ensures p + 4096 <= q || q + 4096 <= p
  {}

  lemma Apart(i: nat, j: nat, n: nat)
    requires i < j
    ensures i * n + n <= j * n
  {
    MulMonotone(n, i + 1, j);
    assert n * (i + 1) == i * n + n && n * j == j * n;
  }

  /** All live objects, of whatever classes, have disjoint bytes. */
  lemma LiveDisjoint(a: Slab, live: set<Slot>, s: Slot, t: Slot)
    requires Inv(a) && LiveOk(a, live) && s in live && t in live && s != t
    requires s.page % 4096 == 0 && t.page % 4096 == 0
    ensures var n, m := Pow2(a.pages[s.page].idx), Pow2(a.pages[t.page].idx);
            !Overlap(SlotAddress(s.page, s.index, n), n, SlotAddress(t.page, t.index, m), m)
  {
    ClassDivides(a, live, s);
    ClassDivides(a, live, t);
    DisjointBytes(s, Pow2(a.pages[s.page].idx), t, Pow2(a.pages[t.page].idx));
  }

  lemma ClassDivides(a: Slab, live: set<Slot>, s: Slot)
    requires Inv(a) && LiveOk(a, live) && s in live
    ensures s.page in a.pages && MIN_CLASS <= a.pages[s.page].idx < CLASSES
    ensures var n := Pow2(a.pages[s.page].idx); n >= 4 && 4096 % n == 0 && s.index < SlotCount(n)
  {
    assert PageOk(a.pages[s.page]);
    Pow2Divides(2, a.pages[s.page].idx);
    Pow2Divides(a.pages[s.page].idx, 12);
    assert Pow2(6) == 64 && Pow2(12) == 64 * Pow2(6);
  }

  /** With sixteen-byte objects the last slot of a page ends in the next page: its tail is the
      header of that page. */
  lemma LastSlotSpills(page: nat)
    requires page % 4096 == 0
    ensures SlotCount(16) == 256 && !InsidePage(255, 16)
    ensures Overlap(SlotAddress(page, 255, 16), 16, page + 4096, HEADER)
  {}
}
