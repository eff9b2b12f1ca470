/**
 Stores of clients into live objects, by address.  The words that the allocator keeps in a page
 are its header and the first word of each slot; a store may hit one of them, or none.
 */
module SlabStores {
  import opened Arith
  import opened SlabModel
  import opened SlabAddress
  import opened Kmalloc

  /** A 16-bit field read as a signed number. */
  function Signed16(x: nat): int { if x % 0x1_0000 < 0x8000 then x % 0x1_0000 else x % 0x1_0000 - 0x1_0000 }

  /** A page after the word `v` is stored at offset `off`: `next`, the two 16-bit fields of the
      second header word, the first word of a slot, or bytes the allocator does not look at. */
  function PokePage(c: Hdr, off: nat, v: nat): Hdr {
    if off == 0 then c.(next := v)
    else if off == 4 then c.(size := v % 0x1_0000, head := Signed16(v / 0x1_0000))
    else if off >= HEADER && c.size > 0 && (off - HEADER) % c.size == 0 && (off - HEADER) / c.size < |c.links| then
      c.(links := c.links[(off - HEADER) / c.size := v])
    else c
  }

  /** The allocator's memory after a store at address `addr`. */
  function Poke(h: Heap, addr: nat, v: nat): Heap {
    var page := PageOf(addr);
    if page in h.pages then h.(pages := h.pages[page := PokePage(h.pages[page], addr - page, v)]) else h
  }

  /** Size of a live object. */
  function SizeOf(a: Slab, s: Slot): nat { if s.page in a.pages then Pow2(a.pages[s.page].idx) else 0 }

  /** The store of word `v` at byte `k` of object `s`. */
  function Store(h: Heap, a: Slab, s: Slot, k: nat, v: nat): Heap
  {
    Poke(h, SlotAddress(s.page, s.index, SizeOf(a, s)) + k, v)
  }

  /** A word inside the object. */
  predicate WordOf(a: Slab, s: Slot, k: nat) { k % 4 == 0 && k + 4 <= SizeOf(a, s) }

  /** A live object of one of the classes that `kmalloc` serves. */
  ghost predicate Client(h: Heap, a: Slab, live: set<Slot>, s: Slot) {
    Represents(h, a) && Inv(a) && LiveOk(a, live) && s in live && s.page in a.pages && a.pages[s.page].idx >= 2
  }

  lemma Pow2Word(i: nat)
    requires i >= 2
    ensures Pow2(i) >= 4 && Pow2(i) % 4 == 0
  {
    Pow2Divides(2, i);
    assert Pow2(2) == 4;
  }

  /** Page and offset of the address `page + off`. */
  lemma SplitAddress(page: nat, off: nat)
    requires page % 4096 == 0 && off < 4096
    ensures PageOf(page + off) == page
  {
    assert page == 4096 * (page / 4096);
    DivModUnique(page + off, 4096, page / 4096, off);
  }

  /** Where a store lands: at its offset in its own page, or past the end of the page. */
  lemma StoreOffset(h: Heap, a: Slab, live: set<Slot>, s: Slot, k: nat)
    requires Client(h, a, live, s) && WordOf(a, s, k)
    ensures var n := SizeOf(a, s);
            var addr, x := SlotAddress(s.page, s.index, n) + k, HEADER + s.index * n + k;
            && n >= 4 && s.page % 4096 == 0
            && (x < 4096 ==> PageOf(addr) == s.page && addr - s.page == x)
            && (x >= 4096 ==>
                  && !InsidePage(s.index, n)
                  && PageOf(addr) == s.page + 4096 && addr - (s.page + 4096) == x - 4096 < HEADER)
  {
    var n := SizeOf(a, s);
    Pow2Word(a.pages[s.page].idx);
    ClassDivides(a, live, s);
    EndsAtHeader(s.index, n);
    var x := HEADER + s.index * n + k;
    PlaceOf(s.page, s.index * n, n, k);
  }

  /** The place of byte `k` of an object of `n` bytes at offset `y` behind the header. */
  lemma PlaceOf(page: nat, y: nat, n: nat, k: nat)
    requires page % 4096 == 0 && k < n && y + n <= 4096
    ensures var x, addr := HEADER + y + k, page + HEADER + y + k;
            && (x < 4096 ==> PageOf(addr) == page)
            && (x >= 4096 ==> PageOf(addr) == page + 4096 && x - 4096 < HEADER && HEADER + y + n > 4096)
  {
    var x := HEADER + y + k;
    if x < 4096 { SplitAddress(page, x); } else { SplitAddress(page + 4096, x - 4096); }
  }

  /** Inside its slot a store changes the first word of the slot or nothing. */
  lemma PokeSlot(c: Hdr, n: nat, index: nat, k: nat, v: nat)
    requires c.size == n && n > 0 && k < n && index < |c.links|
    ensures PokePage(c, HEADER + index * n + k, v) == if k == 0 then c.(links := c.links[index := v]) else c
  {
    assert HEADER + index * n + k - HEADER == n * index + k;
    DivModUnique(n * index + k, n, index, k);
  }

  /** A slot in use may hold any word. */
  lemma LiveSlotStore(h: Heap, a: Slab, live: set<Slot>, s: Slot, c: Hdr)
    requires Represents(h, a) && Inv(a) && LiveOk(a, live) && s in live && s.page in a.pages
    requires c == h.pages[s.page] || exists v :: c == WithLink(h.pages[s.page], s.index, v)
    ensures Represents(h.(pages := h.pages[s.page := c]), a)
  {
    var c0, p := h.pages[s.page], a.pages[s.page];
    LivePageLinked(a, live, s);
    assert PageRel(c0, p);
    if c != c0 {
      var v :| c == WithLink(c0, s.index, v);
      ChainWrite(c0.links, c0.head, p.freelist, s.index, v);
    }
    PageUpdate(h, a, s.page, c, p);
    assert a.(pages := a.pages[s.page := p]) == a;
  }

  function WithLink(c: Hdr, index: nat, v: int): Hdr
  {
    if index < |c.links| then c.(links := c.links[index := v]) else c
  }

  /** A store inside the page of the object leaves the allocator as it was. */
  lemma InsideStore(h: Heap, a: Slab, live: set<Slot>, s: Slot, k: nat, v: nat)
    requires Client(h, a, live, s) && WordOf(a, s, k) && SlotAddress(s.page, s.index, SizeOf(a, s)) + k < s.page + 4096
    ensures Represents(Store(h, a, s, k, v), a)
  {
    var n, c := SizeOf(a, s), h.pages[s.page];
    StoreOffset(h, a, live, s, k);
    LivePageLinked(a, live, s);
    assert PageRel(c, a.pages[s.page]);
    PokeSlot(c, n, s.index, k, v);
    var c' := if k == 0 then WithLink(c, s.index, v) else c;
    LiveSlotStore(h, a, live, s, c');
  }

  /** A page that is on no list may hold anything. */
  lemma ForeignStore(h: Heap, a: Slab, page: nat, off: nat, v: nat)
    requires Represents(h, a) && Inv(a) && page in h.pages && page !in AllPages(a)
    ensures Represents(h.(pages := h.pages[page := PokePage(h.pages[page], off, v)]), a)
  {
    var h' := h.(pages := h.pages[page := PokePage(h.pages[page], off, v)]);
    ListKept(h.pages, h'.pages, h.pool, a.pool) by { PoolInPages(h, a); }
    forall idx | 0 <= idx < CLASSES ensures BagRel(h', a, idx) {
      assert BagRel(h, a, idx) && BagOk(a, idx);
      InPages(h.pages, h.bags[idx].0, a.bags[idx].free);
      InPages(h.pages, h.bags[idx].1, a.bags[idx].full);
      ListKept(h.pages, h'.pages, h.bags[idx].0, a.bags[idx].free);
      ListKept(h.pages, h'.pages, h.bags[idx].1, a.bags[idx].full);
    }
  }

  /** Two stores through an object that spills, each of which destroys the next page's header: one
      takes the size of an initialised page, the other the link of a pool page. */
  lemma SpillDestroys(h: Heap, a: Slab, live: set<Slot>, s: Slot)
    requires Client(h, a, live, s) && !InsidePage(s.index, SizeOf(a, s)) && s.page + 4096 in AllPages(a)
    ensures exists k, v :: WordOf(a, s, k) && !Represents(Store(h, a, s, k, v), a)
  {
    var n := SizeOf(a, s);
    ClassDivides(a, live, s);
    EndsAtHeader(s.index, n);
    SpilledIsLarge(a, s);
    if s.page + 4096 in a.pages { SpillHitsPage(h, a, live, s); } else { var v := SpillHitsPool(h, a, live, s); }
  }

  lemma SpillHitsPage(h: Heap, a: Slab, live: set<Slot>, s: Slot)
    requires Client(h, a, live, s) && s.page + 4096 in a.pages
    requires SizeOf(a, s) >= 4 && WordOf(a, s, SizeOf(a, s) - 4)
    requires s.index * SizeOf(a, s) + SizeOf(a, s) == 4096
    ensures !Represents(Store(h, a, s, SizeOf(a, s) - 4, 0), a)
  {
    var next, k := s.page + 4096, SizeOf(a, s) - 4;
    StoreOffset(h, a, live, s, k);
    PowPositive(a.pages[next].idx);
    assert !PageRel(Store(h, a, s, k, 0).pages[next], a.pages[next]);
  }

  lemma SpillHitsPool(h: Heap, a: Slab, live: set<Slot>, s: Slot) returns (v: nat)
    requires Client(h, a, live, s) && s.page + 4096 in a.pool
    requires SizeOf(a, s) >= 8 && WordOf(a, s, SizeOf(a, s) - 8) && s.index * SizeOf(a, s) + SizeOf(a, s) == 4096
    ensures !Represents(Store(h, a, s, SizeOf(a, s) - 8, v), a)
  {
    var next, k := s.page + 4096, SizeOf(a, s) - 8;
    StoreOffset(h, a, live, s, k);
    var j :| 0 <= j < |a.pool| && a.pool[j] == next;
    assert NextOk(h.pages, a.pool, j);
    v := if h.pages[next].next == 0 then 4 else 0;
    assert !NextOk(Store(h, a, s, k, v).pages, a.pool, j);
  }

  lemma SpilledIsLarge(a: Slab, s: Slot)
    requires s.page in a.pages && a.pages[s.page].idx >= 2 && SizeOf(a, s) > 0
    requires s.index * SizeOf(a, s) + SizeOf(a, s) == 4096 && s.index < SlotCount(SizeOf(a, s))
    ensures SizeOf(a, s) > 8 && SizeOf(a, s) % 4 == 0
  {
    Pow2Word(a.pages[s.page].idx);
    SlotStarts(s.index, SizeOf(a, s));
  }

  ghost predicate Harmless(h: Heap, a: Slab, s: Slot, k: nat, v: nat)
  {
    WordOf(a, s, k) ==> Represents(Store(h, a, s, k, v), a)
  }

  /** Clients can do no harm through a live object if and only if it ends inside its page, or what
      follows its page does not belong to the allocator. */
  lemma StoresHarmlessIff(h: Heap, a: Slab, live: set<Slot>, s: Slot)
    requires Client(h, a, live, s)
    ensures (forall k, v :: Harmless(h, a, s, k, v)) <==>
              InsidePage(s.index, SizeOf(a, s)) || s.page + 4096 !in AllPages(a)
  {
    if InsidePage(s.index, SizeOf(a, s)) || s.page + 4096 !in AllPages(a) {
      forall k, v ensures Harmless(h, a, s, k, v) {
        if WordOf(a, s, k) { HarmlessStore(h, a, live, s, k, v); }
      }
    } else {
      SpillDestroys(h, a, live, s);
      var k, v :| WordOf(a, s, k) && !Represents(Store(h, a, s, k, v), a);
      assert !Harmless(h, a, s, k, v);
    }
  }

  lemma HarmlessStore(h: Heap, a: Slab, live: set<Slot>, s: Slot, k: nat, v: nat)
    requires Client(h, a, live, s) && WordOf(a, s, k)
    requires InsidePage(s.index, SizeOf(a, s)) || s.page + 4096 !in AllPages(a)
    ensures Represents(Store(h, a, s, k, v), a)
  {
    StoreOffset(h, a, live, s, k);
    if SlotAddress(s.page, s.index, SizeOf(a, s)) + k < s.page + 4096 {
      InsideStore(h, a, live, s, k, v);
    } else if s.page + 4096 in h.pages {
      ForeignStore(h, a, s.page + 4096, SlotAddress(s.page, s.index, SizeOf(a, s)) + k - (s.page + 4096), v);
    }
  }

  /** A store of a client through the allocator's memory. */
  method ClientStore(m: Allocator, ghost live: set<Slot>, s: Slot, size: nat, k: nat, v: nat)
    requires m.Valid() && Client(m.H(), m.slab, live, s) && size == SizeOf(m.slab, s) && WordOf(m.slab, s, k)
    requires s.index < 4088 / size
    modifies m`pages
    ensures m.Valid() && m.slab == old(m.slab) && m.H() == Store(old(m.H()), old(m.slab), s, k, v)
  {
    InsideIff(s.index, size);
    HarmlessStore(m.H(), m.slab, live, s, k, v);
    var addr := SlotAddress(s.page, s.index, size) + k;
    if PageOf(addr) in m.pages {
      m.pages := m.pages[PageOf(addr) := PokePage(m.pages[PageOf(addr)], addr - PageOf(addr), v)];
    }
  }
}
