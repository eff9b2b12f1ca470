/**
 `kmalloc` and `kfree` as the source has them: page headers linked through `next`, free slots
 linked through the index stored in each free slot.  Every operation refines SlabModel.
 */
module Kmalloc {
  import opened Seqs
  import opened Arith
  import opened SlabModel
  import opened SlabAddress

  /** A pool page: header fields and the first word of every slot.  The first word of a page is
      its `next` field; an unused pool page uses the same word as its link. */
  datatype Hdr = Hdr(next: nat, size: nat, head: int, links: seq<int>)

  datatype Heap = Heap(pool: nat, bags: seq<(nat, nat)>, pages: map<nat, Hdr>)

  /** An allocation returns an address, panics, dereferences a null page, or reads a bag that is
      none. */
  datatype Result = Ptr(p: nat) | Panic | NullDeref | WildBag

  // ---- lists in memory -----------------------------------------------------------------------

  function AddrAt(s: seq<nat>, k: int): nat { if 0 <= k < |s| then s[k] else 0 }

  predicate NextOk(pages: map<nat, Hdr>, s: seq<nat>, k: nat)
    requires k < |s|
  {
    s[k] in pages && s[k] != 0 && pages[s[k]].next == AddrAt(s, k + 1)
  }

  /** Following `next` from `head` visits exactly the pages of `s`. */
  predicate ListAt(pages: map<nat, Hdr>, head: nat, s: seq<nat>) {
    head == AddrAt(s, 0) && forall k | 0 <= k < |s| :: NextOk(pages, s, k)
  }

  function IndexAt(f: seq<nat>, k: int): int { if 0 <= k < |f| then f[k] else -1 }

  predicate LinkOk(links: seq<int>, f: seq<nat>, k: nat)
    requires k < |f|
  {
    f[k] < |links| && links[f[k]] == IndexAt(f, k + 1)
  }

  /** Following the stored indices from `head` visits exactly the slots of `f`. */
  predicate ChainAt(links: seq<int>, head: int, f: seq<nat>) {
    head == IndexAt(f, 0) && forall k | 0 <= k < |f| :: LinkOk(links, f, k)
  }

  predicate PageRel(c: Hdr, p: Page) {
    c.size == Pow2(p.idx) && |c.links| == Slots(p.idx) && ChainAt(c.links, c.head, p.freelist)
  }

  predicate BagRel(h: Heap, a: Slab, idx: nat)
    requires idx < |h.bags| && idx < |a.bags|
  {
    ListAt(h.pages, h.bags[idx].0, a.bags[idx].free) && ListAt(h.pages, h.bags[idx].1, a.bags[idx].full)
  }

  /** The memory `h` holds the lists and chains of the slab `a`. */
  ghost predicate Represents(h: Heap, a: Slab) {
    && |h.bags| == CLASSES == |a.bags|
    && (forall p | p in h.pages :: p % 4096 == 0)
    && ListAt(h.pages, h.pool, a.pool)
    && (forall idx | 0 <= idx < CLASSES :: BagRel(h, a, idx))
    && (forall p | p in a.pages :: p in h.pages && PageRel(h.pages[p], a.pages[p]))
  }

  // ---- small facts ---------------------------------------------------------------------------

  lemma ListKept(pages: map<nat, Hdr>, pages': map<nat, Hdr>, head: nat, s: seq<nat>)
    requires ListAt(pages, head, s)
    requires forall p | p in s :: p in pages' && p in pages && pages'[p].next == pages[p].next
    ensures ListAt(pages', head, s)
  {
    forall k | 0 <= k < |s| ensures NextOk(pages', s, k) { assert NextOk(pages, s, k) && s[k] in s; }
  }

  lemma ListHead(pages: map<nat, Hdr>, head: nat, s: seq<nat>)
    requires ListAt(pages, head, s)
    ensures head == 0 <==> s == []
    ensures s != [] ==> head == s[0] && head in pages
  {
    if s != [] { assert NextOk(pages, s, 0); }
  }

  lemma ListTail(pages: map<nat, Hdr>, head: nat, s: seq<nat>)
    requires ListAt(pages, head, s) && s != []
    ensures head == s[0] && head != 0 && head in pages && ListAt(pages, pages[head].next, s[1..])
  {
    assert NextOk(pages, s, 0);
    forall k | 0 <= k < |s| - 1 ensures NextOk(pages, s[1..], k) { assert NextOk(pages, s, k + 1); }
  }

  lemma ListCons(pages: map<nat, Hdr>, head: nat, s: seq<nat>, p: nat)
    requires ListAt(pages, head, s) && p in pages && p != 0 && pages[p].next == head
    ensures ListAt(pages, p, [p] + s)
  {
    var t := [p] + s;
    forall k | 0 <= k < |t| ensures NextOk(pages, t, k) {
      if k > 0 { assert NextOk(pages, s, k - 1); }
    }
  }

  lemma ChainTail(links: seq<int>, head: int, f: seq<nat>)
    requires ChainAt(links, head, f) && f != []
    ensures 0 <= head < |links| && head == f[0] && ChainAt(links, links[head], f[1..])
  {
    assert LinkOk(links, f, 0);
    forall k | 0 <= k < |f| - 1 ensures LinkOk(links, f[1..], k) { assert LinkOk(links, f, k + 1); }
  }

  /** Writing a slot that is not free leaves the chain alone; writing it with the old head and
      making it the head pushes it. */
  lemma ChainWrite(links: seq<int>, head: int, f: seq<nat>, i: nat, v: int)
    requires ChainAt(links, head, f) && i < |links| && i !in f
    ensures ChainAt(links[i := v], head, f)
    ensures v == head ==> ChainAt(links[i := v], i, [i] + f)
  {
    var l := links[i := v];
    forall k | 0 <= k < |f| ensures LinkOk(l, f, k) { assert LinkOk(links, f, k) && f[k] in f; }
    if v == head {
      var g := [i] + f;
      forall k | 0 <= k < |g| ensures LinkOk(l, g, k) {
        if k > 0 { assert LinkOk(l, f, k - 1); }
      }
    }
  }

  /** Indices that `init_page` writes: each slot names the next, the last one the sentinel. */
  function InitLinks(n: nat): (l: seq<int>)
    ensures |l| == n && forall k | 0 <= k < n :: l[k] == if k == n - 1 then -1 else k + 1
  {
    seq(n, k requires 0 <= k => if k == n - 1 then -1 else k + 1)
  }

  function FreshHdr(idx: nat): Hdr { Hdr(0, Pow2(idx), 0, InitLinks(Slots(idx))) }

  lemma FreshRel(idx: nat)
    requires MIN_CLASS <= idx < CLASSES
    ensures PageRel(FreshHdr(idx), Page(idx, FullFreelist(idx)))
  {
    var f, l := FullFreelist(idx), InitLinks(Slots(idx));
    forall k | 0 <= k < |f| ensures LinkOk(l, f, k) {}
  }

  // ---- updates of the representation ------------------------------------------------------------

  /** Rewriting a page without touching its `next` link. */
  lemma PageUpdate(h: Heap, a: Slab, p: nat, c: Hdr, page: Page)
    requires Represents(h, a) && p in a.pages && c.next == h.pages[p].next && PageRel(c, page)
    ensures Represents(h.(pages := h.pages[p := c]), a.(pages := a.pages[p := page]))
  {
    var h', a' := h.(pages := h.pages[p := c]), a.(pages := a.pages[p := page]);
    ListKept(h.pages, h'.pages, h.pool, a.pool) by { PoolInPages(h, a); }
    forall idx | 0 <= idx < CLASSES ensures BagRel(h', a', idx) {
      assert BagRel(h, a, idx);
      InPages(h.pages, h.bags[idx].0, a.bags[idx].free);
      InPages(h.pages, h.bags[idx].1, a.bags[idx].full);
      ListKept(h.pages, h'.pages, h.bags[idx].0, a.bags[idx].free);
      ListKept(h.pages, h'.pages, h.bags[idx].1, a.bags[idx].full);
    }
  }

  lemma InPages(pages: map<nat, Hdr>, head: nat, s: seq<nat>)
    requires ListAt(pages, head, s)
    ensures forall p | p in s :: p in pages && p != 0
  {
    forall p | p in s ensures p in pages && p != 0 {
      var k :| 0 <= k < |s| && s[k] == p;
      assert NextOk(pages, s, k);
    }
  }

  lemma PoolInPages(h: Heap, a: Slab)
    requires Represents(h, a)
    ensures forall p | p in a.pool :: p in h.pages && p != 0
  {
    InPages(h.pages, h.pool, a.pool);
  }

  /** `p` is on no list but possibly those of class `idx`. */
  predicate OnlyClass(a: Slab, idx: nat, p: nat) {
    p !in a.pool && forall k | 0 <= k < |a.bags| && k != idx :: p !in a.bags[k].free && p !in a.bags[k].full
  }

  lemma PageClass(a: Slab, p: nat)
    requires Inv(a) && p in a.pages
    ensures OnlyClass(a, a.pages[p].idx, p)
  {
    forall k | 0 <= k < CLASSES && k != a.pages[p].idx ensures p !in a.bags[k].free && p !in a.bags[k].full {
      assert BagOk(a, k);
    }
  }

  /** Relinking pages of one class: the other lists keep their links. */
  lemma Relink(h: Heap, a: Slab, idx: nat, h': Heap, a': Slab)
    requires Represents(h, a) && MIN_CLASS <= idx < CLASSES
    requires a'.pool == a.pool && a'.pages == a.pages && |a'.bags| == CLASSES && h'.pool == h.pool
             && |h'.bags| == CLASSES
    requires forall k | 0 <= k < CLASSES && k != idx :: a'.bags[k] == a.bags[k] && h'.bags[k] == h.bags[k]
    requires h'.pages.Keys == h.pages.Keys
    requires forall p | p in h.pages :: h'.pages[p] == h.pages[p].(next := h'.pages[p].next)
    requires forall p | p in h.pages && !OnlyClass(a, idx, p) :: h'.pages[p].next == h.pages[p].next
    requires BagRel(h', a', idx)
    ensures Represents(h', a')
  {
    PoolInPages(h, a);
    ListKept(h.pages, h'.pages, h.pool, a.pool);
    forall k | 0 <= k < CLASSES ensures BagRel(h', a', k) {
      assert BagRel(h, a, k);
      if k != idx {
        InPages(h.pages, h.bags[k].0, a.bags[k].free);
        InPages(h.pages, h.bags[k].1, a.bags[k].full);
        ListKept(h.pages, h'.pages, h.bags[k].0, a.bags[k].free);
        ListKept(h.pages, h'.pages, h.bags[k].1, a.bags[k].full);
      }
    }
  }

  predicate OffLists(a: Slab, p: nat) {
    forall k | 0 <= k < |a.bags| :: p !in a.bags[k].free && p !in a.bags[k].full
  }

  /** Taking the first pool page and initialising it for a class. */
  lemma TakePage(h: Heap, a: Slab, idx: nat)
    requires Represents(h, a) && MIN_CLASS <= idx < CLASSES && a.pool != [] && NoDup(a.pool)
             && (forall p | p in a.pool :: p !in a.pages)
    requires OffLists(a, a.pool[0])
    ensures h.pool == a.pool[0] && h.pool in h.pages && h.pool != 0
    ensures Represents(h.(pool := h.pages[h.pool].next, pages := h.pages[h.pool := FreshHdr(idx)]),
                       WithPage(a, a.pool[0], idx).(pool := a.pool[1..]))
  {
    ListTail(h.pages, h.pool, a.pool);
    FreshRel(idx);
    var page := h.pool;
    var h' := h.(pool := h.pages[page].next, pages := h.pages[page := FreshHdr(idx)]);
    var a' := WithPage(a, page, idx).(pool := a.pool[1..]);
    InPages(h.pages, h'.pool, a.pool[1..]);
    ListKept(h.pages, h'.pages, h'.pool, a.pool[1..]);
    forall k | 0 <= k < CLASSES ensures BagRel(h', a', k) {
      assert BagRel(h, a, k);
      InPages(h.pages, h.bags[k].0, a.bags[k].free);
      InPages(h.pages, h.bags[k].1, a.bags[k].full);
      ListKept(h.pages, h'.pages, h.bags[k].0, a.bags[k].free);
      ListKept(h.pages, h'.pages, h.bags[k].1, a.bags[k].full);
    }
  }

  /** Moving the first free page of a class to its full list. */
  function RetireHeap(h: Heap, idx: nat): Heap
    requires idx < |h.bags| && h.bags[idx].0 in h.pages
  {
    var (page, full) := h.bags[idx];
    h.(bags := h.bags[idx := (h.pages[page].next, page)], pages := h.pages[page := h.pages[page].(next := full)])
  }

  lemma RetireRel(h: Heap, a: Slab, idx: nat)
    requires Represents(h, a) && MIN_CLASS <= idx < CLASSES && a.bags[idx].free != [] && NoDup(a.bags[idx].free)
    requires a.bags[idx].free[0] !in a.bags[idx].full && OnlyClass(a, idx, a.bags[idx].free[0])
    ensures h.bags[idx].0 in h.pages && h.bags[idx].0 == a.bags[idx].free[0]
    ensures Represents(RetireHeap(h, idx),
                       WithBag(a, idx, Bag(a.bags[idx].free[1..], [a.bags[idx].free[0]] + a.bags[idx].full)))
  {
    assert BagRel(h, a, idx);
    var bag := a.bags[idx];
    ListTail(h.pages, h.bags[idx].0, bag.free);
    var h', page := RetireHeap(h, idx), bag.free[0];
    var a' := WithBag(a, idx, Bag(bag.free[1..], [page] + bag.full));
    InPages(h.pages, h.pages[page].next, bag.free[1..]);
    InPages(h.pages, h.bags[idx].1, bag.full);
    ListKept(h.pages, h'.pages, h.pages[page].next, bag.free[1..]);
    ListKept(h.pages, h'.pages, h.bags[idx].1, bag.full);
    ListCons(h'.pages, h.bags[idx].1, bag.full, page);
    Relink(h, a, idx, h', a');
  }

  /** Unlinking the page at position `k` of a list. */
  lemma ListUnlink(pages: map<nat, Hdr>, pages': map<nat, Hdr>, head: nat, s: seq<nat>, k: nat)
    requires ListAt(pages, head, s) && NoDup(s) && k < |s|
    requires forall p | p in s && p != s[k] :: p in pages && p in pages' &&
               pages'[p].next == if k > 0 && p == s[k - 1] then AddrAt(s, k + 1) else pages[p].next
    ensures ListAt(pages', if k == 0 then AddrAt(s, 1) else head, s[..k] + s[k + 1..])
  {
    var t := s[..k] + s[k + 1..];
    forall j | 0 <= j < |t| ensures NextOk(pages', t, j) {
      var i := if j < k then j else j + 1;
      assert t[j] == s[i] && s[i] in s && NextOk(pages, s, i);
    }
  }

  lemma {:induction false} WithoutAt(s: seq<nat>, k: nat)
    requires NoDup(s) && k < |s|
    ensures Without(s, s[k]) == s[..k] + s[k + 1..]
  {
    if k == 0 {
      WithoutAbsent(s[1..], s[0]);
    } else {
      WithoutAt(s[1..], k - 1);
      assert s[..k] + s[k + 1..] == [s[0]] + (s[1..][..k - 1] + s[1..][k..]);
    }
  }

  lemma {:induction false} WithoutAbsent(s: seq<nat>, x: nat)
    requires x !in s
    ensures Without(s, x) == s
  {
    if s != [] { WithoutAbsent(s[1..], x); }
  }

  /** Moving the page at position `k` of the full list to the front of the free list. */
  function RevivePages(pages: map<nat, Hdr>, full: seq<nat>, k: nat, free: nat): map<nat, Hdr>
    requires k < |full| && full[k] in pages && (k > 0 ==> full[k - 1] in pages)
  {
    var unlinked := if k == 0 then pages else pages[full[k - 1] := pages[full[k - 1]].(next := AddrAt(full, k + 1))];
    unlinked[full[k] := pages[full[k]].(next := free)]
  }

  /** The two lists after the move, and the links it leaves alone. */
  lemma ReviveLists(pages: map<nat, Hdr>, freeHead: nat, free: seq<nat>, fullHead: nat, full: seq<nat>, k: nat)
    requires ListAt(pages, freeHead, free) && ListAt(pages, fullHead, full) && NoDup(full) && k < |full|
    requires forall p | p in free :: p !in full
    ensures forall p | p in full :: p in pages
    ensures var pages' := RevivePages(pages, full, k, freeHead);
            && ListAt(pages', full[k], [full[k]] + free)
            && ListAt(pages', if k == 0 then AddrAt(full, 1) else fullHead, Without(full, full[k]))
            && pages'.Keys == pages.Keys
            && (forall p | p in pages :: pages'[p] == pages[p].(next := pages'[p].next))
            && (forall p | p in pages && p !in full :: pages'[p].next == pages[p].next)
  {
    InPages(pages, freeHead, free);
    InPages(pages, fullHead, full);
    var pages' := RevivePages(pages, full, k, freeHead);
    ReviveLinks(pages, full, k, freeHead);
    ListKept(pages, pages', freeHead, free);
    ListCons(pages', freeHead, free, full[k]);
    ListUnlink(pages, pages', fullHead, full, k);
    WithoutAt(full, k);
  }

  lemma ReviveLinks(pages: map<nat, Hdr>, full: seq<nat>, k: nat, free: nat)
    requires k < |full| && NoDup(full) && forall p | p in full :: p in pages
    ensures var pages' := RevivePages(pages, full, k, free);
            && pages'.Keys == pages.Keys && pages'[full[k]].next == free
            && (forall p | p in pages :: pages'[p] == pages[p].(next := pages'[p].next))
            && (forall p | p in pages && p != full[k] ::
                  pages'[p].next == if k > 0 && p == full[k - 1] then AddrAt(full, k + 1) else pages[p].next)
  {}

  lemma ReviveRel(h: Heap, a: Slab, idx: nat, k: nat)
    requires Represents(h, a) && Inv(a) && MIN_CLASS <= idx < CLASSES && k < |a.bags[idx].full|
    ensures forall p | p in a.bags[idx].full :: p in h.pages
    ensures var (bag, page) := (a.bags[idx], a.bags[idx].full[k]);
            var head := if k == 0 then AddrAt(bag.full, 1) else h.bags[idx].1;
            Represents(h.(bags := h.bags[idx := (page, head)],
                  pages := RevivePages(h.pages, bag.full, k, h.bags[idx].0)),
                       WithBag(a, idx, Bag([page] + bag.free, Without(bag.full, page))))
  {
    assert BagRel(h, a, idx) && BagOk(a, idx);
    var bag, page := a.bags[idx], a.bags[idx].full[k];
    FreeUntouched(a, idx);
    ReviveLists(h.pages, h.bags[idx].0, bag.free, h.bags[idx].1, bag.full, k);
    forall p | p in bag.full ensures OnlyClass(a, idx, p) { PageClass(a, p); }
    var head := if k == 0 then AddrAt(bag.full, 1) else h.bags[idx].1;
    var h' := h.(bags := h.bags[idx := (page, head)], pages := RevivePages(h.pages, bag.full, k, h.bags[idx].0));
    Relink(h, a, idx, h', WithBag(a, idx, Bag([page] + bag.free, Without(bag.full, page))));
  }

  lemma FreeUntouched(a: Slab, idx: nat)
    requires Inv(a) && MIN_CLASS <= idx < CLASSES
    ensures forall p | p in a.bags[idx].free :: p !in a.bags[idx].full
  {
    assert BagOk(a, idx);
  }

  // ---- the allocator --------------------------------------------------------------------------------

  /** `__builtin_ffs(x) - 1`. */
  function Ctz(x: nat): nat
    requires x > 0
  {
    if x % 2 == 1 then 0 else 1 + Ctz(x / 2)
  }

  lemma {:induction false} CtzPow2(i: nat)
    ensures Pow2(i) > 0 && Ctz(Pow2(i)) == i
  {
    if i > 0 { CtzPow2(i - 1); }
  }

  /** `(x & (x - 1)) == 0`. */
  predicate IsPow2(x: nat) { x == 1 || (x > 0 && x % 2 == 0 && IsPow2(x / 2)) }

  /** `__builtin_clz(x)`. */
  function Clz(x: nat): int { if x == 0 then 32 else Clz(x / 2) - 1 }

  /** The sizes that have a class: the powers of two from 4 to 256. */
  predicate Served(size: nat) { exists i :: 2 <= i <= 8 && size == Pow2(i) }

  /** The class computed for a size. */
  function ClassIndex(size: nat): int
    requires size > 0
  {
    if IsPow2(size) then Ctz(size) else Clz(size) + 1
  }

  lemma {:induction false} Pow2Ctz(x: nat)
    requires IsPow2(x)
    ensures x > 0 && Pow2(Ctz(x)) == x
  {
    if x != 1 { Pow2Ctz(x / 2); }
  }

  lemma {:induction false} ClzAtLeast(x: nat, k: nat)
    requires x < Pow2(k)
    ensures Clz(x) >= 32 - k
  {
    if x > 0 { ClzAtLeast(x / 2, k - 1); }
  }

  lemma ServedRange(size: nat)
    requires Served(size)
    ensures 4 <= size <= 256
  {
    assert Pow2(2) == 4 && Pow2(3) == 8 && Pow2(4) == 16 && Pow2(5) == 32;
    assert Pow2(6) == 64 && Pow2(7) == 128 && Pow2(8) == 256;
  }

  /** The class computed is one of the nine exactly for the sizes served, and then the right one. */
  lemma ClassIndexServes(size: nat)
    requires 4 <= size <= 512
    ensures 0 <= ClassIndex(size)
    ensures ClassIndex(size) < CLASSES <==> Served(size)
    ensures Served(size) ==> IsPow2(size) && Pow2(ClassIndex(size)) == size
  {
    if Served(size) {
      var i :| 2 <= i <= 8 && size == Pow2(i);
      CtzPow2(i);
      PowersAre(i);
    } else if IsPow2(size) {
      Pow2Ctz(size);
      assert Pow2(0) == 1 && Pow2(1) == 2;
    } else {
      assert Pow2(5) == 32 && Pow2(10) == 32 * Pow2(5);
      ClzAtLeast(size, 10);
    }
  }

  lemma {:induction false} PowersAre(i: nat)
    ensures IsPow2(Pow2(i))
  {
    if i > 0 {
      PowersAre(i - 1);
      assert Pow2(i) / 2 == Pow2(i - 1);
    }
  }

  class Allocator {
    var pool: nat                  // page_freelist_head
    var bags: seq<(nat, nat)>      // free and full list of every class
    var pages: map<nat, Hdr>       // the pool's memory
    ghost var slab: Slab

    ghost function H(): Heap reads this { Heap(pool, bags, pages) }

    ghost predicate Valid() reads this { Represents(H(), slab) && Inv(slab) }

    /** `kmalloc_init`: every pool page links to the next, the last one to the sentinel. */
    constructor (start: nat, size: nat)
      requires start > 0 && start % 4096 == 0 && size > 0 && size % 4096 == 0
      ensures Valid()
      ensures slab.pool == seq(size / 4096, k requires 0 <= k => start + 4096 * k)
      ensures slab.pages == map[] && slab.strays == {}
              && forall idx | 0 <= idx < CLASSES :: slab.bags[idx] == Bag([], [])
    {
      var end := start + size;
      var mem: map<nat, Hdr> := map[];
      var addr := start;
      ghost var n := size / 4096;
      ghost var s: seq<nat> := seq(n, k requires 0 <= k => start + 4096 * k);
      ghost var k := 0;
      while addr < end
        invariant k <= n && addr == start + 4096 * k
        invariant forall p | p in mem :: p % 4096 == 0
        invariant forall j | 0 <= j < k :: s[j] in mem && mem[s[j]].next == s[j] + 4096
      {
        mem := mem[addr := Hdr(addr + 4096, 0, 0, [])];
        addr, k := addr + 4096, k + 1;
      }
      assert end - 4096 == s[n - 1];
      mem := mem[end - 4096 := mem[end - 4096].(next := 0)];
      pool, bags, pages := start, seq(CLASSES, _ => (0, 0)), mem;
      slab := Slab(s, seq(CLASSES, _ => Bag([], [])), map[], {});
      forall j | 0 <= j < |s| ensures NextOk(mem, s, j) {}
    }

    /** `fetch_page`: the first page of the pool, and the rest stays listed. */
    method FetchPage(ghost listed: seq<nat>) returns (ok: bool, page: nat)
      requires ListAt(pages, pool, listed)
      modifies `pool
      ensures ok <==> listed != []
      ensures ok ==> page == listed[0] && page in pages && pool == pages[page].next && ListAt(pages, pool, listed[1..])
      ensures !ok ==> pool == old(pool)
    {
      ListHead(pages, pool, listed);
      if listed != [] { ListTail(pages, pool, listed); }
      page := pool;
      ok := pool != 0;
      if ok { pool := pages[pool].next; }
    }

    /** A page header and its slots, as `initialize_bag` and `fetch_object` prepare them. */
    method PreparePage(page: nat, idx: nat)
      requires MIN_CLASS <= idx < CLASSES
      modifies `pages
      ensures pages == old(pages)[page := FreshHdr(idx)]
    {
      SizeFits(idx);
      var links := InitPage(page, Pow2(idx));
      pages := pages[page := Hdr(0, Pow2(idx), 0, links)];
    }

    /** `freelist_dequeue`. */
    method DequeueFrom(page: nat) returns (ptr: nat)
      requires Represents(H(), slab) && page in slab.pages && slab.pages[page].freelist != []
      modifies `pages, `slab
      ensures Represents(H(), slab) && slab == Dequeue(old(slab), page)
      ensures ptr == SlotAddress(page, old(slab).pages[page].freelist[0], Pow2(slab.pages[page].idx))
      ensures page in pages && (pages[page].head == -1 <==> slab.pages[page].freelist == [])
    {
      var hdr := pages[page];
      ghost var f := slab.pages[page].freelist;
      assert PageRel(hdr, slab.pages[page]);
      ChainTail(hdr.links, hdr.head, f);
      ptr := page + HEADER + hdr.head * hdr.size;
      PageUpdate(H(), slab, page, hdr.(head := hdr.links[hdr.head]), slab.pages[page].(freelist := f[1..]));
      pages := pages[page := hdr.(head := hdr.links[hdr.head])];
      slab := Dequeue(slab, page);
    }

    /** `initialize_bag`. */
    method InitializeBag(idx: nat) returns (ok: bool)
      requires Valid() && MIN_CLASS <= idx < CLASSES && slab.bags[idx] == Bag([], [])
      modifies this
      ensures ok <==> old(slab).pool != []
      ensures !ok ==> slab == old(slab)
      ensures ok ==> Represents(H(), slab) && bags[idx].0 == old(slab).pool[0]
      ensures ok ==> slab == WithBag(WithPage(old(slab), old(slab).pool[0], idx), idx, Bag([old(slab).pool[0]], [])).(
                               pool := old(slab).pool[1..])
    {
      ghost var h, a := H(), slab;
      if a.pool != [] { FreePool(a); TakePage(h, a, idx); }
      var page;
      ok, page := FetchPage(a.pool);
      if !ok { return; }
      PreparePage(page, idx);
      slab := WithPage(a, page, idx).(pool := a.pool[1..]);
      ghost var h1, a1 := H(), slab;
      bags := bags[idx := (page, 0)];
      slab := WithBag(slab, idx, Bag([page], []));
      assert NextOk(pages, [page], 0);
      Relink(h1, a1, idx, H(), slab);
    }

    /** The page whose last slot was taken moves to the full list; if no free page is left, a new
        page is prepared but, as in the source, not stored in the bag. */
    method RetireFirst(idx: nat) returns (ok: bool)
      requires Represents(H(), slab) && MIN_CLASS <= idx < CLASSES
      requires slab.bags[idx].free != [] && NoDup(slab.bags[idx].free)
      requires slab.bags[idx].free[0] !in slab.bags[idx].full && OnlyClass(slab, idx, slab.bags[idx].free[0])
      requires NoDup(slab.pool) && (forall p | p in slab.pool :: p !in slab.pages)
      requires forall p | p in slab.pool :: OffLists(slab, p)
      modifies this
      ensures ok == Retire(old(slab), idx).1
      ensures ok ==> Represents(H(), slab) && slab == Retire(old(slab), idx).0
    {
      ghost var a := slab;
      RetireRel(H(), slab, idx);
      var page := bags[idx].0;
      var full := bags[idx].1;
      bags := bags[idx := (pages[page].next, page)];
      pages := pages[page := pages[page].(next := full)];
      slab := WithBag(a, idx, Bag(a.bags[idx].free[1..], [a.bags[idx].free[0]] + a.bags[idx].full));
      assert BagRel(H(), slab, idx);
      ok := true;
      assert bags[idx].0 == AddrAt(slab.bags[idx].free, 0);
      if bags[idx].0 == 0 {
        assert a.bags[idx].free[1..] == [] by {
          if a.bags[idx].free[1..] != [] { ListTail(pages, bags[idx].0, a.bags[idx].free[1..]); }
        }
        if a.pool != [] {
          OffRetired(a, idx, a.pool[0]);
          TakePage(H(), slab, idx);
        }
        var newPage;
        ok, newPage := FetchPage(a.pool);
        if ok {
          PreparePage(newPage, idx);
          slab := WithPage(slab, newPage, idx).(pool := a.pool[1..]);
          StraysAside(H(), slab, a.strays + {newPage});
          slab := slab.(strays := a.strays + {newPage});
        }
      }
    }

    /** `fetch_object`. */
    method Fetch(idx: nat) returns (r: Result)
      requires Valid() && MIN_CLASS <= idx < CLASSES
      modifies this
      ensures r == Panic <==> FetchObject(old(slab), idx).0 == NoPages
      ensures r == NullDeref <==> FetchObject(old(slab), idx).0 == NullBag
      ensures r != WildBag
      ensures r.Ptr? ==> Valid() && slab == FetchObject(old(slab), idx).1
      ensures r.Ptr? ==> var s := FetchObject(old(slab), idx).0.slot; r.p == SlotAddress(s.page, s.index, Pow2(idx))
    {
      ghost var a := slab;
      assert BagRel(H(), slab, idx) && BagOk(slab, idx);
      ListHead(pages, bags[idx].0, slab.bags[idx].free);
      ListHead(pages, bags[idx].1, slab.bags[idx].full);
      if FetchObject(a, idx).0.Object? { ObjectInv(a, idx); }
      if bags[idx].0 == 0 && bags[idx].1 == 0 {
        assert a.bags[idx] == Bag([], []);
        var ok := InitializeBag(idx);
        if !ok { return Panic; }
        var ptr := DequeueFrom(bags[idx].0);
        return Ptr(ptr);
      }
      if bags[idx].0 == 0 { return NullDeref; }
      r := FetchFromFree(idx);
    }

    /** The usual path of `fetch_object`: the class has a page with a free slot. */
    method FetchFromFree(idx: nat) returns (r: Result)
      requires Valid() && MIN_CLASS <= idx < CLASSES && slab.bags[idx].free != []
      modifies this
      ensures r == Panic <==> FetchObject(old(slab), idx).0 == NoPages
      ensures r != NullDeref && r != WildBag && FetchObject(old(slab), idx).0 != NullBag
      ensures r.Ptr? ==> Represents(H(), slab) && slab == FetchObject(old(slab), idx).1
      ensures r.Ptr? ==> var s := FetchObject(old(slab), idx).0.slot; r.p == SlotAddress(s.page, s.index, Pow2(idx))
    {
      ghost var a := slab;
      assert BagRel(H(), slab, idx) && BagOk(slab, idx);
      ListHead(pages, bags[idx].0, slab.bags[idx].free);
      var page := bags[idx].0;
      assert OnFree(a, idx, page);
      PageClass(a, page);
      FreePool(a);
      FreeUntouched(a, idx);
      var ptr := DequeueFrom(page);
      if pages[page].head == -1 {
        var ok := RetireFirst(idx);
        if !ok { return Panic; }
      }
      r := Ptr(ptr);
    }

    /** `kmalloc`: sizes outside 4 to 512 give null, the powers of two from 4 to 256 select their
        class, and all other sizes an index behind the array of bags. */
    method Kmalloc(size: nat) returns (r: Result)
      requires Valid()
      modifies this
      ensures size < 4 || size > 512 ==> r == Ptr(0) && slab == old(slab) && Valid()
      ensures r == WildBag <==> 4 <= size <= 512 && !Served(size)
      ensures forall i | 2 <= i <= 8 && size == Pow2(i) ::
                var f := FetchObject(old(slab), i);
                match r
                case Ptr(p) => f.0.Object? && p == SlotAddress(f.0.slot.page, f.0.slot.index, size) && slab == f.1
                    && Valid()
                case Panic => f.0 == NoPages
                case NullDeref => f.0 == NullBag
                case WildBag => false
    {
      if Served(size) { ServedRange(size); }
      forall k | 2 <= k <= 8 && size == Pow2(k) ensures Served(size) && Ctz(size) == k { CtzPow2(k); }
      if size < 4 || size > 512 { return Ptr(0); }
      ClassIndexServes(size);
      var idx := if IsPow2(size) then Ctz(size) else Clz(size) + 1;
      if idx >= CLASSES { return WildBag; }
      r := Fetch(idx);
    }

    /** The search of `kfree` in the full list, and the move of the page to the free list. */
    method Revive(page: nat, idx: nat)
      requires Valid() && MIN_CLASS <= idx < CLASSES && page in slab.bags[idx].full
      modifies `bags, `pages, `slab
      ensures Represents(H(), slab) && page in pages && page in old(pages)
      ensures pages[page] == old(pages)[page].(next := pages[page].next)
      ensures var bag := old(slab).bags[idx];
              slab == WithBag(old(slab), idx, Bag([page] + bag.free, Without(bag.full, page)))
    {
      ghost var full := slab.bags[idx].full;
      ghost var k :| 0 <= k < |full| && full[k] == page;
      assert BagRel(H(), slab, idx) && BagOk(slab, idx);
      ListHead(pages, bags[idx].1, full);
      ReviveRel(H(), slab, idx, k);
      var current, free := bags[idx].1, bags[idx].0;
      assert NextOk(pages, full, k);
      if current != page {
        current := FindBefore(current, page, full, k);
        assert NextOk(pages, full, k - 1);
        pages := pages[current := pages[current].(next := pages[pages[current].next].next)];
        pages := pages[page := pages[page].(next := free)];
        bags := bags[idx := (page, bags[idx].1)];
      } else {
        assert k == 0;
        bags := bags[idx := (current, pages[current].next)];
        pages := pages[current := pages[current].(next := free)];
      }
      slab := WithBag(slab, idx, Bag([page] + slab.bags[idx].free, Without(full, page)));
    }

    /** The walk along `next`: it ends, and at the page before the one looked for. */
    method FindBefore(first: nat, page: nat, ghost full: seq<nat>, ghost k: nat) returns (current: nat)
      requires ListAt(pages, first, full) && NoDup(full) && 0 < k < |full| && full[k] == page
      ensures current == full[k - 1] && current in pages && pages[current].next == page
    {
      current := first;
      ghost var j := 0;
      assert NextOk(pages, full, 0);
      while pages[current].next != 0 && pages[current].next != page
        invariant 0 <= j < k && current == full[j] && current in pages
        decreases k - j
      {
        assert NextOk(pages, full, j) && NextOk(pages, full, j + 1);
        current, j := pages[current].next, j + 1;
      }
      assert NextOk(pages, full, j) && NextOk(pages, full, j + 1);
    }

    /** `kfree` of a live object. */
    method Kfree(ptr: nat, ghost live: set<Slot>, ghost s: Slot)
      requires Valid() && LiveOk(slab, live) && s in live
      requires ptr == SlotAddress(s.page, s.index, Pow2(slab.pages[s.page].idx))
      modifies this
      ensures Valid() && LiveOk(slab, live - {s})
      ensures s.page in old(slab).pages && MIN_CLASS <= old(slab).pages[s.page].idx < CLASSES
      ensures slab == Free(old(slab), s)
    {
      ghost var a := slab;
      LivePageLinked(a, live, s);
      FreeKeeps(a, live, s);
      ghost var idx := a.pages[s.page].idx;
      assert PageRel(pages[s.page], a.pages[s.page]);
      CtzPow2(idx);
      AddressRoundTrip(s.page, s.index, Pow2(idx));
      var page := PageOf(ptr);
      if pages[page].head == -1 { Revive(page, Ctz(pages[page].size)); }
      EnqueueTo(page, IndexOf(ptr, pages[page].size));
    }

    /** `freelist_enqueue`. */
    method EnqueueTo(page: nat, offset: nat)
      requires Represents(H(), slab) && page in slab.pages && offset < Slots(slab.pages[page].idx)
      requires offset !in slab.pages[page].freelist
      modifies `pages, `slab
      ensures Represents(H(), slab)
      ensures slab == old(slab).(pages := old(slab).pages[page :=
                        old(slab).pages[page].(freelist := [offset] + old(slab).pages[page].freelist)])
    {
      var hdr := pages[page];
      ghost var p := slab.pages[page];
      assert PageRel(hdr, p);
      ChainWrite(hdr.links, hdr.head, p.freelist, offset, hdr.head);
      var hdr' := hdr.(links := hdr.links[offset := hdr.head], head := offset);
      PageUpdate(H(), slab, page, hdr', p.(freelist := [offset] + p.freelist));
      pages := pages[page := hdr'];
      slab := slab.(pages := slab.pages[page := p.(freelist := [offset] + p.freelist)]);
    }
  }

  lemma SizeFits(idx: nat)
    requires MIN_CLASS <= idx <= 8
    ensures 4 <= Pow2(idx) <= 4088
  {
    Pow2Divides(idx, 8);
    Pow2Divides(2, idx);
    assert Pow2(4) == 16 && Pow2(8) == 16 * Pow2(4);
  }

  lemma FreePool(a: Slab)
    requires Inv(a)
    ensures forall p | p in a.pool :: OffLists(a, p)
  {
    forall p | p in a.pool ensures OffLists(a, p) {
      forall k | 0 <= k < CLASSES ensures p !in a.bags[k].free && p !in a.bags[k].full { assert BagOk(a, k); }
    }
  }

  lemma StraysAside(h: Heap, a: Slab, strays: set<nat>)
    requires Represents(h, a)
    ensures Represents(h, a.(strays := strays))
  {
    forall k | 0 <= k < CLASSES ensures BagRel(h, a.(strays := strays), k) { assert BagRel(h, a, k); }
  }

  lemma OffRetired(a: Slab, idx: nat, p: nat)
    requires idx < |a.bags| && a.bags[idx].free != [] && OffLists(a, p)
    ensures OffLists(WithBag(a, idx, Bag(a.bags[idx].free[1..], [a.bags[idx].free[0]] + a.bags[idx].full)), p)
  {
    assert a.bags[idx].free[0] in a.bags[idx].free;
  }

  /** `init_page`: one link a slot while slots start inside the page, then the sentinel. */
  method InitPage(page: nat, size: nat) returns (links: seq<int>)
    requires 4 <= size <= 4088
    ensures links == InitLinks(SlotCount(size))
  {
    links := [];
    var i, addr := 0, page + HEADER;
    while addr < page + 4096
      invariant addr == page + HEADER + i * size && |links| == i && i <= SlotCount(size)
      invariant forall k | 0 <= k < i :: links[k] == k + 1
      decreases page + 4096 + size - addr
    {
      CeilDivMeaning(4088, size, i);
      links := links + [i + 1];
      addr, i := addr + size, i + 1;
    }
    CeilDivMeaning(4088, size, i);
    CeilDivMeaning(4088, size, 0);
    links := links[i - 1 := -1];
  }
}
