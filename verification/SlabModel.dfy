/**
 The slab allocator as a state machine over sequences: per size class a list of pages with
 free slots and a list of full pages, and per page the list of its free slots.
 */
module SlabModel {
  import opened Seqs
  import opened Arith

  const CLASSES: nat := 9
  /** The class of MIN_BLOCK_SIZE: below it `init_page` would store overlapping words. */
  const MIN_CLASS: nat := 2

  function Pow2(i: nat): nat { if i == 0 then 1 else 2 * Pow2(i - 1) }

  /** Slots that `init_page` makes: one for every object that starts inside the page. */
  function SlotCount(size: nat): nat
    requires size > 0
  {
    CeilDiv(4088, size)
  }

  datatype Page = Page(idx: nat, freelist: seq<nat>)
  datatype Bag = Bag(free: seq<nat>, full: seq<nat>)

  /** `strays` are pages prepared by `fetch_object` but never linked into their bag. */
  datatype Slab = Slab(pool: seq<nat>, bags: seq<Bag>, pages: map<nat, Page>, strays: set<nat>)

  datatype Slot = Slot(page: nat, index: nat)

  /** Result of an allocation: an object, the panic for want of pages, or a null dereference. */
  datatype Fetch = Object(slot: Slot) | NoPages | NullBag

  function Slots(idx: nat): nat
    ensures idx <= 8 ==> Slots(idx) > 1
  {
    if idx <= 8 then SlotsMany(idx); SlotCount(Pow2(idx)) else 0
  }

  lemma SlotsMany(idx: nat)
    requires idx <= 8
    ensures Pow2(idx) > 0 && SlotCount(Pow2(idx)) > 1
  {
    assert Pow2(0) == 1 && Pow2(1) == 2 && Pow2(2) == 4 && Pow2(3) == 8;
    assert Pow2(4) == 16 && Pow2(5) == 32 && Pow2(6) == 64 && Pow2(7) == 128 && Pow2(8) == 256;
  }

  function FullFreelist(idx: nat): (f: seq<nat>)
    ensures |f| == Slots(idx) && forall k | 0 <= k < |f| :: f[k] == k
  {
    seq(Slots(idx), k requires 0 <= k => k)
  }

  // ---- the operations ------------------------------------------------------------------------

  /** A freshly initialised page: all slots free, in order. */
  function WithPage(a: Slab, page: nat, idx: nat): Slab {
    a.(pages := a.pages[page := Page(idx, FullFreelist(idx))])
  }

  /** `freelist_dequeue` on an initialised page. */
  function Dequeue(a: Slab, page: nat): Slab
    requires page in a.pages && a.pages[page].freelist != []
  {
    a.(pages := a.pages[page := a.pages[page].(freelist := a.pages[page].freelist[1..])])
  }

  function WithBag(a: Slab, idx: nat, bag: Bag): Slab
    requires idx < |a.bags|
  {
    a.(bags := a.bags[idx := bag])
  }

  /** The bookkeeping after the last slot of the first free page is gone: the page moves to the
      full list and, if it was the only free page, a new page is prepared. */
  function Retire(a: Slab, idx: nat): (Slab, bool)
    requires idx < |a.bags| && a.bags[idx].free != []
  {
    var bag := a.bags[idx];
    var a' := WithBag(a, idx, Bag(bag.free[1..], [bag.free[0]] + bag.full));
    if bag.free[1..] != [] then (a', true)
    else if a.pool == [] then (a', false)
    else (WithPage(a', a.pool[0], idx).(pool := a.pool[1..], strays := a.strays + {a.pool[0]}), true)
  }

  /** `fetch_object`. */
  function FetchObject(a: Slab, idx: nat): (Fetch, Slab)
    requires Inv(a) && MIN_CLASS <= idx < CLASSES
  {
    var bag := a.bags[idx];
    if bag.free == [] && bag.full == [] then
      if a.pool == [] then (NoPages, a) else
      var page := a.pool[0];
      var a' := WithBag(WithPage(a, page, idx), idx, Bag([page], [])).(pool := a.pool[1..]);
      (Object(Slot(page, 0)), Dequeue(a', page))
    else if bag.free == [] then (NullBag, a)
    else
      var page := bag.free[0];
      assert BagOk(a, idx) && OnFree(a, idx, page);
      var slot, a' := Slot(page, a.pages[page].freelist[0]), Dequeue(a, page);
      if a'.pages[page].freelist != [] then (Object(slot), a') else
      var (a'', ok) := Retire(a', idx);
      (if ok then Object(slot) else NoPages, a'')
  }

  function Without(s: seq<nat>, x: nat): (r: seq<nat>)
    ensures forall y :: y in r <==> y in s && y != x
  {
    if s == [] then [] else if s[0] == x then Without(s[1..], x) else [s[0]] + Without(s[1..], x)
  }

  /** `kfree`: a full page goes back to the front of the free list, then the slot heads its freelist. */
  function Free(a: Slab, slot: Slot): Slab
    requires slot.page in a.pages && a.pages[slot.page].idx < |a.bags|
  {
    var page := a.pages[slot.page];
    var bag := a.bags[page.idx];
    var a' := if page.freelist == []
      then WithBag(a, page.idx, Bag([slot.page] + bag.free, Without(bag.full, slot.page))) else a;
    a'.(pages := a.pages[slot.page := page.(freelist := [slot.index] + page.freelist)])
  }

  // ---- the invariant ----------------------------------------------------------------------------

  predicate OnFree(a: Slab, idx: nat, p: nat) { p in a.pages && a.pages[p].idx == idx && a.pages[p].freelist != [] }
  predicate OnFull(a: Slab, idx: nat, p: nat) { p in a.pages && a.pages[p].idx == idx && a.pages[p].freelist == [] }

  /** A bag lists each of its pages once, on the free list if it has a free slot, else on the full list. */
  predicate BagOk(a: Slab, idx: nat)
    requires idx < |a.bags|
  {
    && NoDup(a.bags[idx].free) && NoDup(a.bags[idx].full)
    && (forall p | p in a.bags[idx].free :: OnFree(a, idx, p) && p !in a.strays)
    && (forall p | p in a.bags[idx].full :: OnFull(a, idx, p) && p !in a.strays)
  }

  /** A freelist has no repetition and stays in range. */
  predicate PageOk(page: Page) {
    MIN_CLASS <= page.idx < CLASSES && NoDup(page.freelist) && forall i | i in page.freelist :: i < Slots(page.idx)
  }

  predicate Linked(a: Slab, p: nat)
    requires p in a.pages && a.pages[p].idx < |a.bags|
  {
    p in a.bags[a.pages[p].idx].free || p in a.bags[a.pages[p].idx].full
  }

  /** Every initialised page is in its bag or a stray, and pool pages are not initialised. */
  predicate Inv(a: Slab) {
    && |a.bags| == CLASSES
    && (forall p | p in a.pages :: PageOk(a.pages[p]) && (p in a.strays || Linked(a, p)))
    && (forall p | p in a.strays :: p in a.pages && a.pages[p].freelist == FullFreelist(a.pages[p].idx))
    && (forall idx | 0 <= idx < CLASSES :: BagOk(a, idx))
    && NoDup(a.pool) && (forall p | p in a.pool :: p !in a.pages)
  }

  /** The pages of the pool, whatever became of them. */
  function AllPages(a: Slab): set<nat> { (set p | p in a.pool) + a.pages.Keys }

  // ---- live objects --------------------------------------------------------------------------------

  /** The slots of a page split exactly into its freelist and its live objects. */
  ghost predicate Split(a: Slab, live: set<Slot>, p: nat)
    requires p in a.pages
  {
    forall i | 0 <= i < Slots(a.pages[p].idx) :: i in a.pages[p].freelist <==> Slot(p, i) !in live
  }

  ghost predicate LiveOk(a: Slab, live: set<Slot>) {
    && (forall s | s in live :: s.page in a.pages && s.index < Slots(a.pages[s.page].idx))
    && (forall p | p in a.pages :: Split(a, live, p))
  }

  // ---- what every operation keeps --------------------------------------------------------------------

  /** The slot handed out was not live, is in range, and belongs to a page of the class. */
  ghost predicate Allocated(a: Slab, a': Slab, live: set<Slot>, idx: nat, s: Slot) {
    && Inv(a') && LiveOk(a', live + {s}) && s !in live
    && s.page in a'.pages && a'.pages[s.page].idx == idx && s.index < Slots(idx)
    && AllPages(a') == AllPages(a)
  }

  lemma BagsKept(a: Slab, a': Slab, idx: nat)
    requires Inv(a) && MIN_CLASS <= idx < CLASSES && |a'.bags| == CLASSES
    requires forall k | 0 <= k < CLASSES && k != idx :: a'.bags[k] == a.bags[k]
    requires forall p | p in a.pages && a.pages[p].idx != idx :: p in a'.pages && a'.pages[p] == a.pages[p]
    requires a.strays <= a'.strays && (forall p | p in a'.strays && p !in a.strays :: p !in a.pages)
    ensures forall k | 0 <= k < CLASSES && k != idx :: BagOk(a', k)
  {
    forall k | 0 <= k < CLASSES && k != idx ensures BagOk(a', k) { assert BagOk(a, k); }
  }

  /** Removing the head of a freelist makes its slot live and no other. */
  lemma TailSplit(a: Slab, a': Slab, live: set<Slot>, page: nat)
    requires LiveOk(a, live) && page in a.pages && PageOk(a.pages[page]) && a.pages[page].freelist != []
    requires a'.pages == a.pages[page := a.pages[page].(freelist := a.pages[page].freelist[1..])]
    ensures PageOk(a'.pages[page]) && Slot(page, a.pages[page].freelist[0]) !in live
    ensures LiveOk(a', live + {Slot(page, a.pages[page].freelist[0])})
  {
    var f := a.pages[page].freelist;
    var s := Slot(page, f[0]);
    assert f[0] in f && Split(a, live, page);
    assert forall i :: i in f <==> i == f[0] || i in f[1..] by { assert f == [f[0]] + f[1..]; }
    forall p | p in a'.pages ensures Split(a', live + {s}, p) {
      assert Split(a, live, p);
    }
  }

  /** A freshly initialised page carries no live object. */
  lemma FreshSplit(a: Slab, a': Slab, live: set<Slot>, page: nat, idx: nat)
    requires LiveOk(a, live) && page !in a.pages && MIN_CLASS <= idx < CLASSES
    requires a'.pages == a.pages[page := Page(idx, FullFreelist(idx))]
    ensures PageOk(a'.pages[page]) && LiveOk(a', live)
  {
    var f := FullFreelist(idx);
    assert forall i | 0 <= i < Slots(idx) :: i in f by {
      forall i | 0 <= i < Slots(idx) ensures i in f { assert f[i] == i; }
    }
    forall p | p in a'.pages ensures Split(a', live, p) {
      if p != page { assert Split(a, live, p); }
    }
  }

  lemma FirstShape(a: Slab, idx: nat)
    requires Inv(a) && MIN_CLASS <= idx < CLASSES && a.bags[idx] == Bag([], []) && a.pool != []
    ensures var page, p := a.pool[0], FetchObject(a, idx);
            && page !in a.pages && p.0 == Object(Slot(page, 0))
            && p.1.pool == a.pool[1..] && p.1.strays == a.strays && p.1.bags == a.bags[idx := Bag([page], [])]
            && p.1.pages == a.pages[page := Page(idx, FullFreelist(idx)[1..])]
  {
    assert a.pool[0] in a.pool;
  }

  /** First allocation of a class: a page from the pool. */
  lemma FetchFirst(a: Slab, live: set<Slot>, idx: nat)
    requires Inv(a) && LiveOk(a, live) && MIN_CLASS <= idx < CLASSES
    requires a.bags[idx] == Bag([], []) && a.pool != []
    ensures FetchObject(a, idx).0.Object? && Allocated(a, FetchObject(a, idx).1, live, idx, FetchObject(a, idx).0.slot)
  {
    var page, a' := a.pool[0], FetchObject(a, idx).1;
    FirstShape(a, idx);
    FreshSplit(a, WithPage(a, page, idx), live, page, idx);
    TailSplit(WithPage(a, page, idx), a', live, page);
    BagsKept(a, a', idx);
    assert BagOk(a', idx);
    forall p | p in a'.pages ensures PageOk(a'.pages[p]) && (p in a'.strays || Linked(a', p)) {
      if p != page { assert PageOk(a.pages[p]); }
    }
    assert a.pool == [page] + a'.pool;
  }

  /** Dequeuing from a page that keeps free slots. */
  lemma FetchMore(a: Slab, live: set<Slot>, idx: nat)
    requires Inv(a) && LiveOk(a, live) && MIN_CLASS <= idx < CLASSES && a.bags[idx].free != []
    requires a.bags[idx].free[0] in a.pages && |a.pages[a.bags[idx].free[0]].freelist| > 1
    ensures FetchObject(a, idx).0.Object? && Allocated(a, FetchObject(a, idx).1, live, idx, FetchObject(a, idx).0.slot)
  {
    var page, a' := a.bags[idx].free[0], FetchObject(a, idx).1;
    assert BagOk(a, idx) && OnFree(a, idx, page);
    TailSplit(a, a', live, page);
    BagsKept(a, a', idx);
    assert BagOk(a', idx);
    forall p | p in a'.pages ensures PageOk(a'.pages[p]) && (p in a'.strays || Linked(a', p)) {
      if p != page { assert PageOk(a.pages[p]); }
    }
  }

  lemma LastShape(a: Slab, idx: nat)
    requires Inv(a) && MIN_CLASS <= idx < CLASSES && |a.bags[idx].free| > 1
    requires a.bags[idx].free[0] in a.pages && |a.pages[a.bags[idx].free[0]].freelist| == 1
    ensures var page, p := a.bags[idx].free[0], FetchObject(a, idx);
            && p.0 == Object(Slot(page, a.pages[page].freelist[0]))
            && p.1.pool == a.pool && p.1.strays == a.strays && p.1.pages == Dequeue(a, page).pages
            && p.1.bags == a.bags[idx := Bag(a.bags[idx].free[1..], [page] + a.bags[idx].full)]
  {}

  /** Dequeuing the last free slot of a page retires the page to the full list. */
  lemma FetchLast(a: Slab, live: set<Slot>, idx: nat)
    requires Inv(a) && LiveOk(a, live) && MIN_CLASS <= idx < CLASSES && |a.bags[idx].free| > 1
    requires a.bags[idx].free[0] in a.pages && |a.pages[a.bags[idx].free[0]].freelist| == 1
    ensures FetchObject(a, idx).0.Object? && Allocated(a, FetchObject(a, idx).1, live, idx, FetchObject(a, idx).0.slot)
  {
    var page, a' := a.bags[idx].free[0], FetchObject(a, idx).1;
    assert BagOk(a, idx) && OnFree(a, idx, page);
    LastShape(a, idx);
    TailSplit(a, a', live, page);
    BagsKept(a, a', idx);
    RetiredBag(a, a', idx);
    forall p | p in a'.pages ensures PageOk(a'.pages[p]) && (p in a'.strays || Linked(a', p)) {
      assert PageOk(a.pages[p]) && (p in a.strays || Linked(a, p));
    }
  }

  /** State after the last slot of the only free page: a new page is prepared and becomes a stray. */
  lemma VeryLastShape(a: Slab, idx: nat)
    requires Inv(a) && MIN_CLASS <= idx < CLASSES && |a.bags[idx].free| == 1 && a.pool != []
    requires a.bags[idx].free[0] in a.pages && |a.pages[a.bags[idx].free[0]].freelist| == 1
    ensures var page, stray, p := a.bags[idx].free[0], a.pool[0], FetchObject(a, idx);
            && stray !in a.pages && a.pages[page].idx == idx && a.bags[idx].free == [page]
            && p.0 == Object(Slot(page, a.pages[page].freelist[0]))
            && p.1.pool == a.pool[1..] && p.1.strays == a.strays + {stray}
            && p.1.bags == a.bags[idx := Bag([], [page] + a.bags[idx].full)]
            && p.1.pages == Dequeue(a, page).pages[stray := Page(idx, FullFreelist(idx))]
  {
    assert BagOk(a, idx) && OnFree(a, idx, a.bags[idx].free[0]);
    assert a.pool[0] in a.pool;
  }

  lemma StrayRest(a: Slab, a': Slab, page: nat, stray: nat, idx: nat)
    requires Inv(a) && a.pool != [] && stray == a.pool[0] && page in a.pages && page !in a.strays
             && a'.pool == a.pool[1..]
    requires a'.strays == a.strays + {stray} && a'.pages.Keys == a.pages.Keys + {stray}
    requires forall p | p in a.pages && p != page :: a'.pages[p] == a.pages[p]
    requires a'.pages[stray] == Page(idx, FullFreelist(idx))
    ensures forall p | p in a'.strays :: p in a'.pages && a'.pages[p].freelist == FullFreelist(a'.pages[p].idx)
    ensures NoDup(a'.pool) && (forall p | p in a'.pool :: p !in a'.pages)
    ensures AllPages(a') == AllPages(a)
  {
    assert a.pool == [stray] + a'.pool;
    assert stray !in a'.pool;
  }

  lemma FetchVeryLast(a: Slab, live: set<Slot>, idx: nat)
    requires Inv(a) && LiveOk(a, live) && MIN_CLASS <= idx < CLASSES && |a.bags[idx].free| == 1 && a.pool != []
    requires a.bags[idx].free[0] in a.pages && |a.pages[a.bags[idx].free[0]].freelist| == 1
    ensures FetchObject(a, idx).0.Object? && Allocated(a, FetchObject(a, idx).1, live, idx, FetchObject(a, idx).0.slot)
  {
    var page, stray, a' := a.bags[idx].free[0], a.pool[0], FetchObject(a, idx).1;
    VeryLastShape(a, idx);
    assert BagOk(a, idx) && PageOk(a.pages[page]);
    var b := Dequeue(a, page);
    TailSplit(a, b, live, page);
    FreshSplit(b, a', live + {Slot(page, a.pages[page].freelist[0])}, stray, idx);
    BagsKept(a, a', idx);
    RetiredBag(a, a', idx);
    StrayPages(a, a', idx, page, stray);
    StrayRest(a, a', page, stray, idx);
  }

  lemma StrayPages(a: Slab, a': Slab, idx: nat, page: nat, stray: nat)
    requires Inv(a) && MIN_CLASS <= idx < CLASSES && page in a.pages && stray !in a.pages && |a'.bags| == CLASSES
    requires a'.pages.Keys == a.pages.Keys + {stray} && a'.strays == a.strays + {stray}
    requires forall p | p in a.pages && p != page :: a'.pages[p] == a.pages[p]
    requires a.bags[idx].free == [page] && a'.bags == a.bags[idx := Bag([], [page] + a.bags[idx].full)]
    requires PageOk(a'.pages[page]) && a'.pages[page].idx == idx && PageOk(a'.pages[stray])
    ensures forall p | p in a'.pages :: PageOk(a'.pages[p]) && (p in a'.strays || Linked(a', p))
  {
    forall p | p in a'.pages ensures PageOk(a'.pages[p]) && (p in a'.strays || Linked(a', p)) {
      if p in a.pages && p != page { assert PageOk(a.pages[p]); }
    }
  }

  lemma RetiredBag(a: Slab, a': Slab, idx: nat)
    requires Inv(a) && MIN_CLASS <= idx < CLASSES && a.bags[idx].free != [] && |a'.bags| == CLASSES
    requires a'.bags[idx] == Bag(a.bags[idx].free[1..], [a.bags[idx].free[0]] + a.bags[idx].full)
    requires forall p | p in a.pages && p != a.bags[idx].free[0] :: p in a'.pages && a'.pages[p] == a.pages[p]
    requires OnFull(a', idx, a.bags[idx].free[0])
    requires forall p | p in a'.strays && p !in a.strays :: p !in a.pages
    ensures BagOk(a', idx)
  {
    var bag, bag' := a.bags[idx], a'.bags[idx];
    assert BagOk(a, idx);
    assert bag.free[0] in bag.free && bag.free[0] !in bag.full;
    forall p | p in bag'.free ensures OnFree(a', idx, p) && p !in a'.strays {
      assert p in bag.free && p != bag.free[0];
    }
    forall p | p in bag'.full ensures OnFull(a', idx, p) && p !in a'.strays {
      assert p == bag.free[0] || p in bag.full;
    }
  }

  /** The next allocation takes the last free slot of the class. */
  predicate OneLeft(a: Slab, idx: nat)
    requires idx < |a.bags|
  {
    |a.bags[idx].free| == 1 && a.bags[idx].free[0] in a.pages && |a.pages[a.bags[idx].free[0]].freelist| == 1
  }

  /** An allocation faults exactly when the class has pages but no free slot, panics exactly when
      it asks an empty pool for a page, and loses a page exactly when it takes the last free slot. */
  lemma FetchOutcome(a: Slab, idx: nat)
    requires Inv(a) && MIN_CLASS <= idx < CLASSES
    ensures FetchObject(a, idx).0 == NullBag <==> a.bags[idx].free == [] && a.bags[idx].full != []
    ensures FetchObject(a, idx).0 == NoPages <==> a.pool == [] && (a.bags[idx] == Bag([], []) || OneLeft(a, idx))
    ensures FetchObject(a, idx).1.strays == a.strays + if a.pool != [] && OneLeft(a, idx) then {a.pool[0]} else {}
    ensures a.pool != [] ==> a.pool[0] !in a.strays
  {
    assert BagOk(a, idx);
    if a.bags[idx].free != [] { assert OnFree(a, idx, a.bags[idx].free[0]); }
    if a.pool != [] { assert a.pool[0] in a.pool; }
  }

  /** Every successful allocation hands out a slot that was not live and keeps the invariant. */
  lemma FetchKeeps(a: Slab, live: set<Slot>, idx: nat)
    requires Inv(a) && LiveOk(a, live) && MIN_CLASS <= idx < CLASSES && FetchObject(a, idx).0.Object?
    ensures Allocated(a, FetchObject(a, idx).1, live, idx, FetchObject(a, idx).0.slot)
  {
    var bag := a.bags[idx];
    if bag.free == [] {
      assert bag == Bag([], []);
      FetchFirst(a, live, idx);
    } else {
      assert BagOk(a, idx) && OnFree(a, idx, bag.free[0]);
      if |a.pages[bag.free[0]].freelist| > 1 { FetchMore(a, live, idx); }
      else if |bag.free| > 1 { FetchLast(a, live, idx); }
      else { FetchVeryLast(a, live, idx); }
    }
  }

  // ---- freeing --------------------------------------------------------------------------------------

  lemma {:induction false} WithoutNoDup(s: seq<nat>, x: nat)
    requires NoDup(s)
    ensures NoDup(Without(s, x))
  {
    if s != [] {
      WithoutNoDup(s[1..], x);
      assert s[0] !in s[1..];
    }
  }

  /** A live object lies in a linked page, on the full list exactly when the page has no free slot. */
  lemma LivePageLinked(a: Slab, live: set<Slot>, s: Slot)
    requires Inv(a) && LiveOk(a, live) && s in live
    ensures s.page in a.pages && s.page !in a.strays && MIN_CLASS <= a.pages[s.page].idx < CLASSES
    ensures var page := a.pages[s.page];
            && s.index !in page.freelist && s.index < Slots(page.idx)
            && (page.freelist == [] <==> s.page in a.bags[page.idx].full)
            && (page.freelist != [] <==> s.page in a.bags[page.idx].free)
  {
    var page := a.pages[s.page];
    assert PageOk(page) && Split(a, live, s.page) && BagOk(a, page.idx);
    assert FullFreelist(page.idx)[s.index] == s.index;
  }

  /** Freeing a live object makes exactly its slot free again and keeps the invariant. */
  lemma FreeKeeps(a: Slab, live: set<Slot>, s: Slot)
    requires Inv(a) && LiveOk(a, live) && s in live
    ensures s.page in a.pages && a.pages[s.page].idx < |a.bags|
    ensures Inv(Free(a, s)) && LiveOk(Free(a, s), live - {s}) && AllPages(Free(a, s)) == AllPages(a)
  {
    LivePageLinked(a, live, s);
    var page, a' := a.pages[s.page], Free(a, s);
    var f := page.freelist;
    assert PageOk(page);
    FreedSplit(a, a', live, s);
    BagsKept(a, a', page.idx);
    FreedBag(a, a', s);
    forall p | p in a'.pages ensures PageOk(a'.pages[p]) && (p in a'.strays || Linked(a', p)) {
      assert PageOk(a.pages[p]);
    }
  }

  lemma FreedSplit(a: Slab, a': Slab, live: set<Slot>, s: Slot)
    requires LiveOk(a, live) && s in live && s.page in a.pages && PageOk(a.pages[s.page])
             && s.index !in a.pages[s.page].freelist
    requires a'.pages == a.pages[s.page := a.pages[s.page].(freelist := [s.index] + a.pages[s.page].freelist)]
    ensures PageOk(a'.pages[s.page]) && LiveOk(a', live - {s})
  {
    var f := a.pages[s.page].freelist;
    assert forall i :: i in [s.index] + f <==> i == s.index || i in f;
    forall p | p in a'.pages ensures Split(a', live - {s}, p) {
      assert Split(a, live, p);
    }
  }

  lemma FreedBag(a: Slab, a': Slab, s: Slot)
    requires Inv(a) && s.page in a.pages && s.page !in a.strays && MIN_CLASS <= a.pages[s.page].idx < CLASSES
    requires a' == Free(a, s)
    requires a.pages[s.page].freelist == [] <==> s.page in a.bags[a.pages[s.page].idx].full
    requires a.pages[s.page].freelist != [] <==> s.page in a.bags[a.pages[s.page].idx].free
    ensures BagOk(a', a.pages[s.page].idx)
  {
    var idx := a.pages[s.page].idx;
    var bag, bag' := a.bags[idx], a'.bags[idx];
    assert BagOk(a, idx);
    WithoutNoDup(bag.full, s.page);
    forall p | p in bag'.free ensures OnFree(a', idx, p) && p !in a'.strays {
      assert p == s.page || p in bag.free;
    }
    forall p | p in bag'.full ensures OnFull(a', idx, p) && p !in a'.strays {
      assert p in bag.full && p != s.page;
    }
  }

  // ---- whole runs ----------------------------------------------------------------------------------

  datatype Op = Malloc(idx: nat) | Kfree(slot: Slot)

  /** Allocator together with the objects handed out and not yet freed. */
  datatype World = World(slab: Slab, live: set<Slot>)

  /** An operation that completes: an allocation that finds an object, or the release of a live one. */
  ghost predicate CanStep(w: World, op: Op) {
    Inv(w.slab) && LiveOk(w.slab, w.live) &&
    match op
    case Malloc(idx) => MIN_CLASS <= idx < CLASSES && FetchObject(w.slab, idx).0.Object?
    case Kfree(s) => s in w.live
  }

  ghost function Step(w: World, op: Op): World
    requires CanStep(w, op)
  {
    match op
    case Malloc(idx) => var (r, a) := FetchObject(w.slab, idx); World(a, w.live + {r.slot})
    case Kfree(s) => FreeKeeps(w.slab, w.live, s); World(Free(w.slab, s), w.live - {s})
  }

  ghost predicate IsRun(ws: seq<World>, ops: seq<Op>) {
    && |ws| == |ops| + 1 && Inv(ws[0].slab) && LiveOk(ws[0].slab, ws[0].live)
    && forall i | 0 <= i < |ops| :: CanStep(ws[i], ops[i]) && ws[i + 1] == Step(ws[i], ops[i])
  }

  /** Over every run of allocations and valid releases: the invariant holds, the slots of every
      page split exactly into its freelist and its live objects, no page of the pool is lost or
      gained, and an allocation never hands out a slot that is live. */
  lemma {:induction false} RunKeeps(ws: seq<World>, ops: seq<Op>, n: nat)
    requires IsRun(ws, ops) && n <= |ops|
    ensures Inv(ws[n].slab) && LiveOk(ws[n].slab, ws[n].live) && AllPages(ws[n].slab) == AllPages(ws[0].slab)
    ensures n < |ops| && ops[n].Malloc? ==> FetchObject(ws[n].slab, ops[n].idx).0.slot !in ws[n].live
  {
    if n < |ops| && ops[n].Malloc? {
      assert CanStep(ws[n], ops[n]);
      FetchKeeps(ws[n].slab, ws[n].live, ops[n].idx);
    }
    if n > 0 {
      RunKeeps(ws, ops, n - 1);
      var w, op := ws[n - 1], ops[n - 1];
      assert CanStep(w, op) && ws[n] == Step(w, op);
      match op
      case Malloc(idx) => FetchKeeps(w.slab, w.live, idx);
      case Kfree(s) => FreeKeeps(w.slab, w.live, s);
    }
  }

  predicate IsSuffix(s: seq<nat>, of: seq<nat>) { |s| <= |of| && s == of[|of| - |s|..] }

  lemma SuffixOfTail(s: seq<nat>, t: seq<nat>, of: seq<nat>)
    requires IsSuffix(s, of) && (t == s || (s != [] && t == s[1..]))
    ensures IsSuffix(t, of)
  {}

  /** One operation takes at most the first page of the pool. */
  lemma StepPool(w: World, op: Op)
    requires CanStep(w, op)
    ensures var pool := Step(w, op).slab.pool;
            pool == w.slab.pool || (w.slab.pool != [] && pool == w.slab.pool[1..])
  {}

  predicate PoolStep(pools: seq<seq<nat>>, i: int)
    requires 0 <= i < |pools| - 1
  {
    pools[i + 1] == pools[i] || (pools[i] != [] && pools[i + 1] == pools[i][1..])
  }

  lemma {:induction false} PoolsShrink(pools: seq<seq<nat>>, n: nat, m: nat)
    requires n <= m < |pools| && forall i | 0 <= i < |pools| - 1 :: PoolStep(pools, i)
    ensures IsSuffix(pools[m], pools[n])
  {
    if n < m {
      PoolsShrink(pools, n, m - 1);
      assert PoolStep(pools, m - 1);
      SuffixOfTail(pools[m - 1], pools[m], pools[n]);
    }
  }

  /** The pool of every later state of a run is a suffix of the earlier one. */
  lemma PoolShrinks(ws: seq<World>, ops: seq<Op>, n: nat, m: nat)
    requires IsRun(ws, ops) && n <= m <= |ops|
    ensures IsSuffix(ws[m].slab.pool, ws[n].slab.pool)
  {
    var pools := seq(|ws|, i requires 0 <= i < |ws| => ws[i].slab.pool);
    forall i | 0 <= i < |pools| - 1 ensures PoolStep(pools, i) { RunPool(ws, ops, i); }
    PoolsShrink(pools, n, m);
  }

  lemma RunPool(ws: seq<World>, ops: seq<Op>, i: nat)
    requires IsRun(ws, ops) && i < |ops|
    ensures var pool, pool' := ws[i].slab.pool, ws[i + 1].slab.pool;
            pool' == pool || (pool != [] && pool' == pool[1..])
    ensures NoDup(ws[i].slab.pool)
  {
    assert CanStep(ws[i], ops[i]) && ws[i + 1] == Step(ws[i], ops[i]);
    StepPool(ws[i], ops[i]);
  }

  /** `fetch_page` never returns a page twice: one taken from the pool is never in it again. */
  lemma FetchedOnce(ws: seq<World>, ops: seq<Op>, n: nat, m: nat)
    requires IsRun(ws, ops) && n < m <= |ops| && ws[n + 1].slab.pool != ws[n].slab.pool
    ensures ws[n].slab.pool != [] && ws[n].slab.pool[0] !in ws[m].slab.pool
  {
    RunPool(ws, ops, n);
    PoolShrinks(ws, ops, n + 1, m);
    SuffixOmits(ws[n].slab.pool, ws[m].slab.pool);
  }

  lemma SuffixOmits(pool: seq<nat>, later: seq<nat>)
    requires NoDup(pool) && pool != [] && IsSuffix(later, pool[1..])
    ensures pool[0] !in later
  {
    forall k | 0 <= k < |later| ensures later[k] != pool[0] {
      assert later[k] == pool[|pool| - |later| + k];
    }
  }

  // ---- the unlinked page -----------------------------------------------------------------------------

  /** `k` allocations of one class in a row, each of which must find an object. */
  ghost function MallocTimes(a: Slab, idx: nat, k: nat): (r: (bool, Slab))
    requires Inv(a) && MIN_CLASS <= idx < CLASSES
    ensures r.0 ==> Inv(r.1)
    decreases k
  {
    if k == 0 then (true, a) else
    var p := MallocTimes(a, idx, k - 1);
    if !p.0 || !FetchObject(p.1, idx).0.Object? then (false, p.1) else
    ObjectInv(p.1, idx);
    (true, FetchObject(p.1, idx).1)
  }

  ghost function LiveSlots(a: Slab): set<Slot> {
    set p, i | p in a.pages && 0 <= i < Slots(a.pages[p].idx) && i !in a.pages[p].freelist :: Slot(p, i)
  }

  lemma ObjectInv(a: Slab, idx: nat)
    requires Inv(a) && MIN_CLASS <= idx < CLASSES && FetchObject(a, idx).0.Object?
    ensures Inv(FetchObject(a, idx).1)
  {
    forall p | p in a.pages ensures Split(a, LiveSlots(a), p) {}
    FetchKeeps(a, LiveSlots(a), idx);
  }

  /** The class after `k` allocations from nothing, `0 < k <= Slots`. */
  ghost predicate Drained(a: Slab, a': Slab, idx: nat, k: nat)
    requires |a.pool| >= 2 && |a'.bags| > idx && k <= Slots(idx)
  {
    var page := a.pool[0];
    && page in a'.pages && a'.pages[page] == Page(idx, FullFreelist(idx)[k..])
    && if k < Slots(idx) then a'.bags[idx] == Bag([page], []) && a'.pool == a.pool[1..]
       else a'.bags[idx] == Bag([], [page]) && a.pool[1] in a'.strays
  }

  lemma DrainStep(a: Slab, a': Slab, idx: nat, k: nat)
    requires |a.pool| >= 2 && Inv(a') && MIN_CLASS <= idx < CLASSES && 0 < k < Slots(idx) && Drained(a, a', idx, k)
    ensures |FetchObject(a', idx).1.bags| == CLASSES
    ensures FetchObject(a', idx).0 == Object(Slot(a.pool[0], k)) && Drained(a, FetchObject(a', idx).1, idx, k + 1)
  {
    assert FullFreelist(idx)[k..][1..] == FullFreelist(idx)[k + 1..];
    if k + 1 < Slots(idx) { DrainMore(a', idx, a.pool[0]); } else { VeryLastShape(a', idx); }
  }

  lemma {:induction false} Draining(a: Slab, idx: nat, k: nat)
    requires Inv(a) && MIN_CLASS <= idx < CLASSES && a.bags[idx] == Bag([], []) && |a.pool| >= 2 && 0 < k <= Slots(idx)
    ensures MallocTimes(a, idx, k).0 && Drained(a, MallocTimes(a, idx, k).1, idx, k)
    decreases k
  {
    if k == 1 {
      assert MallocTimes(a, idx, 0) == (true, a);
    } else {
      Draining(a, idx, k - 1);
      DrainStep(a, MallocTimes(a, idx, k - 1).1, idx, k - 1);
    }
  }

  lemma DrainMore(a: Slab, idx: nat, page: nat)
    requires Inv(a) && MIN_CLASS <= idx < CLASSES && a.bags[idx] == Bag([page], []) && page in a.pages
             && |a.pages[page].freelist| > 1
    ensures FetchObject(a, idx) == (Object(Slot(page, a.pages[page].freelist[0])), Dequeue(a, page))
  {}

  /** The slots of the first page are handed out in order. */
  lemma DrainOrder(a: Slab, idx: nat, k: nat)
    requires Inv(a) && MIN_CLASS <= idx < CLASSES && a.bags[idx] == Bag([], []) && |a.pool| >= 2 && k < Slots(idx)
    ensures MallocTimes(a, idx, k).0 && FetchObject(MallocTimes(a, idx, k).1, idx).0 == Object(Slot(a.pool[0], k))
  {
    if k == 0 {
      assert MallocTimes(a, idx, 0) == (true, a);
    } else {
      Draining(a, idx, k);
      DrainStep(a, MallocTimes(a, idx, k).1, idx, k);
    }
  }

  /** `fetch_object` prepares a page without storing it in the bag, so one allocation more than a
      page holds dereferences a null page: with all slots of the class taken the next one faults,
      although the pool still had a page. */
  lemma DrainFaults(a: Slab, idx: nat)
    requires Inv(a) && MIN_CLASS <= idx < CLASSES && a.bags[idx] == Bag([], []) && |a.pool| >= 2
    ensures MallocTimes(a, idx, Slots(idx)).0
    ensures FetchObject(MallocTimes(a, idx, Slots(idx)).1, idx).0 == NullBag
  {
    Draining(a, idx, Slots(idx));
  }

  /** The object released last is the next one handed out, if its page heads the free pages of its
      class or was full; only a full page that was the last with the pool empty ends in the panic.
      Where the page was not full, the allocation undoes the release. */
  lemma ReleasedComesNext(a: Slab, live: set<Slot>, s: Slot)
    requires Inv(a) && LiveOk(a, live) && s in live
    requires var page := a.pages[s.page];
             page.freelist == [] || (a.bags[page.idx].free != [] && a.bags[page.idx].free[0] == s.page)
    ensures Inv(Free(a, s))
    ensures var page, r := a.pages[s.page], FetchObject(Free(a, s), a.pages[s.page].idx);
            && r.0 == (if page.freelist == [] && a.bags[page.idx].free == [] && a.pool == [] then NoPages
                       else Object(s))
            && (page.freelist != [] ==> r.1 == a)
  {
    FreeKeeps(a, live, s);
    var page, a' := a.pages[s.page], Free(a, s);
    var bag := a'.bags[page.idx];
    assert bag.free[0] == s.page && a'.pages[s.page].freelist == [s.index] + page.freelist;
    if page.freelist != [] {
      assert Dequeue(a', s.page).pages == a.pages;
    } else {
      assert bag.free[1..] == a.bags[page.idx].free;
    }
  }
}
