/**
 Whether mapping calls complete depends on little: how much of the region is left and which
 directory slots have a table.  A purse holds just that, and pays for one call after another.
 */
module Accounting {
  import opened Paging
  import opened Mmap

  /** Bytes left in the region, the slots of the directory that have a table, and the build. */
  datatype Purse = Purse(len: nat, slots: set<nat>, checked: bool) {
    /** `n` frames can be taken. */
    predicate Affords(n: nat) { Room(checked, len, n) }
    function Less(n: nat): Purse
      requires 4096 * n <= len
    {
      this.(len := len - 4096 * n)
    }
  }

  datatype Balance = Left(purse: Purse) | Broke

  function SlotsOf(mem: Memory, pd: nat): set<nat> { set i: nat | i < 1024 && Pde(mem, pd, i) != NONE }

  function PurseOf(s: State, pd: nat): Purse { Purse(s.len, SlotsOf(s.mem, pd), s.checked) }

  /** Slots without a table among the `c` slots from `d`. */
  function Missing(slots: set<nat>, d: nat, c: nat): (n: nat)
    ensures n <= c
  {
    if c == 0 then 0 else Missing(slots, d, c - 1) + if d + c - 1 in slots then 0 else 1
  }

  /** Slots that a call on `size` bytes from page `first` visits. */
  function Visits(slots: set<nat>, first: nat, size: nat): nat {
    TableCount(first % 1024, size, first / 1024 !in slots)
  }

  /** Frames such a call takes when `pages` of its pages need one. */
  function Cost(slots: set<nat>, first: nat, size: nat, pages: nat): nat {
    Missing(slots, first / 1024, Visits(slots, first, size)) + pages
  }

  predicate Enough(p: Purse, first: nat, size: nat, pages: nat) {
    && (p.checked ==> size % 4096 == 0)
    && first / 1024 + Visits(p.slots, first, size) <= 1024
    && (|| Fits(first % 1024, size, first / 1024 !in p.slots)
        || (first + PageCount(size) - 1) / 1024 in p.slots)
    && p.Affords(Cost(p.slots, first, size, pages))
  }

  function SlotRange(d: nat, c: nat): (r: set<nat>)
    ensures forall i :: i in r <==> d <= i < d + c
  {
    if c == 0 then {} else SlotRange(d, c - 1) + {d + c - 1}
  }

  /** The purse after one call. */
  function Pay(p: Purse, first: nat, size: nat, pages: nat): Balance {
    if !Enough(p, first, size, pages) then Broke else
    Left(p.(len := p.len - 4096 * Cost(p.slots, first, size, pages),
            slots := p.slots + SlotRange(first / 1024, Visits(p.slots, first, size))))
  }

  lemma {:induction false} MissingIsAbsent(mem: Memory, pd: nat, d: nat, c: nat)
    requires d + c <= 1024
    ensures Missing(SlotsOf(mem, pd), d, c) == AbsentSlots(mem, pd, d, c)
  {
    if c > 0 { MissingIsAbsent(mem, pd, d, c - 1); }
  }

  lemma {:induction false} AllZero(mem: Memory, pd: nat, vp: nat, n: nat)
    requires forall k | vp <= k < vp + n :: Entry(mem, pd, k) == NONE
    ensures ZeroPages(mem, pd, vp, n) == n
  {
    if n > 0 { AllZero(mem, pd, vp, n - 1); }
  }

  /** A call completes exactly if the purse can pay for it. */
  lemma PaysExactly(s: State, q: Request)
    requires q.Ok()
    ensures Pay(PurseOf(s, q.pd), q.First(), q.size, NewPages(s, q)).Left? <==> Admissible(s, q)
  {
    var slots, d, c := SlotsOf(s.mem, q.pd), q.First() / 1024, Slots(s, q);
    assert d !in slots <==> FirstAbsent(s, q);
    assert Visits(slots, q.First(), q.size) == c;
    if d + c <= 1024 { MissingIsAbsent(s.mem, q.pd, d, c); }
    if q.size > 0 { assert LastSlot(q) in slots <==> Pde(s.mem, q.pd, LastSlot(q)) != NONE; }
  }

  /** In either build: a call completes with all memory conserved exactly if the purse can pay. */
  lemma PaysConserves(s: State, q: Request)
    requires Ready(s, q.pd) && q.Ok()
    ensures Pay(PurseOf(s, q.pd), q.First(), q.size, NewPages(s, q)).Left? <==>
              MmapResult(s, q).0 == Done && Advances(s, MmapResult(s, q).1)
  {
    PaysExactly(s, q);
    ConservedExactly(s, q);
  }

  /** And what is left afterwards is what the purse has left. */
  lemma PaysFor(s: State, s': State, q: Request)
    requires q.Ok() && Admissible(s, q) && Mmapped(s, s', q)
    ensures Pay(PurseOf(s, q.pd), q.First(), q.size, NewPages(s, q)) == Left(PurseOf(s', q.pd))
  {
    PaysExactly(s, q);
    var slots, d, c := SlotsOf(s.mem, q.pd), q.First() / 1024, Slots(s, q);
    MissingIsAbsent(s.mem, q.pd, d, c);
    assert SlotsOf(s'.mem, q.pd) == slots + SlotRange(d, c) by {
      forall i: nat | i < 1024
        ensures i in SlotsOf(s'.mem, q.pd) <==> i in slots || d <= i < d + c
      {
        assert Pde(s'.mem, q.pd, i) == PdeAfter(s, q, i);
      }
    }
  }

  /** Frames a call wants for its pages when none of them has an entry. */
  function Wants(q: Request): nat { if q.paddr == 0 then q.Count() else 0 }

  /** The purse after the first `n` calls, on pages without entries. */
  function PayAll(p: Purse, reqs: seq<Request>, n: nat): Balance
    requires n <= |reqs|
  {
    if n == 0 then Left(p) else
    match PayAll(p, reqs, n - 1)
    case Broke => Broke
    case Left(p') => PayCall(p', reqs[n - 1])
  }

  /** The purse after all of them. */
  function PayFor(p: Purse, reqs: seq<Request>): Balance { PayAll(p, reqs, |reqs|) }

  lemma PayNext(p: Purse, reqs: seq<Request>, n: nat, p': Purse)
    requires n < |reqs| && PayAll(p, reqs, n) == Left(p')
    ensures PayAll(p, reqs, n + 1) == PayCall(p', reqs[n])
  {}

  lemma {:induction false} BrokeStays(p: Purse, reqs: seq<Request>, n: nat, k: nat)
    requires n <= k <= |reqs| && PayAll(p, reqs, n) == Broke
    ensures PayAll(p, reqs, k) == Broke
  {
    if n < k { BrokeStays(p, reqs, n, k - 1); }
  }

  /** What `Pay` says about one of the calls. */
  function PayCall(p: Purse, q: Request): Balance { Pay(p, q.First(), q.size, Wants(q)) }

  /** A call that cannot be paid for ends the sequence. */
  lemma Stops(p: Purse, reqs: seq<Request>, n: nat, p': Purse)
    requires n < |reqs| && PayAll(p, reqs, n) == Left(p') && PayCall(p', reqs[n]) == Broke
    ensures PayFor(p, reqs) == Broke
  {
    PayNext(p, reqs, n, p');
    BrokeStays(p, reqs, n + 1, |reqs|);
  }

  // ---- ranges inside one table -----------------------------------------------------------------

  /** A range inside one table that does not fill it visits its own slot if that is empty, and no
      other, so that nothing but frames can run out. */
  lemma OneTablePays(p: Purse, first: nat, size: nat, pages: nat)
    requires first < VPAGES && PageCount(size) < 1024 && first % 1024 + PageCount(size) <= 1024
    requires p.checked ==> size % 4096 == 0
    ensures Cost(p.slots, first, size, pages) == pages + if first / 1024 in p.slots then 0 else 1
    ensures Enough(p, first, size, pages) <==> p.Affords(Cost(p.slots, first, size, pages))
    ensures Enough(p, first, size, pages) ==>
              Pay(p, first, size, pages) ==
                Left(p.(len := p.len - 4096 * Cost(p.slots, first, size, pages), slots := p.slots + {first / 1024}))
  {
    var d, c := first / 1024, Visits(p.slots, first, size);
    assert size / 4096 <= PageCount(size) && size / 0x40_0000 == 0 && size / 4096 % 1024 == size / 4096;
    assert size % 4096 != 0 ==> size / 4096 + 1 == PageCount(size);
    assert c == if d in p.slots then 0 else 1;
    assert Missing(p.slots, d, c) == c;
    assert p.slots + SlotRange(d, c) == p.slots + {d};
  }
}
