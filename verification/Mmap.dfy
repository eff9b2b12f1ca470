/**
 `bootstrap_fetch_page` and `bootstrap_mmap` over the typed physical memory of module
 Paging.  `Mmapped` says what one completed call does to the flat view, `Admissible`
 which calls complete, and `Machine` holds the code with the two loops of the source.
 */
module Mmap {
  import opened Arith
  import opened Paging

  /** Memory together with the first free region: its first frame and its length in bytes.  Two
      builds: with DEBUG the assertions are `checked`, without it they are gone. */
  datatype State = State(mem: Memory, next: nat, len: nat, checked: bool)

  /** How a call ends: normally, at the out-of-frames assertion or panic, at the assertion on its
      size, or by touching memory outside the directory or through a missing table.  `Overdrawn` is
      the model's name for a call that goes on normally with frames from behind the region. */
  datatype Outcome = Done | OutOfFrames | Unaligned | Fault | Overdrawn

  /** Frames that 32-bit and 64-bit addresses can name. */
  const FRAMES: nat := 0x10_0000
  const LONG_FRAMES: nat := 0x10_0000_0000_0000

  const PROT_NONE: nat := 0
  const PROT_READ: nat := 1
  const PROT_WRITE: nat := 2
  const PROT_USER: nat := 4
  const PROT_EXEC: nat := 8

  /** Arguments of `bootstrap_mmap`; `paddr == 0` is PAGE_ALLOCATE. */
  datatype Request = Request(pd: nat, kernel: bool, paddr: nat, vaddr: nat, size: nat, flags: nat) {
    function First(): nat { vaddr / 4096 }
    function Count(): nat { PageCount(size) }
    predicate Includes(vp: int) { First() <= vp < First() + Count() }
    /** The alignment the source asserts, and no wrap-around of either address. */
    predicate Ok() {
      && vaddr % 4096 == 0 && paddr % 4096 == 0
      && vaddr < ADDRESS_LIMIT && vaddr + size <= ADDRESS_LIMIT && paddr + size <= ADDRESS_LIMIT
    }
  }

  /** `pg_flags`: no access without read or write, otherwise present with the asked rights. */
  function Rights(flags: nat): (a: Access)
    ensures a.present <==> flags % 2 == 1 || flags / 2 % 2 == 1
    ensures a.writable <==> flags / 2 % 2 == 1
    ensures a.user <==> a.present && flags / 4 % 2 == 1
  {
    var rd, wr, usr := flags % 2, flags / 2 % 2, flags / 4 % 2;
    if rd == 0 && wr == 0 then NO_ACCESS else Access(true, wr != 0, usr != 0)
  }

  function TableAccess(kernel: bool): Access { Access(true, true, !kernel) }

  function Limit(s: State): nat { s.next + s.len / 4096 }

  /** First byte behind the region. */
  function End(s: State): nat { 4096 * s.next + s.len }

  /** The region only loses frames at its lower end: those from `s.next` up to `s'.next`. */
  predicate Advances(s: State, s': State) {
    s.next <= s'.next && End(s') == End(s) && s'.checked == s.checked
  }

  predicate InRegion(s: State, f: int) { s.next <= f < Limit(s) }

  /** The region lies in memory that 32-bit addresses reach, and not at its start. */
  predicate Backed(s: State) { 0 < s.next && Limit(s) <= |s.mem| <= FRAMES }

  /** The directory is well formed, and neither it nor its tables lie in the free region. */
  ghost predicate Ready(s: State, pd: nat) {
    && Directory(s.mem, pd)
    && Backed(s) && !InRegion(s, pd)
    && (forall i, f | UsesTable(s.mem, pd, i, f) :: !InRegion(s, f))
    && (forall f | InRegion(s, f) :: IsData(s.mem, f))
  }

  // ---- what a call consumes ----------------------------------------------------

  /** Empty slots among the `c` slots from `d`. */
  function AbsentSlots(mem: Memory, pd: nat, d: nat, c: nat): (n: nat)
    ensures n <= c
  {
    if c == 0 then 0 else AbsentSlots(mem, pd, d, c - 1) + if Pde(mem, pd, d + c - 1) == NONE then 1 else 0
  }

  /** Pages without an entry among the `n` pages from `vp`. */
  function ZeroPages(mem: Memory, pd: nat, vp: nat, n: nat): (z: nat)
    ensures z <= n
  {
    if n == 0 then 0 else ZeroPages(mem, pd, vp, n - 1) + if Entry(mem, pd, vp + n - 1) == NONE then 1 else 0
  }

  predicate HasTable(mem: Memory, pd: nat, vp: int) { Pde(mem, pd, vp / 1024) != NONE }

  predicate FirstAbsent(s: State, q: Request) { Pde(s.mem, q.pd, q.First() / 1024) == NONE }

  function Slots(s: State, q: Request): nat { TableCount(q.First() % 1024, q.size, FirstAbsent(s, q)) }

  function NewTables(s: State, q: Request): nat { AbsentSlots(s.mem, q.pd, q.First() / 1024, Slots(s, q)) }

  function NewPages(s: State, q: Request): nat {
    if q.paddr == 0 then ZeroPages(s.mem, q.pd, q.First(), q.Count()) else 0
  }

  /** Frames taken from the region: one a missing table, then one a page without a frame. */
  function Need(s: State, q: Request): nat { NewTables(s, q) + NewPages(s, q) }

  /** The region holds `n` more frames; the assertion asks that a byte is left over. */
  predicate Room(checked: bool, len: nat, n: nat) {
    n == 0 || if checked then len > 4096 * n else len >= 4096 * n
  }

  /** The slot of the last page of the range. */
  function LastSlot(q: Request): int { (q.First() + q.Count() - 1) / 1024 }

  /** Either the count is right, or the one slot it misses already has its table. */
  predicate TablesSuffice(s: State, q: Request) {
    || Fits(q.First() % 1024, q.size, FirstAbsent(s, q))
    || Pde(s.mem, q.pd, LastSlot(q)) != NONE
  }

  lemma RoomAfter(checked: bool, len: nat, n: nat, k: nat)
    requires Room(checked, len, n)
    ensures 4096 * n <= len && (Room(checked, len - 4096 * n, k) <==> k == 0 || Room(checked, len, n + k))
  {}

  /** Exactly the calls that complete with frames of the region. */
  predicate Admissible(s: State, q: Request) {
    && (s.checked ==> q.size % 4096 == 0)
    && q.First() / 1024 + Slots(s, q) <= 1024
    && TablesSuffice(s, q)
    && Room(s.checked, s.len, Need(s, q))
  }

  // ---- what a call does ----------------------------------------------------------

  /** The frame a page of the range ends with: its own, the given one, or a fresh one, the
      fresh ones being handed out in order from `base`. */
  function PageFrame(mem: Memory, base: nat, q: Request, vp: int): nat {
    if Entry(mem, q.pd, vp) != NONE then Entry(mem, q.pd, vp).frame
    else if vp < q.First() then 0
    else if q.paddr != 0 then q.paddr / 4096 + (vp - q.First())
    else base + ZeroPages(mem, q.pd, q.First(), vp - q.First())
  }

  function FrameFor(s: State, q: Request, vp: int): nat { PageFrame(s.mem, s.next + NewTables(s, q), q, vp) }

  /** The entry of `vp` after mapping the first `k` pages of the range. */
  predicate FlatEntry(mem: Memory, base: nat, q: Request, k: nat, vp: int, e: Pte) {
    if q.First() <= vp < q.First() + k then e == Pte(PageFrame(mem, base, q, vp), Rights(q.flags))
    else e == Entry(mem, q.pd, vp)
  }

  /** A whole call, at page `vp`. */
  predicate PageAfter(s: State, s': State, q: Request, vp: int) {
    FlatEntry(s.mem, s.next + NewTables(s, q), q, q.Count(), vp, Entry(s'.mem, q.pd, vp))
  }

  predicate PrefixPage(s: State, s': State, q: Request, k: nat, vp: int) {
    FlatEntry(s.mem, s.next, q, k, vp, Entry(s'.mem, q.pd, vp))
  }

  function NewPde(s: State, pd: nat, d: nat, c: nat, access: Access, i: int): Pte {
    if d <= i < d + c && Pde(s.mem, pd, i) == NONE then Pte(s.next + AbsentSlots(s.mem, pd, d, i - d), access)
    else Pde(s.mem, pd, i)
  }

  function PdeAfter(s: State, q: Request, i: int): Pte {
    NewPde(s, q.pd, q.First() / 1024, Slots(s, q), TableAccess(q.kernel), i)
  }

  /** `f` is the table under some page of the range. */
  ghost predicate RangeTable(mem: Memory, q: Request, f: int) {
    exists vp :: q.Includes(vp) && UsesTable(mem, q.pd, vp / 1024, f)
  }

  /** Frames a call may write: the directory, the new tables and the tables under the range. */
  ghost predicate Written(s: State, q: Request, f: int) {
    f == q.pd || s.next <= f < s.next + NewTables(s, q) || RangeTable(s.mem, q, f)
  }

  /** A completed call refines an update of the flat map and writes nothing else. */
  ghost predicate Mmapped(s: State, s': State, q: Request) {
    && |s'.mem| == |s.mem| && s'.checked == s.checked
    && s'.next == s.next + Need(s, q) && s'.len + 4096 * Need(s, q) == s.len && Limit(s') == Limit(s)
    && (forall vp {:trigger PageAfter(s, s', q, vp)} | 0 <= vp < VPAGES :: PageAfter(s, s', q, vp))
    && (forall i :: Pde(s'.mem, q.pd, i) == PdeAfter(s, q, i))
    && (forall vp | q.Includes(vp) :: HasTable(s'.mem, q.pd, vp))
    && (forall f | 0 <= f < |s.mem| && !Written(s, q, f) :: s'.mem[f] == s.mem[f])
  }

  /** State after `c` turns of the first loop: a table under every visited slot, the flat
      view unchanged. */
  ghost predicate Preallocated(s: State, s': State, pd: nat, d: nat, c: nat, access: Access) {
    && |s'.mem| == |s.mem| && s'.checked == s.checked
    && s'.next == s.next + AbsentSlots(s.mem, pd, d, c)
    && s'.len + 4096 * AbsentSlots(s.mem, pd, d, c) == s.len
    && (forall i :: Pde(s'.mem, pd, i) == NewPde(s, pd, d, c, access, i))
    && (forall vp | 0 <= vp < VPAGES :: Entry(s'.mem, pd, vp) == Entry(s.mem, pd, vp))
    && (forall f | 0 <= f < |s.mem| && f != pd && !(s.next <= f < s'.next) :: s'.mem[f] == s.mem[f])
  }

  /** State after `k` turns of the second loop. */
  ghost predicate MappedPrefix(s: State, s': State, q: Request, k: nat) {
    var used := if q.paddr == 0 then ZeroPages(s.mem, q.pd, q.First(), k) else 0;
    && |s'.mem| == |s.mem| && s'.checked == s.checked
    && s'.next == s.next + used && s'.len + 4096 * used == s.len
    && (forall i :: Pde(s'.mem, q.pd, i) == Pde(s.mem, q.pd, i))
    && (forall vp {:trigger PrefixPage(s, s', q, k, vp)} | 0 <= vp < VPAGES :: PrefixPage(s, s', q, k, vp))
    && (forall f | 0 <= f < |s.mem| && !RangeTable(s.mem, q, f) :: s'.mem[f] == s.mem[f])
  }

  // ---- fetching a frame ---------------------------------------------------------------

  /** `bootstrap_fetch_page` stops at its assertion. */
  predicate Halts(s: State) { s.checked && s.len <= 4096 }

  /** The frame it hands out otherwise: the 64-bit address of the region, cut to 32 bits. */
  function FetchedFrame(s: State): nat { if s.next < FRAMES then s.next else s.next % FRAMES }

  /** The region afterwards, in 64-bit arithmetic. */
  function Fetched(s: State): State {
    var next := if s.next + 1 < LONG_FRAMES then s.next + 1 else s.next + 1 - LONG_FRAMES;
    s.(next := next, len := Sub64(s.len, 4096))
  }

  /** While frames last nothing wraps around. */
  lemma PlainFetch(s: State)
    requires Backed(s) && s.len >= 4096
    ensures Fetched(s) == s.(next := s.next + 1, len := s.len - 4096)
    ensures 0 < FetchedFrame(s) == s.next < |s.mem| && InRegion(s, s.next)
  {
    assert s.len / 4096 >= 1;
    assert InRegion(s, s.next);
  }

  /** A region without a whole frame is left behind by the next fetch. */
  lemma LastFetch(s: State)
    requires Backed(s) && s.len < 4096
    ensures Fetched(s).next == s.next + 1 > Limit(s)
  {
    assert s.len / 4096 == 0;
  }

  /** A part of a call completes with frames of the region alone. */
  predicate Good(s: State, p: (Outcome, State)) { p.0 == Done && p.1.next <= Limit(s) }

  /** Frames run out: the assertion stops the call or, without it, a frame behind the region is
      handed out. */
  predicate RanOut(s: State, p: (Outcome, State)) {
    if s.checked then p.0 == OutOfFrames else p.1.next > Limit(s)
  }

  // ---- the first loop ---------------------------------------------------------------

  /** One turn of the first loop. */
  function PreallocSlot(s: State, pd: nat, slot: nat, access: Access): (r: (Outcome, State))
    requires IsTable(s.mem, pd)
    ensures IsTable(r.1.mem, pd) && !r.0.Unaligned? && !r.0.Overdrawn?
  {
    if slot >= 1024 then (Fault, s)
    else if Pde(s.mem, pd, slot) != NONE then (Done, s)
    else if Halts(s) then (OutOfFrames, s)
    else if FetchedFrame(s) == 0 then (OutOfFrames, Fetched(s))
    else if FetchedFrame(s) >= |s.mem| then (Fault, Fetched(s))
    else (Done, Fetched(s).(mem := WithTable(s.mem, pd, slot, FetchedFrame(s), access)))
  }

  function PreallocSlots(s: State, pd: nat, d: nat, c: nat, access: Access): (r: (Outcome, State))
    requires IsTable(s.mem, pd)
    ensures IsTable(r.1.mem, pd) && !r.0.Unaligned? && !r.0.Overdrawn?
  {
    if c == 0 then (Done, s) else
    var p := PreallocSlots(s, pd, d, c - 1, access);
    if p.0 != Done then p else PreallocSlot(p.1, pd, d + c - 1, access)
  }

  lemma PreallocSlotNext(s: State, pd: nat, slot: nat, access: Access)
    requires IsTable(s.mem, pd) && s.next + 1 < LONG_FRAMES
    ensures var s' := PreallocSlot(s, pd, slot, access).1; s.next <= s'.next <= s.next + 1 && s'.checked == s.checked
  {}

  /** Addresses ascend while they stay within 64 bits. */
  lemma {:induction false} PreallocAscends(s: State, pd: nat, d: nat, c: nat, access: Access)
    requires IsTable(s.mem, pd) && s.next + c < LONG_FRAMES
    ensures var s' := PreallocSlots(s, pd, d, c, access).1; s.next <= s'.next <= s.next + c && s'.checked == s.checked
    ensures c > 0 ==> PreallocSlots(s, pd, d, c - 1, access).1.next <= PreallocSlots(s, pd, d, c, access).1.next
  {
    if c > 0 {
      PreallocAscends(s, pd, d, c - 1, access);
      PreallocSlotNext(PreallocSlots(s, pd, d, c - 1, access).1, pd, d + c - 1, access);
    }
  }

  lemma AbsentMonotone(mem: Memory, pd: nat, d: nat, b: nat, c: nat)
    requires b <= c
    ensures AbsentSlots(mem, pd, d, b) <= AbsentSlots(mem, pd, d, c)
    ensures b < c && Pde(mem, pd, d + b) == NONE ==> AbsentSlots(mem, pd, d, b) < AbsentSlots(mem, pd, d, c)
    decreases c
  {
    if b < c { AbsentMonotone(mem, pd, d, b, c - 1); }
  }

  /** Taking the first region frame for a table keeps the machine ready. */
  lemma TableStepReady(s: State, pd: nat, slot: nat, access: Access)
    requires Ready(s, pd) && slot < 1024 && Pde(s.mem, pd, slot) == NONE && s.len >= 4096
    requires access.present && access.writable
    ensures s.next < |s.mem|
    ensures var s' := State(WithTable(s.mem, pd, slot, s.next, access), s.next + 1, s.len - 4096, s.checked);
            && Ready(s', pd)
            && (forall i :: Pde(s'.mem, pd, i) == if i == slot then Pte(s.next, access) else Pde(s.mem, pd, i))
            && (forall vp | 0 <= vp < VPAGES :: Entry(s'.mem, pd, vp) == Entry(s.mem, pd, vp))
  {
    PlainFetch(s);
    NewTableFlat(s.mem, pd, slot, s.next, access);
    var s' := State(WithTable(s.mem, pd, slot, s.next, access), s.next + 1, s.len - 4096, s.checked);
    forall i, f | UsesTable(s'.mem, pd, i, f) ensures !InRegion(s', f) {
      if i != slot { assert UsesTable(s.mem, pd, i, f); }
    }
    forall f | InRegion(s', f) ensures IsData(s'.mem, f) {
      assert InRegion(s, f) && s'.mem[f] == s.mem[f];
    }
  }

  /** One turn, after the slots before it. */
  lemma PreallocTurn(s: State, s': State, pd: nat, d: nat, c: nat, access: Access)
    requires Preallocated(s, s', pd, d, c, access) && Ready(s', pd) && access.present && access.writable && d + c < 1024
    ensures var p := PreallocSlot(s', pd, d + c, access);
            && (Good(s, p) <==> Pde(s.mem, pd, d + c) != NONE || Room(s.checked, s'.len, 1))
            && (Good(s, p) ==> Preallocated(s, p.1, pd, d, c + 1, access) && Ready(p.1, pd))
            && (!Good(s, p) ==> RanOut(s, p))
  {
    assert Pde(s'.mem, pd, d + c) == Pde(s.mem, pd, d + c);
    if Pde(s'.mem, pd, d + c) == NONE {
      if s'.len >= 4096 {
        PlainFetch(s');
        TableStepReady(s', pd, d + c, access);
      } else {
        LastFetch(s');
      }
    }
  }

  lemma PreallocNext(s: State, pd: nat, d: nat, c: nat, access: Access)
    requires IsTable(s.mem, pd) && PreallocSlots(s, pd, d, c, access).0 == Done
    ensures PreallocSlots(s, pd, d, c + 1, access) ==
              PreallocSlot(PreallocSlots(s, pd, d, c, access).1, pd, d + c, access)
  {}

  /** A first loop that completes leaves the flat view as it was. */
  lemma {:induction false} PreallocFlat(s: State, pd: nat, d: nat, c: nat, access: Access)
    requires Ready(s, pd) && access.present && access.writable && c <= FRAMES
    requires Good(s, PreallocSlots(s, pd, d, c, access))
    ensures var s' := PreallocSlots(s, pd, d, c, access).1;
            Preallocated(s, s', pd, d, c, access) && Ready(s', pd) && (c == 0 || d + c <= 1024)
  {
    if c > 0 {
      PreallocAscends(s, pd, d, c, access);
      PreallocPrevious(s, pd, d, c, access);
      PreallocFlat(s, pd, d, c - 1, access);
      PreallocTurn(s, PreallocSlots(s, pd, d, c - 1, access).1, pd, d, c - 1, access);
    }
  }

  lemma PreallocPrevious(s: State, pd: nat, d: nat, c: nat, access: Access)
    requires IsTable(s.mem, pd) && c > 0 && PreallocSlots(s, pd, d, c, access).0 == Done
    ensures PreallocSlots(s, pd, d, c - 1, access).0 == Done && d + c <= 1024
    ensures PreallocSlots(s, pd, d, c, access) ==
              PreallocSlot(PreallocSlots(s, pd, d, c - 1, access).1, pd, d + c - 1, access)
  {}

  /** It completes exactly if its slots exist and the frames last. */
  lemma {:induction false} PreallocCorrect(s: State, pd: nat, d: nat, c: nat, access: Access)
    requires Ready(s, pd) && access.present && access.writable && c <= FRAMES
    ensures var p := PreallocSlots(s, pd, d, c, access);
            && (Good(s, p) <==>
                  (c == 0 || d + c <= 1024) && Room(s.checked, s.len, AbsentSlots(s.mem, pd, d, c)))
            && (Good(s, p) ==> Preallocated(s, p.1, pd, d, c, access) && Ready(p.1, pd))
  {
    if c > 0 {
      PreallocCorrect(s, pd, d, c - 1, access);
      PreallocAscends(s, pd, d, c, access);
      if Good(s, PreallocSlots(s, pd, d, c - 1, access)) { PreallocAgain(s, pd, d, c - 1, access); }
    }
    if Good(s, PreallocSlots(s, pd, d, c, access)) { PreallocFlat(s, pd, d, c, access); }
  }

  lemma PreallocAgain(s: State, pd: nat, d: nat, c: nat, access: Access)
    requires Ready(s, pd) && access.present && access.writable && c < FRAMES
    requires Good(s, PreallocSlots(s, pd, d, c, access)) && Room(s.checked, s.len, AbsentSlots(s.mem, pd, d, c))
    ensures Good(s, PreallocSlots(s, pd, d, c + 1, access)) <==>
              d + c + 1 <= 1024 && Room(s.checked, s.len, AbsentSlots(s.mem, pd, d, c + 1))
    ensures d + c < 1024 && !Good(s, PreallocSlots(s, pd, d, c + 1, access)) ==>
              RanOut(s, PreallocSlots(s, pd, d, c + 1, access))
  {
    PreallocFlat(s, pd, d, c, access);
    PreallocNext(s, pd, d, c, access);
    if d + c < 1024 { PreallocTurn(s, PreallocSlots(s, pd, d, c, access).1, pd, d, c, access); }
  }

  // ---- the second loop --------------------------------------------------------------

  /** One turn of the second loop, for page `k` of the range. */
  function MapPage(s: State, q: Request, k: nat): (r: (Outcome, State))
    requires IsTable(s.mem, q.pd)
    ensures IsTable(r.1.mem, q.pd) && !r.0.Unaligned? && !r.0.Overdrawn?
  {
    var vp := q.First() + k;
    var table := Pde(s.mem, q.pd, vp / 1024).frame;
    if table == 0 || !IsTable(s.mem, table) then (Fault, s) else
    var e := s.mem[table].entries[vp % 1024];
    if e == NONE && q.paddr == 0 then
      if Halts(s) then (OutOfFrames, s) else
      (Done, Fetched(s).(mem := WithEntry(s.mem, table, vp % 1024, Pte(FetchedFrame(s), Rights(q.flags)))))
    else
      var frame := if e != NONE then e.frame else q.paddr / 4096 + k;
      (Done, s.(mem := WithEntry(s.mem, table, vp % 1024, Pte(frame, Rights(q.flags)))))
  }

  function MapPages(s: State, q: Request, k: nat): (r: (Outcome, State))
    requires IsTable(s.mem, q.pd)
    ensures IsTable(r.1.mem, q.pd) && !r.0.Unaligned? && !r.0.Overdrawn?
  {
    if k == 0 then (Done, s) else
    var p := MapPages(s, q, k - 1);
    if p.0 != Done then p else MapPage(p.1, q, k - 1)
  }

  lemma MapPageNext(s: State, q: Request, k: nat)
    requires IsTable(s.mem, q.pd) && s.next + 1 < LONG_FRAMES
    ensures s.next <= MapPage(s, q, k).1.next <= s.next + 1 && MapPage(s, q, k).1.checked == s.checked
  {}

  lemma {:induction false} MapAscends(s: State, q: Request, k: nat)
    requires IsTable(s.mem, q.pd) && s.next + k < LONG_FRAMES
    ensures var s' := MapPages(s, q, k).1; s.next <= s'.next <= s.next + k && s'.checked == s.checked
    ensures k > 0 ==> MapPages(s, q, k - 1).1.next <= MapPages(s, q, k).1.next
  {
    if k > 0 {
      MapAscends(s, q, k - 1);
      MapPageNext(MapPages(s, q, k - 1).1, q, k - 1);
    }
  }

  /** Rewriting one page, with or without taking a frame, keeps the machine ready. */
  lemma PageStepReady(s: State, pd: nat, vp: nat, e: Pte, extra: nat)
    requires Ready(s, pd) && vp < VPAGES && Pde(s.mem, pd, vp / 1024) != NONE
    requires 4096 * extra <= s.len
    ensures IsTable(s.mem, Pde(s.mem, pd, vp / 1024).frame)
    ensures var s' := State(WithEntry(s.mem, Pde(s.mem, pd, vp / 1024).frame, vp % 1024, e),
                            s.next + extra, s.len - 4096 * extra, s.checked);
            && Ready(s', pd) && Limit(s') == Limit(s)
            && (forall i :: Pde(s'.mem, pd, i) == Pde(s.mem, pd, i))
            && (forall wp | 0 <= wp < VPAGES :: Entry(s'.mem, pd, wp) == if wp == vp then e else Entry(s.mem, pd, wp))
  {
    SetEntryFlat(s.mem, pd, vp, e);
    var t := Pde(s.mem, pd, vp / 1024).frame;
    assert UsesTable(s.mem, pd, vp / 1024, t);
    var s' := State(WithEntry(s.mem, t, vp % 1024, e), s.next + extra, s.len - 4096 * extra, s.checked);
    forall i, f | UsesTable(s'.mem, pd, i, f) ensures !InRegion(s', f) {
      assert UsesTable(s.mem, pd, i, f);
    }
    forall f | InRegion(s', f) ensures IsData(s'.mem, f) {
      assert InRegion(s, f) && s'.mem[f] == s.mem[f];
    }
  }

  lemma MapPrevious(s: State, q: Request, k: nat)
    requires IsTable(s.mem, q.pd) && k > 0 && MapPages(s, q, k).0 == Done
    ensures MapPages(s, q, k - 1).0 == Done && MapPages(s, q, k) == MapPage(MapPages(s, q, k - 1).1, q, k - 1)
  {}

  lemma {:induction false} MapFlat(s: State, q: Request, k: nat)
    requires Ready(s, q.pd) && q.Ok() && k <= q.Count()
    requires Good(s, MapPages(s, q, k))
    ensures MappedPrefix(s, MapPages(s, q, k).1, q, k) && Ready(MapPages(s, q, k).1, q.pd)
  {
    if k > 0 {
      MapAscends(s, q, k);
      MapPrevious(s, q, k);
      MapFlat(s, q, k - 1);
      MapFlatNext(s, q, k - 1);
    }
  }

  lemma MapFlatNext(s: State, q: Request, k: nat)
    requires IsTable(s.mem, q.pd) && q.Ok() && k < q.Count() && MappedPrefix(s, MapPages(s, q, k).1, q, k)
    requires Ready(MapPages(s, q, k).1, q.pd)
    requires MapPage(MapPages(s, q, k).1, q, k) == (Done, MapPages(s, q, k + 1).1) && Good(s, MapPages(s, q, k + 1))
    ensures MappedPrefix(s, MapPages(s, q, k + 1).1, q, k + 1) && Ready(MapPages(s, q, k + 1).1, q.pd)
  {
    MapStep(s, MapPages(s, q, k).1, MapPages(s, q, k + 1).1, q, k);
  }

  ghost predicate AllTables(mem: Memory, q: Request, k: nat) {
    forall vp | q.First() <= vp < q.First() + k :: HasTable(mem, q.pd, vp)
  }

  predicate FramesLast(s: State, q: Request, k: nat) {
    q.paddr != 0 || Room(s.checked, s.len, ZeroPages(s.mem, q.pd, q.First(), k))
  }

  lemma {:induction false} MapOutcome(s: State, q: Request, k: nat)
    requires Ready(s, q.pd) && q.Ok() && k <= q.Count()
    ensures Good(s, MapPages(s, q, k)) <==> AllTables(s.mem, q, k) && FramesLast(s, q, k)
  {
    if k > 0 {
      var j := k - 1;
      MapOutcome(s, q, j);
      if Good(s, MapPages(s, q, k)) { MapEarlier(s, q, j); }
      assert AllTables(s.mem, q, k) <==> AllTables(s.mem, q, j) && HasTable(s.mem, q.pd, q.First() + j);
      assert FramesLast(s, q, k) ==> FramesLast(s, q, j);
      if Good(s, MapPages(s, q, j)) { MapAgain(s, q, j); }
    }
  }

  lemma MapEarlier(s: State, q: Request, k: nat)
    requires IsTable(s.mem, q.pd) && s.next + k + 1 < LONG_FRAMES && Good(s, MapPages(s, q, k + 1))
    ensures Good(s, MapPages(s, q, k))
  {
    MapAscends(s, q, k + 1);
    MapPrevious(s, q, k + 1);
  }

  /** One more turn after `k` good ones. */
  lemma MapAgain(s: State, q: Request, k: nat)
    requires Ready(s, q.pd) && q.Ok() && k < q.Count() && Good(s, MapPages(s, q, k)) && FramesLast(s, q, k)
    ensures var p, table := MapPages(s, q, k + 1), HasTable(s.mem, q.pd, q.First() + k);
            && (Good(s, p) <==> table && FramesLast(s, q, k + 1))
            && (table && !FramesLast(s, q, k + 1) ==> RanOut(s, p))
            && (!table ==> p.0 == Fault && p.1.next <= Limit(s))
  {
    MapNext(s, MapPages(s, q, k).1, q, k);
    MapTurnOutcome(s, q, k);
  }

  /** How turn `k` of the second loop ends, told from the state before the loop. */
  lemma MapTurnOutcome(s: State, q: Request, k: nat)
    requires Ready(s, q.pd) && q.Ok() && k < q.Count() && Good(s, MapPages(s, q, k))
    ensures var p, takes := MapPage(MapPages(s, q, k).1, q, k),
                            q.paddr == 0 && Entry(s.mem, q.pd, q.First() + k) == NONE;
            var room := Room(s.checked, s.len, ZeroPages(s.mem, q.pd, q.First(), k) + 1);
            && (Good(s, p) <==> HasTable(s.mem, q.pd, q.First() + k) && (takes ==> room))
            && (!HasTable(s.mem, q.pd, q.First() + k) ==> p.0 == Fault && p.1.next <= Limit(s))
            && (HasTable(s.mem, q.pd, q.First() + k) && takes && !room ==> RanOut(s, p))
  {
    TurnState(s, q, k);
    TurnEndsFrom(s, MapPages(s, q, k).1, q, k);
  }

  lemma TurnEndsFrom(s: State, s': State, q: Request, k: nat)
    requires var vp := q.First() + k;
             && IsTable(s'.mem, q.pd) && Backed(s') && SlotOk(s'.mem, q.pd, vp / 1024)
             && Limit(s') == Limit(s) && s'.checked == s.checked && Entry(s'.mem, q.pd, vp) == Entry(s.mem, q.pd, vp)
             && (HasTable(s'.mem, q.pd, vp) <==> HasTable(s.mem, q.pd, vp))
             && (q.paddr == 0 ==> s'.len + 4096 * ZeroPages(s.mem, q.pd, q.First(), k) == s.len)
    ensures var p, takes := MapPage(s', q, k), q.paddr == 0 && Entry(s.mem, q.pd, q.First() + k) == NONE;
            var room := Room(s.checked, s.len, ZeroPages(s.mem, q.pd, q.First(), k) + 1);
            && (Good(s, p) <==> HasTable(s.mem, q.pd, q.First() + k) && (takes ==> room))
            && (!HasTable(s.mem, q.pd, q.First() + k) ==> p.0 == Fault && p.1.next <= Limit(s))
            && (HasTable(s.mem, q.pd, q.First() + k) && takes && !room ==> RanOut(s, p))
  {
    TurnEnds(s', q, k);
    if q.paddr == 0 { OneMore(s.checked, s.len, s'.len, ZeroPages(s.mem, q.pd, q.First(), k)); }
  }

  lemma OneMore(checked: bool, len: nat, left: nat, n: nat)
    requires left + 4096 * n == len
    ensures Room(checked, left, 1) <==> Room(checked, len, n + 1)
  {}

  /** What turn `k` finds. */
  lemma TurnState(s: State, q: Request, k: nat)
    requires Ready(s, q.pd) && q.Ok() && k < q.Count() && Good(s, MapPages(s, q, k))
    ensures var s', vp := MapPages(s, q, k).1, q.First() + k;
            && Backed(s') && SlotOk(s'.mem, q.pd, vp / 1024) && Limit(s') == Limit(s) && s'.checked == s.checked
            && Entry(s'.mem, q.pd, vp) == Entry(s.mem, q.pd, vp)
            && (HasTable(s'.mem, q.pd, vp) <==> HasTable(s.mem, q.pd, vp))
            && (q.paddr == 0 ==> s'.len + 4096 * ZeroPages(s.mem, q.pd, q.First(), k) == s.len)
  {
    MapFlat(s, q, k);
    var vp, s' := q.First() + k, MapPages(s, q, k).1;
    assert Pde(s'.mem, q.pd, vp / 1024) == Pde(s.mem, q.pd, vp / 1024);
    assert PrefixPage(s, s', q, k, vp);
  }

  /** How a turn ends, told from the state before it. */
  lemma TurnEnds(s: State, q: Request, k: nat)
    requires IsTable(s.mem, q.pd) && Backed(s) && SlotOk(s.mem, q.pd, (q.First() + k) / 1024)
    ensures var p, takes := MapPage(s, q, k), q.paddr == 0 && Entry(s.mem, q.pd, q.First() + k) == NONE;
            && (Good(s, p) <==> HasTable(s.mem, q.pd, q.First() + k) && (takes ==> Room(s.checked, s.len, 1)))
            && (!HasTable(s.mem, q.pd, q.First() + k) ==> p.0 == Fault && p.1.next <= Limit(s))
            && (HasTable(s.mem, q.pd, q.First() + k) && takes && !Room(s.checked, s.len, 1) ==> RanOut(s, p))
  {
    if s.len >= 4096 { PlainFetch(s); } else { LastFetch(s); }
  }

  /** The entry that one turn writes. */
  lemma MapPageEntry(s: State, s': State, q: Request, k: nat)
    requires q.Ok() && k < q.Count() && MappedPrefix(s, s', q, k) && Ready(s', q.pd)
    requires Good(s, MapPage(s', q, k))
    ensures var vp := q.First() + k;
            var extra := if q.paddr == 0 && Entry(s.mem, q.pd, vp) == NONE then 1 else 0;
            && HasTable(s'.mem, q.pd, vp) && 4096 * extra <= s'.len
            && IsTable(s'.mem, Pde(s'.mem, q.pd, vp / 1024).frame)
            && MapPage(s', q, k).1 ==
                 State(WithEntry(s'.mem, Pde(s'.mem, q.pd, vp / 1024).frame, vp % 1024,
                                 Pte(PageFrame(s.mem, s.next, q, vp), Rights(q.flags))),
                       s'.next + extra, s'.len - 4096 * extra, s'.checked)
  {
    var vp := q.First() + k;
    assert SlotOk(s'.mem, q.pd, vp / 1024);
    assert PrefixPage(s, s', q, k, vp);
    if s'.len >= 4096 { PlainFetch(s'); } else { LastFetch(s'); }
  }

  lemma MapStep(s: State, s': State, s'': State, q: Request, k: nat)
    requires q.Ok() && k < q.Count() && MappedPrefix(s, s', q, k) && Ready(s', q.pd)
    requires MapPage(s', q, k) == (Done, s'') && s''.next <= Limit(s)
    ensures MappedPrefix(s, s'', q, k + 1) && Ready(s'', q.pd)
  {
    var vp := q.First() + k;
    var e := Pte(PageFrame(s.mem, s.next, q, vp), Rights(q.flags));
    MapPageEntry(s, s', q, k);
    PageStepReady(s', q.pd, vp, e, s''.next - s'.next);
    var k' := k + 1;
    forall wp | 0 <= wp < VPAGES ensures PrefixPage(s, s'', q, k', wp) {
      assert PrefixPage(s, s', q, k, wp);
    }
    forall f | 0 <= f < |s.mem| && !RangeTable(s.mem, q, f) ensures s''.mem[f] == s.mem[f] {
      assert q.Includes(vp) && Pde(s'.mem, q.pd, vp / 1024) == Pde(s.mem, q.pd, vp / 1024);
      assert !UsesTable(s.mem, q.pd, vp / 1024, f);
    }
  }

  // ---- both loops ----------------------------------------------------------------------

  function MmapResult(s: State, q: Request): (r: (Outcome, State))
    requires IsTable(s.mem, q.pd)
    ensures !r.0.Overdrawn?
  {
    if s.checked && q.size % 4096 != 0 then (Unaligned, s) else
    var d := q.First() / 1024;
    var c := TableCount(q.First() % 1024, q.size, Pde(s.mem, q.pd, d).frame == 0);
    var p := PreallocSlots(s, q.pd, d, c, TableAccess(q.kernel));
    if p.0 != Done then p else MapPages(p.1, q, q.Count())
  }

  lemma SameZeroPages(mem: Memory, mem': Memory, pd: nat, vp: nat, n: nat)
    requires forall wp | vp <= wp < vp + n :: Entry(mem', pd, wp) == Entry(mem, pd, wp)
    ensures ZeroPages(mem', pd, vp, n) == ZeroPages(mem, pd, vp, n)
  {
    if n > 0 { SameZeroPages(mem, mem', pd, vp, n - 1); }
  }

  lemma NewTableFrame(s: State, pd: nat, d: nat, c: nat, access: Access, i: int)
    ensures NewPde(s, pd, d, c, access, i) != Pde(s.mem, pd, i) ==>
              s.next <= NewPde(s, pd, d, c, access, i).frame < s.next + AbsentSlots(s.mem, pd, d, c)
  {
    if d <= i < d + c && Pde(s.mem, pd, i) == NONE { AbsentMonotone(s.mem, pd, d, i - d, c); }
  }

  /** After the first loop every page of the range has its table, unless it lies in the one
      slot that the count misses. */
  lemma TablesInPlace(s: State, a: State, q: Request)
    requires Ready(s, q.pd) && q.Ok() && q.First() / 1024 + Slots(s, q) <= 1024
    requires Preallocated(s, a, q.pd, q.First() / 1024, Slots(s, q), TableAccess(q.kernel))
    ensures AllTables(a.mem, q, q.Count()) <==> TablesSuffice(s, q)
  {
    MissingTables(s, a, q);
    if q.size != 0 { assert q.Includes(q.First() + q.Count() - 1); }
  }

  lemma MissingTables(s: State, a: State, q: Request)
    requires Ready(s, q.pd) && q.Ok() && q.First() / 1024 + Slots(s, q) <= 1024
    requires Preallocated(s, a, q.pd, q.First() / 1024, Slots(s, q), TableAccess(q.kernel))
    ensures forall vp | q.Includes(vp) ::
              !HasTable(a.mem, q.pd, vp) <==> vp / 1024 == LastSlot(q) && !TablesSuffice(s, q)
  {
    var d, o, span := q.First() / 1024, q.First() % 1024, SlotSpan(q.First() % 1024, q.size);
    PreallocationExact(o, q.size, FirstAbsent(s, q));
    forall vp | q.Includes(vp)
      ensures !HasTable(a.mem, q.pd, vp) <==> vp / 1024 == LastSlot(q) && !TablesSuffice(s, q)
    {
      var i := vp / 1024 - d;
      assert i == (o + (vp - q.First())) / 1024 && i < span;
      assert LastSlot(q) - d == span - 1;
      assert Visited(i, Slots(s, q)) <==> i < Slots(s, q);
    }
  }

  lemma ComposeEntry(s: State, a: State, q: Request, vp: int, e: Pte)
    requires Preallocated(s, a, q.pd, q.First() / 1024, Slots(s, q), TableAccess(q.kernel)) && q.Ok()
    requires 0 <= vp < VPAGES && FlatEntry(a.mem, a.next, q, q.Count(), vp, e)
    ensures FlatEntry(s.mem, s.next + NewTables(s, q), q, q.Count(), vp, e)
  {
    assert Entry(a.mem, q.pd, vp) == Entry(s.mem, q.pd, vp);
    if q.Includes(vp) { SameZeroPages(s.mem, a.mem, q.pd, q.First(), vp - q.First()); }
  }

  /** Preallocation followed by mapping every page is one flat update. */
  lemma Compose(s: State, a: State, s': State, q: Request)
    requires Preallocated(s, a, q.pd, q.First() / 1024, Slots(s, q), TableAccess(q.kernel))
    requires MappedPrefix(a, s', q, q.Count()) && q.Ok()
    requires AllTables(a.mem, q, q.Count())
    ensures Mmapped(s, s', q)
  {
    SameZeroPages(s.mem, a.mem, q.pd, q.First(), q.Count());
    forall vp | 0 <= vp < VPAGES ensures PageAfter(s, s', q, vp) {
      assert PrefixPage(a, s', q, q.Count(), vp);
      ComposeEntry(s, a, q, vp, Entry(s'.mem, q.pd, vp));
    }
    forall vp | q.Includes(vp) ensures HasTable(s'.mem, q.pd, vp) {
      assert HasTable(a.mem, q.pd, vp);
    }
    forall f | 0 <= f < |s.mem| && !Written(s, q, f) ensures s'.mem[f] == s.mem[f] {
      if RangeTable(a.mem, q, f) { ComposeFrame(s, a, q, f); }
    }
  }

  lemma ComposeFrame(s: State, a: State, q: Request, f: int)
    requires Preallocated(s, a, q.pd, q.First() / 1024, Slots(s, q), TableAccess(q.kernel))
    requires RangeTable(a.mem, q, f)
    ensures Written(s, q, f)
  {
    var vp :| q.Includes(vp) && UsesTable(a.mem, q.pd, vp / 1024, f);
    NewTableFrame(s, q.pd, q.First() / 1024, Slots(s, q), TableAccess(q.kernel), vp / 1024);
    if Pde(a.mem, q.pd, vp / 1024) == Pde(s.mem, q.pd, vp / 1024) {
      assert UsesTable(s.mem, q.pd, vp / 1024, f);
    }
  }

  // ---- how a call fails ----------------------------------------------------------------

  /** The part of the count that lies inside the directory. */
  function TriedSlots(s: State, q: Request): nat
    requires q.Ok()
  {
    var d := q.First() / 1024;
    if d + Slots(s, q) <= 1024 then Slots(s, q) else 1024 - d
  }

  /** The pages at the start of the range that have a table once the first loop is done. */
  function CoveredPages(s: State, q: Request): int {
    if TablesSuffice(s, q) then q.Count() else LastSlot(q) * 1024 - q.First()
  }

  /** Frames run out: while tables are made, or later for a page that has its table. */
  predicate Strapped(s: State, q: Request)
    requires q.Ok()
  {
    && (s.checked ==> q.size % 4096 == 0)
    && (|| !Room(s.checked, s.len, AbsentSlots(s.mem, q.pd, q.First() / 1024, TriedSlots(s, q)))
        || (&& q.First() / 1024 + Slots(s, q) <= 1024
            && q.paddr == 0 && CoveredPages(s, q) > 0
            && var zero := ZeroPages(s.mem, q.pd, q.First(), CoveredPages(s, q));
               zero > 0 && !Room(s.checked, s.len, NewTables(s, q) + zero)))
  }

  /** Too few frames for the slots inside the directory. */
  lemma {:induction false} PreallocRunsOut(s: State, pd: nat, d: nat, c: nat, access: Access)
    requires Ready(s, pd) && access.present && access.writable && d + c <= 1024
    requires !Room(s.checked, s.len, AbsentSlots(s.mem, pd, d, c))
    ensures RanOut(s, PreallocSlots(s, pd, d, c, access))
  {
    PreallocAscends(s, pd, d, c, access);
    if Room(s.checked, s.len, AbsentSlots(s.mem, pd, d, c - 1)) {
      PreallocCorrect(s, pd, d, c - 1, access);
      PreallocAgain(s, pd, d, c - 1, access);
    } else {
      PreallocRunsOut(s, pd, d, c - 1, access);
    }
  }

  /** The first loop: out of frames, or past the directory if the frames last that far. */
  lemma PreallocOutcome(s: State, pd: nat, d: nat, c: nat, access: Access)
    requires Ready(s, pd) && access.present && access.writable && d <= 1024 && c <= FRAMES
    ensures var p, inside := PreallocSlots(s, pd, d, c, access), if d + c <= 1024 then c else 1024 - d;
            if !Room(s.checked, s.len, AbsentSlots(s.mem, pd, d, inside)) then RanOut(s, p)
            else p.1.next <= Limit(s) && p.0 == if d + c > 1024 then Fault else Done
  {
    var inside := if d + c <= 1024 then c else 1024 - d;
    if !Room(s.checked, s.len, AbsentSlots(s.mem, pd, d, inside)) {
      PreallocRunsOut(s, pd, d, inside, access);
      PreallocLater(s, pd, d, inside, c, access);
    } else {
      PreallocCorrect(s, pd, d, inside, access);
      if d + c > 1024 {
        PreallocNext(s, pd, d, inside, access);
        PreallocStuck(s, pd, d, inside + 1, c, access);
      }
    }
  }

  lemma PreallocLater(s: State, pd: nat, d: nat, i: nat, c: nat, access: Access)
    requires IsTable(s.mem, pd) && i <= c && s.next + c < LONG_FRAMES
    ensures PreallocSlots(s, pd, d, i, access).1.next <= PreallocSlots(s, pd, d, c, access).1.next
    ensures PreallocSlots(s, pd, d, i, access).0 != Done ==>
              PreallocSlots(s, pd, d, c, access) == PreallocSlots(s, pd, d, i, access)
    decreases c - i
  {
    if i < c {
      PreallocLater(s, pd, d, i, c - 1, access);
      PreallocAscends(s, pd, d, c, access);
    }
  }

  lemma MapLater(s: State, q: Request, i: nat, c: nat)
    requires IsTable(s.mem, q.pd) && i <= c && s.next + c < LONG_FRAMES
    ensures MapPages(s, q, i).1.next <= MapPages(s, q, c).1.next
    ensures MapPages(s, q, i).0 != Done ==> MapPages(s, q, c) == MapPages(s, q, i)
    decreases c - i
  {
    if i < c {
      MapLater(s, q, i, c - 1);
      MapAscends(s, q, c);
    }
  }

  /** Too few frames for pages that have their tables. */
  lemma {:induction false} MapRunsOut(s: State, q: Request, k: nat)
    requires Ready(s, q.pd) && q.Ok() && k <= q.Count() && AllTables(s.mem, q, k) && !FramesLast(s, q, k)
    ensures RanOut(s, MapPages(s, q, k))
  {
    var j := k - 1;
    assert AllTables(s.mem, q, j) && HasTable(s.mem, q.pd, q.First() + j);
    if FramesLast(s, q, j) {
      MapOutcome(s, q, j);
      MapAgain(s, q, j);
    } else {
      MapRunsOut(s, q, j);
      MapStaysOut(s, q, j);
    }
  }

  lemma MapStaysOut(s: State, q: Request, k: nat)
    requires IsTable(s.mem, q.pd) && s.next + k + 1 < LONG_FRAMES && RanOut(s, MapPages(s, q, k))
    ensures RanOut(s, MapPages(s, q, k + 1))
  {
    MapAscends(s, q, k + 1);
  }

  /** The second loop, with tables under exactly the first `j` pages. */
  lemma MapFailure(s: State, q: Request, j: nat)
    requires Ready(s, q.pd) && q.Ok() && j <= q.Count() && AllTables(s.mem, q, j)
    requires j < q.Count() ==> !HasTable(s.mem, q.pd, q.First() + j)
    ensures var p := MapPages(s, q, q.Count());
            if !FramesLast(s, q, j) then RanOut(s, p)
            else p.1.next <= Limit(s) && p.0 == if j < q.Count() then Fault else Done
  {
    if !FramesLast(s, q, j) {
      MapRunsOut(s, q, j);
      MapLater(s, q, j, q.Count());
    } else {
      MapOutcome(s, q, j);
      if j < q.Count() { MapMissing(s, q, j); }
    }
  }

  lemma MapMissing(s: State, q: Request, j: nat)
    requires Ready(s, q.pd) && q.Ok() && j < q.Count() && Good(s, MapPages(s, q, j)) && FramesLast(s, q, j)
    requires !HasTable(s.mem, q.pd, q.First() + j)
    ensures MapPages(s, q, q.Count()).0 == Fault && MapPages(s, q, q.Count()).1.next <= Limit(s)
  {
    MapAgain(s, q, j);
    MapStuck(s, q, j + 1, q.Count());
  }

  /** The pages with a table are those before the slot that the count misses, if it misses one. */
  lemma TablesUpTo(s: State, a: State, q: Request)
    requires Ready(s, q.pd) && q.Ok() && q.First() / 1024 + Slots(s, q) <= 1024
    requires Preallocated(s, a, q.pd, q.First() / 1024, Slots(s, q), TableAccess(q.kernel))
    ensures 0 <= CoveredPages(s, q) <= q.Count() && AllTables(a.mem, q, CoveredPages(s, q))
    ensures TablesSuffice(s, q) <==> CoveredPages(s, q) == q.Count()
    ensures !TablesSuffice(s, q) ==> !HasTable(a.mem, q.pd, q.First() + CoveredPages(s, q))
  {
    TablesInPlace(s, a, q);
    if !TablesSuffice(s, q) {
      var start := LastSlot(q) * 1024;
      PreallocationExact(q.First() % 1024, q.size, FirstAbsent(s, q));
      SpanIsLast(q);
      assert q.First() < start <= q.First() + q.Count() - 1;
      assert q.Includes(start) && start / 1024 == LastSlot(q);
      MissingTables(s, a, q);
    }
  }

  lemma SpanIsLast(q: Request)
    requires q.Ok() && q.size > 0
    ensures LastSlot(q) - q.First() / 1024 == SlotSpan(q.First() % 1024, q.size) - 1
  {
    assert q.First() == 1024 * (q.First() / 1024) + q.First() % 1024;
  }

  /** `bootstrap_mmap`, in either build.  It completes with frames of the region exactly on the
      admissible requests, and then it is the flat update.  It runs out of frames exactly if
      `Strapped`: the assertion stops it then, and without the assertion it hands out a frame from
      behind the region.  The assertion on the size stops it exactly for a partial page, and in all
      other cases it faults. */
  lemma MmapCorrect(s: State, q: Request)
    requires Ready(s, q.pd) && q.Ok()
    ensures Good(s, MmapResult(s, q)) <==> Admissible(s, q)
    ensures RanOut(s, MmapResult(s, q)) <==> Strapped(s, q)
    ensures MmapResult(s, q).0 == Unaligned <==> s.checked && q.size % 4096 != 0
    ensures !Strapped(s, q) ==>
              (MmapResult(s, q).0 == Fault <==>
                 && (s.checked ==> q.size % 4096 == 0)
                 && (q.First() / 1024 + Slots(s, q) > 1024 || !TablesSuffice(s, q)))
    ensures Admissible(s, q) ==> Mmapped(s, MmapResult(s, q).1, q) && Ready(MmapResult(s, q).1, q.pd)
  {
    if s.checked ==> q.size % 4096 == 0 { LoopsCorrect(s, q); }
  }

  lemma SlotsBound(s: State, q: Request)
    requires q.Ok()
    ensures Slots(s, q) <= 1026 && q.Count() <= FRAMES
  {}

  /** Both loops, behind the assertions. */
  lemma LoopsCorrect(s: State, q: Request)
    requires Ready(s, q.pd) && q.Ok() && (s.checked ==> q.size % 4096 == 0)
    ensures var p := MmapResult(s, q);
            && (Good(s, p) <==> Admissible(s, q)) && (RanOut(s, p) <==> Strapped(s, q)) && p.0 != Unaligned
            && (!Strapped(s, q) ==>
                  (p.0 == Fault <==> q.First() / 1024 + Slots(s, q) > 1024 || !TablesSuffice(s, q)))
            && (Good(s, p) ==> Mmapped(s, p.1, q) && Ready(p.1, q.pd))
  {
    var d, c := q.First() / 1024, Slots(s, q);
    assert SlotOk(s.mem, q.pd, d);
    SlotsBound(s, q);
    PreallocCorrect(s, q.pd, d, c, TableAccess(q.kernel));
    PreallocOutcome(s, q.pd, d, c, TableAccess(q.kernel));
    PreallocAscends(s, q.pd, d, c, TableAccess(q.kernel));
    var p := PreallocSlots(s, q.pd, d, c, TableAccess(q.kernel));
    if Good(s, p) {
      SecondLoop(s, p.1, q);
      if Good(p.1, MapPages(p.1, q, q.Count())) { BothLoops(s, p.1, q); }
    } else if p.0 == Done {
      MapAscends(p.1, q, q.Count());
    }
  }

  lemma BothLoops(s: State, a: State, q: Request)
    requires Ready(s, q.pd) && Ready(a, q.pd) && q.Ok() && q.First() / 1024 + Slots(s, q) <= 1024
    requires Preallocated(s, a, q.pd, q.First() / 1024, Slots(s, q), TableAccess(q.kernel))
    requires Good(a, MapPages(a, q, q.Count())) && TablesSuffice(s, q)
    ensures Mmapped(s, MapPages(a, q, q.Count()).1, q) && Ready(MapPages(a, q, q.Count()).1, q.pd)
  {
    MapFlat(a, q, q.Count());
    TablesInPlace(s, a, q);
    Compose(s, a, MapPages(a, q, q.Count()).1, q);
  }

  /** How the second loop ends, told from the state before the first. */
  lemma SecondLoop(s: State, a: State, q: Request)
    requires Ready(s, q.pd) && Ready(a, q.pd) && q.Ok() && q.First() / 1024 + Slots(s, q) <= 1024
    requires Preallocated(s, a, q.pd, q.First() / 1024, Slots(s, q), TableAccess(q.kernel))
    requires Room(s.checked, s.len, NewTables(s, q)) && (s.checked ==> q.size % 4096 == 0)
    ensures Limit(a) == Limit(s) && a.checked == s.checked
    ensures var p := MapPages(a, q, q.Count());
            if Strapped(s, q) then RanOut(s, p)
            else p.1.next <= Limit(s) && p.0 == if TablesSuffice(s, q) then Done else Fault
    ensures Good(a, MapPages(a, q, q.Count())) <==> Admissible(s, q)
  {
    SecondNeeds(s, a, q);
    MapFailure(a, q, CoveredPages(s, q));
  }

  /** What is left to the second loop: the pages before the slot that the count misses. */
  lemma SecondNeeds(s: State, a: State, q: Request)
    requires Ready(s, q.pd) && q.Ok() && q.First() / 1024 + Slots(s, q) <= 1024
    requires Preallocated(s, a, q.pd, q.First() / 1024, Slots(s, q), TableAccess(q.kernel))
    requires Room(s.checked, s.len, NewTables(s, q)) && (s.checked ==> q.size % 4096 == 0)
    ensures Limit(a) == Limit(s) && a.checked == s.checked
    ensures var j := CoveredPages(s, q);
            && 0 <= j <= q.Count() && AllTables(a.mem, q, j) && (TablesSuffice(s, q) <==> j == q.Count())
            && (j < q.Count() ==> !HasTable(a.mem, q.pd, q.First() + j))
            && (Strapped(s, q) <==> !FramesLast(a, q, j))
            && (Admissible(s, q) <==> j == q.Count() && FramesLast(a, q, j))
  {
    TablesUpTo(s, a, q);
    var j := CoveredPages(s, q);
    SameZeroPages(s.mem, a.mem, q.pd, q.First(), j);
    RoomAfter(s.checked, s.len, NewTables(s, q), ZeroPages(s.mem, q.pd, q.First(), j));
  }

  /** Ten frames: a directory with one table, still empty, and seven free data frames. */
  function SmallState(checked: bool): State {
    var blank := Data(seq(4096, _ => 0));
    var dir := Table(seq(1024, i => if i == 0 then Pte(2, TableAccess(true)) else NONE));
    State([blank, dir, ZeroTable(), blank, blank, blank, blank, blank, blank, blank], 3, 7 * 4096, checked)
  }

  /** Two pages across the end of the only table: the second table is never made, and the second
      page is written through the missing one. */
  lemma MissFaults(checked: bool)
    ensures var s, q := SmallState(checked), Request(1, true, 0, 1023 * 4096, 2 * 4096, PROT_READ);
            Ready(s, q.pd) && q.Ok() && !Strapped(s, q) && MmapResult(s, q).0 == Fault
  {
    var s, q := SmallState(checked), Request(1, true, 0, 1023 * 4096, 2 * 4096, PROT_READ);
    assert forall i :: Pde(s.mem, 1, i) == if i == 0 then Pte(2, TableAccess(true)) else NONE;
    forall i | 0 <= i < 1024 ensures SlotOk(s.mem, 1, i) {}
    assert Ready(s, 1);
    assert AbsentSlots(s.mem, 1, 0, 1) == 0;
    assert ZeroPages(s.mem, 1, 1023, 1) <= 1;
    MmapCorrect(s, q);
  }

  /** A loop that stops early keeps its outcome. */
  lemma PreallocStuck(s: State, pd: nat, d: nat, i: nat, c: nat, access: Access)
    requires IsTable(s.mem, pd) && i <= c
    ensures PreallocSlots(s, pd, d, i, access).0 != Done ==>
              PreallocSlots(s, pd, d, c, access) == PreallocSlots(s, pd, d, i, access)
    decreases c - i
  {
    if i < c { PreallocStuck(s, pd, d, i, c - 1, access); }
  }

  lemma MapStuck(s: State, q: Request, i: nat, c: nat)
    requires IsTable(s.mem, q.pd) && i <= c
    ensures MapPages(s, q, i).0 != Done ==> MapPages(s, q, c) == MapPages(s, q, i)
    decreases c - i
  {
    if i < c { MapStuck(s, q, i, c - 1); }
  }

  lemma MapNext(s: State, s': State, q: Request, k: nat)
    requires IsTable(s.mem, q.pd) && MapPages(s, q, k) == (Done, s')
    ensures MapPages(s, q, k + 1) == MapPage(s', q, k)
  {}

  /** Even in a directory that maps itself, a turn keeps the frame of the table it used. */
  lemma TableKept(s: State, q: Request, k: nat)
    requires IsTable(s.mem, q.pd)
    ensures var slot := (q.First() + k) / 1024;
            Pde(MapPage(s, q, k).1.mem, q.pd, slot).frame == Pde(s.mem, q.pd, slot).frame
  {}

  lemma PageOffsets(q: Request, k: nat)
    requires q.Ok() && k < q.Count()
    ensures var vp := q.First() + k;
            && PtOffset(q.vaddr + 4096 * k, 1) == vp / 1024 < 1024
            && PtOffset(q.vaddr + 4096 * k, 0) == vp % 1024
            && (q.paddr + 4096 * k) / 4096 == q.paddr / 4096 + k
  {
    assert (q.vaddr + 4096 * k) / 4096 == q.First() + k;
  }

  // ---- the region over a call -----------------------------------------------------------

  /** `n` fetches later, in 64-bit arithmetic. */
  predicate Drained(s: State, s': State, n: nat) {
    4096 * n < QWORD && s'.next == s.next + n && s'.len == Sub64(s.len, 4096 * n) && s'.checked == s.checked
  }

  lemma DrainOne(s: State, s': State, n: nat)
    requires Drained(s, s', n) && s'.next + 1 < LONG_FRAMES && s.len < QWORD
    ensures Drained(s, Fetched(s').(mem := s'.mem), n + 1)
  {}

  lemma {:induction false} PreallocDrains(s: State, pd: nat, d: nat, c: nat, access: Access) returns (n: nat)
    requires IsTable(s.mem, pd) && s.next + c < LONG_FRAMES && s.len < QWORD
    ensures n <= c && Drained(s, PreallocSlots(s, pd, d, c, access).1, n)
  {
    n := 0;
    if c > 0 {
      n := PreallocDrains(s, pd, d, c - 1, access);
      var s' := PreallocSlots(s, pd, d, c - 1, access).1;
      DrainOne(s, s', n);
      if PreallocSlots(s, pd, d, c, access).1.next != s'.next { n := n + 1; }
    }
  }

  lemma {:induction false} MapDrains(s: State, q: Request, k: nat) returns (n: nat)
    requires IsTable(s.mem, q.pd) && s.next + k < LONG_FRAMES && s.len < QWORD
    ensures n <= k && Drained(s, MapPages(s, q, k).1, n)
  {
    n := 0;
    if k > 0 {
      n := MapDrains(s, q, k - 1);
      var s' := MapPages(s, q, k - 1).1;
      DrainOne(s, s', n);
      if MapPages(s, q, k).1.next != s'.next { n := n + 1; }
    }
  }

  /** As long as less than the whole 64-bit range is fetched, three things say the same: no frame
      behind the region is handed out, the region keeps its upper end, and it gets no longer. */
  lemma DrainedWithin(s: State, s': State, n: nat)
    requires Drained(s, s', n) && s.len < QWORD
    ensures Advances(s, s') <==> s'.next <= Limit(s)
    ensures s'.len <= s.len <==> s'.next <= Limit(s)
  {}

  /** Conservation by one call, in either build: the region keeps its upper end exactly if no frame
      from behind it is handed out. */
  lemma MmapLength(s: State, q: Request)
    requires Ready(s, q.pd) && q.Ok()
    ensures var s' := MmapResult(s, q).1;
            (Advances(s, s') <==> s'.next <= Limit(s)) && (s'.len <= s.len <==> s'.next <= Limit(s))
  {
    SlotsBound(s, q);
    assert SlotOk(s.mem, q.pd, q.First() / 1024);
    var p := PreallocSlots(s, q.pd, q.First() / 1024, Slots(s, q), TableAccess(q.kernel));
    var n := PreallocDrains(s, q.pd, q.First() / 1024, Slots(s, q), TableAccess(q.kernel));
    if s.checked && q.size % 4096 != 0 {
      assert Drained(s, s, 0);
      DrainedWithin(s, s, 0);
    } else if p.0 != Done {
      DrainedWithin(s, p.1, n);
    } else {
      var k := MapDrains(p.1, q, q.Count());
      DrainMore(s, p.1, n, MapPages(p.1, q, q.Count()).1, k);
      DrainedWithin(s, MapPages(p.1, q, q.Count()).1, n + k);
    }
  }

  lemma DrainMore(s: State, a: State, n: nat, s': State, k: nat)
    requires Drained(s, a, n) && Drained(a, s', k) && s.len < QWORD && 4096 * (n + k) < QWORD
    ensures Drained(s, s', n + k)
  {}

  /** A call completes and memory is conserved exactly if it is admissible, in either build. */
  lemma ConservedExactly(s: State, q: Request)
    requires Ready(s, q.pd) && q.Ok()
    ensures MmapResult(s, q).0 == Done && Advances(s, MmapResult(s, q).1) <==> Admissible(s, q)
  {
    MmapCorrect(s, q);
    MmapLength(s, q);
  }

  /** The same state in a build without assertions. */
  function Unchecked(s: State): State { s.(checked := false) }

  lemma {:induction false} PreallocAgrees(s: State, pd: nat, d: nat, c: nat, access: Access)
    requires IsTable(s.mem, pd) && PreallocSlots(s, pd, d, c, access).0 == Done
    ensures PreallocSlots(Unchecked(s), pd, d, c, access) ==
              (Done, Unchecked(PreallocSlots(s, pd, d, c, access).1))
  {
    if c > 0 {
      PreallocPrevious(s, pd, d, c, access);
      PreallocAgrees(s, pd, d, c - 1, access);
      SlotAgrees(PreallocSlots(s, pd, d, c - 1, access).1, pd, d + c - 1, access);
      PreallocNext(Unchecked(s), pd, d, c - 1, access);
    }
  }

  lemma SlotAgrees(s: State, pd: nat, slot: nat, access: Access)
    requires IsTable(s.mem, pd) && PreallocSlot(s, pd, slot, access).0 == Done
    ensures PreallocSlot(Unchecked(s), pd, slot, access) == (Done, Unchecked(PreallocSlot(s, pd, slot, access).1))
  {}

  lemma {:induction false} MapAgrees(s: State, q: Request, k: nat)
    requires IsTable(s.mem, q.pd) && MapPages(s, q, k).0 == Done
    ensures MapPages(Unchecked(s), q, k) == (Done, Unchecked(MapPages(s, q, k).1))
  {
    if k > 0 {
      MapPrevious(s, q, k);
      MapAgrees(s, q, k - 1);
      PageAgrees(MapPages(s, q, k - 1).1, q, k - 1);
      MapNext(Unchecked(s), MapPages(Unchecked(s), q, k - 1).1, q, k - 1);
    }
  }

  lemma PageAgrees(s: State, q: Request, k: nat)
    requires IsTable(s.mem, q.pd) && MapPage(s, q, k).0 == Done
    ensures MapPage(Unchecked(s), q, k) == (Done, Unchecked(MapPage(s, q, k).1))
  {}

  /** What completes with assertions does the same without them. */
  lemma BuildsAgree(s: State, q: Request)
    requires IsTable(s.mem, q.pd) && MmapResult(s, q).0 == Done
    ensures MmapResult(Unchecked(s), q) == (Done, Unchecked(MmapResult(s, q).1))
  {
    var d := q.First() / 1024;
    var c := TableCount(q.First() % 1024, q.size, Pde(s.mem, q.pd, d).frame == 0);
    PreallocAgrees(s, q.pd, d, c, TableAccess(q.kernel));
    MapAgrees(PreallocSlots(s, q.pd, d, c, TableAccess(q.kernel)).1, q, q.Count());
  }

  /** Four frames: a free one, then a directory and its empty table. */
  function TightState(): State {
    var blank := Data(seq(4096, _ => 0));
    var dir := Table(seq(1024, i => if i == 0 then Pte(3, TableAccess(false)) else NONE));
    State([blank, blank, dir, ZeroTable()], 1, 4096, false)
  }

  /** Without the assertion a program that maps two pages gets its own directory as the second. */
  lemma DirectoryGivenAway()
    ensures var s, q := TightState(), Request(2, false, 0, 0, 2 * 4096, PROT_READ + PROT_WRITE + PROT_USER);
            && Ready(s, q.pd) && q.Ok() && Strapped(s, q) && MmapResult(s, q).0 == Done
            && Walk(MmapResult(s, q).1.mem, q.pd, 1) == Mapped(q.pd, true, true)
  {
    var s, q := TightState(), Request(2, false, 0, 0, 2 * 4096, PROT_READ + PROT_WRITE + PROT_USER);
    assert forall i :: Pde(s.mem, 2, i) == if i == 0 then Pte(3, TableAccess(false)) else NONE;
    forall i | 0 <= i < 1024 ensures SlotOk(s.mem, 2, i) {}
    assert Ready(s, 2);
    assert MapPages(s, q, 0) == (Done, s);
    var s1 := MapPages(s, q, 1).1;
    assert s1 == State(WithEntry(s.mem, 3, 0, Pte(1, Rights(q.flags))), 2, 0, false);
    var s2 := MapPages(s, q, 2).1;
    assert s2.mem == WithEntry(s1.mem, 3, 1, Pte(2, Rights(q.flags)));
    MmapCorrect(s, q);
    assert MmapResult(s, q) == MapPages(s, q, 2);
  }

  // ---- the machine ---------------------------------------------------------------------

  lemma FetchNumbers(addr: nat)
    requires addr % 4096 == 0
    ensures addr % WORD == 4096 * if addr / 4096 < FRAMES then addr / 4096 else addr / 4096 % FRAMES
    ensures Add64(addr, 4096) % 4096 == 0
    ensures Add64(addr, 4096) / 4096 ==
              if addr / 4096 + 1 < LONG_FRAMES then addr / 4096 + 1 else addr / 4096 + 1 - LONG_FRAMES
  {
    CutToWord(addr / 4096);
    NextFrame(addr / 4096);
  }

  lemma CutToWord(f: nat)
    ensures 4096 * f % WORD == 4096 * if f < FRAMES then f else f % FRAMES
  {
    assert f == FRAMES * (f / FRAMES) + f % FRAMES;
    DivModUnique(4096 * f, WORD, f / FRAMES, 4096 * (f % FRAMES));
    if f < FRAMES { DivModUnique(f, FRAMES, 0, f); }
  }

  lemma NextFrame(f: nat)
    ensures var next := if f + 1 < LONG_FRAMES then f + 1 else f + 1 - LONG_FRAMES;
            Add64(4096 * f, 4096) == 4096 * next && 4096 * next / 4096 == next && 4096 * next % 4096 == 0
  {}

  class Machine {
    var mem: Memory
    var regionAddr: nat   // kinfo->memmaps[0].addr
    var regionLen: nat    // kinfo->memmaps[0].len
    var cr3: nat
    const checked: bool   // DEBUG is defined

    ghost function S(): State reads this { State(mem, regionAddr / 4096, regionLen, checked) }

    constructor (mem: Memory, regionAddr: nat, regionLen: nat, checked: bool)
      ensures S() == State(mem, regionAddr / 4096, regionLen, checked) && this.regionAddr == regionAddr
      ensures this.checked == checked
    {
      this.mem, this.regionAddr, this.regionLen, this.cr3 := mem, regionAddr, regionLen, 0;
      this.checked := checked;
    }

    /** Hands out the first frame of the region; only the assertion can stop it. */
    method FetchPage() returns (ok: bool, page: nat)
      requires regionAddr % 4096 == 0
      modifies `regionAddr, `regionLen
      ensures regionAddr % 4096 == 0
      ensures ok <==> !Halts(old(S()))
      ensures ok ==> page == 4096 * FetchedFrame(old(S())) && S() == Fetched(old(S()))
      ensures !ok ==> S() == old(S())
      ensures ok <==> !checked || old(regionLen) > 4096
      ensures ok ==> page == old(regionAddr) % 0x1_0000_0000
      ensures ok && old(regionAddr) + 4096 < 0x1_0000_0000_0000_0000 ==> regionAddr == old(regionAddr) + 4096
      ensures ok && old(regionLen) >= 4096 ==> regionLen == old(regionLen) - 4096
      ensures ok && old(regionLen) < 4096 ==> regionLen == old(regionLen) + 0x1_0000_0000_0000_0000 - 4096
    {
      FetchNumbers(regionAddr);
      page := regionAddr % WORD;
      if checked && regionLen <= 4096 { return false, page; }
      regionAddr, regionLen := Add64(regionAddr, 4096), Sub64(regionLen, 4096);
      ok := true;
    }

    /** Body of the first loop. */
    method MakeTable(pd: nat, slot: nat, access: Access) returns (r: Outcome)
      requires IsTable(mem, pd) && regionAddr % 4096 == 0
      modifies `mem, `regionAddr, `regionLen
      ensures regionAddr % 4096 == 0
      ensures (r, S()) == PreallocSlot(old(S()), pd, slot, access)
    {
      if slot >= 1024 { return Fault; }
      if mem[pd].entries[slot] == NONE {
        var ok, pt := FetchPage();
        if !ok || pt == 0 { return OutOfFrames; }
        if pt / 4096 >= |mem| { return Fault; }
        mem := WithTable(mem, pd, slot, pt / 4096, access);
      }
      r := Done;
    }

    /** First loop of `bootstrap_mmap`: a zeroed table under each absent slot of the count. */
    method Preallocate(pd: nat, d: nat, c: nat, access: Access) returns (r: Outcome)
      requires IsTable(mem, pd) && regionAddr % 4096 == 0
      modifies `mem, `regionAddr, `regionLen
      ensures regionAddr % 4096 == 0
      ensures (r, S()) == PreallocSlots(old(S()), pd, d, c, access)
    {
      var i := 0;
      while i < c
        invariant regionAddr % 4096 == 0 && IsTable(mem, pd)
        invariant i <= c && PreallocSlots(old(S()), pd, d, i, access) == (Done, S())
      {
        PreallocStuck(old(S()), pd, d, i + 1, c, access);
        r := MakeTable(pd, d + i, access);
        if r != Done { return; }
        i := i + 1;
      }
      r := Done;
    }

    /** Body of the second loop, with the table of the page already looked up. */
    method MapOne(q: Request, currentPt: nat, offset: nat, ghost k: nat) returns (r: Outcome)
      requires IsTable(mem, q.pd) && q.Ok() && regionAddr % 4096 == 0
      requires offset == 4096 * k && k < q.Count()
      requires currentPt == Pde(mem, q.pd, (q.First() + k) / 1024).frame
      modifies `mem, `regionAddr, `regionLen
      ensures regionAddr % 4096 == 0
      ensures (r, S()) == MapPage(old(S()), q, k)
    {
      PageOffsets(q, k);
      if currentPt == 0 || !IsTable(mem, currentPt) { return Fault; }
      var index := PtOffset(q.vaddr + offset, 0);
      var entry := mem[currentPt].entries[index];
      var frame := entry.frame;
      if entry == NONE && q.paddr == 0 {
        var ok, page := FetchPage();
        if !ok { return OutOfFrames; }
        frame := page / 4096;
      } else if entry == NONE {
        frame := (q.paddr + offset) / 4096;
      }
      mem := WithEntry(mem, currentPt, index, Pte(frame, Rights(q.flags)));
      r := Done;
    }

    /** A turn of the second loop; the table is looked up anew only when the slot changes. */
    method MapTurn(q: Request, pdOffset: nat, currentPt: nat, offset: nat, ghost k: nat)
      returns (r: Outcome, slot: nat, table: nat)
      requires IsTable(mem, q.pd) && q.Ok() && regionAddr % 4096 == 0
      requires offset == 4096 * k && k < q.Count()
      requires pdOffset < 1024 && currentPt == Pde(mem, q.pd, pdOffset).frame
      modifies `mem, `regionAddr, `regionLen
      ensures regionAddr % 4096 == 0
      ensures (r, S()) == MapPage(old(S()), q, k)
      ensures slot < 1024 && table == Pde(mem, q.pd, slot).frame
    {
      PageOffsets(q, k);
      slot, table := PtOffset(q.vaddr + offset, 1), currentPt;
      if pdOffset != slot { table := mem[q.pd].entries[slot].frame; }
      TableKept(S(), q, k);
      r := MapOne(q, table, offset, k);
    }

    /** Second loop: the entry of every page of the range. */
    method MapRange(q: Request) returns (r: Outcome)
      requires IsTable(mem, q.pd) && q.Ok() && regionAddr % 4096 == 0
      modifies `mem, `regionAddr, `regionLen
      ensures regionAddr % 4096 == 0
      ensures (r, S()) == MapPages(old(S()), q, q.Count())
    {
      var pdOffset := PtOffset(q.vaddr, 1);
      var currentPt := mem[q.pd].entries[pdOffset].frame;
      var offset := 0;
      ghost var k, s0 := 0, S();
      while offset < q.size
        invariant regionAddr % 4096 == 0 && IsTable(mem, q.pd)
        invariant offset == 4096 * k && k <= q.Count()
        invariant MapPages(s0, q, k) == (Done, S())
        invariant pdOffset < 1024 && currentPt == Pde(mem, q.pd, pdOffset).frame
        decreases q.size - offset
      {
        MapNext(s0, S(), q, k);
        r, pdOffset, currentPt := MapTurn(q, pdOffset, currentPt, offset, k);
        if r != Done {
          MapStuck(s0, q, k + 1, q.Count());
          return;
        }
        offset, k := offset + 4096, k + 1;
      }
      r := Done;
    }

    /** The body of `bootstrap_mmap`, for any directory page. */
    method MmapBody(q: Request) returns (r: Outcome)
      requires IsTable(mem, q.pd) && q.Ok() && regionAddr % 4096 == 0
      modifies `mem, `regionAddr, `regionLen
      ensures regionAddr % 4096 == 0
      ensures (r, S()) == MmapResult(old(S()), q)
    {
      if checked && q.size % 4096 != 0 { return Unaligned; }
      var d, o := PtOffset(q.vaddr, 1), PtOffset(q.vaddr, 0);
      assert d == q.First() / 1024 && o == q.First() % 1024;
      var currentPt := mem[q.pd].entries[d].frame;
      var c := TableCount(o, q.size, currentPt == 0);
      r := Preallocate(q.pd, d, c, TableAccess(q.kernel));
      if r != Done { return; }
      r := MapRange(q);
    }

    /** `bootstrap_mmap` on a well-formed directory.  The result tells an overdrawn call, which the
        source does not notice. */
    method Mmap(q: Request) returns (r: Outcome)
      requires Ready(S(), q.pd) && q.Ok() && regionAddr % 4096 == 0
      modifies `mem, `regionAddr, `regionLen
      ensures regionAddr % 4096 == 0
      ensures r == Done <==> Admissible(old(S()), q)
      ensures r == Done ==> Mmapped(old(S()), S(), q) && Ready(S(), q.pd) && Advances(old(S()), S())
      ensures r == Unaligned <==> checked && q.size % 4096 != 0
      ensures checked ==> (r == OutOfFrames <==> Strapped(old(S()), q))
      ensures !checked ==> (S().next > Limit(old(S())) <==> Strapped(old(S()), q))
      ensures r == Overdrawn <==> MmapResult(old(S()), q).0 == Done && !Admissible(old(S()), q)
    {
      MmapCorrect(S(), q);
      MmapLength(S(), q);
      var before := regionLen;
      r := MmapBody(q);
      // below here nothing is in the source
      if r == Done && regionLen > before { r := Overdrawn; }
    }
  }
}
