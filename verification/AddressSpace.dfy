/**
 What a sequence of allocating user mappings does to one directory, seen from the state
 it started in: old entries keep their frames, new entries get frames of their own out
 of the free region, and nothing else in memory moves.
 */
module AddressSpace {
  import opened Paging
  import opened Mmap

  // ---- consequences of one call ----------------------------------------------------

  /** The walk after a call: rights are those asked for, cut by the rights of the slot. */
  lemma WalkAfter(s: State, s': State, q: Request, vp: int)
    requires Mmapped(s, s', q) && Ready(s', q.pd) && q.Ok() && 0 <= vp < VPAGES
    ensures q.Includes(vp) ==>
              Walk(s'.mem, q.pd, vp) ==
                if Rights(q.flags).present
                then Mapped(FrameFor(s, q, vp), Rights(q.flags).writable,
                            Rights(q.flags).user && PdeAfter(s, q, vp / 1024).access.user)
                else NotPresent
    ensures !q.Includes(vp) && Ready(s, q.pd) ==> Walk(s'.mem, q.pd, vp) == Walk(s.mem, q.pd, vp)
  {
    assert PageAfter(s, s', q, vp);
    assert Pde(s'.mem, q.pd, vp / 1024) == PdeAfter(s, q, vp / 1024);
    assert SlotOk(s'.mem, q.pd, vp / 1024);
    if q.Includes(vp) { assert HasTable(s'.mem, q.pd, vp); }
  }

  /** Fresh frames lie in the consumed part of the region, after the new tables, one a page. */
  lemma FreshFrame(s: State, q: Request, vp: int)
    requires q.Includes(vp) && q.paddr == 0 && Entry(s.mem, q.pd, vp) == NONE
    ensures s.next + NewTables(s, q) <= FrameFor(s, q, vp) < s.next + Need(s, q)
  {
    ZeroMonotone(s.mem, q.pd, q.First(), vp - q.First(), q.Count());
  }

  lemma FreshFramesDistinct(s: State, q: Request, vp: int, wp: int)
    requires q.Includes(vp) && q.Includes(wp) && vp < wp && q.paddr == 0
    requires Entry(s.mem, q.pd, vp) == NONE && Entry(s.mem, q.pd, wp) == NONE
    ensures FrameFor(s, q, vp) < FrameFor(s, q, wp)
  {
    ZeroMonotone(s.mem, q.pd, q.First(), vp - q.First(), wp - q.First());
  }

  lemma ZeroMonotone(mem: Memory, pd: nat, vp: nat, k: nat, n: nat)
    requires k <= n
    ensures ZeroPages(mem, pd, vp, k) <= ZeroPages(mem, pd, vp, n)
    ensures k < n && Entry(mem, pd, vp + k) == NONE ==> ZeroPages(mem, pd, vp, k) < ZeroPages(mem, pd, vp, n)
    decreases n
  {
    if k < n { ZeroMonotone(mem, pd, vp, k, n - 1); }
  }

  /** A call writes page tables only: data outside the new tables keeps its bytes. */
  lemma DataKept(s: State, s': State, q: Request, f: int)
    requires Ready(s, q.pd) && Mmapped(s, s', q) && IsData(s.mem, f)
    requires !(s.next <= f < s.next + NewTables(s, q))
    ensures s'.mem[f] == s.mem[f]
  {
    forall vp | q.Includes(vp) ensures !UsesTable(s.mem, q.pd, vp / 1024, f) {
      assert SlotOk(s.mem, q.pd, vp / 1024);
    }
  }

  // ---- growth --------------------------------------------------------------------------

  predicate NewPage(s0: State, s: State, pd: nat, vp: int, f: int) {
    && 0 <= vp < VPAGES
    && Entry(s0.mem, pd, vp) == NONE && Entry(s.mem, pd, vp) != NONE && Entry(s.mem, pd, vp).frame == f
  }

  ghost predicate OldTable(s0: State, pd: nat, f: int) { exists i :: UsesTable(s0.mem, pd, i, f) }

  predicate SlotGrown(s0: State, s: State, pd: nat, i: int) {
    var d0, d := Pde(s0.mem, pd, i), Pde(s.mem, pd, i);
    if d0 != NONE then d == d0
    else d != NONE ==> s0.next <= d.frame < s.next && d.access == TableAccess(false)
  }

  predicate PageGrown(s0: State, s: State, pd: nat, vp: int) {
    var e0, e := Entry(s0.mem, pd, vp), Entry(s.mem, pd, vp);
    if e0 != NONE then e0.frame != 0 ==> e.frame == e0.frame
    else e != NONE ==> s0.next <= e.frame < s.next && IsData(s.mem, e.frame)
  }

  /** Frames that growth leaves alone; a private growth touches no table of the start. */
  ghost predicate Untouched(s0: State, s: State, pd: nat, private: bool, f: int) {
    0 <= f < |s0.mem| && f != pd && !(s0.next <= f < s.next) && (private || !OldTable(s0, pd, f))
  }

  ghost predicate Grown(s0: State, s: State, pd: nat, private: bool) {
    && |s.mem| == |s0.mem| && Advances(s0, s) && Limit(s) == Limit(s0)
    && (forall i :: SlotGrown(s0, s, pd, i))
    && (forall vp | 0 <= vp < VPAGES :: PageGrown(s0, s, pd, vp))
    && (forall vp, wp, f | NewPage(s0, s, pd, vp, f) && NewPage(s0, s, pd, wp, f) :: vp == wp)
    && (forall f | Untouched(s0, s, pd, private, f) :: s.mem[f] == s0.mem[f])
  }

  /** A request of the user loader: it allocates, and where privacy is asked for it stays in
      slots that were empty at the start. */
  ghost predicate UserRequest(s0: State, q: Request, private: bool) {
    && q.Ok() && q.paddr == 0 && !q.kernel
    && (private ==> forall vp | q.Includes(vp) :: !HasTable(s0.mem, q.pd, vp))
  }

  lemma GrowsSlots(s0: State, s: State, s': State, q: Request, private: bool, i: int)
    requires Grown(s0, s, q.pd, private) && Mmapped(s, s', q) && !q.kernel
    ensures SlotGrown(s0, s', q.pd, i)
  {
    assert SlotGrown(s0, s, q.pd, i) && Pde(s'.mem, q.pd, i) == PdeAfter(s, q, i);
    NewTableFrame(s, q.pd, q.First() / 1024, Slots(s, q), TableAccess(false), i);
  }

  lemma GrowsPage(s0: State, s: State, s': State, q: Request, private: bool, vp: int)
    requires Ready(s, q.pd) && Grown(s0, s, q.pd, private) && Mmapped(s, s', q) && Ready(s', q.pd)
    requires UserRequest(s0, q, private) && 0 <= vp < VPAGES
    ensures PageGrown(s0, s', q.pd, vp)
  {
    assert PageGrown(s0, s, q.pd, vp);
    assert PageAfter(s, s', q, vp);
    var e0, e, e' := Entry(s0.mem, q.pd, vp), Entry(s.mem, q.pd, vp), Entry(s'.mem, q.pd, vp);
    if e0 == NONE && e' != NONE {
      if e != NONE {
        DataKept(s, s', q, e.frame);
      } else {
        FreshFrame(s, q, vp);
        assert InRegion(s, e'.frame);
        DataKept(s, s', q, e'.frame);
      }
    }
  }

  lemma GrowsDistinct(s0: State, s: State, s': State, q: Request, private: bool, vp: int, wp: int, f: int)
    requires Grown(s0, s, q.pd, private) && Mmapped(s, s', q) && UserRequest(s0, q, private)
    requires NewPage(s0, s', q.pd, vp, f) && NewPage(s0, s', q.pd, wp, f)
    ensures vp == wp
  {
    assert PageAfter(s, s', q, vp);
    assert PageAfter(s, s', q, wp);
    assert PageGrown(s0, s, q.pd, vp) && PageGrown(s0, s, q.pd, wp);
    if NewPage(s0, s, q.pd, vp, f) && NewPage(s0, s, q.pd, wp, f) {
    } else if NewPage(s0, s, q.pd, vp, f) {
      FreshFrame(s, q, wp);
    } else if NewPage(s0, s, q.pd, wp, f) {
      FreshFrame(s, q, vp);
    } else if vp < wp {
      FreshFramesDistinct(s, q, vp, wp);
    } else if wp < vp {
      FreshFramesDistinct(s, q, wp, vp);
    }
  }

  lemma GrowsUntouched(s0: State, s: State, s': State, q: Request, private: bool, f: int)
    requires Grown(s0, s, q.pd, private) && Mmapped(s, s', q) && UserRequest(s0, q, private)
    requires Untouched(s0, s', q.pd, private, f)
    ensures s'.mem[f] == s0.mem[f]
  {
    assert Untouched(s0, s, q.pd, private, f);
    forall vp | q.Includes(vp) ensures !UsesTable(s.mem, q.pd, vp / 1024, f) {
      assert SlotGrown(s0, s, q.pd, vp / 1024);
      assert private ==> !HasTable(s0.mem, q.pd, vp);
      assert !private ==> !UsesTable(s0.mem, q.pd, vp / 1024, f);
    }
  }

  /** One more call of the user loader is still growth. */
  lemma MmapGrows(s0: State, s: State, s': State, q: Request, private: bool)
    requires Ready(s, q.pd) && Grown(s0, s, q.pd, private) && Mmapped(s, s', q) && Ready(s', q.pd)
    requires UserRequest(s0, q, private)
    ensures Grown(s0, s', q.pd, private)
  {
    forall i ensures SlotGrown(s0, s', q.pd, i) { GrowsSlots(s0, s, s', q, private, i); }
    forall vp | 0 <= vp < VPAGES ensures PageGrown(s0, s', q.pd, vp) { GrowsPage(s0, s, s', q, private, vp); }
    forall vp, wp, f | NewPage(s0, s', q.pd, vp, f) && NewPage(s0, s', q.pd, wp, f) ensures vp == wp {
      GrowsDistinct(s0, s, s', q, private, vp, wp, f);
    }
    forall f | Untouched(s0, s', q.pd, private, f) ensures s'.mem[f] == s0.mem[f] {
      GrowsUntouched(s0, s, s', q, private, f);
    }
  }

  lemma GrownRefl(s: State, pd: nat, private: bool)
    ensures Grown(s, s, pd, private)
  {}

  /** Asking again for a range just mapped, with other rights, takes no frame at all. */
  lemma RemapNeedsNothing(s: State, a: State, b: State, q: Request, q': Request)
    requires Mmapped(s, a, q) && q.Ok() && q.size != 0
    requires q' == q.(flags := q'.flags) && q.paddr == 0
    requires forall i :: Pde(b.mem, q.pd, i) == Pde(a.mem, q.pd, i)
    requires forall vp | q.Includes(vp) :: Entry(b.mem, q.pd, vp) != NONE
    ensures Need(b, q') == 0
  {
    assert q.Includes(q.First()) && HasTable(a.mem, q.pd, q.First());
    var d := q.First() / 1024;
    assert Slots(b, q') <= Slots(s, q);
    forall i | d <= i < d + Slots(b, q') ensures Pde(b.mem, q.pd, i) != NONE {
      assert Pde(a.mem, q.pd, i) == PdeAfter(s, q, i);
    }
    NoAbsentSlots(b.mem, q.pd, d, Slots(b, q'));
    NoZeroPages(b.mem, q.pd, q.First(), q.Count());
  }

  lemma NoAbsentSlots(mem: Memory, pd: nat, d: nat, c: nat)
    requires forall i | d <= i < d + c :: Pde(mem, pd, i) != NONE
    ensures AbsentSlots(mem, pd, d, c) == 0
  {
    if c > 0 { NoAbsentSlots(mem, pd, d, c - 1); }
  }

  lemma NoZeroPages(mem: Memory, pd: nat, vp: nat, n: nat)
    requires forall wp | vp <= wp < vp + n :: Entry(mem, pd, wp) != NONE
    ensures ZeroPages(mem, pd, vp, n) == 0
  {
    if n > 0 { NoZeroPages(mem, pd, vp, n - 1); }
  }

  // ---- calls that are sure to complete -------------------------------------------------------

  /** Mapping a range again, with other rights, always completes. */
  lemma RemapAdmissible(s: State, a: State, b: State, q: Request, q': Request)
    requires Mmapped(s, a, q) && q.Ok() && q.size != 0 && Admissible(s, q) && b.checked == a.checked
    requires q' == q.(flags := q'.flags) && q.paddr == 0
    requires forall i :: Pde(b.mem, q.pd, i) == Pde(a.mem, q.pd, i)
    requires forall vp | q.Includes(vp) :: Entry(b.mem, q.pd, vp) != NONE
    ensures Admissible(b, q')
  {
    RemapNeedsNothing(s, a, b, q, q');
    RemapSlots(s, a, b, q, q');
  }

  lemma RemapSlots(s: State, a: State, b: State, q: Request, q': Request)
    requires Mmapped(s, a, q) && q.size != 0 && q' == q.(flags := q'.flags)
    requires forall i :: Pde(b.mem, q.pd, i) == Pde(a.mem, q.pd, i)
    ensures Slots(b, q') <= Slots(s, q) && Pde(b.mem, q.pd, LastSlot(q')) != NONE
  {
    var last := q.First() + q.Count() - 1;
    assert q.Includes(q.First()) && HasTable(a.mem, q.pd, q.First());
    assert q.Includes(last) && HasTable(a.mem, q.pd, last);
  }
}
