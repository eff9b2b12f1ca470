/** Whole runs of mapping calls on one directory. */
module MmapRuns {
  import opened Paging
  import opened Mmap
  import opened AddressSpace

  /** One completed call, of the kernel or of a user loader. */
  ghost predicate Step(s: State, s': State, q: Request, pd: nat) {
    && Ready(s, pd) && Ready(s', pd)
    && q.pd == pd && q.Ok()
    && Mmapped(s, s', q)
  }

  /** `trace` lists the states around the completed calls `reqs`. */
  ghost predicate IsRun(trace: seq<State>, reqs: seq<Request>, pd: nat) {
    && |trace| == |reqs| + 1
    && Ready(trace[0], pd)
    && (forall i | 0 <= i < |reqs| :: Step(trace[i], trace[i + 1], reqs[i], pd))
  }

  lemma RunExtends(trace: seq<State>, reqs: seq<Request>, pd: nat, s': State, q: Request)
    requires IsRun(trace, reqs, pd) && Step(trace[|reqs|], s', q, pd)
    ensures IsRun(trace + [s'], reqs + [q], pd)
  {
    var t, r := trace + [s'], reqs + [q];
    forall i | 0 <= i < |r| ensures Step(t[i], t[i + 1], r[i], pd) {
      if i < |reqs| { assert Step(trace[i], trace[i + 1], reqs[i], pd); }
    }
  }

  lemma PrefixIsRun(trace: seq<State>, reqs: seq<Request>, pd: nat, n: nat)
    requires IsRun(trace, reqs, pd) && n <= |reqs|
    ensures IsRun(trace[..n + 1], reqs[..n], pd)
  {
    var t, r := trace[..n + 1], reqs[..n];
    forall i | 0 <= i < n ensures Step(t[i], t[i + 1], r[i], pd) {
      assert Step(trace[i], trace[i + 1], reqs[i], pd);
    }
  }

  // ---- the user bit -------------------------------------------------------------------------

  /** Index of the last call that covers `vp`, or -1. */
  function LastCover(reqs: seq<Request>, vp: int): (k: int)
    ensures -1 <= k < |reqs|
    ensures k >= 0 ==> reqs[k].Includes(vp)
    ensures forall i | k < i < |reqs| :: !reqs[i].Includes(vp)
  {
    if reqs == [] then -1
    else if reqs[|reqs| - 1].Includes(vp) then |reqs| - 1
    else LastCover(reqs[..|reqs| - 1], vp)
  }

  lemma {:induction false} LastCallDecides(trace: seq<State>, reqs: seq<Request>, pd: nat, vp: int)
    requires IsRun(trace, reqs, pd) && 0 <= vp < VPAGES
    ensures var k, e := LastCover(reqs, vp), Entry(trace[|reqs|].mem, pd, vp);
            && e.access == (if k < 0 then Entry(trace[0].mem, pd, vp).access else Rights(reqs[k].flags))
            && (k >= 0 ==> HasTable(trace[|reqs|].mem, pd, vp))
  {
    if reqs != [] {
      var n := |reqs| - 1;
      PrefixIsRun(trace, reqs, pd, n);
      LastCallDecides(trace[..n + 1], reqs[..n], pd, vp);
      assert Step(trace[n], trace[n + 1], reqs[n], pd);
      assert PageAfter(trace[n], trace[n + 1], reqs[n], vp);
      assert Pde(trace[n + 1].mem, pd, vp / 1024) == PdeAfter(trace[n], reqs[n], vp / 1024);
      if reqs[n].Includes(vp) { assert HasTable(trace[n + 1].mem, pd, vp); }
    }
  }

  /** Call number `k` makes the table of slot `i`. */
  predicate Makes(trace: seq<State>, pd: nat, i: int, k: int) {
    0 <= k && k + 1 < |trace| && Pde(trace[k].mem, pd, i) == NONE && Pde(trace[k + 1].mem, pd, i) != NONE
  }

  /** A slot once filled never changes. */
  lemma {:induction false} SlotStays(trace: seq<State>, reqs: seq<Request>, pd: nat, i: int, a: nat, b: nat)
    requires IsRun(trace, reqs, pd) && a <= b <= |reqs| && Pde(trace[a].mem, pd, i) != NONE
    ensures Pde(trace[b].mem, pd, i) == Pde(trace[a].mem, pd, i)
  {
    if a < b {
      SlotStays(trace, reqs, pd, i, a, b - 1);
      assert Step(trace[b - 1], trace[b], reqs[b - 1], pd);
      assert Pde(trace[b].mem, pd, i) == PdeAfter(trace[b - 1], reqs[b - 1], i);
    }
  }

  lemma {:induction false} MakerExists(trace: seq<State>, pd: nat, i: int, n: nat)
    requires n < |trace| && Pde(trace[0].mem, pd, i) == NONE && Pde(trace[n].mem, pd, i) != NONE
    ensures exists k :: Makes(trace, pd, i, k)
  {
    if Pde(trace[n - 1].mem, pd, i) != NONE {
      MakerExists(trace, pd, i, n - 1);
    } else {
      assert Makes(trace, pd, i, n - 1);
    }
  }

  /** The rights of a slot are those given by the one call that made its table. */
  lemma MakerDecides(trace: seq<State>, reqs: seq<Request>, pd: nat, i: int, k: int)
    requires IsRun(trace, reqs, pd) && Makes(trace, pd, i, k)
    ensures Pde(trace[|reqs|].mem, pd, i) != NONE
    ensures Pde(trace[|reqs|].mem, pd, i).access == TableAccess(reqs[k].kernel)
  {
    assert Step(trace[k], trace[k + 1], reqs[k], pd);
    assert Pde(trace[k + 1].mem, pd, i) == PdeAfter(trace[k], reqs[k], i);
    SlotStays(trace, reqs, pd, i, k + 1, |reqs|);
  }

  predicate UserAccessible(mem: Memory, pd: nat, vp: int) {
    Walk(mem, pd, vp).Mapped? && Walk(mem, pd, vp).user
  }

  /** Over every run of kernel and user calls from tables without a user bit, a page is open to
      user mode exactly when a call through a non-kernel exec_info made its table and the last
      call that covers the page asks for the user bit along with read or write. */
  lemma UserBitOverRuns(trace: seq<State>, reqs: seq<Request>, pd: nat, vp: int)
    requires IsRun(trace, reqs, pd) && 0 <= vp < VPAGES
    requires forall i :: !Pde(trace[0].mem, pd, i).access.user
    requires forall wp | 0 <= wp < VPAGES :: !Entry(trace[0].mem, pd, wp).access.user
    ensures UserAccessible(trace[|reqs|].mem, pd, vp) <==>
              && (exists k :: Makes(trace, pd, vp / 1024, k) && !reqs[k].kernel)
              && LastCover(reqs, vp) >= 0 && Rights(reqs[LastCover(reqs, vp)].flags).user
  {
    var i, n := vp / 1024, |reqs|;
    LastCallDecides(trace, reqs, pd, vp);
    forall k | Makes(trace, pd, i, k)
      ensures Pde(trace[n].mem, pd, i).access == TableAccess(reqs[k].kernel)
    {
      MakerDecides(trace, reqs, pd, i, k);
    }
    if Pde(trace[0].mem, pd, i) != NONE {
      SlotStays(trace, reqs, pd, i, 0, n);
    } else if Pde(trace[n].mem, pd, i) != NONE {
      MakerExists(trace, pd, i, n);
    }
  }

  /** Where only user loaders ask for the user bit, a page open to user mode was mapped with it
      through a non-kernel exec_info. */
  lemma UserPagesAreUserMapped(trace: seq<State>, reqs: seq<Request>, pd: nat, vp: int)
    requires IsRun(trace, reqs, pd) && 0 <= vp < VPAGES
    requires forall i :: !Pde(trace[0].mem, pd, i).access.user
    requires forall wp | 0 <= wp < VPAGES :: !Entry(trace[0].mem, pd, wp).access.user
    requires forall k | 0 <= k < |reqs| && Rights(reqs[k].flags).user :: !reqs[k].kernel
    requires UserAccessible(trace[|reqs|].mem, pd, vp)
    ensures exists k :: 0 <= k < |reqs| && reqs[k].Includes(vp) && !reqs[k].kernel && Rights(reqs[k].flags).user
  {
    UserBitOverRuns(trace, reqs, pd, vp);
    assert reqs[LastCover(reqs, vp)].Includes(vp);
  }

  // ---- disjoint calls --------------------------------------------------------------------------

  /** A page outside calls `a` to `b` keeps its entry over them. */
  lemma {:induction false} EntryKept(trace: seq<State>, reqs: seq<Request>, pd: nat, a: nat, b: nat, vp: int)
    requires IsRun(trace, reqs, pd) && a <= b <= |reqs| && 0 <= vp < VPAGES
    requires forall i | a <= i < b :: !reqs[i].Includes(vp)
    ensures Entry(trace[b].mem, pd, vp) == Entry(trace[a].mem, pd, vp)
    decreases b
  {
    if a < b {
      EntryKept(trace, reqs, pd, a, b - 1, vp);
      assert Step(trace[b - 1], trace[b], reqs[b - 1], pd);
      assert PageAfter(trace[b - 1], trace[b], reqs[b - 1], vp);
    }
  }

  predicate ApartRequests(p: Request, q: Request) {
    p.First() + p.Count() <= q.First() || q.First() + q.Count() <= p.First()
  }

  /** In a run of disjoint calls over an empty range each page ends with what its own call gave it. */
  lemma OwnCallDecides(trace: seq<State>, reqs: seq<Request>, pd: nat, k: nat, vp: int)
    requires IsRun(trace, reqs, pd) && k < |reqs| && reqs[k].Includes(vp) && 0 <= vp < VPAGES
    requires forall i, j | 0 <= i < j < |reqs| :: ApartRequests(reqs[i], reqs[j])
    requires Entry(trace[0].mem, pd, vp) == NONE
    ensures Entry(trace[k].mem, pd, vp) == NONE
    ensures Entry(trace[|reqs|].mem, pd, vp) == Pte(FrameFor(trace[k], reqs[k], vp), Rights(reqs[k].flags))
  {
    assert forall i | 0 <= i < |reqs| && i != k :: !reqs[i].Includes(vp) by {
      forall i | 0 <= i < |reqs| && i != k ensures !reqs[i].Includes(vp) {
        assert if i < k then ApartRequests(reqs[i], reqs[k]) else ApartRequests(reqs[k], reqs[i]);
      }
    }
    EntryKept(trace, reqs, pd, 0, k, vp);
    assert Step(trace[k], trace[k + 1], reqs[k], pd);
    assert PageAfter(trace[k], trace[k + 1], reqs[k], vp);
    EntryKept(trace, reqs, pd, k + 1, |reqs|, vp);
  }

  // ---- frames over a run --------------------------------------------------------------------------

  /** Over every run the region keeps its end and only loses frames at its start. */
  lemma {:induction false} RunAdvances(trace: seq<State>, reqs: seq<Request>, pd: nat, k: nat, n: nat)
    requires IsRun(trace, reqs, pd) && k <= n <= |reqs|
    ensures Advances(trace[k], trace[n]) && |trace[n].mem| == |trace[k].mem| && Limit(trace[n]) == Limit(trace[k])
  {
    if k < n {
      RunAdvances(trace, reqs, pd, k, n - 1);
      assert Step(trace[n - 1], trace[n], reqs[n - 1], pd);
    }
  }

  /** Slots below all the calls keep what they had. */
  lemma {:induction false} LowSlotsKept(trace: seq<State>, reqs: seq<Request>, pd: nat, slot: nat, n: nat, i: int)
    requires IsRun(trace, reqs, pd) && n <= |reqs| && i < slot
    requires forall j | 0 <= j < |reqs| :: slot <= reqs[j].First() / 1024
    ensures Pde(trace[n].mem, pd, i) == Pde(trace[0].mem, pd, i)
  {
    if n > 0 {
      LowSlotsKept(trace, reqs, pd, slot, n - 1, i);
      assert Step(trace[n - 1], trace[n], reqs[n - 1], pd);
      assert Pde(trace[n].mem, pd, i) == PdeAfter(trace[n - 1], reqs[n - 1], i);
    }
  }

  /** A table made during a run is one of the frames the run took. */
  lemma {:induction false} NewTablesTaken(trace: seq<State>, reqs: seq<Request>, pd: nat, n: nat, i: int)
    requires IsRun(trace, reqs, pd) && n <= |reqs|
    requires Pde(trace[0].mem, pd, i) == NONE && Pde(trace[n].mem, pd, i) != NONE
    ensures trace[0].next <= Pde(trace[n].mem, pd, i).frame < trace[n].next
  {
    var s, s', q := trace[n - 1], trace[n], reqs[n - 1];
    RunAdvances(trace, reqs, pd, 0, n - 1);
    assert Step(s, s', q, pd);
    assert Pde(s'.mem, pd, i) == PdeAfter(s, q, i);
    if Pde(s.mem, pd, i) != NONE {
      NewTablesTaken(trace, reqs, pd, n - 1, i);
    } else {
      NewTableFrame(s, pd, q.First() / 1024, Slots(s, q), TableAccess(q.kernel), i);
    }
  }

  ghost predicate HighTable(s: State, pd: nat, slot: nat, f: int)
  {
    exists i :: slot <= i && UsesTable(s.mem, pd, i, f)
  }

  /** A run of calls from slot `slot` on writes the directory, the tables it found there and frames
      it took, and nothing else. */
  lemma {:induction false} RunWrites(trace: seq<State>, reqs: seq<Request>, pd: nat, slot: nat, n: nat, f: int)
    requires IsRun(trace, reqs, pd) && n <= |reqs| && 0 <= f < |trace[0].mem| && f != pd
    requires forall j | 0 <= j < |reqs| :: slot <= reqs[j].First() / 1024
    requires !HighTable(trace[0], pd, slot, f) && !(trace[0].next <= f < trace[n].next)
    ensures |trace[n].mem| == |trace[0].mem| && trace[n].mem[f] == trace[0].mem[f]
  {
    RunAdvances(trace, reqs, pd, 0, n);
    if n > 0 {
      var s, q := trace[n - 1], reqs[n - 1];
      RunAdvances(trace, reqs, pd, 0, n - 1);
      RunAdvances(trace, reqs, pd, n - 1, n);
      RunWrites(trace, reqs, pd, slot, n - 1, f);
      assert Step(s, trace[n], q, pd);
      forall vp | q.Includes(vp) ensures !UsesTable(s.mem, pd, vp / 1024, f) {
        NotUnder(trace, reqs, pd, slot, n - 1, vp / 1024, f);
      }
    }
  }

  lemma NotUnder(trace: seq<State>, reqs: seq<Request>, pd: nat, slot: nat, n: nat, i: int, f: int)
    requires IsRun(trace, reqs, pd) && n <= |reqs| && slot <= i
    requires !HighTable(trace[0], pd, slot, f) && !(trace[0].next <= f < trace[n].next)
    ensures !UsesTable(trace[n].mem, pd, i, f)
  {
    if Pde(trace[0].mem, pd, i) != NONE {
      SlotStays(trace, reqs, pd, i, 0, n);
      assert !UsesTable(trace[0].mem, pd, i, f);
    } else if Pde(trace[n].mem, pd, i) != NONE {
      NewTablesTaken(trace, reqs, pd, n, i);
    }
  }

  /** A data frame outside the region stays data, untouched, for the rest of a run. */
  lemma {:induction false} DataStays(trace: seq<State>, reqs: seq<Request>, pd: nat, a: nat, b: nat, f: int)
    requires IsRun(trace, reqs, pd) && a <= b <= |reqs| && IsData(trace[a].mem, f) && f < trace[a].next
    ensures IsData(trace[b].mem, f) && trace[b].mem[f] == trace[a].mem[f]
  {
    if a < b {
      DataStays(trace, reqs, pd, a, b - 1, f);
      RunAdvances(trace, reqs, pd, a, b - 1);
      assert Step(trace[b - 1], trace[b], reqs[b - 1], pd);
      DataKept(trace[b - 1], trace[b], reqs[b - 1], f);
    }
  }
}
