/**
 `bootstrap_identity_map_init_mem`: the directory that serves as template for all modules.  It is
 a copy of the kernel's, with one more table that maps the start of the free region to itself.
 */
module InitMap {
  import opened Paging
  import opened Mmap
  import opened Accounting
  import opened Window

  /** Bytes set aside for one module: eight pages, its whole pages and one more. */
  function Share(mod: Range): nat {
    8 * 4096 + (if mod.start < mod.end then (mod.end - mod.start) / 4096 * 4096 else 0) + 4096
  }

  /** Bytes that the first `n` modules are expected to need. */
  function Shares(mods: seq<Range>, n: nat): nat
    requires n <= |mods|
  {
    if n == 0 then 0 else Shares(mods, n - 1) + Share(mods[n - 1])
  }

  /** The table maps the pages of `start..end` to themselves, from the offset of `start` on. */
  predicate MapsItself(entries: seq<Pte>, start: nat, end: nat) {
    && |entries| == 1024
    && forall j | 0 <= j < 1024 ::
         entries[j] == if Range(start, end).Hits(j) then Pte(start / 4096 + (j - PtOffset(start, 0)), WINDOW) else NONE
  }

  /** The loop that fills the table; a write past the table is a fault. */
  method FillIdentity(start: nat, end: nat) returns (ok: bool, entries: seq<Pte>)
    requires start % 4096 == 0 && start <= end
    ensures ok <==> Range(start, end).Holds()
    ensures ok ==> MapsItself(entries, start, end)
  {
    entries := seq(1024, _ => NONE);
    var offset, addr := PtOffset(start, 0), start;
    ghost var k, range := 0, Range(start, end);
    while addr < end
      invariant k <= range.Pages() && offset == range.Offset() + k && addr == start + 4096 * k && |entries| == 1024
      invariant k == 0 || offset <= 1024
      invariant forall j | 0 <= j < 1024 ::
                  entries[j] == if range.Offset() <= j < offset then Pte(start / 4096 + (j - range.Offset()), WINDOW)
                      else NONE
      decreases end as int - addr
    {
      if offset >= 1024 { return false, entries; }
      assert addr / 4096 == start / 4096 + k;
      entries := entries[offset := Pte(addr / 4096, WINDOW)];
      addr, offset, k := addr + 4096, offset + 1, k + 1;
    }
    ok := true;
  }

  /** The range that the table maps. */
  function Reserved(regionAddr: nat, mods: seq<Range>): Range {
    Range(regionAddr, regionAddr + Shares(mods, |mods|))
  }

  /** The template is a copy of the kernel's directory with one slot given to the new table, which
      maps the pages of `range` to themselves. */
  ghost predicate Templated(mem: Memory, mem': Memory, pd: nat, bootPd: nat, modulePt: nat, range: Range) {
    var d := PtOffset(range.start, 1);
    && |mem'| == |mem| && IsTable(mem, pd) && bootPd < |mem| && modulePt < |mem| && d < 1024
    && mem'[bootPd] == Table(mem[pd].entries[d := Pte(modulePt, WINDOW)])
    && mem'[modulePt].Table? && MapsItself(mem'[modulePt].entries, range.start, range.end)
    && (forall f | 0 <= f < |mem| && f != bootPd && f != modulePt :: mem'[f] == mem[f])
  }

  /** The loop that adds up what the modules are expected to need. */
  method ReservedEnd(start: nat, mods: seq<Range>) returns (end: nat)
    ensures end == start + Shares(mods, |mods|)
  {
    end := start;
    var i := 0;
    while i < |mods|
      invariant i <= |mods| && end == start + Shares(mods, i)
    {
      var size := if mods[i].start < mods[i].end then mods[i].end - mods[i].start else 0;
      end := end + 4096 * 8;
      end := end + (size / 4096 * 4096 + 4096);
      i := i + 1;
    }
  }

  method IdentityMapInit(m: Machine, pd: nat, bootPd: nat, modulePt: nat, mods: seq<Range>) returns (ok: bool)
    requires m.regionAddr % 4096 == 0 && m.regionAddr < ADDRESS_LIMIT && IsTable(m.mem, pd)
    requires IsTable(m.mem, bootPd) && IsTable(m.mem, modulePt) && pd != bootPd && pd != modulePt && bootPd != modulePt
    modifies m`mem, m`cr3
    ensures ok <==> Reserved(m.regionAddr, mods).Holds()
    ensures ok ==> Templated(old(m.mem), m.mem, pd, bootPd, modulePt, Reserved(m.regionAddr, mods)) && m.cr3 == bootPd
    ensures ok ==>
              var end := m.regionAddr + 4096 * (9 * |mods| + PagesOf(mods, |mods|));
              forall vp | vp / 1024 == m.regionAddr / 0x40_0000 :: SelfSeen(m.mem, bootPd, m.regionAddr, end, vp)
  {
    m.mem := m.mem[bootPd := m.mem[pd]];
    var end := ReservedEnd(m.regionAddr, mods);
    var entries;
    ok, entries := FillIdentity(m.regionAddr, end);
    if !ok { return; }
    m.mem := m.mem[modulePt := Table(entries)];
    m.mem := WithEntry(m.mem, bootPd, PtOffset(m.regionAddr, 1), Pte(modulePt, WINDOW));
    m.cr3 := bootPd;
    SharesArePages(mods, |mods|);
    ReservedSeen(m.mem, bootPd, modulePt, Reserved(m.regionAddr, mods));
  }

  /** Whole pages of the first `n` modules. */
  function PagesOf(mods: seq<Range>, n: nat): nat
    requires n <= |mods|
  {
    if n == 0 then 0
    else PagesOf(mods, n - 1) + if mods[n - 1].start < mods[n - 1].end then (mods[n - 1].end - mods[n - 1].start) / 4096
                                   else 0
  }

  /** Nine pages for each module, and its whole pages. */
  lemma {:induction false} SharesArePages(mods: seq<Range>, n: nat)
    requires n <= |mods|
    ensures Shares(mods, n) == 4096 * (9 * n + PagesOf(mods, n))
  {
    if n > 0 { SharesArePages(mods, n - 1); }
  }

  /** Page `vp` is mapped to itself, closed to user mode, if it lies in `start..end`, and else not at all. */
  predicate SelfSeen(mem: Memory, pd: nat, start: nat, end: nat, vp: int) {
    Walk(mem, pd, vp) == if start <= 4096 * vp < end && vp >= 0 then Mapped(vp, true, false) else NotPresent
  }

  lemma ReservedSeen(mem: Memory, bootPd: nat, modulePt: nat, range: Range)
    requires IsTable(mem, bootPd) && IsTable(mem, modulePt) && range.start % 4096 == 0 && range.start < ADDRESS_LIMIT
    requires Pde(mem, bootPd, range.start / 0x40_0000) == Pte(modulePt, WINDOW)
    requires MapsItself(mem[modulePt].entries, range.start, range.end) && range.Holds() && range.start <= range.end
    ensures forall vp | vp / 1024 == range.start / 0x40_0000 :: SelfSeen(mem, bootPd, range.start, range.end, vp)
  {
    forall vp | vp / 1024 == range.start / 0x40_0000 ensures SelfSeen(mem, bootPd, range.start, range.end, vp) {
      assert range.Hits(vp % 1024) <==> range.start <= 4096 * vp < range.end;
    }
  }

  // ---- the template -------------------------------------------------------------------------

  /** What the new table maps. */
  lemma TemplatedSelf(mem: Memory, mem': Memory, pd: nat, bootPd: nat, modulePt: nat, range: Range, vp: int)
    requires Templated(mem, mem', pd, bootPd, modulePt, range) && range.Holds() && range.start <= range.end
    requires range.start % 4096 == 0 && range.start < ADDRESS_LIMIT && vp / 1024 == range.start / 0x40_0000
    requires bootPd != modulePt
    ensures SelfSeen(mem', bootPd, range.start, range.end, vp)
  {
    ReservedSeen(mem', bootPd, modulePt, range);
  }

  /** Slots of the template. */
  lemma TemplateSlots(mem: Memory, mem': Memory, pd: nat, bootPd: nat, modulePt: nat, range: Range)
    requires Templated(mem, mem', pd, bootPd, modulePt, range)
    ensures var d := PtOffset(range.start, 1);
            forall i :: Pde(mem', bootPd, i) == if i == d then Pte(modulePt, WINDOW) else Pde(mem, pd, i)
  {}

  /** Where slot `d` was free and the new table lies outside the region, the template is ready and
      maps the pages of all other slots as the kernel's directory does. */
  lemma TemplateReady(s: State, s': State, pd: nat, bootPd: nat, modulePt: nat, range: Range, d: nat)
    requires Ready(s, pd) && s' == s.(mem := s'.mem) && Templated(s.mem, s'.mem, pd, bootPd, modulePt, range)
             && d == PtOffset(range.start, 1)
    requires Pde(s.mem, pd, d) == NONE && modulePt != 0 && bootPd != modulePt && pd != bootPd && pd != modulePt
    requires !InRegion(s, bootPd) && !InRegion(s, modulePt)
    requires forall i, f | UsesTable(s.mem, pd, i, f) :: f != bootPd && f != modulePt
    ensures Ready(s', bootPd)
    ensures forall vp | 0 <= vp < VPAGES && vp / 1024 != d :: Entry(s'.mem, bootPd, vp) == Entry(s.mem, pd, vp)
    ensures SlotsOf(s'.mem, bootPd) == SlotsOf(s.mem, pd) + {d}
  {
    TemplateSlots(s.mem, s'.mem, pd, bootPd, modulePt, range);
    forall i | 0 <= i < 1024 ensures SlotOk(s'.mem, bootPd, i) {
      assert SlotOk(s.mem, pd, i);
      assert Pde(s.mem, pd, i) != NONE ==> UsesTable(s.mem, pd, i, Pde(s.mem, pd, i).frame);
    }
    forall i, j, f | UsesTable(s'.mem, bootPd, i, f) && UsesTable(s'.mem, bootPd, j, f) ensures i == j {
      if i != d { assert UsesTable(s.mem, pd, i, f); }
      if j != d { assert UsesTable(s.mem, pd, j, f); }
    }
    forall i, f | UsesTable(s'.mem, bootPd, i, f) ensures !InRegion(s', f) {
      if i != d { assert UsesTable(s.mem, pd, i, f); }
    }
    forall f | InRegion(s', f) ensures IsData(s'.mem, f) { assert InRegion(s, f); }
    forall vp | 0 <= vp < VPAGES && vp / 1024 != d ensures Entry(s'.mem, bootPd, vp) == Entry(s.mem, pd, vp) {
      assert SlotOk(s.mem, pd, vp / 1024);
      assert Pde(s.mem, pd, vp / 1024) != NONE ==> UsesTable(s.mem, pd, vp / 1024, Pde(s.mem, pd, vp / 1024).frame);
    }
    assert SlotsOf(s'.mem, bootPd) == SlotsOf(s.mem, pd) + {d};
  }
}
