/**
 The identity window of `bootstrap_map_boot_modules`: one table that maps the first megabyte and
 then every boot module, each from the table offset of its start.
 */
module Window {
  import opened Paging

  const WINDOW := Access(true, true, false)

  /** A packed module: page-aligned start, and end. */
  datatype Range = Range(start: nat, end: nat) {
    function Pages(): nat { if start < end then (end - start + 4095) / 4096 else 0 }
    function Offset(): nat { PtOffset(start, 0) }
    /** Its pages, from the offset on, stay inside one table. */
    predicate Holds() { Pages() == 0 || Offset() + Pages() <= 1024 }
    predicate Hits(j: int) { Offset() <= j < Offset() + Pages() }
    predicate HasPage(p: int) { start / 4096 <= p < start / 4096 + Pages() }
  }

  predicate Aligned(mods: seq<Range>) { forall i | 0 <= i < |mods| :: mods[i].start % 4096 == 0 }

  predicate AllHold(mods: seq<Range>) { forall i | 0 <= i < |mods| :: mods[i].Holds() }

  /** Entry `j` of the table after `n` modules: the last module over it decides. */
  function WindowPte(mods: seq<Range>, n: nat, j: int): Pte
    requires n <= |mods|
  {
    if n == 0 then if 0 <= j < 256 then Pte(j, WINDOW) else NONE
    else if mods[n - 1].Hits(j) then Pte(mods[n - 1].start / 4096 + (j - mods[n - 1].Offset()), WINDOW)
    else WindowPte(mods, n - 1, j)
  }

  ghost predicate WindowUpTo(entries: seq<Pte>, mods: seq<Range>, n: nat)
    requires n <= |mods|
  {
    |entries| == 1024 && forall j | 0 <= j < 1024 :: entries[j] == WindowPte(mods, n, j)
  }

  /** The pages of one module; a write past the table is a fault. */
  method MapModule(entries: seq<Pte>, mods: seq<Range>, n: nat) returns (ok: bool, out: seq<Pte>)
    requires n < |mods| && mods[n].start % 4096 == 0 && WindowUpTo(entries, mods, n)
    ensures ok <==> mods[n].Holds()
    ensures ok ==> WindowUpTo(out, mods, n + 1)
  {
    var mod := mods[n];
    out := entries;
    var offset, addr := mod.Offset(), mod.start;
    ghost var k := 0;
    while addr < mod.end
      invariant k <= mod.Pages() && offset == mod.Offset() + k && addr == mod.start + 4096 * k && |out| == 1024
      invariant k == 0 || offset <= 1024
      invariant forall j | 0 <= j < 1024 ::
                  out[j] == if mod.Offset() <= j < offset then Pte(mod.start / 4096 + (j - mod.Offset()), WINDOW)
                            else WindowPte(mods, n, j)
      decreases mod.end as int - addr
    {
      if offset >= 1024 { return false, out; }
      assert addr / 4096 == mod.start / 4096 + k;
      out := out[offset := Pte(addr / 4096, WINDOW)];
      addr, offset, k := addr + 4096, offset + 1, k + 1;
    }
    ok := true;
  }

  /** The identity window: the first megabyte, then every boot module. */
  method BuildWindow(mods: seq<Range>) returns (ok: bool, entries: seq<Pte>)
    requires Aligned(mods)
    ensures ok <==> AllHold(mods)
    ensures ok ==> WindowUpTo(entries, mods, |mods|)
  {
    entries := seq(1024, _ => NONE);
    var addr, offset := 0, 0;
    while addr < 0x10_0000
      invariant addr == 4096 * offset && offset <= 256 && |entries| == 1024
      invariant forall j | 0 <= j < 1024 :: entries[j] == if j < offset then Pte(j, WINDOW) else NONE
    {
      entries := entries[offset := Pte(addr / 4096, WINDOW)];
      addr, offset := addr + 4096, offset + 1;
    }
    var n := 0;
    while n < |mods|
      invariant n <= |mods| && WindowUpTo(entries, mods, n) && forall i | 0 <= i < n :: mods[i].Holds()
    {
      ok, entries := MapModule(entries, mods, n);
      if !ok { return; }
      n := n + 1;
    }
    ok := true;
  }

  // ---- when the window is the identity -----------------------------------------------------------

  predicate Below(mods: seq<Range>)
  {
    forall i | 0 <= i < |mods| && mods[i].start < mods[i].end :: mods[i].end <= 0x40_0000
  }

  /** Page `p` of a module is reached at its own address. */
  predicate Reached(mods: seq<Range>, p: int) { 0 <= p < 1024 && WindowPte(mods, |mods|, p) == Pte(p, WINDOW) }

  lemma BelowIsLinear(mod: Range)
    requires mod.start % 4096 == 0 && mod.start < mod.end <= 0x40_0000
    ensures mod.Holds() && mod.Offset() == mod.start / 4096
  {}

  /** With all modules in the first four megabytes a window entry, if any, is the identity. */
  lemma {:induction false} WindowLinear(mods: seq<Range>, n: nat, j: nat)
    requires n <= |mods| && Aligned(mods) && Below(mods)
    ensures WindowPte(mods, n, j) == NONE || WindowPte(mods, n, j) == Pte(j, WINDOW)
    ensures 0 <= j < 256 ==> WindowPte(mods, n, j) == Pte(j, WINDOW)
    ensures forall i | 0 <= i < n && mods[i].HasPage(j) :: WindowPte(mods, n, j) == Pte(j, WINDOW)
    ensures WindowPte(mods, n, j) != NONE ==> j < 256 || exists i :: 0 <= i < n && mods[i].HasPage(j)
  {
    if n > 0 {
      WindowLinear(mods, n - 1, j);
      if mods[n - 1].start < mods[n - 1].end { BelowIsLinear(mods[n - 1]); }
      assert mods[n - 1].Hits(j) <==> mods[n - 1].HasPage(j);
    }
  }

  /** Every page of every module is reached at its own address if and only if all modules end
      within the first four megabytes. */
  lemma WindowReachesIff(mods: seq<Range>)
    requires Aligned(mods)
    ensures (forall i, p | 0 <= i < |mods| && mods[i].HasPage(p) :: Reached(mods, p)) <==> Below(mods)
  {
    if Below(mods) {
      forall i, p | 0 <= i < |mods| && mods[i].HasPage(p) ensures Reached(mods, p) {
        WindowLinear(mods, |mods|, p);
        BelowIsLinear(mods[i]);
      }
    } else {
      var i :| 0 <= i < |mods| && mods[i].start < mods[i].end && mods[i].end > 0x40_0000;
      var p := mods[i].start / 4096 + mods[i].Pages() - 1;
      assert mods[i].HasPage(p) && !Reached(mods, p);
    }
  }

  /** A module that starts at four megabytes is mapped over the first one instead. */
  lemma HighModuleWraps()
    ensures var mods := [Range(0x40_0000, 0x40_1000)];
            Aligned(mods) && AllHold(mods) && WindowPte(mods, 1, 0) == Pte(1024, WINDOW)
  {
    assert Range(0x40_0000, 0x40_1000).Offset() == 0 && Range(0x40_0000, 0x40_1000).Pages() == 1;
  }
}
