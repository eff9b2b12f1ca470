/**
 Physical memory from the boot tags on: the region that `early_main` leaves is the one that
 `bootstrap_fetch_page` eats up, so no frame handed out ever lies in the kernel or a module.
 */
module BootMemory {
  import opened Arith
  import opened Mmap
  import opened Packing
  import opened EarlyBoot

  /** `s` starts with the region that `early_main` leaves of `r` behind the kernel and the modules. */
  predicate Handover(s: State, r: Region, modules: seq<Module>, kernelEnd: nat, last: nat) {
    && Consecutive(modules, kernelEnd, last) && kernelEnd % 4096 == 0 && last < WORD
    && Spans(r, kernelEnd, last) && r.addr + r.len < QWORD
    && var left := Adjust(r, kernelEnd, TotalSize(modules, |modules|), last);
       4096 * s.next == left.addr && s.len == left.len
  }

  /** Frame `f` lies behind the kernel and every module, and inside the usable region. */
  ghost predicate Clear(f: nat, r: Region, modules: seq<Module>, kernelEnd: nat) {
    && kernelEnd <= 4096 * f && r.addr <= 4096 * f && 4096 * f + 4096 <= r.addr + r.len
    && forall i | 0 <= i < |modules| :: modules[i].end <= 4096 * f
  }

  lemma HandoverRegion(s: State, r: Region, modules: seq<Module>, kernelEnd: nat, last: nat)
    requires Handover(s, r, modules, kernelEnd, last)
    ensures End(s) == r.addr + r.len && 4096 * s.next == last
    ensures forall f | InRegion(s, f) :: Clear(f, r, modules, kernelEnd)
  {
    RegionConserved(r, modules, kernelEnd, last);
  }

  /** States around operations on memory, none of which gives a frame back. */
  ghost predicate Advancing(trace: seq<State>) {
    trace != [] && forall i | 0 <= i < |trace| - 1 :: Advances(trace[i], trace[i + 1])
  }

  /** Operation number `k` takes frame `f` from the region. */
  predicate TakenBy(trace: seq<State>, k: nat, f: int)
    requires k + 1 < |trace|
  {
    trace[k].next <= f < trace[k + 1].next
  }

  lemma {:induction false} AdvancesOver(trace: seq<State>, i: nat, j: nat)
    requires Advancing(trace) && i <= j < |trace|
    ensures Advances(trace[i], trace[j])
  {
    if i < j { AdvancesOver(trace, i, j - 1); }
  }

  /** Conservation over every sequence of fetches, mappings on any directory, directory creations
      and module loads after boot: the region keeps its upper end, and a frame taken is clear of
      the kernel and all modules and is taken only once. */
  lemma MemoryConserved(trace: seq<State>, r: Region, modules: seq<Module>, kernelEnd: nat, last: nat, k: nat, f: nat)
    requires Advancing(trace) && Handover(trace[0], r, modules, kernelEnd, last)
    requires k + 1 < |trace| && TakenBy(trace, k, f)
    ensures End(trace[|trace| - 1]) == r.addr + r.len
    ensures Clear(f, r, modules, kernelEnd)
    ensures forall j | 0 <= j < |trace| - 1 && TakenBy(trace, j, f) :: j == k
  {
    AdvancesOver(trace, 0, |trace| - 1);
    AdvancesOver(trace, 0, k);
    AdvancesOver(trace, 0, k + 1);
    HandoverRegion(trace[0], r, modules, kernelEnd, last);
    assert InRegion(trace[0], f);
    forall j | 0 <= j < |trace| - 1 && TakenBy(trace, j, f) ensures j == k {
      if j < k { AdvancesOver(trace, j + 1, k); }
      if k < j { AdvancesOver(trace, k + 1, j); }
    }
  }
}
