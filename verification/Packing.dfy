/**
 The packing of boot modules in `early_main`: each module is copied, byte by byte and upwards, to
 the first page behind the modules before it, whether or not source and destination overlap.
 */
module Packing {
  import opened Arith

  const MAX_NAME: nat := 32

  /** A packed module; `source` is where the boot loader had put it. */
  datatype Module = Module(start: nat, end: nat, name: string, source: nat, size: nat)

  function RoundUp(x: nat): nat { if x % 4096 != 0 then x / 4096 * 4096 + 4096 else x }

  lemma RoundUpAbove(x: nat)
    ensures x <= RoundUp(x) < x + 4096 && RoundUp(x) % 4096 == 0
  {}

  lemma RoundUpBelow(x: nat, limit: nat)
    requires x <= limit && limit % 4096 == 0
    ensures RoundUp(x) <= limit
  {}

  lemma RoundUpFrom(base: nat, x: nat)
    requires base % 4096 == 0
    ensures RoundUp(base + x) == base + RoundUp(x)
  {
    assert (base + x) / 4096 == base / 4096 + x / 4096 && (base + x) % 4096 == x % 4096;
  }

  // ---- one copy ----------------------------------------------------------------------------------

  /** Which byte of the source ends up at offset `k`: copying to a higher address repeats the
      bytes between source and destination. */
  function From(src: nat, dst: nat, k: nat): nat { if dst <= src then src + k else src + k % (dst - src) }

  lemma FromBound(src: nat, dst: nat, k: nat)
    ensures src <= From(src, dst, k) <= src + k
    ensures dst <= src || k < dst - src ==> From(src, dst, k) == src + k
  {
    if dst > src {
      assert k % (dst - src) <= k by { assert k == (dst - src) * (k / (dst - src)) + k % (dst - src); }
      if k < dst - src { DivModUnique(k, dst - src, 0, k); }
    }
  }

  /** Memory after `n` bytes have been moved from `src` to `dst`, one at a time, upwards. */
  function Moved(m: seq<nat>, src: nat, n: nat, dst: nat): (r: seq<nat>)
    requires src + n <= |m|
    ensures |r| == |m|
    ensures forall f | 0 <= f < |m| && !(dst <= f < dst + n) :: r[f] == m[f]
  {
    seq(|m|, f requires 0 <= f < |m| =>
      if dst <= f < dst + n then FromBound(src, dst, f - dst); m[From(src, dst, f - dst)] else m[f])
  }

  /** The forward copy of `early_main`, for any two places. */
  method CopyForward(mem: array<nat>, src: nat, end: nat, dst: nat)
    requires src <= end <= mem.Length && dst + (end - src) <= mem.Length
    modifies mem
    ensures mem[..] == Moved(old(mem[..]), src, end - src, dst)
  {
    ghost var m := mem[..];
    var s, d := src, dst;
    while s < end
      invariant src <= s <= end && d == dst + (s - src) && mem[..] == Moved(m, src, s - src, dst)
    {
      NextByte(m, src, s - src, dst);
      mem[d] := mem[s];
      s, d := s + 1, d + 1;
    }
  }

  lemma MovedAt(m: seq<nat>, src: nat, n: nat, dst: nat, k: nat)
    requires src + n <= |m| && dst + n <= |m| && k < n
    ensures From(src, dst, k) < |m| && Moved(m, src, n, dst)[dst + k] == m[From(src, dst, k)]
  {
    FromBound(src, dst, k);
  }

  lemma FromRepeats(src: nat, dst: nat, k: nat)
    requires src < dst <= src + k
    ensures From(src, dst, src + k - dst) == From(src, dst, k)
  {
    var d := dst - src;
    ModPlus(k - d, d);
  }

  /** The byte read next is the one the closed form asks for. */
  lemma NextByte(m: seq<nat>, src: nat, k: nat, dst: nat)
    requires src + k < |m| && dst + k < |m|
    ensures Moved(m, src, k + 1, dst) == Moved(m, src, k, dst)[dst + k := Moved(m, src, k, dst)[src + k]]
  {
    MovedAt(m, src, k + 1, dst, k);
    FromBound(src, dst, k);
    if src < dst <= src + k {
      FromRepeats(src, dst, k);
      MovedAt(m, src, k, dst, src + k - dst);
    }
    assert Moved(m, src, k, dst)[src + k] == m[From(src, dst, k)];
    forall f | 0 <= f < |m| && f != dst + k ensures Moved(m, src, k + 1, dst)[f] == Moved(m, src, k, dst)[f] {}
  }

  /** The block arrives unchanged. */
  predicate Arrives(m: seq<nat>, src: nat, n: nat, dst: nat)
    requires src + n <= |m| && dst + n <= |m|
  {
    Moved(m, src, n, dst)[dst..dst + n] == m[src..src + n]
  }

  /** Offset `k` of the block gets the byte it should. */
  predicate ByteArrives(m: seq<nat>, src: nat, dst: nat, k: nat) {
    var from := From(src, dst, k);
    from < |m| && src + k < |m| && m[from] == m[src + k]
  }

  lemma ArrivesBytewise(m: seq<nat>, src: nat, n: nat, dst: nat)
    requires src + n <= |m| && dst + n <= |m|
    ensures Arrives(m, src, n, dst) <==> forall k | 0 <= k < n :: ByteArrives(m, src, dst, k)
  {
    var a, b := Moved(m, src, n, dst)[dst..dst + n], m[src..src + n];
    forall k | 0 <= k < n ensures a[k] == b[k] <==> ByteArrives(m, src, dst, k) { MovedAt(m, src, n, dst, k); }
  }

  /** The block repeats itself at distance `d`; a block no longer than `d` always does. */
  predicate Periodic(m: seq<nat>, src: nat, n: nat, d: nat)
    requires src + n <= |m| && d > 0
  {
    forall k | d <= k < n :: Repeats(m, src, k, d)
  }

  predicate Repeats(m: seq<nat>, src: nat, k: nat, d: nat)
    requires d <= k && src + k < |m|
  {
    m[src + k] == m[src + k - d]
  }

  /** Exactly when: the copy goes down, or the block repeats itself at the distance of the move. */
  lemma ArrivesIff(m: seq<nat>, src: nat, n: nat, dst: nat)
    requires src + n <= |m| && dst + n <= |m|
    ensures Arrives(m, src, n, dst) <==> dst <= src || Periodic(m, src, n, dst - src)
  {
    ArrivesBytewise(m, src, n, dst);
    if dst > src {
      if Periodic(m, src, n, dst - src) {
        forall k | 0 <= k < n ensures ByteArrives(m, src, dst, k) { PeriodicArrives(m, src, n, dst, k); }
      } else {
        var k :| dst - src <= k < n && !Repeats(m, src, k, dst - src);
        FromRepeats(src, dst, k);
        assert !ByteArrives(m, src, dst, k) || !ByteArrives(m, src, dst, src + k - dst);
      }
    }
  }

  /** In such a block each byte is the one that many steps of the distance before it. */
  lemma {:induction false} PeriodicArrives(m: seq<nat>, src: nat, n: nat, dst: nat, k: nat)
    requires src + n <= |m| && src < dst && k < n && Periodic(m, src, n, dst - src)
    ensures ByteArrives(m, src, dst, k)
    decreases k
  {
    FromBound(src, dst, k);
    if k >= dst - src {
      FromRepeats(src, dst, k);
      assert Repeats(m, src, k, dst - src);
      PeriodicArrives(m, src, n, dst, src + k - dst);
    }
  }

  /** One byte up is enough to lose a block. */
  lemma UpwardLoses()
    ensures Moved([1, 2, 3], 0, 2, 1) == [1, 1, 1] && !Arrives([1, 2, 3], 0, 2, 1)
  {
    assert Moved([1, 2, 3], 0, 2, 1) == [1, 1, 1];
    assert Moved([1, 2, 3], 0, 2, 1)[1..3] == [1, 1] && [1, 2, 3][0..2] == [1, 2];
  }

  // ---- all modules -------------------------------------------------------------------------------

  /** Where module `i` starts: behind the one before it. */
  function Boundary(modules: seq<Module>, kernelEnd: nat, i: nat): nat
    requires i <= |modules|
  {
    if i == 0 then kernelEnd else modules[i - 1].end
  }

  /** Modules follow one another, each rounded up to whole pages, from the kernel end to `last`. */
  predicate Consecutive(modules: seq<Module>, kernelEnd: nat, last: nat) {
    && last == Boundary(modules, kernelEnd, |modules|)
    && (forall i {:trigger InPlace(modules, kernelEnd, i)} | 0 <= i < |modules| :: InPlace(modules, kernelEnd, i))
  }

  predicate InPlace(modules: seq<Module>, kernelEnd: nat, i: nat)
    requires i < |modules|
  {
    modules[i].start == Boundary(modules, kernelEnd, i) && modules[i].end == modules[i].start + RoundUp(modules[i].size)
  }

  lemma InPlaceNext(modules: seq<Module>, kernelEnd: nat, last: nat, mod: Module)
    requires Consecutive(modules, kernelEnd, last) && mod.start == last && mod.end == last + RoundUp(mod.size)
    ensures Consecutive(modules + [mod], kernelEnd, mod.end)
  {
    var modules' := modules + [mod];
    forall i | 0 <= i < |modules'| ensures InPlace(modules', kernelEnd, i) {
      if i < |modules| { assert InPlace(modules, kernelEnd, i); }
    }
  }

  /** Bytes of the first `n` modules in whole pages. */
  function TotalSize(modules: seq<Module>, n: nat): nat
    requires n <= |modules|
  {
    if n == 0 then 0 else TotalSize(modules, n - 1) + RoundUp(modules[n - 1].size)
  }

  lemma {:induction false} TotalIsSpan(modules: seq<Module>, kernelEnd: nat, last: nat, n: nat)
    requires Consecutive(modules, kernelEnd, last) && n <= |modules|
    ensures Boundary(modules, kernelEnd, n) == kernelEnd + TotalSize(modules, n)
  {
    if n > 0 {
      TotalIsSpan(modules, kernelEnd, last, n - 1);
      assert InPlace(modules, kernelEnd, n - 1);
    }
  }

  /** Boundaries are page-aligned and ascend. */
  lemma {:induction false} BoundariesAscend(modules: seq<Module>, kernelEnd: nat, last: nat, i: nat, j: nat)
    requires Consecutive(modules, kernelEnd, last) && kernelEnd % 4096 == 0 && i <= j <= |modules|
    ensures Boundary(modules, kernelEnd, i) <= Boundary(modules, kernelEnd, j)
    ensures Boundary(modules, kernelEnd, j) % 4096 == 0
    decreases j
  {
    if j > 0 {
      assert InPlace(modules, kernelEnd, j - 1);
      BoundariesAscend(modules, kernelEnd, last, if i < j then i else j - 1, j - 1);
      RoundUpAbove(modules[j - 1].size);
      AlignedSum(modules[j - 1].start, RoundUp(modules[j - 1].size));
    }
  }

  lemma AlignedSum(a: nat, b: nat)
    requires a % 4096 == 0 && b % 4096 == 0
    ensures (a + b) % 4096 == 0
  {}

  /** Modules are page-aligned, lie between the kernel end and `last`, and do not overlap. */
  lemma ModuleRanges(modules: seq<Module>, kernelEnd: nat, last: nat)
    requires Consecutive(modules, kernelEnd, last) && kernelEnd % 4096 == 0
    ensures kernelEnd <= last && last % 4096 == 0
    ensures forall i | 0 <= i < |modules| ::
              && modules[i].start % 4096 == 0 && kernelEnd <= modules[i].start
              && modules[i].start + modules[i].size <= modules[i].end <= last
    ensures forall i, j | 0 <= i < j < |modules| :: modules[i].end <= modules[j].start
  {
    var n := |modules|;
    BoundariesAscend(modules, kernelEnd, last, 0, n);
    forall i | 0 <= i < n
      ensures modules[i].start % 4096 == 0 && kernelEnd <= modules[i].start
      ensures modules[i].start + modules[i].size <= modules[i].end <= last
    {
      assert InPlace(modules, kernelEnd, i);
      BoundariesAscend(modules, kernelEnd, last, 0, i);
      BoundariesAscend(modules, kernelEnd, last, i + 1, n);
      RoundUpAbove(modules[i].size);
    }
    forall i, j | 0 <= i < j < n ensures modules[i].end <= modules[j].start {
      assert InPlace(modules, kernelEnd, j);
      BoundariesAscend(modules, kernelEnd, last, i + 1, j);
    }
  }

  /** The modules leave no gap. */
  lemma {:induction false} NoGap(modules: seq<Module>, kernelEnd: nat, last: nat, n: nat, a: nat) returns (i: nat)
    requires Consecutive(modules, kernelEnd, last) && n <= |modules|
    requires kernelEnd <= a < Boundary(modules, kernelEnd, n)
    ensures i < n && modules[i].start <= a < modules[i].end
  {
    assert InPlace(modules, kernelEnd, n - 1);
    if a < Boundary(modules, kernelEnd, n - 1) { i := NoGap(modules, kernelEnd, last, n - 1, a); } else { i := n - 1; }
  }

  /** All copies stay in memory. */
  predicate InMemory(modules: seq<Module>, size: nat) {
    forall i | 0 <= i < |modules| :: modules[i].source + modules[i].size <= size
  }

  /** Memory after the copies of the first `n` modules, in order. */
  function MovedAll(m: seq<nat>, modules: seq<Module>, n: nat): (r: seq<nat>)
    requires InMemory(modules, |m|) && n <= |modules|
    ensures |r| == |m|
  {
    if n == 0 then m else
    Moved(MovedAll(m, modules, n - 1), modules[n - 1].source, modules[n - 1].size, modules[n - 1].start)
  }

  lemma {:induction false} SameFront(m: seq<nat>, modules: seq<Module>, mod: Module, n: nat)
    requires InMemory(modules, |m|) && mod.source + mod.size <= |m| && n <= |modules|
    ensures InMemory(modules + [mod], |m|) && MovedAll(m, modules + [mod], n) == MovedAll(m, modules, n)
    ensures TotalSize(modules + [mod], n) == TotalSize(modules, n)
  {
    if n > 0 { SameFront(m, modules, mod, n - 1); }
  }

  /** A module holds, where it was packed, the bytes it had where the loader put it. */
  predicate Intact(orig: seq<nat>, m: seq<nat>, mod: Module) {
    && mod.start + mod.size <= |m| && mod.source + mod.size <= |orig|
    && m[mod.start..mod.start + mod.size] == orig[mod.source..mod.source + mod.size]
  }

  /** What the first `n` copies have established, when the next free address is `last`. */
  ghost predicate Packed(orig: seq<nat>, m: seq<nat>, modules: seq<Module>, n: nat, kernelEnd: nat, last: nat)
    requires n <= |modules|
  {
    && |m| == |orig| && kernelEnd <= last
    && (forall i | 0 <= i < n :: Intact(orig, m, modules[i]) && modules[i].start + modules[i].size <= last)
    && (forall f | 0 <= f < |m| && !(kernelEnd <= f < last) :: m[f] == orig[f])
  }

  /** Sources ascend without overlap, and no module has to move up. */
  predicate MovesDown(modules: seq<Module>) {
    && (forall i | 0 <= i < |modules| :: modules[i].start <= modules[i].source)
    && (forall i, j | 0 <= i < j < |modules| :: modules[i].source + modules[i].size <= modules[j].source)
  }

  /** Packing one more module: the copy damages neither what is packed nor what is to come. */
  lemma PackStep(orig: seq<nat>, m: seq<nat>, modules: seq<Module>, n: nat, kernelEnd: nat)
    requires n < |modules| && Packed(orig, m, modules, n, kernelEnd, modules[n].start)
    requires modules[n].start <= modules[n].source && modules[n].source + modules[n].size <= |m|
    requires modules[n].start + modules[n].size <= modules[n].end
    ensures Packed(orig, Moved(m, modules[n].source, modules[n].size, modules[n].start), modules, n + 1, kernelEnd,
              modules[n].end)
  {
    var mod := modules[n];
    var m' := Moved(m, mod.source, mod.size, mod.start);
    ArrivesIff(m, mod.source, mod.size, mod.start);
    assert m[mod.source..mod.source + mod.size] == orig[mod.source..mod.source + mod.size];
    forall i | 0 <= i < n ensures Intact(orig, m', modules[i]) {
      StillIntact(orig, m, modules[i], mod.source, mod.size, mod.start);
    }
  }

  lemma StillIntact(orig: seq<nat>, m: seq<nat>, mod: Module, src: nat, size: nat, last: nat)
    requires Intact(orig, m, mod) && mod.start + mod.size <= last && src + size <= |m|
    ensures Intact(orig, Moved(m, src, size, last), mod)
  {
    var m' := Moved(m, src, size, last);
    assert m'[mod.start..mod.start + mod.size] == m[mod.start..mod.start + mod.size];
  }

  /** Where no module moves up, every packed module holds its original bytes and nothing outside
      the packed range has changed. */
  lemma {:induction false} PackingHolds(orig: seq<nat>, modules: seq<Module>, kernelEnd: nat, last: nat, n: nat)
    requires Consecutive(modules, kernelEnd, last) && kernelEnd % 4096 == 0
    requires InMemory(modules, |orig|) && MovesDown(modules) && n <= |modules|
    ensures Packed(orig, MovedAll(orig, modules, n), modules, n, kernelEnd, Boundary(modules, kernelEnd, n))
  {
    if n > 0 {
      PackingHolds(orig, modules, kernelEnd, last, n - 1);
      RoundUpAbove(modules[n - 1].size);
      assert InPlace(modules, kernelEnd, n - 1);
      PackStep(orig, MovedAll(orig, modules, n - 1), modules, n - 1, kernelEnd);
    }
  }

  /** Page-aligned, ascending and disjoint sources behind the kernel. */
  predicate SourcesAligned(modules: seq<Module>, kernelEnd: nat) {
    && (forall i | 0 <= i < |modules| :: modules[i].source % 4096 == 0 && kernelEnd <= modules[i].source)
    && (forall i, j | 0 <= i < j < |modules| :: modules[i].source + modules[i].size <= modules[j].source)
  }

  /** Such modules never move up. */
  lemma {:induction false} AlignedMovesDown(modules: seq<Module>, kernelEnd: nat, last: nat, n: nat)
    requires Consecutive(modules, kernelEnd, last) && kernelEnd % 4096 == 0 && SourcesAligned(modules, kernelEnd)
    requires n < |modules|
    ensures modules[n].start <= modules[n].source
  {
    if n == 0 {
      assert InPlace(modules, kernelEnd, 0);
    } else {
      var mod := modules[n - 1];
      AlignedMovesDown(modules, kernelEnd, last, n - 1);
      BoundariesAscend(modules, kernelEnd, last, 0, n - 1);
      assert InPlace(modules, kernelEnd, n - 1) && InPlace(modules, kernelEnd, n);
      RoundUpFrom(mod.start, mod.size);
      RoundUpBelow(mod.start + mod.size, modules[n].source);
    }
  }

  // ---- names -------------------------------------------------------------------------------------

  /** `cmdline` up to its end or the room left before the terminator. */
  function ModuleName(cmdline: string): string { NamePrefix(cmdline, MAX_NAME - 1) }

  function NamePrefix(s: string, room: nat): (r: string)
    ensures |r| <= room && r <= s && '\0' !in r
    ensures |r| < room && |r| < |s| ==> s[|r|] == '\0'
  {
    if s == "" || s[0] == '\0' || room == 0 then "" else [s[0]] + NamePrefix(s[1..], room - 1)
  }

  /** The loop that copies the name of a module. */
  method CopyName(cmdline: string) returns (name: string)
    ensures name == ModuleName(cmdline)
  {
    name := [];
    var i := 0;
    while i < |cmdline| && cmdline[i] != '\0' && i < MAX_NAME - 1
      invariant i <= |cmdline| && i <= MAX_NAME - 1
      invariant ModuleName(cmdline) == name + NamePrefix(cmdline[i..], MAX_NAME - 1 - i)
    {
      NameStep(cmdline, i, name);
      name, i := name + [cmdline[i]], i + 1;
    }
  }

  lemma NameStep(cmdline: string, i: nat, name: string)
    requires i < |cmdline| && i < MAX_NAME - 1 && cmdline[i] != '\0'
    ensures name + NamePrefix(cmdline[i..], MAX_NAME - 1 - i) ==
            name + [cmdline[i]] + NamePrefix(cmdline[i + 1..], MAX_NAME - 2 - i)
  {
    assert cmdline[i..][1..] == cmdline[i + 1..];
  }
}
