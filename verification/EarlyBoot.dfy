/**
 `early_main`: the walk over the Multiboot2 tags, the filter on the memory map, the packing of
 the boot modules behind the kernel, and the accounting of the first free region.
 */
module EarlyBoot {
  import opened Arith
  import opened Packing

  const NO_MEMMAPS: nat := 20
  const NO_MODULES: nat := 5

  /** A memory-map entry (Multiboot2 Specification, section 3.6.8). */
  datatype Region = Region(addr: nat, len: nat, kind: nat)

  /** The tags that `early_main` looks at (Multiboot2 Specification, section 3.6). */
  datatype Tag =
    | MmapTag(entries: seq<Region>)
    | MeminfoTag(upper: nat)
    | ModuleTag(start: nat, end: nat, cmdline: string)
    | OtherTag

  datatype Info = Info(memmaps: seq<Region>, memUpper: nat, modules: seq<Module>, lastEnd: nat, totalSize: nat)

  datatype Outcome = Booted(info: Info, region: Region) | Panicked

  // ---- the memory map ------------------------------------------------------------------

  predicate Usable(r: Region) { r.kind == 1 && r.addr >= 0x10_0000 }

  /** The usable ones among the first `n`. */
  function UsableOf(s: seq<Region>, n: nat): seq<Region>
    requires n <= |s|
  {
    if n == 0 then [] else if Usable(s[n - 1]) then UsableOf(s, n - 1) + [s[n - 1]] else UsableOf(s, n - 1)
  }

  /** At most nineteen of the twenty slots are ever filled. */
  function Keep(s: seq<Region>): seq<Region> { if |s| < NO_MEMMAPS then s else s[..NO_MEMMAPS - 1] }

  lemma {:induction false} UsableOfPrefix(s: seq<Region>, t: seq<Region>, n: nat)
    requires n <= |s| && n <= |t| && forall i | 0 <= i < n :: t[i] == s[i]
    ensures UsableOf(t, n) == UsableOf(s, n)
  {
    if n > 0 { UsableOfPrefix(s, t, n - 1); }
  }

  lemma KeepStep(s: seq<Region>, n: nat)
    requires n < |s| && |Keep(UsableOf(s, n))| + 1 < NO_MEMMAPS
    ensures Keep(UsableOf(s, n + 1)) == if Usable(s[n]) then Keep(UsableOf(s, n)) + [s[n]] else Keep(UsableOf(s, n))
  {
    var u := UsableOf(s, n);
    assert |Keep(u)| == if |u| < NO_MEMMAPS then |u| else NO_MEMMAPS - 1;
  }

  /** Once nineteen are kept, nothing more is. */
  lemma {:induction false} KeepFull(s: seq<Region>, n: nat, k: nat)
    requires n <= k <= |s| && |Keep(UsableOf(s, n))| + 1 >= NO_MEMMAPS
    ensures Keep(UsableOf(s, k)) == Keep(UsableOf(s, n))
  {
    if n < k { KeepFull(s, n, k - 1); }
  }

  /** The places of the usable ones, by kind and address. */
  lemma {:induction false} UsablePlaces(s: seq<Region>, n: nat) returns (ks: seq<nat>)
    requires n <= |s|
    ensures |ks| == |UsableOf(s, n)|
    ensures forall i | 0 <= i < |ks| :: ks[i] < n && s[ks[i]] == UsableOf(s, n)[i]
    ensures forall i | 0 <= i < |ks| :: s[ks[i]].kind == 1 && s[ks[i]].addr >= 0x10_0000
    ensures forall i, j | 0 <= i < j < |ks| :: ks[i] < ks[j]
    ensures forall k | 0 <= k < n && s[k].kind == 1 && s[k].addr >= 0x10_0000 :: k in ks
  {
    ks := [];
    if n > 0 {
      ks := UsablePlaces(s, n - 1);
      if s[n - 1].kind == 1 && s[n - 1].addr >= 0x10_0000 { ks := ks + [n - 1]; }
    }
  }

  lemma {:induction false} UsableConcat(s: seq<Region>, e: seq<Region>, n: nat)
    requires n <= |e|
    ensures UsableOf(s + e, |s| + n) == UsableOf(s, |s|) + UsableOf(e, n)
  {
    if n == 0 { UsableOfPrefix(s, s + e, |s|); } else { UsableConcat(s, e, n - 1); }
  }

  lemma {:induction false} KeepMore(u: seq<Region>, v: seq<Region>)
    ensures Keep(u) <= Keep(u + v) && |Keep(u + v)| <= 19
    ensures forall i | |Keep(u)| <= i < |Keep(u + v)| :: Keep(u + v)[i] in v
    ensures forall e | e in v :: e in Keep(u + v) || |Keep(u + v)| == 19
  {
    forall e | e in v ensures e in Keep(u + v) || |Keep(u + v)| == 19 {
      var i :| 0 <= i < |v| && v[i] == e;
      if |u + v| < 19 { assert Keep(u + v)[|u| + i] == e; }
    }
  }

  lemma {:induction false} UsableSound(entries: seq<Region>, e: Region)
    requires e in UsableOf(entries, |entries|)
    ensures e in entries && e.kind == 1 && e.addr >= 0x10_0000
  {
    var ks := UsablePlaces(entries, |entries|);
    var i :| 0 <= i < |ks| && UsableOf(entries, |entries|)[i] == e;
    assert entries[ks[i]] == e;
  }

  lemma {:induction false} UsableFound(entries: seq<Region>, e: Region)
    requires e in entries && e.kind == 1 && e.addr >= 0x10_0000
    ensures e in UsableOf(entries, |entries|)
  {
    var ks := UsablePlaces(entries, |entries|);
    var k :| 0 <= k < |entries| && entries[k] == e;
    var i :| 0 <= i < |ks| && ks[i] == k;
    assert UsableOf(entries, |entries|)[i] == e;
  }

  /** What one memory-map tag adds. */
  lemma {:induction false} AddedBy(seen: seq<Region>, entries: seq<Region>, saved: seq<Region>, out: seq<Region>)
    requires saved == Keep(UsableOf(seen, |seen|)) && out == Keep(UsableOf(seen + entries, |seen + entries|))
    ensures saved <= out && |out| <= 19
    ensures forall i | |saved| <= i < |out| :: out[i] in entries && out[i].kind == 1 && out[i].addr >= 0x10_0000
    ensures forall e | e in entries && e.kind == 1 && e.addr >= 0x10_0000 :: e in out || |out| == 19
  {
    var u, v := UsableOf(seen, |seen|), UsableOf(entries, |entries|);
    UsableConcat(seen, entries, |entries|);
    KeepMore(u, v);
    forall i | |saved| <= i < |out| ensures out[i] in entries && out[i].kind == 1 && out[i].addr >= 0x10_0000 {
      UsableSound(entries, out[i]);
    }
    forall e | e in entries && e.kind == 1 && e.addr >= 0x10_0000 ensures e in out || |out| == 19 {
      UsableFound(entries, e);
    }
  }

  /** Loop over the entries of one memory-map tag. */
  method SaveEntries(saved: seq<Region>, entries: seq<Region>, ghost seen: seq<Region>) returns (out: seq<Region>)
    requires saved == Keep(UsableOf(seen, |seen|))
    ensures out == Keep(UsableOf(seen + entries, |seen + entries|))
    ensures saved <= out && |out| <= 19
    ensures forall i | |saved| <= i < |out| :: out[i] in entries && out[i].kind == 1 && out[i].addr >= 0x10_0000
    ensures forall e | e in entries && e.kind == 1 && e.addr >= 0x10_0000 :: e in out || |out| == 19
  {
    ghost var all, k := seen + entries, |seen|;
    UsableOfPrefix(seen, all, k);
    out := saved;
    var i := 0;
    while i < |entries| && |out| + 1 < NO_MEMMAPS
      invariant i <= |entries| && out == Keep(UsableOf(all, k + i))
    {
      KeepStep(all, k + i);
      if Usable(entries[i]) { out := out + [entries[i]]; }
      i := i + 1;
    }
    if |out| + 1 >= NO_MEMMAPS { KeepFull(all, k + i, |all|); }
    AddedBy(seen, entries, saved, out);
  }

  // ---- what the tags say --------------------------------------------------------------------

  /** The memory-map entries of the first `n` tags. */
  function Entries(tags: seq<Tag>, n: nat): seq<Region>
    requires n <= |tags|
  {
    if n == 0 then [] else
    match tags[n - 1] case MmapTag(e) => Entries(tags, n - 1) + e case _ => Entries(tags, n - 1)
  }

  /** The usable regions that the first `n` tags name. */
  function UsableIn(tags: seq<Tag>, n: nat): seq<Region>
    requires n <= |tags|
  {
    UsableOf(Entries(tags, n), |Entries(tags, n)|)
  }

  function LastUpper(tags: seq<Tag>, n: nat): nat
    requires n <= |tags|
  {
    if n == 0 then 0 else match tags[n - 1] case MeminfoTag(u) => u case _ => LastUpper(tags, n - 1)
  }

  /** The module tags among the first `n`, in order. */
  function ModuleTags(tags: seq<Tag>, n: nat): (ms: seq<Tag>)
    requires n <= |tags|
    ensures forall i | 0 <= i < |ms| :: ms[i].ModuleTag?
  {
    if n == 0 then []
    else if tags[n - 1].ModuleTag? then ModuleTags(tags, n - 1) + [tags[n - 1]]
    else ModuleTags(tags, n - 1)
  }

  /** The modules that are packed: the first five. */
  function Chosen(tags: seq<Tag>, n: nat): (ms: seq<Tag>)
    requires n <= |tags|
    ensures forall i | 0 <= i < |ms| :: ms[i].ModuleTag?
  {
    var ms := ModuleTags(tags, n);
    if |ms| <= NO_MODULES then ms else ms[..NO_MODULES]
  }

  lemma ChosenStep(tags: seq<Tag>, n: nat)
    requires n < |tags|
    ensures Chosen(tags, n + 1) ==
              if tags[n].ModuleTag? && |Chosen(tags, n)| < NO_MODULES then Chosen(tags, n) + [tags[n]]
              else Chosen(tags, n)
  {}

  function TagSize(tag: Tag): nat { if tag.ModuleTag? && tag.start <= tag.end then tag.end - tag.start else 0 }

  /** Bytes, in whole pages, of the first `n` of the modules `ms`. */
  function TagTotal(ms: seq<Tag>, n: nat): nat
    requires n <= |ms|
  {
    if n == 0 then 0 else TagTotal(ms, n - 1) + RoundUp(TagSize(ms[n - 1]))
  }

  /** Bytes that packing the first `n` tags takes. */
  function Taken(tags: seq<Tag>, n: nat): nat
    requires n <= |tags|
  {
    TagTotal(Chosen(tags, n), |Chosen(tags, n)|)
  }

  /** Module tags describe ranges of memory, and there is room to pack the chosen ones. */
  predicate TagsFit(tags: seq<Tag>, kernelEnd: nat, size: nat) {
    && (forall i | 0 <= i < |tags| && tags[i].ModuleTag? :: tags[i].start <= tags[i].end <= size)
    && kernelEnd % 4096 == 0 && kernelEnd + Taken(tags, |tags|) <= size
  }

  predicate FromTag(mod: Module, tag: Tag) {
    tag.ModuleTag? && mod.source == tag.start && mod.size == TagSize(tag) && mod.name == ModuleName(tag.cmdline)
  }

  predicate FromTags(modules: seq<Module>, ms: seq<Tag>) {
    |modules| == |ms| && forall i | 0 <= i < |ms| :: FromTag(modules[i], ms[i])
  }

  lemma {:induction false} SameTotal(modules: seq<Module>, ms: seq<Tag>, n: nat)
    requires FromTags(modules, ms) && n <= |ms|
    ensures TotalSize(modules, n) == TagTotal(ms, n)
  {
    if n > 0 {
      SameTotal(modules, ms, n - 1);
      assert FromTag(modules[n - 1], ms[n - 1]);
    }
  }

  lemma {:induction false} TotalOfFront(ms: seq<Tag>, tag: Tag, n: nat)
    requires n <= |ms|
    ensures TagTotal(ms + [tag], n) == TagTotal(ms, n)
  {
    if n > 0 { TotalOfFront(ms, tag, n - 1); }
  }

  lemma TakenStep(tags: seq<Tag>, n: nat)
    requires n < |tags|
    ensures Taken(tags, n + 1) ==
              if tags[n].ModuleTag? && |Chosen(tags, n)| < NO_MODULES then Taken(tags, n) + RoundUp(TagSize(tags[n]))
              else Taken(tags, n)
  {
    ChosenStep(tags, n);
    if tags[n].ModuleTag? && |Chosen(tags, n)| < NO_MODULES {
      TotalOfFront(Chosen(tags, n), tags[n], |Chosen(tags, n)|);
    }
  }

  /** More tags need no less room. */
  lemma {:induction false} TakenGrows(tags: seq<Tag>, n: nat, k: nat)
    requires n <= k <= |tags|
    ensures Taken(tags, n) <= Taken(tags, k)
  {
    if n < k {
      TakenGrows(tags, n, k - 1);
      TakenStep(tags, k - 1);
    }
  }

  // ---- the tag walk -----------------------------------------------------------------------

  /** What the first `n` tags have led to. */
  ghost predicate Walked(orig: seq<nat>, m: seq<nat>, info: Info, tags: seq<Tag>, n: nat, kernelEnd: nat)
    requires n <= |tags|
  {
    && info.memmaps == Keep(UsableIn(tags, n)) && info.memUpper == LastUpper(tags, n)
    && PackedTags(orig, m, info, Chosen(tags, n), kernelEnd)
  }

  /** The modules of the tags `ms` have been packed. */
  ghost predicate PackedTags(orig: seq<nat>, m: seq<nat>, info: Info, ms: seq<Tag>, kernelEnd: nat) {
    && FromTags(info.modules, ms) && Consecutive(info.modules, kernelEnd, info.lastEnd)
    && info.totalSize == TotalSize(info.modules, |info.modules|)
    && InMemory(info.modules, |orig|) && m == MovedAll(orig, info.modules, |info.modules|)
  }

  /** The module case of the switch, when fewer than five modules are packed. */
  method PackModule(mem: array<nat>, info: Info, tag: Tag, ghost orig: seq<nat>, ghost ms: seq<Tag>,
                    ghost kernelEnd: nat)
    returns (out: Info)
    requires tag.ModuleTag? && tag.start <= tag.end <= mem.Length && kernelEnd % 4096 == 0
    requires PackedTags(orig, mem[..], info, ms, kernelEnd)
    requires kernelEnd + TagTotal(ms, |ms|) + RoundUp(TagSize(tag)) <= mem.Length
    modifies mem
    ensures PackedTags(orig, mem[..], out, ms + [tag], kernelEnd)
    ensures out.memmaps == info.memmaps && out.memUpper == info.memUpper
  {
    var first, size := info.lastEnd, tag.end - tag.start;
    PlaceNext(info, tag, ms, kernelEnd);
    var name := CopyName(tag.cmdline);
    var mod := Module(first, RoundUp(first + size), name, tag.start, size);
    ghost var m := mem[..];
    CopyForward(mem, tag.start, tag.end, first);
    var total := info.totalSize + (mod.end - mod.start);
    out := info.(modules := info.modules + [mod], lastEnd := mod.end, totalSize := total);
    PackedNext(orig, m, mem[..], info, out, ms, tag, mod, kernelEnd);
  }

  lemma PackedNext(orig: seq<nat>, m: seq<nat>, m': seq<nat>, info: Info, out: Info, ms: seq<Tag>, tag: Tag,
                   mod: Module, kernelEnd: nat)
    requires PackedTags(orig, m, info, ms, kernelEnd) && FromTag(mod, tag) && tag.end <= |orig|
    requires mod.start == info.lastEnd && mod.end == info.lastEnd + RoundUp(mod.size)
    requires mod.source + mod.size <= |m| && m' == Moved(m, mod.source, mod.size, mod.start)
    requires out.modules == info.modules + [mod] && out.lastEnd == mod.end
    requires out.totalSize == info.totalSize + (mod.end - mod.start)
    ensures PackedTags(orig, m', out, ms + [tag], kernelEnd)
  {
    SameFront(orig, info.modules, mod, |info.modules|);
    InPlaceNext(info.modules, kernelEnd, info.lastEnd, mod);
  }

  /** The next module ends on a page, within the room set aside. */
  lemma PlaceNext(info: Info, tag: Tag, ms: seq<Tag>, kernelEnd: nat)
    requires FromTags(info.modules, ms) && Consecutive(info.modules, kernelEnd, info.lastEnd) && kernelEnd % 4096 == 0
    ensures var end := RoundUp(info.lastEnd + TagSize(tag));
            && end == info.lastEnd + RoundUp(TagSize(tag)) && info.lastEnd + TagSize(tag) <= end
            && end == kernelEnd + TagTotal(ms, |ms|) + RoundUp(TagSize(tag))
  {
    ModuleRanges(info.modules, kernelEnd, info.lastEnd);
    TotalIsSpan(info.modules, kernelEnd, info.lastEnd, |info.modules|);
    SameTotal(info.modules, ms, |ms|);
    RoundUpFrom(info.lastEnd, TagSize(tag));
    RoundUpAbove(TagSize(tag));
  }

  /** The switch of the tag loop, for tag number `n`; a sixth module is ignored. */
  method HandleTag(mem: array<nat>, info: Info, tags: seq<Tag>, n: nat, ghost orig: seq<nat>, ghost kernelEnd: nat)
    returns (out: Info)
    requires n < |tags| && Walked(orig, mem[..], info, tags, n, kernelEnd) && kernelEnd % 4096 == 0
    requires tags[n].ModuleTag? ==> tags[n].start <= tags[n].end <= mem.Length
    requires kernelEnd + Taken(tags, n + 1) <= mem.Length
    modifies mem
    ensures Walked(orig, mem[..], out, tags, n + 1, kernelEnd)
  {
    ChosenStep(tags, n);
    TakenStep(tags, n);
    out := info;
    match tags[n] {
      case MmapTag(entries) =>
        var saved := SaveEntries(info.memmaps, entries, Entries(tags, n));
        out := out.(memmaps := saved);
      case MeminfoTag(upper) =>
        out := out.(memUpper := upper);
      case ModuleTag(_, _, _) =>
        if |info.modules| + 1 > NO_MODULES { return; }
        out := PackModule(mem, info, tags[n], orig, Chosen(tags, n), kernelEnd);
      case OtherTag =>
    }
  }

  lemma WalkedStart(m: seq<nat>, tags: seq<Tag>, kernelEnd: nat)
    ensures Walked(m, m, Info([], 0, [], kernelEnd, 0), tags, 0, kernelEnd)
  {}

  /** The tag loop. */
  method WalkTags(mem: array<nat>, tags: seq<Tag>, kernelEnd: nat) returns (info: Info)
    requires TagsFit(tags, kernelEnd, mem.Length)
    modifies mem
    ensures Walked(old(mem[..]), mem[..], info, tags, |tags|, kernelEnd)
  {
    info := Info([], 0, [], kernelEnd, 0);
    ghost var orig := mem[..];
    WalkedStart(orig, tags, kernelEnd);
    var t := 0;
    while t < |tags|
      invariant t <= |tags| && Walked(orig, mem[..], info, tags, t, kernelEnd)
    {
      TakenGrows(tags, t + 1, |tags|);
      info := HandleTag(mem, info, tags, t, orig, kernelEnd);
      t := t + 1;
    }
  }

  /** Module sources are page-aligned, ascending, disjoint and above the kernel. */
  predicate SourcesOk(ms: seq<Tag>, kernelEnd: nat) {
    && (forall i | 0 <= i < |ms| :: ms[i].ModuleTag? && ms[i].start <= ms[i].end && ms[i].start % 4096 == 0
         && kernelEnd <= ms[i].start)
    && (forall i, j | 0 <= i < j < |ms| :: ms[i].ModuleTag? && ms[j].ModuleTag? && ms[i].end <= ms[j].start)
  }

  /** Then every packed module holds its original bytes, and nothing outside has changed. */
  lemma TagsPacked(orig: seq<nat>, m: seq<nat>, info: Info, ms: seq<Tag>, kernelEnd: nat)
    requires PackedTags(orig, m, info, ms, kernelEnd) && kernelEnd % 4096 == 0 && SourcesOk(ms, kernelEnd)
    ensures Packed(orig, m, info.modules, |info.modules|, kernelEnd, info.lastEnd)
  {
    var modules := info.modules;
    assert forall i | 0 <= i < |ms| :: FromTag(modules[i], ms[i]);
    assert SourcesAligned(modules, kernelEnd);
    forall i | 0 <= i < |modules| ensures modules[i].start <= modules[i].source {
      AlignedMovesDown(modules, kernelEnd, info.lastEnd, i);
    }
    PackingHolds(orig, modules, kernelEnd, info.lastEnd, |modules|);
  }

  /** A module that starts one byte below the kernel end, 4096, and moves up by that byte. */
  lemma WalkLoses(orig: seq<nat>, m: seq<nat>, info: Info)
    requires |orig| == 8192 && orig[4095] == 1 && orig[4096] == 2
    requires Walked(orig, m, info, [ModuleTag(4095, 4097, "")], 1, 4096)
    ensures TagsFit([ModuleTag(4095, 4097, "")], 4096, |orig|)
    ensures |info.modules| == 1 && !Intact(orig, m, info.modules[0])
  {
    var tag := ModuleTag(4095, 4097, "");
    OneTag(tag);
    LoneModule(orig, m, info, tag);
    LostByte(orig, m, info.modules[0]);
  }

  lemma OneTag(tag: Tag)
    requires tag.ModuleTag?
    ensures Chosen([tag], 1) == [tag] && Taken([tag], 1) == RoundUp(TagSize(tag))
  {
    assert ModuleTags([tag], 0) == [] && ModuleTags([tag], 1) == [tag];
    assert TagTotal([tag], 0) == 0 && TagTotal([tag], 1) == RoundUp(TagSize(tag));
  }

  lemma LoneModule(orig: seq<nat>, m: seq<nat>, info: Info, tag: Tag)
    requires PackedTags(orig, m, info, [tag], 4096) && tag.ModuleTag? && tag.start <= tag.end
    ensures |info.modules| == 1 && info.modules[0].source == tag.start && info.modules[0].start == 4096
    ensures info.modules[0].size == tag.end - tag.start
    ensures tag.end <= |orig| && m == Moved(orig, tag.start, tag.end - tag.start, 4096)
  {
    var mod := info.modules[0];
    assert FromTag(mod, tag) && InPlace(info.modules, 4096, 0);
    assert MovedAll(orig, info.modules, 0) == orig;
    assert MovedAll(orig, info.modules, 1) == Moved(orig, mod.source, mod.size, mod.start);
  }

  lemma LostByte(orig: seq<nat>, m: seq<nat>, mod: Module)
    requires |orig| == 8192 && orig[4095] == 1 && orig[4096] == 2 && m == Moved(orig, 4095, 2, 4096)
    requires mod.start == 4096 && mod.source == 4095 && mod.size == 2
    ensures !Intact(orig, m, mod)
  {
    MovedAt(orig, 4095, 2, 4096, 1);
    assert m[4096..4098][1] == 1 && orig[4095..4097][1] == 2;
  }

  lemma NothingKept(u: seq<Region>)
    ensures Keep(u) == [] <==> u == []
  {
    assert |Keep(u)| == if |u| < NO_MEMMAPS then |u| else NO_MEMMAPS - 1;
  }

  lemma NothingChosen(tags: seq<Tag>, n: nat)
    requires n <= |tags|
    ensures Chosen(tags, n) == [] <==> ModuleTags(tags, n) == []
  {
    var ms := ModuleTags(tags, n);
    assert |Chosen(tags, n)| == if |ms| <= NO_MODULES then |ms| else NO_MODULES;
  }

  // ---- what is taken from the tags, in fields ----------------------------------------------------

  /** Number of a tag, and of an entry in it. */
  datatype Place = Place(tag: nat, entry: nat)

  predicate EntryAt(tags: seq<Tag>, at: Place, e: Region) {
    at.tag < |tags| && tags[at.tag].MmapTag? && at.entry < |tags[at.tag].entries| && tags[at.tag].entries[at.entry] == e
  }

  predicate Before(a: Place, b: Place) { a.tag < b.tag || (a.tag == b.tag && a.entry < b.entry) }

  /** `saved` are entries of available memory from one megabyte on, in the order of the tags, and all
      of them unless nineteen come before. */
  ghost predicate SavedFrom(tags: seq<Tag>, saved: seq<Region>, places: seq<Place>) {
    && |saved| == |places| <= 19
    && (forall i | 0 <= i < |saved| :: EntryAt(tags, places[i], saved[i]))
    && (forall i | 0 <= i < |saved| :: saved[i].kind == 1 && saved[i].addr >= 0x10_0000)
    && (forall i, j | 0 <= i < j < |places| :: Before(places[i], places[j]))
    && (forall at, e | EntryAt(tags, at, e) && e.kind == 1 && e.addr >= 0x10_0000 ::
          at in places || (|places| == 19 && Before(places[18], at)))
  }

  /** The first entry saved is the first there is. */
  lemma FirstSaved(tags: seq<Tag>, saved: seq<Region>, places: seq<Place>, at: Place, e: Region)
    requires SavedFrom(tags, saved, places) && EntryAt(tags, at, e) && e.kind == 1 && e.addr >= 0x10_0000
    ensures saved != [] && (at == places[0] || Before(places[0], at))
  {
    if at in places {
      var i :| 0 <= i < |places| && places[i] == at;
      if i > 0 { assert Before(places[0], places[i]); }
    } else {
      assert Before(places[0], places[18]);
    }
  }

  /** All usable entries of the first `n` tags, with their places. */
  ghost predicate PlacesOf(tags: seq<Tag>, n: nat, u: seq<Region>, places: seq<Place>) {
    && |u| == |places|
    && (forall i | 0 <= i < |u| :: EntryAt(tags, places[i], u[i]) && places[i].tag < n)
    && (forall i | 0 <= i < |u| :: u[i].kind == 1 && u[i].addr >= 0x10_0000)
    && (forall i, j | 0 <= i < j < |places| :: Before(places[i], places[j]))
    && (forall at, e | EntryAt(tags, at, e) && at.tag < n && e.kind == 1 && e.addr >= 0x10_0000 :: at in places)
  }

  function InTag(t: nat, ks: seq<nat>): (r: seq<Place>)
    ensures |r| == |ks| && forall i | 0 <= i < |r| :: r[i] == Place(t, ks[i])
  {
    seq(|ks|, i requires 0 <= i < |ks| => Place(t, ks[i]))
  }

  lemma {:induction false} TagPlaces(tags: seq<Tag>, n: nat) returns (places: seq<Place>)
    requires n <= |tags|
    ensures PlacesOf(tags, n, UsableIn(tags, n), places)
  {
    places := [];
    if n > 0 {
      var before := TagPlaces(tags, n - 1);
      if tags[n - 1].MmapTag? {
        var entries := tags[n - 1].entries;
        UsableConcat(Entries(tags, n - 1), entries, |entries|);
        var ks := UsablePlaces(entries, |entries|);
        places := before + InTag(n - 1, ks);
        PlacesNext(tags, n - 1, UsableIn(tags, n - 1), before, UsableOf(entries, |entries|), ks);
      } else {
        places := before;
        forall at, e | EntryAt(tags, at, e) && at.tag < n ensures at.tag < n - 1 {}
      }
    }
  }

  lemma PlacesNext(tags: seq<Tag>, n: nat, u: seq<Region>, places: seq<Place>, v: seq<Region>, ks: seq<nat>)
    requires n < |tags| && tags[n].MmapTag? && PlacesOf(tags, n, u, places) && |ks| == |v|
    requires forall i | 0 <= i < |ks| :: ks[i] < |tags[n].entries| && tags[n].entries[ks[i]] == v[i]
    requires forall i | 0 <= i < |v| :: v[i].kind == 1 && v[i].addr >= 0x10_0000
    requires forall i, j | 0 <= i < j < |ks| :: ks[i] < ks[j]
    requires forall k | 0 <= k < |tags[n].entries| && tags[n].entries[k].kind == 1
                        && tags[n].entries[k].addr >= 0x10_0000 :: k in ks
    ensures PlacesOf(tags, n + 1, u + v, places + InTag(n, ks))
  {
    var all := places + InTag(n, ks);
    forall i | 0 <= i < |u + v| ensures EntryAt(tags, all[i], (u + v)[i]) && all[i].tag < n + 1 {
      if i < |u| { assert EntryAt(tags, places[i], u[i]); }
    }
    forall i, j | 0 <= i < j < |all| ensures Before(all[i], all[j]) {
      if j < |u| { assert Before(places[i], places[j]); }
      if i < |u| { assert EntryAt(tags, places[i], u[i]); }
    }
    forall at, e | EntryAt(tags, at, e) && at.tag < n + 1 && e.kind == 1 && e.addr >= 0x10_0000 ensures at in all {
      if at.tag == n {
        var i :| 0 <= i < |ks| && ks[i] == at.entry;
        assert all[|u| + i] == at;
      } else {
        assert at in places;
      }
    }
  }

  /** The map that the tag loop keeps. */
  lemma MapSaved(tags: seq<Tag>) returns (places: seq<Place>)
    ensures SavedFrom(tags, Keep(UsableIn(tags, |tags|)), places)
  {
    var u := UsableIn(tags, |tags|);
    var all := TagPlaces(tags, |tags|);
    places := if |u| < NO_MEMMAPS then all else all[..NO_MEMMAPS - 1];
    forall at, e | EntryAt(tags, at, e) && e.kind == 1 && e.addr >= 0x10_0000
      ensures at in places || (|places| == 19 && Before(places[18], at))
    {
      var i :| 0 <= i < |all| && all[i] == at;
      if i >= |places| { assert Before(all[18], all[i]); } else { assert places[i] == at; }
    }
  }

  /** `e` is the first entry of available memory from one megabyte on. */
  ghost predicate FirstAt(tags: seq<Tag>, at: Place, e: Region) {
    && EntryAt(tags, at, e) && e.kind == 1 && e.addr >= 0x10_0000
    && forall b, d | EntryAt(tags, b, d) && d.kind == 1 && d.addr >= 0x10_0000 :: b == at || Before(at, b)
  }

  lemma FirstUsable(tags: seq<Tag>) returns (at: Place)
    requires UsableIn(tags, |tags|) != []
    ensures FirstAt(tags, at, UsableIn(tags, |tags|)[0])
  {
    var places := TagPlaces(tags, |tags|);
    at := places[0];
    var u := UsableIn(tags, |tags|);
    assert EntryAt(tags, places[0], u[0]);
    forall b, d | EntryAt(tags, b, d) && d.kind == 1 && d.addr >= 0x10_0000 ensures b == at || Before(at, b) {
      var i :| 0 <= i < |places| && places[i] == b;
      if i > 0 { assert Before(places[0], places[i]); }
    }
  }

  /** `modules` come from module tags, in their order, and from all of them unless five come before. */
  ghost predicate ModulesFrom(tags: seq<Tag>, modules: seq<Module>, places: seq<nat>) {
    && |modules| == |places| <= 5
    && (forall i | 0 <= i < |places| :: places[i] < |tags| && IsModule(modules[i], tags[places[i]]))
    && (forall i, j | 0 <= i < j < |places| :: places[i] < places[j])
    && (forall k | 0 <= k < |tags| && tags[k].ModuleTag? :: k in places || (|places| == 5 && places[4] < k))
  }

  predicate IsModule(mod: Module, tag: Tag) {
    && tag.ModuleTag? && tag.start <= tag.end && mod.source == tag.start && mod.size == tag.end - tag.start
    && |mod.name| <= 31 && mod.name <= tag.cmdline && '\0' !in mod.name
    && (|mod.name| < 31 && |mod.name| < |tag.cmdline| ==> tag.cmdline[|mod.name|] == '\0')
  }

  lemma {:induction false} ModulePlaces(tags: seq<Tag>, n: nat) returns (ks: seq<nat>)
    requires n <= |tags|
    ensures |ks| == |ModuleTags(tags, n)|
    ensures forall i | 0 <= i < |ks| :: ks[i] < n && tags[ks[i]] == ModuleTags(tags, n)[i]
    ensures forall i, j | 0 <= i < j < |ks| :: ks[i] < ks[j]
    ensures forall k | 0 <= k < n && tags[k].ModuleTag? :: k in ks
  {
    ks := [];
    if n > 0 {
      ks := ModulePlaces(tags, n - 1);
      if tags[n - 1].ModuleTag? { ks := ks + [n - 1]; }
    }
  }

  lemma ModulesTaken(tags: seq<Tag>, modules: seq<Module>, size: nat) returns (places: seq<nat>)
    requires FromTags(modules, Chosen(tags, |tags|))
    requires forall i | 0 <= i < |tags| && tags[i].ModuleTag? :: tags[i].start <= tags[i].end <= size
    ensures ModulesFrom(tags, modules, places)
  {
    var ms := Chosen(tags, |tags|);
    var ks := ModulePlaces(tags, |tags|);
    places := if |ks| <= NO_MODULES then ks else ks[..NO_MODULES];
    forall i | 0 <= i < |places| ensures places[i] < |tags| && IsModule(modules[i], tags[places[i]]) {
      assert FromTag(modules[i], ms[i]) && ms[i] == tags[places[i]];
    }
    forall k | 0 <= k < |tags| && tags[k].ModuleTag? ensures k in places || (|places| == 5 && places[4] < k) {
      var i :| 0 <= i < |ks| && ks[i] == k;
      if i < |places| { assert places[i] == k; }
    }
  }

  /** The upper memory is that of the last tag that tells it. */
  predicate LastTold(tags: seq<Tag>, k: int, upper: nat) {
    0 <= k < |tags| && tags[k] == MeminfoTag(upper) && forall j | k < j < |tags| :: !tags[j].MeminfoTag?
  }

  lemma {:induction false} UpperTold(tags: seq<Tag>, n: nat) returns (k: int)
    requires n <= |tags| && forall j | n <= j < |tags| :: !tags[j].MeminfoTag?
    ensures k >= 0 ==> LastTold(tags, k, LastUpper(tags, n))
    ensures k < 0 ==> LastUpper(tags, n) == 0 && forall j | 0 <= j < |tags| :: !tags[j].MeminfoTag?
  {
    if n == 0 {
      k := -1;
    } else if tags[n - 1].MeminfoTag? {
      k := n - 1;
    } else {
      k := UpperTold(tags, n - 1);
    }
  }

  /** The tags name memory, an upper memory and a module. */
  ghost predicate Complete(tags: seq<Tag>) {
    && (exists at, e :: EntryAt(tags, at, e) && e.kind == 1 && e.addr >= 0x10_0000)
    && (exists k, upper :: LastTold(tags, k, upper) && upper != 0)
    && (exists k | 0 <= k < |tags| :: tags[k].ModuleTag?)
  }

  lemma CompleteIff(tags: seq<Tag>)
    ensures Complete(tags) <==>
              UsableIn(tags, |tags|) != [] && LastUpper(tags, |tags|) != 0 && ModuleTags(tags, |tags|) != []
  {
    var places := TagPlaces(tags, |tags|);
    var ks := ModulePlaces(tags, |tags|);
    var k := UpperTold(tags, |tags|);
    if UsableIn(tags, |tags|) != [] { assert EntryAt(tags, places[0], UsableIn(tags, |tags|)[0]); }
    if ModuleTags(tags, |tags|) != [] { assert tags[ks[0]].ModuleTag?; }
  }

  /** `early_main`: panics exactly without a usable region, an upper-memory size or a module. */
  method EarlyMain(mem: array<nat>, tags: seq<Tag>, kernelEnd: nat) returns (r: Outcome)
    requires TagsFit(tags, kernelEnd, mem.Length)
    modifies mem
    ensures r.Panicked? <==> !Complete(tags)
    ensures r.Booted? ==> (exists places :: SavedFrom(tags, r.info.memmaps, places))
    ensures r.Booted? ==> (exists k :: LastTold(tags, k, r.info.memUpper))
    ensures r.Booted? ==> (exists places :: ModulesFrom(tags, r.info.modules, places))
    ensures r.Booted? ==> Walked(old(mem[..]), mem[..], r.info, tags, |tags|, kernelEnd) && r.info.memmaps != []
    ensures r.Booted? ==>
              var total := TotalSize(r.info.modules, |r.info.modules|);
              r.region == Adjust(r.info.memmaps[0], kernelEnd, total, r.info.lastEnd)
    ensures r.Booted? && r.info.lastEnd < WORD && r.info.memmaps[0].addr < QWORD && r.info.memmaps[0].len < QWORD ==>
              var first := r.info.memmaps[0];
              && r.region.addr == r.info.lastEnd
              && (r.region.addr + r.region.len == first.addr + first.len <==>
                    Spans(first, kernelEnd, r.info.lastEnd) || WrapsBack(first, kernelEnd, r.info.lastEnd))
    ensures r.Booted? && SourcesOk(Chosen(tags, |tags|), kernelEnd) ==>
              Packed(old(mem[..]), mem[..], r.info.modules, |r.info.modules|, kernelEnd, r.info.lastEnd)
  {
    ghost var orig := mem[..];
    var info := WalkTags(mem, tags, kernelEnd);
    NothingKept(UsableIn(tags, |tags|));
    NothingChosen(tags, |tags|);
    CompleteIff(tags);
    ghost var places := MapSaved(tags);
    ghost var k := UpperTold(tags, |tags|);
    ghost var ks := ModulesTaken(tags, info.modules, mem.Length);
    if SourcesOk(Chosen(tags, |tags|), kernelEnd) {
      TagsPacked(orig, mem[..], info, Chosen(tags, |tags|), kernelEnd);
    }
    if info.memmaps == [] || info.memUpper == 0 || info.modules == [] { return Panicked; }
    r := Booted(info, Adjust(info.memmaps[0], kernelEnd, info.totalSize, info.lastEnd));
    if info.lastEnd < WORD && info.memmaps[0].addr < QWORD && info.memmaps[0].len < QWORD {
      RegionConserved(info.memmaps[0], info.modules, kernelEnd, info.lastEnd);
    }
  }

  // ---- region accounting -----------------------------------------------------------------------

  function Wrap64(a: int): nat { a % QWORD }

  /** The last three lines: 64-bit arithmetic, with the first difference cut to 32 bits. */
  function Adjust(r: Region, kernelEnd: nat, total: nat, lastEnd: nat): Region {
    r.(addr := lastEnd, len := Wrap64(Wrap64(r.len - Wrap64(kernelEnd - r.addr) % WORD) - total))
  }

  /** The region reaches from the kernel, or from below it, to the end of the modules. */
  predicate Spans(r: Region, kernelEnd: nat, lastEnd: nat) { r.addr <= kernelEnd && lastEnd <= r.addr + r.len }

  /** The region starts in the last four gigabytes of the 64-bit space, where the two differences
      wrap around to the right sum. */
  predicate WrapsBack(r: Region, kernelEnd: nat, lastEnd: nat) {
    QWORD + kernelEnd < r.addr + WORD && r.addr + r.len < QWORD + lastEnd
  }

  /** The first difference, cut to 32 bits, is right exactly near both ends of the 64-bit space. */
  lemma CutDifference(addr: nat, kernelEnd: nat)
    requires kernelEnd < WORD && addr < QWORD
    ensures var d := Wrap64(kernelEnd - addr) % WORD;
            && (addr <= kernelEnd ==> d == kernelEnd - addr)
            && (QWORD + kernelEnd < addr + WORD ==> d == QWORD + kernelEnd - addr)
            && (kernelEnd < addr <= QWORD + kernelEnd - WORD ==> d < QWORD + kernelEnd - addr < d + QWORD)
  {
    if addr <= kernelEnd {
      Wrapped(kernelEnd - addr, kernelEnd - addr, 0);
      DivModUnique(kernelEnd - addr, WORD, 0, kernelEnd - addr);
    } else {
      var x := QWORD + kernelEnd - addr;
      Wrapped(kernelEnd - addr, x, -1);
      assert x == WORD * (x / WORD) + x % WORD;
      if x < WORD { DivModUnique(x, WORD, 0, x); }
    }
  }

  lemma Wrapped(x: int, r: nat, k: int)
    requires x == QWORD * k + r && r < QWORD
    ensures Wrap64(x) == r
  {
    IntModUnique(x, QWORD, k, r);
  }

  /** The length left, with `d` for the first difference. */
  lemma LengthLeft(len: nat, d: nat, total: nat)
    requires len < QWORD && d < WORD && total < WORD
    ensures Wrap64(Wrap64(len - d) - total) == if d + total <= len then len - d - total else len - d - total + QWORD
  {
    if d <= len { Wrapped(len - d, len - d, 0); } else { Wrapped(len - d, len - d + QWORD, -1); }
    var a := Wrap64(len - d);
    if total <= a { Wrapped(a - total, a - total, 0); } else { Wrapped(a - total, a - total + QWORD, -1); }
  }

  /** For every 64-bit region: it keeps its upper end exactly if it spans the kernel and the modules
      or wraps back. */
  lemma UpperEndKept(r: Region, kernelEnd: nat, total: nat, lastEnd: nat)
    requires r.addr < QWORD && r.len < QWORD && lastEnd == kernelEnd + total < WORD
    ensures var r' := Adjust(r, kernelEnd, total, lastEnd);
            r'.addr + r'.len == r.addr + r.len <==> Spans(r, kernelEnd, lastEnd) || WrapsBack(r, kernelEnd, lastEnd)
  {
    CutDifference(r.addr, kernelEnd);
    LengthLeft(r.len, Wrap64(kernelEnd - r.addr) % WORD, total);
  }

  /** A region of 16 MiB from 4 MiB on, with the kernel ending at 2 MiB and no module: its end
      falls from 20 MiB to below zero and wraps around. */
  lemma UpperEndLost()
    ensures var r := Region(0x40_0000, 0x100_0000, 1);
            var r' := Adjust(r, 0x20_0000, 0, 0x20_0000);
            r.addr + r.len == 0x140_0000 && r'.addr + r'.len != 0x140_0000
  {
    UpperEndKept(Region(0x40_0000, 0x100_0000, 1), 0x20_0000, 0, 0x20_0000);
  }

  /** Two megabytes from the first one on, with the kernel ending at 2 MiB and modules up to 4 MiB:
      memory ends at 3 MiB, and the region left over is nearly the whole 64-bit space. */
  lemma ShortRegionWraps()
    ensures Adjust(Region(0x10_0000, 0x20_0000, 1), 0x20_0000, 0x20_0000, 0x40_0000) ==
              Region(0x40_0000, QWORD - 0x10_0000, 1)
  {
    CutDifference(0x10_0000, 0x20_0000);
    LengthLeft(0x20_0000, 0x10_0000, 0x20_0000);
  }

  /** Memory is conserved: the region left over starts behind the kernel and every module, and it
      ends where the first usable region ended exactly if that region spans them or wraps back. */
  lemma RegionConserved(r: Region, modules: seq<Module>, kernelEnd: nat, last: nat)
    requires Consecutive(modules, kernelEnd, last) && kernelEnd % 4096 == 0 && last < WORD
    requires r.addr < QWORD && r.len < QWORD
    ensures var r' := Adjust(r, kernelEnd, TotalSize(modules, |modules|), last);
            && (r'.addr + r'.len == r.addr + r.len <==> Spans(r, kernelEnd, last) || WrapsBack(r, kernelEnd, last))
            && r'.addr == last && r'.addr % 4096 == 0 && kernelEnd <= r'.addr
            && forall i | 0 <= i < |modules| :: modules[i].end <= r'.addr
  {
    TotalIsSpan(modules, kernelEnd, last, |modules|);
    ModuleRanges(modules, kernelEnd, last);
    UpperEndKept(r, kernelEnd, TotalSize(modules, |modules|), last);
  }
}
