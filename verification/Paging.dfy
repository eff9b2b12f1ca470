/**
 Physical memory, the two-level page walk of 32-bit paging, and the arithmetic
 that `bootstrap_mmap` uses to decide how many page tables to create.
 */
module Paging {
  import opened Arith

  const VPAGES: nat := 0x10_0000             // virtual pages of a 32-bit space
  const ADDRESS_LIMIT: nat := 0x1_0000_0000

  /** Rights bits of an entry: present, read/write and user. */
  datatype Access = Access(present: bool, writable: bool, user: bool)

  /** A directory or table entry: bits 12 to 31 and the three rights bits. */
  datatype Pte = Pte(frame: nat, access: Access)

  const NO_ACCESS := Access(false, false, false)
  const NONE := Pte(0, NO_ACCESS)

  /** A frame holds either a page table (or directory) or plain bytes. */
  datatype Page = Table(entries: seq<Pte>) | Data(bytes: seq<nat>)

  /** Physical memory, one element a frame. */
  type Memory = seq<Page>

  // ---- the 32-bit word behind an entry -------------------------------------------

  function AccessBits(a: Access): nat {
    (if a.present then 1 else 0) + (if a.writable then 2 else 0) + (if a.user then 4 else 0)
  }

  /** `(frame & MASK) | flags`. */
  function Encode(e: Pte): nat { e.frame * 4096 + AccessBits(e.access) }

  function Decode(w: nat): Pte { Pte(w / 4096, Access(w % 2 == 1, w / 2 % 2 == 1, w / 4 % 2 == 1)) }

  /** An entry is its word: decoding undoes encoding, and only the empty entry is the zero word. */
  lemma EntryRoundTrip(e: Pte)
    ensures Decode(Encode(e)) == e
    ensures Encode(e) == 0 <==> e == NONE
    ensures Encode(e) / 4096 == e.frame && (Encode(e) % 2 == 1 <==> e.access.present)
    ensures (Encode(e) / 2 % 2 == 1 <==> e.access.writable) && (Encode(e) / 4 % 2 == 1 <==> e.access.user)
    ensures e.frame < 0x10_0000 ==> Encode(e) < ADDRESS_LIMIT
  {
    LowBits(e.frame, AccessBits(e.access));
  }

  lemma LowBits(f: nat, b: nat)
    requires b < 8
    ensures var w := f * 4096 + b;
            w / 4096 == f && w % 2 == b % 2 && w / 2 % 2 == b / 2 % 2 && w / 4 % 2 == b / 4 % 2
  {
    var w := f * 4096 + b;
    DivModUnique(w, 4096, f, b);
    DivModUnique(w, 2, 2048 * f + b / 2, b % 2);
    DivModUnique(w / 2, 2, 1024 * f + b / 4, b / 2 % 2);
    DivModUnique(w, 4, 1024 * f + b / 4, b % 4);
    DivModUnique(w / 4, 2, 512 * f, b / 4);
  }

  /** `arch_get_pt_offset`: the index of `vaddr` at a level of the walk. */
  function PtOffset(vaddr: nat, level: nat): nat {
    if level == 0 then vaddr / 4096 % 1024
    else if level == 1 then vaddr / 0x40_0000
    else 0
  }

  // ---- well-formed directories ---------------------------------------------

  function ZeroTable(): Page { Table(seq(1024, _ => NONE)) }

  predicate IsTable(mem: Memory, f: int) {
    0 <= f < |mem| && mem[f].Table? && |mem[f].entries| == 1024
  }

  predicate IsData(mem: Memory, f: int) {
    0 <= f < |mem| && mem[f].Data? && |mem[f].bytes| == 4096
  }

  function Pde(mem: Memory, pd: nat, slot: int): Pte {
    if IsTable(mem, pd) && 0 <= slot < 1024 then mem[pd].entries[slot] else NONE
  }

  /** A used directory slot names a table other than the directory itself. */
  predicate SlotOk(mem: Memory, pd: nat, slot: int) {
    var e := Pde(mem, pd, slot);
    e != NONE ==>
      e.frame != 0 && e.frame != pd && IsTable(mem, e.frame) && e.access.present && e.access.writable
  }

  predicate UsesTable(mem: Memory, pd: nat, slot: int, f: int) {
    Pde(mem, pd, slot) != NONE && Pde(mem, pd, slot).frame == f
  }

  /** Every used slot is sound and no table serves two slots. */
  ghost predicate Directory(mem: Memory, pd: nat) {
    && IsTable(mem, pd)
    && (forall i | 0 <= i < 1024 :: SlotOk(mem, pd, i))
    && (forall i, j, f | UsesTable(mem, pd, i, f) && UsesTable(mem, pd, j, f) :: i == j)
  }

  /** The flat view: the page-table entry of virtual page `vp`, empty where no table exists. */
  function Entry(mem: Memory, pd: nat, vp: int): Pte {
    var d := Pde(mem, pd, vp / 1024);
    if d == NONE || !IsTable(mem, d.frame) then NONE else mem[d.frame].entries[vp % 1024]
  }

  /** Result of a page walk (Intel SDM Vol. 3A, sections 4.3 and 4.6). */
  datatype Translation = NotPresent | Mapped(frame: nat, writable: bool, user: bool)

  function Walk(mem: Memory, pd: nat, vp: int): Translation {
    var d, e := Pde(mem, pd, vp / 1024), Entry(mem, pd, vp);
    if d.access.present && e.access.present then
      Mapped(e.frame, d.access.writable && e.access.writable, d.access.user && e.access.user)
    else
      NotPresent
  }

  // ---- two updates and their effect on the flat view --------------------------

  function WithEntry(mem: Memory, table: nat, index: nat, e: Pte): Memory
    requires IsTable(mem, table) && index < 1024
  {
    mem[table := Table(mem[table].entries[index := e])]
  }

  /** Writing one table entry changes exactly that page of the flat view. */
  lemma SetEntryFlat(mem: Memory, pd: nat, vp: nat, e: Pte)
    requires Directory(mem, pd) && vp < VPAGES && Pde(mem, pd, vp / 1024) != NONE
    ensures SlotOk(mem, pd, vp / 1024)
    ensures var mem' := WithEntry(mem, Pde(mem, pd, vp / 1024).frame, vp % 1024, e);
            && Directory(mem', pd)
            && (forall i :: Pde(mem', pd, i) == Pde(mem, pd, i))
            && (forall wp | 0 <= wp < VPAGES :: Entry(mem', pd, wp) == if wp == vp then e else Entry(mem, pd, wp))
  {
    assert SlotOk(mem, pd, vp / 1024);
    var t := Pde(mem, pd, vp / 1024).frame;
    var mem' := WithEntry(mem, t, vp % 1024, e);
    assert mem'[pd] == mem[pd];
    assert forall i :: Pde(mem', pd, i) == Pde(mem, pd, i);
    forall i | 0 <= i < 1024 ensures SlotOk(mem', pd, i) {
      assert SlotOk(mem, pd, i);
    }
    forall i, j, f | UsesTable(mem', pd, i, f) && UsesTable(mem', pd, j, f) ensures i == j {
      assert UsesTable(mem, pd, i, f) && UsesTable(mem, pd, j, f);
    }
    forall wp | 0 <= wp < VPAGES
      ensures Entry(mem', pd, wp) == if wp == vp then e else Entry(mem, pd, wp)
    {
      assert SlotOk(mem, pd, wp / 1024);
      assert UsesTable(mem, pd, vp / 1024, t);
      if UsesTable(mem, pd, wp / 1024, t) {
        assert wp / 1024 == vp / 1024;
      }
    }
  }

  function WithTable(mem: Memory, pd: nat, slot: nat, frame: nat, access: Access): Memory
    requires IsTable(mem, pd) && slot < 1024 && frame < |mem|
  {
    WithEntry(mem[frame := ZeroTable()], pd, slot, Pte(frame, access))
  }

  /** Hanging a fresh zeroed table under an empty slot leaves the whole flat view as it was. */
  lemma NewTableFlat(mem: Memory, pd: nat, slot: nat, frame: nat, access: Access)
    requires Directory(mem, pd) && slot < 1024 && Pde(mem, pd, slot) == NONE
    requires 0 < frame < |mem| && frame != pd && access.present && access.writable
    requires forall i :: !UsesTable(mem, pd, i, frame)
    ensures var mem' := WithTable(mem, pd, slot, frame, access);
            && Directory(mem', pd)
            && (forall i :: Pde(mem', pd, i) == if i == slot then Pte(frame, access) else Pde(mem, pd, i))
            && (forall vp | 0 <= vp < VPAGES :: Entry(mem', pd, vp) == Entry(mem, pd, vp))
  {
    var mem' := WithTable(mem, pd, slot, frame, access);
    assert forall i :: Pde(mem', pd, i) == if i == slot then Pte(frame, access) else Pde(mem, pd, i);
    forall i | 0 <= i < 1024 ensures SlotOk(mem', pd, i) {
      assert SlotOk(mem, pd, i) && !UsesTable(mem, pd, i, frame);
    }
    forall i, j, f | UsesTable(mem', pd, i, f) && UsesTable(mem', pd, j, f) ensures i == j {
      assert f != frame ==> UsesTable(mem, pd, i, f) && UsesTable(mem, pd, j, f);
      assert !UsesTable(mem, pd, i, frame) && !UsesTable(mem, pd, j, frame);
    }
    forall vp | 0 <= vp < VPAGES
      ensures Entry(mem', pd, vp) == Entry(mem, pd, vp)
    {
      assert SlotOk(mem, pd, vp / 1024) && !UsesTable(mem, pd, vp / 1024, frame);
    }
  }

  // ---- preallocation arithmetic -------------------------------------------------

  /** Pages visited by the mapping loop: it rounds a partial last page up. */
  function PageCount(size: nat): nat { (size + 4095) / 4096 }

  /** Directory slots that the pages touch, starting at table index `o`. */
  function SlotSpan(o: nat, size: nat): nat {
    if size == 0 then 0 else (o + PageCount(size) - 1) / 1024 + 1
  }

  /** `no_page_tables`: the slots the first loop of `bootstrap_mmap` visits. */
  function TableCount(o: nat, size: nat, absent: bool): nat {
    size / 0x40_0000 + (if o + size / 4096 > 1024 then 1 else 0) + (if absent then 1 else 0)
  }

  predicate Visited(i: nat, count: nat) { i < count }

  /** Every slot the range touches, except a first one that already has its table, is visited. */
  ghost predicate Covers(o: nat, size: nat, absent: bool) {
    forall i | 0 <= i < SlotSpan(o, size) && (i != 0 || absent) :: Visited(i, TableCount(o, size, absent))
  }

  /** When the count is right, told from the arguments alone. */
  predicate Fits(o: nat, size: nat, absent: bool) {
    var f := size / 4096;
    if size % 4096 == 0 then absent || o + f % 1024 <= 1024
    else if absent then !(f < 1024 && o + f == 1024)
    else o + f % 1024 < 1024 && !(o == 0 && f == 1024)
  }

  /** The preallocation is exact up to one slot: it covers if and only if `Fits`, a miss
      is a miss of the last slot alone, and at most two slots too many are visited. */
  lemma PreallocationExact(o: nat, size: nat, absent: bool)
    requires o < 1024
    ensures Covers(o, size, absent) <==> Fits(o, size, absent)
    ensures !Fits(o, size, absent) ==>
              && SlotSpan(o, size) >= 2
              && !Visited(SlotSpan(o, size) - 1, TableCount(o, size, absent))
              && (forall i | 0 <= i < SlotSpan(o, size) - 1 && (i != 0 || absent) ::
                    Visited(i, TableCount(o, size, absent)))
    ensures TableCount(o, size, absent) <= SlotSpan(o, size) + 2
  {
    var f, span, count := size / 4096, SlotSpan(o, size), TableCount(o, size, absent);
    var k, r := f / 1024, f % 1024;
    assert size / 0x40_0000 == k && f == 1024 * k + r;
    if size % 4096 == 0 {
      assert PageCount(size) == f;
      assert size != 0 ==> span == (1024 * k + (o + r - 1)) / 1024 + 1 == k + (o + r - 1) / 1024 + 1;
    } else {
      assert PageCount(size) == f + 1;
      assert span == (1024 * k + (o + r)) / 1024 + 1 == k + (o + r) / 1024 + 1;
    }
    assert Covers(o, size, absent) <==> (span <= count || (span == 1 && !absent)) by {
      if count < span && !(span == 1 && !absent) {
        if count == 0 && !absent {
          assert !Visited(1, count);
        } else {
          assert !Visited(count, count);
        }
      }
    }
  }

  /** A range of two pages that straddles two tables, the first of which exists: one slot is
      counted where two are touched, so the second table is never created. */
  lemma PreallocationMiss()
    ensures SlotSpan(1023, 2 * 4096) == 2
    ensures TableCount(1023, 2 * 4096, false) == 1
    ensures !Covers(1023, 2 * 4096, false)
  {
    PreallocationExact(1023, 2 * 4096, false);
  }
}
