/** The parts of a 32-bit ELF file that `elf_ctx_create` checks and `elf_ctx_load` walks. */
module ElfFormat {
  import opened Arith
  import opened ElfLoad

  datatype ElfError = InvalidHdr | UnsuppClass | UnsuppByteOrder | UnsuppMachine | UnsuppVersion | InvalidType

  /** What the loader takes from the header: entry point and program headers. */
  datatype ElfCtx = ElfCtx(entry: nat, phs: seq<Phdr>)

  datatype CtxResult = Created(ctx: ElfCtx) | Rejected(error: ElfError)

  function ByteAt(img: seq<nat>, o: nat): nat { if o < |img| then img[o] else 0 }
  function U16(img: seq<nat>, o: nat): nat { ByteAt(img, o) + 0x100 * ByteAt(img, o + 1) }
  function U32(img: seq<nat>, o: nat): nat { U16(img, o) + 0x1_0000 * U16(img, o + 2) }

  /** Program header `i`, 32 bytes each from the offset in the header. */
  function PhdrAt(img: seq<nat>, i: nat): Phdr {
    var o := U32(img, 28) + 32 * i;
    Phdr(U32(img, o), U32(img, o + 4), U32(img, o + 8), U32(img, o + 16), U32(img, o + 20), U32(img, o + 24),
          U32(img, o + 28))
  }

  predicate Magic(img: seq<nat>) {
    ByteAt(img, 0) == 0x7F && ByteAt(img, 1) == 0x45 && ByteAt(img, 2) == 0x4C && ByteAt(img, 3) == 0x46
  }

  /** A little-endian 32-bit i386 file of the current version, relocatable or executable. */
  predicate Supported(img: seq<nat>) {
    && Magic(img) && ByteAt(img, 4) == 1 && ByteAt(img, 5) == 1 && U16(img, 18) == 3 && ByteAt(img, 6) == 1
    && U16(img, 16) in {1, 2}
  }

  const CHECKS: nat := 6

  /** The checks in the order of the source, and the error that each gives. */
  predicate Passes(img: seq<nat>, k: nat) {
    if k == 0 then Magic(img)
    else if k == 1 then ByteAt(img, 4) == 1
    else if k == 2 then ByteAt(img, 5) == 1
    else if k == 3 then U16(img, 18) == 3
    else if k == 4 then ByteAt(img, 6) == 1
    else U16(img, 16) in {1, 2}
  }

  function CheckError(k: nat): ElfError {
    if k == 0 then InvalidHdr
    else if k == 1 then UnsuppClass
    else if k == 2 then UnsuppByteOrder
    else if k == 3 then UnsuppMachine
    else if k == 4 then UnsuppVersion
    else InvalidType
  }

  /** Check `k` is the first to fail. */
  predicate FailsAt(img: seq<nat>, k: nat) { !Passes(img, k) && forall j: nat | j < k :: Passes(img, j) }

  /** `elf_ctx_create`: the error is that of the first check to fail; without one, the context
      holds the entry point and the program headers of the file. */
  function ElfCtxCreate(img: seq<nat>): (r: CtxResult)
    ensures r.Created? <==> Supported(img)
    ensures r.Created? <==>
              && ByteAt(img, 0) == 0x7F && ByteAt(img, 1) == 0x45 && ByteAt(img, 2) == 0x4C && ByteAt(img, 3) == 0x46
              && ByteAt(img, 4) == 1 && ByteAt(img, 5) == 1 && ByteAt(img, 6) == 1
              && ByteAt(img, 18) == 3 && ByteAt(img, 19) == 0
              && (ByteAt(img, 16) == 1 || ByteAt(img, 16) == 2) && ByteAt(img, 17) == 0
    ensures forall k: nat | k < CHECKS :: r == Rejected(CheckError(k)) <==> FailsAt(img, k)
    ensures r == Rejected(UnsuppClass) ==> ByteAt(img, 4) != 1
    ensures r == Rejected(UnsuppByteOrder) ==> ByteAt(img, 5) != 1
    ensures r == Rejected(UnsuppMachine) ==> U16(img, 18) != 3
    ensures r == Rejected(UnsuppVersion) ==> ByteAt(img, 6) != 1
    ensures r == Rejected(InvalidType) ==> U16(img, 16) != 1 && U16(img, 16) != 2
    ensures r.Created? ==> r.ctx.entry == U32(img, 24) && |r.ctx.phs| == U16(img, 44)
    ensures r.Created? ==> forall i | 0 <= i < |r.ctx.phs| :: r.ctx.phs[i] == PhdrAt(img, i)
  {
    assert Passes(img, 0) == Magic(img) && Passes(img, 1) == (ByteAt(img, 4) == 1)
           && Passes(img, 2) == (ByteAt(img, 5) == 1);
    assert Passes(img, 3) == (U16(img, 18) == 3) && Passes(img, 4) == (ByteAt(img, 6) == 1);
    assert Passes(img, 5) == (U16(img, 16) in {1, 2});
    if !Magic(img) then Rejected(InvalidHdr)
    else if ByteAt(img, 4) != 1 then Rejected(UnsuppClass)
    else if ByteAt(img, 5) != 1 then Rejected(UnsuppByteOrder)
    else if U16(img, 18) != 3 then Rejected(UnsuppMachine)
    else if ByteAt(img, 6) != 1 then Rejected(UnsuppVersion)
    else if U16(img, 16) != 1 && U16(img, 16) != 2 then Rejected(InvalidType)
    else Created(ElfCtx(U32(img, 24), seq(U16(img, 44), i requires 0 <= i => PhdrAt(img, i))))
  }

  /** The file holds its header and its table of program headers. */
  predicate HoldsHeaders(file: seq<nat>) { |file| >= 52 && U32(file, 28) + 32 * U16(file, 44) <= |file| }

  predicate Extends(img: seq<nat>, file: seq<nat>) {
    |file| <= |img| && forall k | 0 <= k < |file| :: img[k] == file[k]
  }

  lemma SameWords(img: seq<nat>, file: seq<nat>, o: nat)
    requires Extends(img, file)
    ensures o < |file| ==> ByteAt(img, o) == ByteAt(file, o)
    ensures o + 2 <= |file| ==> U16(img, o) == U16(file, o)
    ensures o + 4 <= |file| ==> U32(img, o) == U32(file, o)
  {}

  /** Bytes behind the file, as in the rest of its last page, do not matter. */
  lemma CreateFromPrefix(img: seq<nat>, file: seq<nat>)
    requires Extends(img, file) && HoldsHeaders(file)
    ensures ElfCtxCreate(img) == ElfCtxCreate(file)
  {
    SameHeader(img, file);
    if ElfCtxCreate(file).Created? {
      var a, b := ElfCtxCreate(img).ctx.phs, ElfCtxCreate(file).ctx.phs;
      forall i | 0 <= i < |b| ensures a[i] == b[i] { SamePhdr(img, file, i); }
    }
  }

  lemma SameHeader(img: seq<nat>, file: seq<nat>)
    requires Extends(img, file) && |file| >= 52
    ensures Magic(img) == Magic(file) && ByteAt(img, 4) == ByteAt(file, 4) && ByteAt(img, 5) == ByteAt(file, 5)
    ensures U16(img, 18) == U16(file, 18) && ByteAt(img, 6) == ByteAt(file, 6) && U16(img, 16) == U16(file, 16)
    ensures U32(img, 24) == U32(file, 24) && U32(img, 28) == U32(file, 28) && U16(img, 44) == U16(file, 44)
  {
    SameWords(img, file, 24);
    SameWords(img, file, 28);
  }

  lemma SamePhdr(img: seq<nat>, file: seq<nat>, i: nat)
    requires Extends(img, file) && HoldsHeaders(file) && i < U16(file, 44)
    ensures PhdrAt(img, i) == PhdrAt(file, i)
  {
    SameWords(img, file, 28);
    var o := U32(file, 28) + 32 * i;
    SameWords(img, file, o);
    SameWords(img, file, o + 4);
    SameWords(img, file, o + 8);
    SameWords(img, file, o + 16);
    SameWords(img, file, o + 20);
    SameWords(img, file, o + 24);
    SameWords(img, file, o + 28);
  }

  // ---- files as a linker writes them ---------------------------------------------------------

  /** Byte `j` of a little-endian word. */
  function ByteOf(w: nat, j: nat): nat {
    if j == 0 then w % 0x100 else if j == 1 then w / 0x100 % 0x100 else if j == 2 then w / 0x1_0000 % 0x100
    else w / 0x100_0000 % 0x100
  }

  function Words(ws: seq<nat>): (bytes: seq<nat>)
    ensures |bytes| == 4 * |ws|
  {
    seq(4 * |ws|, k requires 0 <= k < 4 * |ws| => ByteOf(ws[k / 4], k % 4))
  }

  /** The thirteen words of the header: magic, class, byte order and version; type and machine; entry
      point; place and number of the program headers; sizes of header and program header. */
  function HeaderWords(kind: nat, entry: nat, table: nat, n: nat): (ws: seq<nat>)
    ensures |ws| == 13
  {
    [0x464C_457F, 0x1_0101, 0, 0, 0x3_0000 + kind, 1, entry, table, 0, 0, 0x20_0034, n, 0]
  }

  /** The eight words of a program header; the fourth is the physical address. */
  function PhdrWords(ph: Phdr): (ws: seq<nat>)
    ensures |ws| == 8
  {
    [ph.ptype, ph.offset, ph.vaddr, ph.vaddr, ph.filesz, ph.memsz, ph.flags, ph.align]
  }

  function TableWords(phs: seq<Phdr>): (ws: seq<nat>)
    ensures |ws| == 8 * |phs|
  {
    seq(8 * |phs|, k requires 0 <= k < 8 * |phs| => PhdrWords(phs[k / 8])[k % 8])
  }

  predicate Fit32(ws: seq<nat>) { forall k | 0 <= k < |ws| :: ws[k] < 0x1_0000_0000 }

  /** A file with its program headers behind `gap`. */
  function WriteFile(kind: nat, entry: nat, gap: seq<nat>, phs: seq<Phdr>, rest: seq<nat>): seq<nat> {
    Words(HeaderWords(kind, entry, 52 + |gap|, |phs|)) + gap + Words(TableWords(phs)) + rest
  }

  /** The bytes at `o` are those of the words. */
  predicate WordsAt(img: seq<nat>, o: nat, ws: seq<nat>) { o + 4 * |ws| <= |img| && img[o..o + 4 * |ws|] == Words(ws) }

  lemma ByteRead(img: seq<nat>, o: nat, ws: seq<nat>, k: nat, j: nat)
    requires WordsAt(img, o, ws) && k < |ws| && j < 4
    ensures ByteAt(img, o + 4 * k + j) == ByteOf(ws[k], j)
  {
    assert img[o + (4 * k + j)] == img[o..o + 4 * |ws|][4 * k + j];
    assert (4 * k + j) / 4 == k && (4 * k + j) % 4 == j;
  }

  lemma BytesOfWord(w: nat)
    requires w < 0x1_0000_0000
    ensures ByteOf(w, 0) + 0x100 * ByteOf(w, 1) == w % 0x1_0000
    ensures ByteOf(w, 2) + 0x100 * ByteOf(w, 3) == w / 0x1_0000
  {
    var lo, hi := w % 0x1_0000, w / 0x1_0000;
    DivModUnique(w, 0x100, 0x100 * hi + lo / 0x100, lo % 0x100);
    DivModUnique(w / 0x100, 0x100, hi, lo / 0x100);
    DivModUnique(w, 0x100_0000, hi / 0x100, 0x1_0000 * (hi % 0x100) + lo);
  }

  lemma WordRead(img: seq<nat>, o: nat, ws: seq<nat>, k: nat)
    requires WordsAt(img, o, ws) && k < |ws| && ws[k] < 0x1_0000_0000
    ensures U32(img, o + 4 * k) == ws[k] && U16(img, o + 4 * k) == ws[k] % 0x1_0000
    ensures U16(img, o + 4 * k + 2) == ws[k] / 0x1_0000
  {
    ByteRead(img, o, ws, k, 0);
    ByteRead(img, o, ws, k, 1);
    ByteRead(img, o, ws, k, 2);
    ByteRead(img, o, ws, k, 3);
    BytesOfWord(ws[k]);
  }

  lemma HeaderRead(img: seq<nat>, kind: nat, entry: nat, table: nat, n: nat)
    requires WordsAt(img, 0, HeaderWords(kind, entry, table, n)) && kind in {1, 2} && n < 0x1_0000
    requires entry < 0x1_0000_0000 && table < 0x1_0000_0000
    ensures Supported(img) && U32(img, 24) == entry && U32(img, 28) == table && U16(img, 44) == n
  {
    var ws := HeaderWords(kind, entry, table, n);
    MagicRead(img, ws);
    WordRead(img, 0, ws, 4);
    WordRead(img, 0, ws, 6);
    WordRead(img, 0, ws, 7);
    WordRead(img, 0, ws, 11);
  }

  lemma MagicRead(img: seq<nat>, ws: seq<nat>)
    requires WordsAt(img, 0, ws) && |ws| >= 2 && ws[0] == 0x464C_457F && ws[1] == 0x1_0101
    ensures Magic(img) && ByteAt(img, 4) == 1 && ByteAt(img, 5) == 1 && ByteAt(img, 6) == 1
  {
    ByteRead(img, 0, ws, 0, 0);
    ByteRead(img, 0, ws, 0, 1);
    ByteRead(img, 0, ws, 0, 2);
    ByteRead(img, 0, ws, 0, 3);
    ByteRead(img, 0, ws, 1, 0);
    ByteRead(img, 0, ws, 1, 1);
    ByteRead(img, 0, ws, 1, 2);
  }

  /** Field `j` of program header `i`. */
  lemma FieldRead(img: seq<nat>, table: nat, phs: seq<Phdr>, i: nat, j: nat)
    requires WordsAt(img, table, TableWords(phs)) && Fit32(TableWords(phs)) && i < |phs| && j < 8
    ensures U32(img, table + 32 * i + 4 * j) == PhdrWords(phs[i])[j]
  {
    assert (8 * i + j) / 8 == i && (8 * i + j) % 8 == j;
    WordRead(img, table, TableWords(phs), 8 * i + j);
    assert table + 4 * (8 * i + j) == table + 32 * i + 4 * j;
  }

  lemma PhdrRead(img: seq<nat>, table: nat, phs: seq<Phdr>, i: nat)
    requires WordsAt(img, table, TableWords(phs)) && Fit32(TableWords(phs)) && U32(img, 28) == table && i < |phs|
    ensures PhdrAt(img, i) == phs[i]
  {
    FieldRead(img, table, phs, i, 0);
    FieldRead(img, table, phs, i, 1);
    FieldRead(img, table, phs, i, 2);
    FieldRead(img, table, phs, i, 4);
    FieldRead(img, table, phs, i, 5);
    FieldRead(img, table, phs, i, 6);
    FieldRead(img, table, phs, i, 7);
  }

  lemma WordsPlaced(before: seq<nat>, ws: seq<nat>, behind: seq<nat>)
    ensures WordsAt(before + Words(ws) + behind, |before|, ws)
  {}

  lemma WordsFirst(ws: seq<nat>, a: seq<nat>, b: seq<nat>, c: seq<nat>)
    ensures WordsAt(Words(ws) + a + b + c, 0, ws)
  {}

  lemma Written(kind: nat, entry: nat, gap: seq<nat>, phs: seq<Phdr>, rest: seq<nat>)
    ensures var img := WriteFile(kind, entry, gap, phs, rest);
            WordsAt(img, 0, HeaderWords(kind, entry, 52 + |gap|, |phs|)) && WordsAt(img, 52 + |gap|, TableWords(phs))
  {
    var head, table := HeaderWords(kind, entry, 52 + |gap|, |phs|), TableWords(phs);
    WordsFirst(head, gap, Words(table), rest);
    WordsPlaced(Words(head) + gap, table, rest);
  }

  /** What is read is what was written: entry point and program headers, wherever these lie. */
  lemma ReadsBack(kind: nat, entry: nat, gap: seq<nat>, phs: seq<Phdr>, rest: seq<nat>)
    requires kind in {1, 2} && entry < 0x1_0000_0000 && 52 + |gap| < 0x1_0000_0000 && |phs| < 0x1_0000
    requires Fit32(TableWords(phs))
    ensures ElfCtxCreate(WriteFile(kind, entry, gap, phs, rest)) == Created(ElfCtx(entry, phs))
  {
    Written(kind, entry, gap, phs, rest);
    ReadFrom(WriteFile(kind, entry, gap, phs, rest), kind, entry, 52 + |gap|, phs);
  }

  lemma ReadFrom(img: seq<nat>, kind: nat, entry: nat, table: nat, phs: seq<Phdr>)
    requires WordsAt(img, 0, HeaderWords(kind, entry, table, |phs|)) && WordsAt(img, table, TableWords(phs))
    requires kind in {1, 2} && entry < 0x1_0000_0000 && table < 0x1_0000_0000 && |phs| < 0x1_0000
    requires Fit32(TableWords(phs))
    ensures ElfCtxCreate(img) == Created(ElfCtx(entry, phs))
  {
    HeaderRead(img, kind, entry, table, |phs|);
    forall i | 0 <= i < |phs| ensures PhdrAt(img, i) == phs[i] { PhdrRead(img, table, phs, i); }
    assert ElfCtxCreate(img).ctx.phs == phs;
  }
}
