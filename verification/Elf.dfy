/** What an ELF file asks for.  (System V gABI, chapters 4 and 5.) */
module ElfSpec {
  import opened Common
  import opened ByteFields

  type Ram = nat -> byte

  const EHDR_SIZE: nat := 64
  const PHDR_SIZE: nat := 56
  const ET_EXEC: nat := 2
  const ELFCLASS64: nat := 2
  const EM_X86_64: nat := 62
  const EV_CURRENT: nat := 1
  const PT_LOAD: nat := 1

  function Bytes(ram: Ram, a: nat, n: nat): (s: seq<byte>)
    ensures |s| == n
  {
    seq(n, i requires 0 <= i => ram(a + i))
  }

  datatype Ehdr = Ehdr(magic: seq<byte>, class_: nat, type_: nat, machine: nat, version: nat,
                       entry: nat, phoff: nat, phentsize: nat, phnum: nat)

  function ReadEhdr(s: seq<byte>): Ehdr
    requires |s| == EHDR_SIZE
  {
    Ehdr(s[..4], s[4], Le(s[16..18]), Le(s[18..20]), Le(s[20..24]), Le(s[24..32]),
         Le(s[32..40]), Le(s[54..56]), Le(s[56..58]))
  }

  function EhdrAt(ram: Ram, a: nat): Ehdr { ReadEhdr(Bytes(ram, a, EHDR_SIZE)) }

  datatype Phdr = Phdr(type_: nat, offset: nat, paddr: nat, filesz: nat, memsz: nat)

  function ReadPhdr(s: seq<byte>): Phdr
    requires |s| == PHDR_SIZE
  {
    Phdr(Le(s[..4]), Le(s[8..16]), Le(s[24..32]), Le(s[32..40]), Le(s[40..48]))
  }

  /** PHDRS_SIZE. */
  function TableSize(e: Ehdr): nat { e.phnum * e.phentsize }

  predicate Accepted(e: Ehdr) {
    && e.magic == [0x7F, 0x45, 0x4C, 0x46] && e.class_ == ELFCLASS64 && e.type_ == ET_EXEC
    && e.machine == EM_X86_64 && e.version == EV_CURRENT
  }

  // ----- the file format, written ------------------------------------------------------------------

  predicate Fits16(n: nat) { n < 0x1_0000 }

  predicate Fits32(n: nat) { n < TWO_TO_THE_32 }

  predicate Fits64(n: nat) { n < TWO_TO_THE_64 }

  /** A file header, as a linker writes it; `ident` is what follows the class. */
  datatype FileHeader = FileHeader(
    class_: byte, ident: seq<byte>, type_: nat, machine: nat, version: nat, entry: nat, phoff: nat, shoff: nat,
    flags: nat, ehsize: nat, phentsize: nat, phnum: nat, shentsize: nat, shnum: nat, shstrndx: nat)

  predicate FileHeaderOk(h: FileHeader) {
    && |h.ident| == 11 && Fits16(h.type_) && Fits16(h.machine) && Fits32(h.version)
    && Fits64(h.entry) && Fits64(h.phoff) && Fits64(h.shoff) && Fits32(h.flags) && Fits16(h.ehsize)
    && Fits16(h.phentsize) && Fits16(h.phnum) && Fits16(h.shentsize) && Fits16(h.shnum) && Fits16(h.shstrndx)
  }

  function IdentBytes(h: FileHeader): seq<byte> {
    [0x7F, 0x45, 0x4C, 0x46, h.class_] + h.ident
  }

  /** Bytes 16 to 39. */
  function FrontBytes(h: FileHeader): seq<byte> {
    LeBytes(h.type_, 2) + LeBytes(h.machine, 2) + LeBytes(h.version, 4) + LeBytes(h.entry, 8) + LeBytes(h.phoff, 8)
  }

  /** Bytes 40 to 63. */
  function BackBytes(h: FileHeader): seq<byte> {
    LeBytes(h.shoff, 8) + LeBytes(h.flags, 4) + LeBytes(h.ehsize, 2) + LeBytes(h.phentsize, 2) + LeBytes(h.phnum, 2)
    + LeBytes(h.shentsize, 2) + LeBytes(h.shnum, 2) + LeBytes(h.shstrndx, 2)
  }

  function EncodeEhdr(h: FileHeader): (s: seq<byte>)
    requires |h.ident| == 11
    ensures |s| == EHDR_SIZE
  {
    IdentBytes(h) + FrontBytes(h) + BackBytes(h)
  }

  lemma FrontFields(h: FileHeader)
    ensures var s := FrontBytes(h);
      && s[..2] == LeBytes(h.type_, 2) && s[2..4] == LeBytes(h.machine, 2) && s[4..8] == LeBytes(h.version, 4)
      && s[8..16] == LeBytes(h.entry, 8) && s[16..24] == LeBytes(h.phoff, 8)
  {
  }

  lemma BackFields(h: FileHeader)
    ensures var s := BackBytes(h); s[14..16] == LeBytes(h.phentsize, 2) && s[16..18] == LeBytes(h.phnum, 2)
  {
  }

  /** A slice of a sequence in the middle of another. */
  lemma SliceOf(a: seq<byte>, s: seq<byte>, b: seq<byte>, i: nat, j: nat)
    requires i <= j <= |s|
    ensures (a + s + b)[|a| + i..|a| + j] == s[i..j]
  {
  }

  /** Each field is read from where the linker has put it. */
  lemma EhdrRoundTrip(h: FileHeader)
    requires FileHeaderOk(h)
    ensures ReadEhdr(EncodeEhdr(h)) == Ehdr([0x7F, 0x45, 0x4C, 0x46], h.class_, h.type_, h.machine, h.version,
                                            h.entry, h.phoff, h.phentsize, h.phnum)
  {
    var (ident, front, back) := (IdentBytes(h), FrontBytes(h), BackBytes(h));
    FrontFields(h);
    BackFields(h);
    EhdrSlices(ident, front, back);
    FieldSizes();
    LeRoundTrip(h.type_, 2);
    LeRoundTrip(h.machine, 2);
    LeRoundTrip(h.version, 4);
    LeRoundTrip(h.entry, 8);
    LeRoundTrip(h.phoff, 8);
    LeRoundTrip(h.phentsize, 2);
    LeRoundTrip(h.phnum, 2);
  }

  lemma EhdrSlices(ident: seq<byte>, front: seq<byte>, back: seq<byte>)
    requires |ident| == 16 && |front| == 24 && |back| == 24
    ensures var s := ident + front + back;
      && s[..4] == ident[..4] && s[4] == ident[4]
      && s[16..18] == front[..2] && s[18..20] == front[2..4] && s[20..24] == front[4..8]
      && s[24..32] == front[8..16] && s[32..40] == front[16..24]
      && s[54..56] == back[14..16] && s[56..58] == back[16..18]
  {
    SliceOf(ident, front, back, 0, 2);
    SliceOf(ident, front, back, 2, 4);
    SliceOf(ident, front, back, 4, 8);
    SliceOf(ident, front, back, 8, 16);
    SliceOf(ident, front, back, 16, 24);
  }

  /** A program header, as a linker writes it. */
  datatype ProgramHeader = ProgramHeader(
    type_: nat, flags: nat, offset: nat, vaddr: nat, paddr: nat, filesz: nat, memsz: nat, align: nat)

  predicate ProgramHeaderOk(p: ProgramHeader) {
    && Fits32(p.type_) && Fits32(p.flags) && Fits64(p.offset) && Fits64(p.vaddr) && Fits64(p.paddr)
    && Fits64(p.filesz) && Fits64(p.memsz) && Fits64(p.align)
  }

  function EncodePhdr(p: ProgramHeader): (s: seq<byte>)
    ensures |s| == PHDR_SIZE
  {
    LeBytes(p.type_, 4) + LeBytes(p.flags, 4) + LeBytes(p.offset, 8) + LeBytes(p.vaddr, 8) + LeBytes(p.paddr, 8)
    + LeBytes(p.filesz, 8) + LeBytes(p.memsz, 8) + LeBytes(p.align, 8)
  }

  lemma PhdrFields(p: ProgramHeader)
    ensures var s := EncodePhdr(p);
      && s[..4] == LeBytes(p.type_, 4) && s[8..16] == LeBytes(p.offset, 8) && s[24..32] == LeBytes(p.paddr, 8)
      && s[32..40] == LeBytes(p.filesz, 8) && s[40..48] == LeBytes(p.memsz, 8)
  {
  }

  /** A segment goes to its physical address, from its offset in the file. */
  lemma PhdrRoundTrip(p: ProgramHeader)
    requires ProgramHeaderOk(p)
    ensures ReadPhdr(EncodePhdr(p)) == Phdr(p.type_, p.offset, p.paddr, p.filesz, p.memsz)
  {
    PhdrFields(p);
    FieldSizes();
    LeRoundTrip(p.type_, 4);
    LeRoundTrip(p.offset, 8);
    LeRoundTrip(p.paddr, 8);
    LeRoundTrip(p.filesz, 8);
    LeRoundTrip(p.memsz, 8);
  }

  /** Accepted files are those with these bytes: the magic number, 64 bits, an executable, x86-64,
    version 1.  The byte order and the version in the ident bytes do not matter. */
  lemma AcceptedBytes(s: seq<byte>)
    requires |s| == EHDR_SIZE
    ensures Accepted(ReadEhdr(s)) <==>
      && s[0] == 0x7F && s[1] == 0x45 && s[2] == 0x4C && s[3] == 0x46 && s[4] == 2
      && s[16] == 2 && s[17] == 0 && s[18] == 62 && s[19] == 0
      && s[20] == 1 && s[21] == 0 && s[22] == 0 && s[23] == 0
  {
    LeOfTwo(s[16..18]);
    LeOfTwo(s[18..20]);
    LeOfFour(s[20..24]);
    assert s[..4] == [s[0], s[1], s[2], s[3]];
  }

  /** What is asked of a file header: a 64-bit executable for x86-64. */
  predicate Executable(h: FileHeader) {
    h.class_ == ELFCLASS64 && h.type_ == ET_EXEC && h.machine == EM_X86_64 && h.version == EV_CURRENT
  }

  /** The same n bytes at two places. */
  ghost predicate SameAt(r: Ram, a: nat, s: Ram, b: nat, n: nat) {
    forall x: nat :: a <= x < a + n ==> r(x) == s(x - a + b)
  }

  lemma BytesSame(r: Ram, a: nat, s: Ram, b: nat, n: nat)
    requires SameAt(r, a, s, b, n)
    ensures Bytes(r, a, n) == Bytes(s, b, n)
  {
    forall i: nat | i < n ensures Bytes(r, a, n)[i] == Bytes(s, b, n)[i] {
      assert r(a + i) == s(a + i - a + b);
    }
  }

  /** The bytes of one program header. */
  type Row = s: seq<byte> | |s| == PHDR_SIZE witness seq(PHDR_SIZE, _ => 0)

  /** n program headers, each so many bytes after the one before. */
  function Rows(ram: Ram, a: nat, stride: nat, n: nat): (rows: seq<Row>)
    ensures |rows| == n
  {
    seq(n, k requires 0 <= k => Bytes(ram, a + k * stride, PHDR_SIZE))
  }

  function Parse(rows: seq<Row>): (t: seq<Phdr>)
    ensures |t| == |rows|
  {
    seq(|rows|, k requires 0 <= k < |rows| => ReadPhdr(rows[k]))
  }

  /** The program headers of the file at `src`. */
  function Table(ram: Ram, src: nat, e: Ehdr): (t: seq<Phdr>)
    ensures |t| == e.phnum
  {
    Parse(Rows(ram, src + e.phoff, e.phentsize, e.phnum))
  }

  /** A program header table that a linker has written is read as it was meant. */
  lemma TableOfWritten(ram: Ram, src: nat, e: Ehdr, ps: seq<ProgramHeader>, k: nat)
    requires |ps| == e.phnum && k < |ps| && ProgramHeaderOk(ps[k])
    requires Bytes(ram, src + e.phoff + k * e.phentsize, PHDR_SIZE) == EncodePhdr(ps[k])
    ensures Table(ram, src, e)[k] == Phdr(ps[k].type_, ps[k].offset, ps[k].paddr, ps[k].filesz, ps[k].memsz)
  {
    PhdrRoundTrip(ps[k]);
  }

  ghost predicate Parsed(rows: seq<Row>, t: seq<Phdr>) {
    |t| == |rows| && forall k {:trigger rows[k]} :: 0 <= k < |t| ==> t[k] == ReadPhdr(rows[k])
  }

  /** The rows are in memory. */
  ghost predicate RowsAt(ram: Ram, a: nat, stride: nat, rows: seq<Row>) {
    forall k {:trigger rows[k]} :: 0 <= k < |rows| ==> Bytes(ram, a + k * stride, PHDR_SIZE) == rows[k]
  }

  // ----- what loading means -----------------------------------------------------------------------

  /** Address a lies in the file part of one of the first k segments to be loaded. */
  ghost predicate InSegments(t: seq<Phdr>, k: nat, a: nat)
    requires k <= |t|
  {
    exists j :: 0 <= j < k && InSegment(t[j], a)
  }

  predicate InSegment(p: Phdr, a: nat) {
    p.type_ == PT_LOAD && p.paddr <= a < p.paddr + p.filesz
  }

  /** The bytes of the segment are those of the file. */
  ghost predicate Loaded(before: Ram, after: Ram, src: nat, p: Phdr) {
    p.type_ == PT_LOAD ==> SameAt(after, p.paddr, before, src + p.offset, p.filesz)
  }

  /** The page of address a has been passed to vmm_map_page. */
  ghost predicate Seen(mapped: seq<nat>, a: nat) {
    exists i :: i in mapped && i / PAGE_SIZE == a / PAGE_SIZE
  }

  /** Every page of the segment's memory image has been passed to vmm_map_page. */
  ghost predicate Mapped(mapped: seq<nat>, p: Phdr) {
    p.type_ == PT_LOAD ==>
      forall a: nat :: p.paddr <= a < p.paddr + p.memsz ==> Seen(mapped, a)
  }

  /** A segment that the arithmetic of the loader can express, and that takes its bytes from the
    file of `size` bytes. */
  predicate Fits(p: Phdr, size: nat) {
    && p.memsz + PAGE_SIZE - 1 < TWO_TO_THE_31
    && (p.paddr + p.memsz + PAGE_SIZE - 1) * 2 + PAGE_SIZE <= TWO_TO_THE_64
    && p.offset + p.filesz <= size
  }

  /** (int)x. */
  function Int32(x: nat): int {
    (x + TWO_TO_THE_31) % (2 * TWO_TO_THE_31) - TWO_TO_THE_31
  }

  lemma Int32Is(x: nat)
    ensures -0x8000_0000 <= Int32(x) < 0x8000_0000 && (x - Int32(x)) % TWO_TO_THE_32 == 0
  {
  }

  /** Where the page loop ends: `(segment + n_pages) * 2` in 64 bits. */
  function EndOf(p: Phdr): nat {
    (p.paddr + Int32(p.memsz + PAGE_SIZE - 1)) * 2 % TWO_TO_THE_64
  }

  /** The addresses that the page loop goes through. */
  function Steps(i: nat, end: nat): seq<nat>
    decreases end - i
  {
    if i >= end then [] else [i] + Steps(i + PAGE_SIZE, end)
  }

  /** They are a page apart, whatever the alignment of the first one. */
  lemma {:induction false} StepsAre(i: nat, end: nat, j: nat)
    ensures j in Steps(i, end) <==> i <= j < end && j % PAGE_SIZE == i % PAGE_SIZE
    decreases end - i
  {
    if i >= end {
    } else {
      StepsAre(i + PAGE_SIZE, end, j);
      OneStep(i, j);
      assert Steps(i, end) == [i] + Steps(i + PAGE_SIZE, end);
    }
  }

  lemma OneStep(i: nat, j: nat)
    ensures (i + PAGE_SIZE) % PAGE_SIZE == i % PAGE_SIZE
    ensures i <= j < i + PAGE_SIZE && j % PAGE_SIZE == i % PAGE_SIZE ==> j == i
  {
  }

  /** The one address that the loop can reach in the page of a. */
  function StepIn(i: nat, a: nat): nat {
    a / PAGE_SIZE * PAGE_SIZE + i % PAGE_SIZE
  }

  lemma StepInParts(i: nat, a: nat)
    ensures StepIn(i, a) / PAGE_SIZE == a / PAGE_SIZE && StepIn(i, a) % PAGE_SIZE == i % PAGE_SIZE
    ensures i <= a ==> i <= StepIn(i, a)
    ensures forall j: nat :: j / PAGE_SIZE == a / PAGE_SIZE && j % PAGE_SIZE == i % PAGE_SIZE ==> j == StepIn(i, a)
  {
  }

  lemma SeenIff(i: nat, end: nat, a: nat)
    requires i <= a
    ensures Seen(Steps(i, end), a) <==> StepIn(i, a) < end
  {
    StepInParts(i, a);
    StepsAre(i, end, StepIn(i, a));
    if Seen(Steps(i, end), a) {
      var j :| j in Steps(i, end) && j / PAGE_SIZE == a / PAGE_SIZE;
      StepsAre(i, end, j);
    }
  }

  /** The loop covers every page of a segment exactly when it reaches the last one. */
  lemma CoverageExact(p: Phdr)
    requires p.type_ == PT_LOAD && p.memsz > 0
    ensures Mapped(Steps(p.paddr, EndOf(p)), p) <==> StepIn(p.paddr, p.paddr + p.memsz - 1) < EndOf(p)
  {
    var last := p.paddr + p.memsz - 1;
    SeenIff(p.paddr, EndOf(p), last);
    if StepIn(p.paddr, last) < EndOf(p) {
      forall a: nat | p.paddr <= a < p.paddr + p.memsz ensures Seen(Steps(p.paddr, EndOf(p)), a) {
        SeenIff(p.paddr, EndOf(p), a);
        assert a / PAGE_SIZE <= last / PAGE_SIZE;
      }
    }
  }

  lemma EndIs(p: Phdr)
    requires p.memsz + PAGE_SIZE - 1 < TWO_TO_THE_31 && p.paddr + p.memsz + PAGE_SIZE - 1 < TWO_TO_THE_64
    ensures var doubled := (p.paddr + p.memsz + PAGE_SIZE - 1) * 2;
      EndOf(p) == if doubled < TWO_TO_THE_64 then doubled else doubled - TWO_TO_THE_64
  {
    assert Int32(p.memsz + PAGE_SIZE - 1) == p.memsz + PAGE_SIZE - 1;
  }

  /** For lengths of 31 bits, away from the top of the address space: every page is covered exactly
    when doubling the rounded end does not wrap around, and no page at all when it does. */
  lemma DoublingExact(p: Phdr)
    requires p.type_ == PT_LOAD && p.memsz > 0 && p.memsz + PAGE_SIZE - 1 < TWO_TO_THE_31
    requires p.paddr + 2 * (p.memsz + PAGE_SIZE - 1) < TWO_TO_THE_64
    ensures Mapped(Steps(p.paddr, EndOf(p)), p) <==> (p.paddr + p.memsz + PAGE_SIZE - 1) * 2 < TWO_TO_THE_64
    ensures Steps(p.paddr, EndOf(p)) == [] <==> (p.paddr + p.memsz + PAGE_SIZE - 1) * 2 >= TWO_TO_THE_64
  {
    EndIs(p);
    CoverageExact(p);
    StepInParts(p.paddr, p.paddr + p.memsz - 1);
    StepBound(p.paddr, p.paddr + p.memsz - 1);
  }

  lemma StepBound(i: nat, a: nat)
    ensures StepIn(i, a) < a + PAGE_SIZE
  {
  }

  /** So a segment that fits is covered, aligned or not. */
  lemma SegmentCovered(before: seq<nat>, p: Phdr)
    requires Fits(p, p.offset + p.filesz)
    ensures EndOf(p) + PAGE_SIZE <= TWO_TO_THE_64 && Mapped(before + Steps(p.paddr, EndOf(p)), p)
  {
    EndIs(p);
    if p.type_ == PT_LOAD && p.memsz > 0 {
      CoverageExact(p);
      StepBound(p.paddr, p.paddr + p.memsz - 1);
      StaysMapped(before, Steps(p.paddr, EndOf(p)), p);
    }
  }

  lemma StaysMapped(before: seq<nat>, more: seq<nat>, p: Phdr)
    requires Mapped(before, p) || Mapped(more, p)
    ensures Mapped(before + more, p)
  {
    if p.type_ == PT_LOAD {
      forall a: nat | p.paddr <= a < p.paddr + p.memsz ensures Seen(before + more, a) {
        var one := if Mapped(before, p) then before else more;
        assert Seen(one, a);
        var i :| i in one && i / PAGE_SIZE == a / PAGE_SIZE;
        assert i in before + more;
      }
    }
  }

  predicate Apart(a: nat, n: nat, b: nat, m: nat) {
    a + n <= b || b + m <= a
  }

  ghost predicate PairwiseApart(t: seq<Phdr>) {
    forall j, k :: 0 <= j < k < |t| && t[j].type_ == PT_LOAD && t[k].type_ == PT_LOAD ==>
      Apart(t[j].paddr, t[j].filesz, t[k].paddr, t[k].filesz)
  }

  /** No segment to be loaded meets these n bytes. */
  ghost predicate Clear(t: seq<Phdr>, a: nat, n: nat) {
    forall k :: 0 <= k < |t| && t[k].type_ == PT_LOAD ==> Apart(t[k].paddr, t[k].filesz, a, n)
  }

  ghost predicate AllFit(t: seq<Phdr>, size: nat) {
    forall k :: 0 <= k < |t| && t[k].type_ == PT_LOAD ==> Fits(t[k], size)
  }

  /** An image that can be loaded: `buffer` is where the program headers are copied to, `header`
    where the file header is. */
  ghost predicate Loadable(ram: Ram, src: nat, size: nat, header: nat, buffer: nat, e: Ehdr) {
    var t, n := Table(ram, src, e), TableSize(e);
    && e.phentsize >= PHDR_SIZE && n < TWO_TO_THE_31 && e.phoff + n <= size
    && Apart(buffer, n, src, size) && Apart(buffer, n, header, EHDR_SIZE)
    && AllFit(t, size) && PairwiseApart(t)
    && Clear(t, src, size) && Clear(t, buffer, n) && Clear(t, header, EHDR_SIZE)
  }

  /** n bytes copied to a place apart from where they come from. */
  ghost predicate CopiedTo(before: Ram, after: Ram, dst: nat, src: nat, n: nat) {
    && SameAt(after, dst, before, src, n)
    && forall a: nat {:trigger after(a)} :: !(dst <= a < dst + n) ==> after(a) == before(a)
  }

  /** The first k segments have their bytes; `start` is the memory once the program headers have
    been copied. */
  ghost predicate AllLoaded(start: Ram, now: Ram, src: nat, t: seq<Phdr>, k: nat)
    requires k <= |t|
  {
    forall j :: 0 <= j < k ==> Loaded(start, now, src, t[j])
  }

  /** Nothing else has changed. */
  ghost predicate ElsewhereSame(start: Ram, now: Ram, t: seq<Phdr>, k: nat)
    requires k <= |t|
  {
    forall a: nat {:trigger now(a)} :: !InSegments(t, k, a) ==> now(a) == start(a)
  }

  /** A range that no segment meets has not changed. */
  lemma Untouched(start: Ram, now: Ram, t: seq<Phdr>, k: nat, a: nat, n: nat)
    requires k <= |t| && ElsewhereSame(start, now, t, k)
    requires forall j :: 0 <= j < k && t[j].type_ == PT_LOAD ==> Apart(t[j].paddr, t[j].filesz, a, n)
    ensures SameAt(now, a, start, a, n)
  {
    forall x: nat | a <= x < a + n ensures now(x) == start(x - a + a) {
      assert !InSegments(t, k, x);
    }
  }

  /** One more segment. */
  lemma OneMoreLoaded(start: Ram, now: Ram, after: Ram, src: nat, t: seq<Phdr>, k: nat)
    requires k < |t| && AllLoaded(start, now, src, t, k) && t[k].type_ == PT_LOAD
    requires CopiedTo(now, after, t[k].paddr, src + t[k].offset, t[k].filesz)
    requires SameAt(now, src + t[k].offset, start, src + t[k].offset, t[k].filesz)
    requires forall j :: 0 <= j < k && t[j].type_ == PT_LOAD ==>
      Apart(t[j].paddr, t[j].filesz, t[k].paddr, t[k].filesz)
    ensures AllLoaded(start, after, src, t, k + 1)
  {
    JustLoaded(start, now, after, src, t[k]);
    forall j | 0 <= j < k ensures Loaded(start, after, src, t[j]) {
      assert Loaded(start, now, src, t[j]);
      StaysLoaded(start, now, after, src, t[j], t[k]);
    }
  }

  lemma OneMoreElsewhere(start: Ram, now: Ram, after: Ram, src: nat, t: seq<Phdr>, k: nat)
    requires k < |t| && ElsewhereSame(start, now, t, k)
    requires if t[k].type_ == PT_LOAD then CopiedTo(now, after, t[k].paddr, src + t[k].offset, t[k].filesz)
             else after == now
    ensures ElsewhereSame(start, after, t, k + 1)
  {
    forall a: nat | !InSegments(t, k + 1, a) ensures after(a) == start(a) {
      assert !InSegment(t[k], a);
      assert !InSegments(t, k, a);
    }
  }

  lemma JustLoaded(start: Ram, now: Ram, after: Ram, src: nat, p: Phdr)
    requires CopiedTo(now, after, p.paddr, src + p.offset, p.filesz)
    requires SameAt(now, src + p.offset, start, src + p.offset, p.filesz)
    ensures Loaded(start, after, src, p)
  {
    var from := src + p.offset;
    forall x: nat | p.paddr <= x < p.paddr + p.filesz ensures after(x) == start(x - p.paddr + from) {
      assert now(x - p.paddr + from) == start(x - p.paddr + from - from + from);
    }
  }

  lemma StaysLoaded(start: Ram, now: Ram, after: Ram, src: nat, p: Phdr, q: Phdr)
    requires Loaded(start, now, src, p) && CopiedTo(now, after, q.paddr, src + q.offset, q.filesz)
    requires p.type_ == PT_LOAD ==> Apart(p.paddr, p.filesz, q.paddr, q.filesz)
    ensures Loaded(start, after, src, p)
  {
  }
}

/** elf.c itself. */
module Elf {
  import opened Common
  import opened ByteFields
  import opened ElfSpec

  datatype Entry = NoEntry | Entry(address: nat)

  ghost predicate AllMapped(mapped: seq<nat>, t: seq<Phdr>, k: nat)
    requires k <= |t|
  {
    forall j :: 0 <= j < k ==> Mapped(mapped, t[j])
  }

  /** Header k lies within the buffer, and the loop ends after the last one. */
  lemma {:induction false} Stride(k: nat, phnum: nat, phentsize: nat)
    requires k <= phnum && phentsize > 0
    ensures k < phnum ==> k * phentsize + phentsize <= phnum * phentsize
    ensures k * phentsize < phnum * phentsize <==> k < phnum
    decreases phnum - k
  {
    if k < phnum {
      assert (k + 1) * phentsize == k * phentsize + phentsize;
      Stride(k + 1, phnum, phentsize);
    }
  }

  /** A row in the buffer is not touched by the segments. */
  lemma RowStays(start: Ram, now: Ram, rows: seq<Row>, t: seq<Phdr>, k: nat, buffer: nat, stride: nat)
    requires k < |t| == |rows| && stride >= PHDR_SIZE && RowsAt(start, buffer, stride, rows)
    requires ElsewhereSame(start, now, t, k) && Clear(t, buffer, |t| * stride)
    ensures Bytes(now, buffer + k * stride, PHDR_SIZE) == rows[k]
  {
    Stride(k, |t|, stride);
    var a := buffer + k * stride;
    forall j | 0 <= j < k && t[j].type_ == PT_LOAD ensures ElfSpec.Apart(t[j].paddr, t[j].filesz, a, PHDR_SIZE) {
      assert ElfSpec.Apart(t[j].paddr, t[j].filesz, buffer, |t| * stride);
    }
    Untouched(start, now, t, k, a, PHDR_SIZE);
    BytesSame(now, a, start, a, PHDR_SIZE);
  }

  lemma HeaderStays(start: Ram, now: Ram, rows: seq<Row>, t: seq<Phdr>, k: nat, buffer: nat, stride: nat)
    requires k < |t| && Parsed(rows, t) && stride >= PHDR_SIZE && RowsAt(start, buffer, stride, rows)
    requires ElsewhereSame(start, now, t, k) && Clear(t, buffer, |t| * stride)
    ensures ReadPhdr(Bytes(now, buffer + k * stride, PHDR_SIZE)) == t[k]
  {
    RowStays(start, now, rows, t, k, buffer, stride);
    ParsedRow(rows, t, k, Bytes(now, buffer + k * stride, PHDR_SIZE));
  }

  lemma ParsedRow(rows: seq<Row>, t: seq<Phdr>, k: nat, row: Row)
    requires k < |t| && Parsed(rows, t) && row == rows[k]
    ensures ReadPhdr(row) == t[k]
  {
  }

  /** The program headers are in the buffer. */
  lemma RowsThere(first: Ram, start: Ram, buffer: nat, from: nat, stride: nat, n: nat)
    requires stride >= PHDR_SIZE && SameAt(start, buffer, first, from, n * stride)
    ensures RowsAt(start, buffer, stride, Rows(first, from, stride, n))
  {
    var rows := Rows(first, from, stride, n);
    forall k | 0 <= k < n ensures Bytes(start, buffer + k * stride, PHDR_SIZE) == rows[k] {
      Stride(k, n, stride);
      RowThere(first, start, buffer, from, n * stride, k * stride);
      assert rows[k] == Bytes(first, from + k * stride, PHDR_SIZE);
    }
  }

  lemma RowThere(first: Ram, start: Ram, buffer: nat, from: nat, n: nat, d: nat)
    requires SameAt(start, buffer, first, from, n) && d + PHDR_SIZE <= n
    ensures Bytes(start, buffer + d, PHDR_SIZE) == Bytes(first, from + d, PHDR_SIZE)
  {
    forall x: nat | buffer + d <= x < buffer + d + PHDR_SIZE
      ensures start(x) == first(x - (buffer + d) + (from + d))
    {
      assert start(x) == first(x - buffer + from);
    }
    BytesSame(start, buffer + d, first, from + d, PHDR_SIZE);
  }

  lemma RowsSame(r: Ram, s: Ram, a: nat, stride: nat, n: nat, lo: nat, size: nat)
    requires SameAt(r, lo, s, lo, size) && lo <= a && a + n * stride <= lo + size && stride >= PHDR_SIZE
    ensures Rows(r, a, stride, n) == Rows(s, a, stride, n)
  {
    forall k | 0 <= k < n ensures Rows(r, a, stride, n)[k] == Rows(s, a, stride, n)[k] {
      Stride(k, n, stride);
      var b := a + k * stride;
      forall x: nat | b <= x < b + PHDR_SIZE ensures r(x) == s(x - b + b) {
        assert r(x) == s(x - lo + lo);
      }
      BytesSame(r, b, s, b, PHDR_SIZE);
    }
  }

  /** The file is as it was after both headers are copied. */
  lemma FileStays(before: Ram, first: Ram, start: Ram, src: nat, size: nat, header: nat, buffer: nat, from: nat, n: nat)
    requires ElfSpec.Apart(header, EHDR_SIZE, src, size) && ElfSpec.Apart(buffer, n, src, size)
    requires CopiedTo(before, first, header, src, EHDR_SIZE) && CopiedTo(first, start, buffer, from, n)
    ensures SameAt(first, src, before, src, size) && SameAt(start, src, before, src, size)
  {
    forall x: nat | src <= x < src + size ensures first(x) == before(x) && start(x) == before(x) { }
  }

  /** After both headers are copied: the file is as it was, and its program headers are in the buffer. */
  lemma TableThere(before: Ram, first: Ram, start: Ram, src: nat, size: nat, header: nat, buffer: nat, e: Ehdr)
    requires Loadable(before, src, size, header, buffer, e) && ElfSpec.Apart(header, EHDR_SIZE, src, size)
    requires CopiedTo(before, first, header, src, EHDR_SIZE)
    requires CopiedTo(first, start, buffer, src + e.phoff, TableSize(e))
    ensures SameAt(start, src, before, src, size)
    ensures RowsAt(start, buffer, e.phentsize, Rows(before, src + e.phoff, e.phentsize, e.phnum))
  {
    FileStays(before, first, start, src, size, header, buffer, src + e.phoff, TableSize(e));
    RowsThere(first, start, buffer, src + e.phoff, e.phentsize, e.phnum);
    RowsSame(first, before, src + e.phoff, e.phentsize, e.phnum, src, size);
  }

  lemma FromFile(before: Ram, start: Ram, now: Ram, src: nat, size: nat, t: seq<Phdr>)
    requires SameAt(start, src, before, src, size) && AllFit(t, size)
    requires AllLoaded(start, now, src, t, |t|)
    ensures AllLoaded(before, now, src, t, |t|)
  {
    forall j | 0 <= j < |t| ensures Loaded(before, now, src, t[j]) {
      assert Loaded(start, now, src, t[j]);
      if t[j].type_ == PT_LOAD {
        var p, from := t[j], src + t[j].offset;
        assert Fits(p, size);
        forall x: nat | p.paddr <= x < p.paddr + p.filesz ensures now(x) == before(x - p.paddr + from) {
          assert start(x - p.paddr + from) == before(x - p.paddr + from - src + src);
        }
      }
    }
  }

  /** Memory other than the segments and the two header buffers is as it was. */
  ghost predicate OthersSame(before: Ram, after: Ram, t: seq<Phdr>, header: nat, buffer: nat, n: nat) {
    forall a: nat {:trigger after(a)} ::
      InSegments(t, |t|, a) || header <= a < header + EHDR_SIZE || buffer <= a < buffer + n || after(a) == before(a)
  }

  /** What loading promises: the segments hold the file's bytes, their pages are mapped, and the
    rest of memory is as it was. */
  ghost predicate ImageLoaded(before: Ram, after: Ram, mapped: seq<nat>, src: nat, header: nat, buffer: nat, e: Ehdr) {
    var t := Table(before, src, e);
    && AllLoaded(before, after, src, t, |t|) && AllMapped(mapped, t, |t|)
    && OthersSame(before, after, t, header, buffer, TableSize(e))
  }

  lemma Others(before: Ram, first: Ram, start: Ram, after: Ram, t: seq<Phdr>, header: nat, src: nat,
               buffer: nat, from: nat, n: nat)
    requires CopiedTo(before, first, header, src, EHDR_SIZE) && CopiedTo(first, start, buffer, from, n)
    requires ElsewhereSame(start, after, t, |t|)
    ensures OthersSame(before, after, t, header, buffer, n)
  {
  }

  lemma Conclude(before: Ram, first: Ram, start: Ram, after: Ram, mapped: seq<nat>, src: nat, size: nat,
                 header: nat, buffer: nat, e: Ehdr)
    requires SameAt(start, src, before, src, size) && AllFit(Table(before, src, e), size)
    requires CopiedTo(before, first, header, src, EHDR_SIZE)
    requires CopiedTo(first, start, buffer, src + e.phoff, TableSize(e))
    requires AllLoaded(start, after, src, Table(before, src, e), e.phnum)
    requires ElsewhereSame(start, after, Table(before, src, e), e.phnum)
    requires AllMapped(mapped, Table(before, src, e), e.phnum)
    ensures ImageLoaded(before, after, mapped, src, header, buffer, e)
  {
    FromFile(before, start, after, src, size, Table(before, src, e));
    Others(before, first, start, after, Table(before, src, e), header, src, buffer, src + e.phoff, TableSize(e));
  }

  lemma SkipSegment(start: Ram, now: Ram, mapped: seq<nat>, src: nat, t: seq<Phdr>, k: nat)
    requires k < |t| && t[k].type_ != PT_LOAD
    requires AllLoaded(start, now, src, t, k) && ElsewhereSame(start, now, t, k) && AllMapped(mapped, t, k)
    ensures AllLoaded(start, now, src, t, k + 1) && ElsewhereSame(start, now, t, k + 1) && AllMapped(mapped, t, k + 1)
  {
    OneMoreElsewhere(start, now, now, src, t, k);
    forall j | 0 <= j < k + 1 ensures Loaded(start, now, src, t[j]) && Mapped(mapped, t[j]) {
      if j < k { assert Loaded(start, now, src, t[j]) && Mapped(mapped, t[j]); }
    }
  }

  /** A file that starts with a written header. */
  lemma WrittenHeaders(ram: Ram, src: nat)
    ensures forall h :: FileHeaderOk(h) && Bytes(ram, src, EHDR_SIZE) == EncodeEhdr(h) ==>
      (Accepted(EhdrAt(ram, src)) <==> Executable(h)) && EhdrAt(ram, src).entry == h.entry
  {
    forall h | FileHeaderOk(h) && Bytes(ram, src, EHDR_SIZE) == EncodeEhdr(h)
      ensures (Accepted(EhdrAt(ram, src)) <==> Executable(h)) && EhdrAt(ram, src).entry == h.entry
    {
      EhdrRoundTrip(h);
    }
  }

  class Loader {
    var ram: Ram
    var mapped: seq<nat>

    /** `*(uint8_t*)a = b`. */
    method StoreByte(a: nat, b: byte)
      modifies `ram
      ensures ram(a) == b && forall x: nat :: x != a ==> ram(x) == old(ram)(x)
    {
      var before := ram;
      ram := x => if x == a then b else before(x);
    }

    /** The three byte loops of elf_get_entry. */
    method CopyBytes(dst: nat, src: nat, n: nat)
      requires ElfSpec.Apart(dst, n, src, n)
      modifies `ram
      ensures CopiedTo(old(ram), ram, dst, src, n)
    {
      for i := 0 to n
        invariant CopiedTo(old(ram), ram, dst, src, i)
      {
        ghost var before := ram;
        StoreByte(dst + i, ram(src + i));
        assert before(src + i) == old(ram)(src + i);
      }
    }

    /** The page loop.  (With an end in the last page of the address space its counter would wrap
      around, and it would not return.) */
    method MapSegment(p: Phdr)
      requires EndOf(p) + PAGE_SIZE <= TWO_TO_THE_64
      modifies `mapped
      ensures mapped == old(mapped) + Steps(p.paddr, EndOf(p))
    {
      var pages := Int32(p.memsz + PAGE_SIZE - 1);
      var i, end := p.paddr, (p.paddr + pages) * 2 % TWO_TO_THE_64;
      while i < end
        invariant i >= 0 && mapped + Steps(i, end) == old(mapped) + Steps(p.paddr, end)
        decreases end - i
      {
        assert mapped + Steps(i, end) == mapped + [i] + Steps(i + PAGE_SIZE, end);
        mapped := mapped + [i];
        i := i + PAGE_SIZE;
      }
      assert mapped + [] == mapped;
    }

    /** `*phdr`. */
    method ReadHeader(phdr: nat, ghost start: Ram, ghost rows: seq<Row>, ghost t: seq<Phdr>, ghost k: nat,
                      ghost buffer: nat, ghost stride: nat) returns (p: Phdr)
      requires k < |t| && Parsed(rows, t) && stride >= PHDR_SIZE && RowsAt(start, buffer, stride, rows)
      requires ElsewhereSame(start, ram, t, k) && Clear(t, buffer, |t| * stride) && phdr == buffer + k * stride
      ensures p == t[k]
    {
      HeaderStays(start, ram, rows, t, k, buffer, stride);
      p := ReadPhdr(Bytes(ram, phdr, PHDR_SIZE));
    }

    /** The stride loop of elf_get_entry, over program headers that lie in the buffer. */
    method LoadSegments(src: nat, ghost size: nat, buffer: nat, phentsize: nat, phnum: nat,
                        ghost rows: seq<Row>, ghost t: seq<Phdr>)
      requires |t| == phnum && Parsed(rows, t) && phentsize >= PHDR_SIZE && RowsAt(ram, buffer, phentsize, rows)
      requires AllFit(t, size) && PairwiseApart(t) && Clear(t, src, size) && Clear(t, buffer, phnum * phentsize)
      modifies this
      ensures AllLoaded(old(ram), ram, src, t, |t|) && ElsewhereSame(old(ram), ram, t, |t|)
      ensures AllMapped(mapped, t, |t|)
    {
      var phdr := buffer;
      ghost var start, k := ram, 0;
      while phdr < buffer + phnum * phentsize
        invariant 0 <= k <= phnum && phdr == buffer + k * phentsize
        invariant AllLoaded(start, ram, src, t, k) && ElsewhereSame(start, ram, t, k)
        invariant AllMapped(mapped, t, k)
        decreases phnum - k
      {
        Stride(k, phnum, phentsize);
        var p := ReadHeader(phdr, start, rows, t, k, buffer, phentsize);
        if p.type_ == PT_LOAD {
          LoadSegment(src, size, p, start, t, k);
        } else {
          SkipSegment(start, ram, mapped, src, t, k);
        }
        phdr := phdr + phentsize;
        k := k + 1;
        assert k * phentsize == (k - 1) * phentsize + phentsize;
      }
      Stride(k, phnum, phentsize);
    }

    /** The body of that loop for a segment to be loaded. */
    method LoadSegment(src: nat, ghost size: nat, p: Phdr, ghost start: Ram, ghost t: seq<Phdr>, ghost k: nat)
      requires k < |t| && p == t[k] && p.type_ == PT_LOAD
      requires AllFit(t, size) && PairwiseApart(t) && Clear(t, src, size)
      requires AllLoaded(start, ram, src, t, k) && ElsewhereSame(start, ram, t, k) && AllMapped(mapped, t, k)
      modifies this
      ensures AllLoaded(start, ram, src, t, k + 1) && ElsewhereSame(start, ram, t, k + 1)
      ensures AllMapped(mapped, t, k + 1)
    {
      ghost var now, seen := ram, mapped;
      assert Fits(p, size) && Fits(p, p.offset + p.filesz) && Apart(p.paddr, p.filesz, src, size);
      SegmentCovered(mapped, p);
      MapSegment(p);
      forall j | 0 <= j < k + 1 ensures Mapped(mapped, t[j]) {
        if j < k { StaysMapped(seen, Steps(p.paddr, EndOf(p)), t[j]); }
      }
      Untouched(start, now, t, k, src + p.offset, p.filesz);
      CopyBytes(p.paddr, src + p.offset, p.filesz);
      OneMoreLoaded(start, now, ram, src, t, k);
      OneMoreElsewhere(start, now, ram, src, t, k);
    }

    /** elf_get_entry from the program headers on; `before` is memory before the file header was
      copied. */
    method LoadTable(src: nat, ghost size: nat, ghost header: nat, buffer: nat, e: Ehdr, ghost before: Ram)
      requires ElfSpec.Apart(header, EHDR_SIZE, src, size) && CopiedTo(before, ram, header, src, EHDR_SIZE)
      requires Loadable(before, src, size, header, buffer, e)
      modifies this
      ensures ImageLoaded(before, ram, mapped, src, header, buffer, e)
    {
      ghost var first := ram;
      ghost var rows := Rows(before, src + e.phoff, e.phentsize, e.phnum);
      ghost var t := Parse(rows);
      CopyBytes(buffer, src + e.phoff, e.phnum * e.phentsize);
      ghost var start := ram;
      TableThere(before, first, start, src, size, header, buffer, e);
      LoadSegments(src, size, buffer, e.phentsize, e.phnum, rows, t);
      Conclude(before, first, start, ram, mapped, src, size, header, buffer, e);
    }

    /** elf_get_entry, for the file that initrd_open has put at `src` (0 if there is none);
      `header` is the local variable and `buffer` what kmalloc returns. */
    method GetEntry(src: nat, ghost size: nat, header: nat, buffer: nat) returns (r: Entry)
      requires src != 0 ==> ElfSpec.Apart(header, EHDR_SIZE, src, size) && EHDR_SIZE <= size
      requires src != 0 && Accepted(EhdrAt(ram, src)) ==> Loadable(ram, src, size, header, buffer, EhdrAt(ram, src))
      modifies this
      ensures r == if src != 0 && Accepted(EhdrAt(old(ram), src)) then Entry(EhdrAt(old(ram), src).entry) else NoEntry
      ensures forall h :: src != 0 && FileHeaderOk(h) && Bytes(old(ram), src, EHDR_SIZE) == EncodeEhdr(h) ==>
        r == if Executable(h) then Entry(h.entry) else NoEntry
      ensures r.Entry? ==> ImageLoaded(old(ram), ram, mapped, src, header, buffer, EhdrAt(old(ram), src))
    {
      WrittenHeaders(ram, src);
      if src == 0 {
        return NoEntry;
      }
      CopyBytes(header, src, EHDR_SIZE);
      BytesSame(ram, header, old(ram), src, EHDR_SIZE);
      var e := EhdrAt(ram, header);
      if !Accepted(e) {
        return NoEntry;
      }
      LoadTable(src, size, header, buffer, e, old(ram));
      r := Entry(e.entry);
    }
  }
}
