/** The four-level page tables of kernel/src/mm/vmm.c as a finite map from pages to frames.

  Physical memory is a sequence of frames of 512 words.  Any number of roots (PML4s) share
  tables, because mkpml4 copies the entries of a root. */
module VmmSpec {
  import opened Common

  const ENTRIES: nat := 512
  const TWO_TO_THE_52: nat := 0x10_0000_0000_0000
  const LOWER_HALF: nat := 0x8000_0000_0000
  const HIGHER_HALF: nat := 0xFFFF_8000_0000_0000

  type Memory = seq<seq<nat>>

  // ----- addresses and entries ----------------------------------------------------------------

  /** The indices by which a page is looked up. */
  datatype Path = Path(a: nat, b: nat, c: nat, d: nat)

  predicate IsPath(p: Path) {
    p.a < ENTRIES && p.b < ENTRIES && p.c < ENTRIES && p.d < ENTRIES
  }

  function Split(logical: nat): (p: Path)
    ensures IsPath(p)
  {
    Path(logical / 0x80_0000_0000 % ENTRIES, logical / 0x4000_0000 % ENTRIES,
         logical / 0x20_0000 % ENTRIES, logical / 0x1000 % ENTRIES)
  }

  predicate Canonical(logical: nat) {
    logical < LOWER_HALF || HIGHER_HALF <= logical < TWO_TO_THE_64
  }

  /** The canonical page with these indices. */
  function Join(p: Path): nat
    requires IsPath(p)
  {
    (if p.a < 256 then 0 else 0xFFFF_0000_0000_0000) +
    p.a * 0x80_0000_0000 + p.b * 0x4000_0000 + p.c * 0x20_0000 + p.d * 0x1000
  }

  /** Shifting by 21, 30 and 39 bits is shifting by 12 and then by 9, one to three times. */
  lemma Shifts(x: nat)
    ensures x / 0x20_0000 == x / 0x1000 / ENTRIES
    ensures x / 0x4000_0000 == x / 0x20_0000 / ENTRIES
    ensures x / 0x80_0000_0000 == x / 0x4000_0000 / ENTRIES
  {
  }

  /** Bits 63 to 47 of a canonical address are equal, so that 9 bits tell the top. */
  lemma Top(x: nat)
    requires Canonical(x)
    ensures var t := x / 0x80_0000_0000; t < 256 || 0x1FF_FF00 <= t < 0x200_0000
  {
  }

  lemma DigitsEqual(m: nat, n: nat)
    requires m / ENTRIES == n / ENTRIES && m % ENTRIES == n % ENTRIES
    ensures m == n
  {
  }

  /** Different canonical pages have different indices. */
  lemma SplitInjective(x: nat, y: nat)
    requires Canonical(x) && Canonical(y)
    ensures Split(x) == Split(y) <==> x / PAGE_SIZE == y / PAGE_SIZE
  {
    Shifts(x);
    Shifts(y);
    if Split(x) == Split(y) {
      SameTop(x, y);
      DigitsEqual(x / 0x4000_0000, y / 0x4000_0000);
      DigitsEqual(x / 0x20_0000, y / 0x20_0000);
      DigitsEqual(x / 0x1000, y / 0x1000);
    }
  }

  lemma SameTop(x: nat, y: nat)
    requires Canonical(x) && Canonical(y)
    requires x / 0x80_0000_0000 % ENTRIES == y / 0x80_0000_0000 % ENTRIES
    ensures x / 0x80_0000_0000 == y / 0x80_0000_0000
  {
    Top(x);
    Top(y);
  }

  /** The indices are nine bits each, from bit 39, 30, 21 and 12 on: with the offset in the page they
    make up the low 48 bits of the address. */
  lemma SplitPositions(x: nat)
    ensures var p := Split(x);
      p.a * 0x80_0000_0000 + p.b * 0x4000_0000 + p.c * 0x20_0000 + p.d * 0x1000 + x % 0x1000
        == x % 0x1_0000_0000_0000
  {
    Digit(x, 0x1000);
    Digit(x, 0x20_0000);
    Digit(x, 0x4000_0000);
    Digit(x, 0x80_0000_0000);
  }

  /** Nine more bits of a number. */
  lemma Digit(x: nat, unit: nat)
    requires unit == 0x1000 || unit == 0x20_0000 || unit == 0x4000_0000 || unit == 0x80_0000_0000
    ensures x % (unit * ENTRIES) == x / unit % ENTRIES * unit + x % unit
  {
    if unit == 0x1000 {
    } else if unit == 0x20_0000 {
    } else if unit == 0x4000_0000 {
    }
  }

  /** ... and every combination of indices is that of a canonical page. */
  lemma SplitJoin(p: Path)
    requires IsPath(p)
    ensures Canonical(Join(p)) && Join(p) % PAGE_SIZE == 0 && Split(Join(p)) == p
  {
    var top := p.a + if p.a < 256 then 0 else 0x1FF_FE00;
    var n3 := top * ENTRIES + p.b;
    var n2 := n3 * ENTRIES + p.c;
    var n1 := n2 * ENTRIES + p.d;
    assert Join(p) == n1 * 0x1000;
    Shifts(Join(p));
    assert Join(p) / 0x1000 == n1;
    assert n1 / ENTRIES == n2 && n1 % ENTRIES == p.d;
    assert n2 / ENTRIES == n3 && n2 % ENTRIES == p.c;
    assert n3 / ENTRIES == top && n3 % ENTRIES == p.b;
    assert top % ENTRIES == p.a;
  }

  predicate Present(e: nat) { e % 2 == 1 }

  /** The frame in an entry, that is the entry under PAGE_ADDR_MASK. */
  function FrameOf(e: nat): nat { e % TWO_TO_THE_52 / PAGE_SIZE }

  function Flags(e: nat): nat { e % 8 }

  /** The fields of a word: what lies above the address, the frame, the twelve low bits. */
  lemma Fields(above: nat, frame: nat, low: nat)
    requires frame < TWO_TO_THE_52 / PAGE_SIZE && low < PAGE_SIZE
    ensures var e := above * TWO_TO_THE_52 + frame * PAGE_SIZE + low;
      FrameOf(e) == frame && Flags(e) == low % 8 && (Present(e) <==> low % 2 == 1)
  {
    var e, address := above * TWO_TO_THE_52 + frame * PAGE_SIZE + low, frame * PAGE_SIZE + low;
    assert e % TWO_TO_THE_52 == address && address / PAGE_SIZE == frame;
    LowBits(above * 0x2_0000_0000_0000 + frame * 0x200, low);
  }

  lemma LowBits(eights: nat, low: nat)
    ensures (eights * 8 + low) % 8 == low % 8 && (eights * 8 + low) % 2 == low % 2
  {
    Eights(eights, low);
    Parity(eights * 8 + low);
    Parity(low);
  }

  lemma Eights(n: nat, low: nat)
    ensures (n * 8 + low) % 8 == low % 8
  {
  }

  lemma Parity(x: nat)
    ensures x % 2 == x % 8 % 2
  {
  }

  /** An entry built from a frame and flags. */
  lemma EntryParts(frame: nat, flags: nat)
    requires frame < TWO_TO_THE_52 / PAGE_SIZE && flags < 8
    ensures FrameOf(frame * PAGE_SIZE + flags) == frame && Flags(frame * PAGE_SIZE + flags) == flags
    ensures Present(frame * PAGE_SIZE + flags) <==> flags % 2 == 1
  {
    Fields(0, frame, flags);
  }

  /** An entry whose three low bits are replaced. */
  lemma FlagParts(e: nat, flags: nat)
    requires flags < 8
    ensures FrameOf(e - e % 8 + flags) == FrameOf(e) && Flags(e - e % 8 + flags) == flags
    ensures Present(e - e % 8 + flags) <==> flags % 2 == 1
  {
    var above, low := e / TWO_TO_THE_52, e % TWO_TO_THE_52 % PAGE_SIZE;
    assert e == above * TWO_TO_THE_52 + FrameOf(e) * PAGE_SIZE + low;
    Fields(above, FrameOf(e), low);
    Fields(above, FrameOf(e), low - low % 8 + flags);
  }

  // ----- tables -------------------------------------------------------------------------------

  /** For each table, the indices by which it is reached: none for a root, three for a table of
    the last level. */
  type Labels = map<nat, seq<nat>>

  ghost predicate EntryOk(mem: Memory, labels: Labels, t: nat, i: nat)
    requires t < |mem| && i < |mem[t]| && t in labels
  {
    |labels[t]| < 3 && Present(mem[t][i]) ==>
      FrameOf(mem[t][i]) in labels && labels[FrameOf(mem[t][i])] == labels[t] + [i]
  }

  /** Every table is reached under one sequence of indices only, from whatever root. */
  ghost predicate OnePath(mem: Memory, labels: Labels) {
    && (forall t :: t in labels ==> t < |mem| && |mem[t]| == ENTRIES && |labels[t]| <= 3)
    && (forall t, i :: t in labels && 0 <= i < ENTRIES ==> EntryOk(mem, labels, t, i))
  }

  ghost predicate IsRoot(labels: Labels, r: nat) {
    r in labels && labels[r] == []
  }

  /** The table that entry i of table t points to, if it is present. */
  function Step(mem: Memory, t: Option<nat>, i: nat): (r: Option<nat>)
    ensures r.Some? ==> t.Some? && t.value < |mem| && i < |mem[t.value]| && Present(mem[t.value][i])
  {
    if t.Some? && t.value < |mem| && i < |mem[t.value]| && Present(mem[t.value][i])
    then Some(FrameOf(mem[t.value][i])) else None
  }

  /** The last-level table for a page, when the three upper entries are present. */
  function Leaf(mem: Memory, root: nat, p: Path): Option<nat> {
    Step(mem, Step(mem, Step(mem, Some(root), p.a), p.b), p.c)
  }

  lemma StepLabel(mem: Memory, labels: Labels, t: Option<nat>, i: nat, prefix: seq<nat>)
    requires OnePath(mem, labels) && i < ENTRIES && |prefix| < 3
    requires t.Some? ==> t.value in labels && labels[t.value] == prefix
    ensures var r := Step(mem, t, i); r.Some? ==> r.value in labels && labels[r.value] == prefix + [i]
  {
    if t.Some? { assert EntryOk(mem, labels, t.value, i); }
  }

  lemma LeafLabel(mem: Memory, labels: Labels, root: nat, p: Path)
    requires OnePath(mem, labels) && IsRoot(labels, root) && IsPath(p)
    ensures var t := Leaf(mem, root, p);
      t.Some? ==> t.value in labels && labels[t.value] == [p.a, p.b, p.c]
  {
    var t3 := Step(mem, Some(root), p.a);
    var t2 := Step(mem, t3, p.b);
    StepLabel(mem, labels, Some(root), p.a, []);
    StepLabel(mem, labels, t3, p.b, [p.a]);
    StepLabel(mem, labels, t2, p.c, [p.a, p.b]);
    assert [] + [p.a] == [p.a] && [p.a] + [p.b] == [p.a, p.b] && [p.a, p.b] + [p.c] == [p.a, p.b, p.c];
  }

  datatype Mapping = Mapping(frame: nat, flags: nat)

  function Translate(mem: Memory, root: nat, p: Path): Option<Mapping> {
    var t := Leaf(mem, root, p);
    if t.Some? && t.value < |mem| && p.d < |mem[t.value]| && Present(mem[t.value][p.d])
    then Some(Mapping(FrameOf(mem[t.value][p.d]), Flags(mem[t.value][p.d]))) else None
  }

  type Space = imap<Path, Mapping>

  /** The address space of a root: which pages are mapped, to what. */
  ghost function View(mem: Memory, root: nat): Space {
    imap p: Path | IsPath(p) && Translate(mem, root, p).Some? :: Translate(mem, root, p).value
  }

  // ----- the operations -----------------------------------------------------------------------

  function Store(mem: Memory, t: nat, i: nat, e: nat): Memory
    requires t < |mem| && i < |mem[t]|
  {
    var table: seq<nat> := mem[t][i := e];
    mem[t := table]
  }

  /** The last-level entry that vmm_map_page writes; `frame` is what pmm_alloc returns if it is asked. */
  function MapEntry(e: nat, frame: nat, flags: nat): nat {
    if Present(e) then e - e % 8 + flags else frame * PAGE_SIZE + flags
  }

  function UnmapEntry(e: nat): nat { e - e % 8 }

  datatype Op =
    | Map(root: nat, path: Path, flags: nat, frame: nat)
    | Unmap(root: nat, path: Path)

  ghost predicate OpOk(labels: Labels, op: Op) {
    && IsRoot(labels, op.root) && IsPath(op.path)
    && (op.Map? ==> op.flags < 8 && op.frame < TWO_TO_THE_52 / PAGE_SIZE)
  }

  function NewEntry(op: Op, e: nat): nat {
    match op
    case Map(_, _, flags, frame) => MapEntry(e, frame, flags)
    case Unmap(_, _) => UnmapEntry(e)
  }

  /** vmm_map_page and vmm_unmap_page, when the three upper entries are present. */
  function OpStep(mem: Memory, op: Op): Memory {
    var t := Leaf(mem, op.root, op.path);
    if t.Some? && t.value < |mem| && op.path.d < |mem[t.value]|
    then Store(mem, t.value, op.path.d, NewEntry(op, mem[t.value][op.path.d]))
    else mem
  }

  // ----- what an operation does to an address space ---------------------------------------------

  /** On a map from pages to frames and flags: a page that is mapped keeps its frame, one that is
    not gets the frame supplied; and it is mapped afterwards if the flags say present. */
  ghost function Update(view: Space, op: Op): Space {
    match op
    case Map(_, p, flags, frame) =>
      if flags % 2 == 1 then view[p := Mapping(if p in view then view[p].frame else frame, flags)]
      else view - {p}
    case Unmap(_, p) => view - {p}
  }

  lemma StoreLeaf(mem: Memory, labels: Labels, t: nat, i: nat, e: nat, root: nat, p: Path)
    requires OnePath(mem, labels) && t in labels && |labels[t]| == 3 && i < ENTRIES
    requires IsRoot(labels, root) && IsPath(p)
    ensures Leaf(Store(mem, t, i, e), root, p) == Leaf(mem, root, p)
  {
    var t3 := Step(mem, Some(root), p.a);
    var t2 := Step(mem, t3, p.b);
    StepLabel(mem, labels, Some(root), p.a, []);
    StepLabel(mem, labels, t3, p.b, [p.a]);
    assert [] + [p.a] == [p.a] && [p.a] + [p.b] == [p.a, p.b];
  }

  lemma StoreOnePath(mem: Memory, labels: Labels, t: nat, i: nat, e: nat)
    requires OnePath(mem, labels) && t in labels && |labels[t]| == 3 && i < ENTRIES
    ensures OnePath(Store(mem, t, i, e), labels)
  {
    var mem' := Store(mem, t, i, e);
    forall u, j | u in labels && 0 <= j < ENTRIES ensures EntryOk(mem', labels, u, j) {
      assert EntryOk(mem, labels, u, j);
    }
  }

  /** The two roots reach the page through the same last-level table. */
  predicate Shares(mem: Memory, r: nat, op: Op) {
    Leaf(mem, op.root, op.path).Some? && Leaf(mem, r, op.path) == Leaf(mem, op.root, op.path)
  }

  /** One page in one space, before and after. */
  lemma OpTranslates(mem: Memory, labels: Labels, op: Op, r: nat, q: Path)
    requires OnePath(mem, labels) && OpOk(labels, op) && IsRoot(labels, r) && IsPath(q)
    ensures var (x, y) := (Translate(mem, r, q), Translate(OpStep(mem, op), r, q));
      if q == op.path && Shares(mem, r, op) then
        y == if op.Map? && op.flags % 2 == 1
             then Some(Mapping(if x.Some? then x.value.frame else op.frame, op.flags)) else None
      else y == x
  {
    var t := Leaf(mem, op.root, op.path);
    LeafLabel(mem, labels, op.root, op.path);
    LeafLabel(mem, labels, r, q);
    if t.Some? {
      var e := mem[t.value][op.path.d];
      StoreLeaf(mem, labels, t.value, op.path.d, NewEntry(op, e), r, q);
      if q == op.path && Shares(mem, r, op) {
        NewEntryParts(op, e);
      } else if Leaf(mem, r, q) == t {
        assert q.d != op.path.d;
      }
    }
  }

  lemma NewEntryParts(op: Op, e: nat)
    requires op.Map? ==> op.flags < 8 && op.frame < TWO_TO_THE_52 / PAGE_SIZE
    ensures var e' := NewEntry(op, e);
      && (Present(e') <==> op.Map? && op.flags % 2 == 1)
      && (op.Map? ==> Flags(e') == op.flags && FrameOf(e') == if Present(e) then FrameOf(e) else op.frame)
  {
    if op.Map? {
      FlagParts(e, op.flags);
      EntryParts(op.frame, op.flags);
    } else {
      FlagParts(e, 0);
    }
  }

  /** Of an entry in use, only the three low bits are ever written. */
  lemma OtherBitsStay(op: Op, e: nat)
    requires op.Map? ==> op.flags < 8
    ensures op.Unmap? || Present(e) ==> NewEntry(op, e) / 8 == e / 8
  {
  }

  /** Page-table refinement: an operation is an update of the map of every space that shares the
    table, and leaves every other space, and every other page, as it was. */
  lemma OpRefines(mem: Memory, labels: Labels, op: Op, r: nat)
    requires OnePath(mem, labels) && OpOk(labels, op) && IsRoot(labels, r)
    ensures OnePath(OpStep(mem, op), labels)
    ensures View(OpStep(mem, op), r) == if Shares(mem, r, op) then Update(View(mem, r), op) else View(mem, r)
  {
    var v, v' := View(mem, r), View(OpStep(mem, op), r);
    LeafLabel(mem, labels, op.root, op.path);
    var t := Leaf(mem, op.root, op.path);
    if t.Some? { StoreOnePath(mem, labels, t.value, op.path.d, NewEntry(op, mem[t.value][op.path.d])); }
    var w := if Shares(mem, r, op) then Update(v, op) else v;
    forall q: Path ensures Get(v', q) == Get(w, q) {
      OpGets(mem, labels, op, r, q);
      UpdateGets(v, op, q);
    }
    SameSpace(v', w);
  }

  function Get(view: Space, q: Path): Option<Mapping> {
    if q in view then Some(view[q]) else None
  }

  lemma SameSpace(v: Space, w: Space)
    requires forall q :: Get(v, q) == Get(w, q)
    ensures v == w
  {
    forall q: Path ensures (q in v <==> q in w) && (q in v ==> v[q] == w[q]) {
      assert Get(v, q) == Get(w, q);
    }
  }

  lemma UpdateGets(view: Space, op: Op, q: Path)
    ensures Get(Update(view, op), q) ==
      if q != op.path then Get(view, q)
      else if op.Map? && op.flags % 2 == 1
      then Some(Mapping(if Get(view, q).Some? then Get(view, q).value.frame else op.frame, op.flags))
      else None
  {
  }

  lemma OpGets(mem: Memory, labels: Labels, op: Op, r: nat, q: Path)
    requires OnePath(mem, labels) && OpOk(labels, op) && IsRoot(labels, r)
    ensures var (x, y) := (Get(View(mem, r), q), Get(View(OpStep(mem, op), r), q));
      if q == op.path && Shares(mem, r, op) then
        y == if op.Map? && op.flags % 2 == 1
             then Some(Mapping(if x.Some? then x.value.frame else op.frame, op.flags)) else None
      else y == x
  {
    if IsPath(q) {
      OpTranslates(mem, labels, op, r, q);
      GetView(mem, r, q);
      GetView(OpStep(mem, op), r, q);
    }
  }

  lemma GetView(mem: Memory, r: nat, q: Path)
    requires IsPath(q)
    ensures Get(View(mem, r), q) == Translate(mem, r, q)
  {
  }

  // ----- whole runs -----------------------------------------------------------------------------

  function Run(mem: Memory, ops: seq<Op>): Memory
    decreases |ops|
  {
    if ops == [] then mem else Run(OpStep(mem, ops[0]), ops[1..])
  }

  /** The same run on maps.  Which spaces share a table is settled once and for all in the memory
    that the run starts from. */
  ghost function RunView(mem: Memory, r: nat, view: Space, ops: seq<Op>): Space
    decreases |ops|
  {
    if ops == [] then view
    else RunView(mem, r, if Shares(mem, r, ops[0]) then Update(view, ops[0]) else view, ops[1..])
  }

  ghost predicate AllOk(labels: Labels, ops: seq<Op>) {
    forall i :: 0 <= i < |ops| ==> OpOk(labels, ops[i])
  }

  /** No operation changes which table any page is looked up in. */
  lemma OpLeaf(mem: Memory, labels: Labels, op: Op, r: nat, q: Path)
    requires OnePath(mem, labels) && OpOk(labels, op) && IsRoot(labels, r) && IsPath(q)
    ensures Leaf(OpStep(mem, op), r, q) == Leaf(mem, r, q)
  {
    LeafLabel(mem, labels, op.root, op.path);
    var t := Leaf(mem, op.root, op.path);
    if t.Some? { StoreLeaf(mem, labels, t.value, op.path.d, NewEntry(op, mem[t.value][op.path.d]), r, q); }
  }

  lemma {:induction false} SameShares(mem: Memory, mem': Memory, labels: Labels, r: nat, view: Space, ops: seq<Op>)
    requires AllOk(labels, ops) && IsRoot(labels, r)
    requires forall s, q :: IsRoot(labels, s) && IsPath(q) ==> Leaf(mem', s, q) == Leaf(mem, s, q)
    ensures RunView(mem', r, view, ops) == RunView(mem, r, view, ops)
    decreases |ops|
  {
    if ops == [] {
    } else {
      var op := ops[0];
      assert OpOk(labels, op) && Shares(mem', r, op) == Shares(mem, r, op);
      SameShares(mem, mem', labels, r, if Shares(mem, r, op) then Update(view, op) else view, ops[1..]);
    }
  }

  /** Over any run, on any roots, every address space is what the run on maps makes of it, and
    tables stay reached under one path. */
  lemma {:induction false} RunRefines(mem: Memory, labels: Labels, r: nat, ops: seq<Op>)
    requires OnePath(mem, labels) && AllOk(labels, ops) && IsRoot(labels, r)
    ensures OnePath(Run(mem, ops), labels)
    ensures View(Run(mem, ops), r) == RunView(mem, r, View(mem, r), ops)
    decreases |ops|
  {
    if ops == [] {
    } else {
      var mem' := OpStep(mem, ops[0]);
      assert OpOk(labels, ops[0]);
      OpRefines(mem, labels, ops[0], r);
      forall s, q | IsRoot(labels, s) && IsPath(q) ensures Leaf(mem', s, q) == Leaf(mem, s, q) {
        OpLeaf(mem, labels, ops[0], s, q);
      }
      RunRefines(mem', labels, r, ops[1..]);
      SameShares(mem, mem', labels, r, View(mem', r), ops[1..]);
    }
  }

  // ----- copying an address space -----------------------------------------------------------------

  /** The loop of mkpml4, when its writes go to frame `dst`. */
  function CopyRoot(mem: Memory, src: nat, dst: nat): Memory
    requires src < |mem| && dst < |mem|
  {
    mem[dst := mem[src]]
  }

  /** The copy is a new root with the address space of the old one; no other space changes. */
  lemma CopyAgrees(mem: Memory, labels: Labels, src: nat, dst: nat, r: nat)
    requires OnePath(mem, labels) && IsRoot(labels, src) && IsRoot(labels, r)
    requires dst < |mem| && dst !in labels
    ensures var (mem', labels') := (CopyRoot(mem, src, dst), labels[dst := []]);
      && OnePath(mem', labels') && IsRoot(labels', dst) && IsRoot(labels', r)
      && View(mem', dst) == View(mem, src)
      && View(mem', r) == View(mem, r)
  {
    var mem', labels' := CopyRoot(mem, src, dst), labels[dst := []];
    forall t, i | t in labels' && 0 <= i < ENTRIES ensures EntryOk(mem', labels', t, i) {
      assert EntryOk(mem, labels, if t == dst then src else t, i);
    }
    forall q | IsPath(q)
      ensures Translate(mem', dst, q) == Translate(mem, src, q) && Translate(mem', r, q) == Translate(mem, r, q)
    {
      CopyTranslates(mem, labels, src, dst, src, dst, q);
      CopyTranslates(mem, labels, src, dst, r, r, q);
    }
  }

  lemma CopyTranslates(mem: Memory, labels: Labels, src: nat, dst: nat, r: nat, r': nat, q: Path)
    requires OnePath(mem, labels) && IsRoot(labels, src) && IsRoot(labels, r) && IsPath(q)
    requires dst < |mem| && dst !in labels && (r' == r || (r == src && r' == dst))
    ensures Translate(CopyRoot(mem, src, dst), r', q) == Translate(mem, r, q)
  {
    var t3 := Step(mem, Some(r), q.a);
    var t2 := Step(mem, t3, q.b);
    StepLabel(mem, labels, Some(r), q.a, []);
    StepLabel(mem, labels, t3, q.b, [] + [q.a]);
    StepLabel(mem, labels, t2, q.c, [] + [q.a] + [q.b]);
  }

  /** Whatever is mapped and unmapped afterwards, through either root or any other, the two
    spaces stay the same: a slot of a root is never written, and all below it is shared. */
  lemma CopyForever(mem: Memory, labels: Labels, src: nat, dst: nat, ops: seq<Op>)
    requires OnePath(mem, labels) && IsRoot(labels, src) && dst < |mem| && dst !in labels
    requires AllOk(labels[dst := []], ops)
    ensures var mem' := Run(CopyRoot(mem, src, dst), ops); View(mem', dst) == View(mem', src)
  {
    CopyAgrees(mem, labels, src, dst, src);
    RootsStay(CopyRoot(mem, src, dst), labels[dst := []], ops, src);
    RootsStay(CopyRoot(mem, src, dst), labels[dst := []], ops, dst);
    SameRoots(Run(CopyRoot(mem, src, dst), ops), dst, src);
  }

  lemma SameRoots(mem: Memory, r: nat, s: nat)
    requires r < |mem| && s < |mem| && mem[r] == mem[s]
    ensures View(mem, r) == View(mem, s)
  {
    forall q: Path ensures Translate(mem, r, q) == Translate(mem, s, q) {
      assert Step(mem, Some(r), q.a) == Step(mem, Some(s), q.a);
    }
  }

  lemma {:induction false} RootsStay(mem: Memory, labels: Labels, ops: seq<Op>, r: nat)
    requires OnePath(mem, labels) && AllOk(labels, ops) && IsRoot(labels, r)
    ensures |Run(mem, ops)| == |mem| && Run(mem, ops)[r] == mem[r]
    decreases |ops|
  {
    if ops == [] {
    } else {
      assert OpOk(labels, ops[0]);
      LeafLabel(mem, labels, ops[0].root, ops[0].path);
      OpRefines(mem, labels, ops[0], r);
      RootsStay(OpStep(mem, ops[0]), labels, ops[1..], r);
    }
  }
}
