/** Page tables together with the frame allocator that feeds them. */
module VmmFrames {
  import opened Common
  import opened PmmSpec
  import opened VmmSpec

  ghost predicate IsFree(pmm: Pmm, frame: nat) {
    frame < |pmm.free| && pmm.free[frame]
  }

  ghost predicate IsSlot(mem: Memory, labels: Labels, t: nat, i: nat) {
    t in labels && |labels[t]| == 3 && t < |mem| && i < |mem[t]| && Present(mem[t][i])
  }

  /** No table and no mapped frame is free, no mapped frame is a table, and no two last-level
    entries map the same frame. */
  ghost predicate Apart(mem: Memory, labels: Labels, pmm: Pmm) {
    && (forall t :: t in labels ==> !IsFree(pmm, t))
    && (forall t: nat, i: nat :: IsSlot(mem, labels, t, i) ==>
          !IsFree(pmm, FrameOf(mem[t][i])) && FrameOf(mem[t][i]) !in labels)
    && (forall t: nat, i: nat, u: nat, j: nat ::
          IsSlot(mem, labels, t, i) && IsSlot(mem, labels, u, j) && FrameOf(mem[t][i]) == FrameOf(mem[u][j])
          ==> t == u && i == j)
  }

  /** The frame that pmm_alloc would hand out. */
  function NextFrame(pmm: Pmm): nat
    requires Ok(pmm)
  {
    AllocStep(pmm).1 / PAGE_SIZE
  }

  /** The frame that a page without one gets was free: it aliases no table and no mapped page. */
  lemma FreshFrame(mem: Memory, labels: Labels, pmm: Pmm)
    requires Apart(mem, labels, pmm) && Ok(pmm) && !AllocStep(pmm).0.stuck
    ensures var n := NextFrame(pmm);
      && IsFree(pmm, n) && !IsFree(AllocStep(pmm).0, n) && n !in labels
      && (forall t: nat, i: nat :: IsSlot(mem, labels, t, i) ==> FrameOf(mem[t][i]) != n)
      && (forall m :: m != n ==> (IsFree(AllocStep(pmm).0, m) <==> IsFree(pmm, m)))
  {
    BaseFrame(Lowest(pmm.free, pmm.hint));
  }

  /** A request to the page tables; the allocator supplies the frame. */
  datatype Request = WantMap(root: nat, path: Path, flags: nat) | WantUnmap(root: nat, path: Path)

  datatype State = State(mem: Memory, pmm: Pmm)

  predicate NeedsFrame(mem: Memory, root: nat, path: Path) {
    Leaf(mem, root, path).Some? && Translate(mem, root, path).None?
  }

  function OpFor(s: State, q: Request): Op
    requires Ok(s.pmm)
  {
    match q
    case WantMap(root, path, flags) => Map(root, path, flags, NextFrame(s.pmm))
    case WantUnmap(root, path) => Unmap(root, path)
  }

  /** A request served.  (One that needs a frame after they have run out waits forever.) */
  function Serve(s: State, q: Request): (r: State)
    requires Ok(s.pmm)
    ensures Ok(r.pmm)
  {
    if q.WantMap? && NeedsFrame(s.mem, q.root, q.path) then
      if s.pmm.stuck then s else State(OpStep(s.mem, OpFor(s, q)), AllocStep(s.pmm).0)
    else
      State(OpStep(s.mem, OpFor(s, q)), s.pmm)
  }

  ghost predicate RequestOk(labels: Labels, q: Request) {
    IsRoot(labels, q.root) && IsPath(q.path) && (q.WantMap? ==> q.flags < 8)
  }

  ghost predicate Sound(s: State, labels: Labels) {
    && Ok(s.pmm) && |s.pmm.free| < TWO_TO_THE_32 && OnePath(s.mem, labels)
    && (s.pmm.stuck || Apart(s.mem, labels, s.pmm))
  }

  /** A last-level entry that holds something else than before, holds the frame that was there or
    a fresh one. */
  lemma StoreApart(mem: Memory, labels: Labels, pmm: Pmm, pmm': Pmm, t: nat, i: nat, e: nat)
    requires OnePath(mem, labels) && Apart(mem, labels, pmm)
    requires t in labels && |labels[t]| == 3 && i < ENTRIES
    requires forall n :: IsFree(pmm', n) ==> IsFree(pmm, n)
    requires Present(e) ==>
      (Present(mem[t][i]) && FrameOf(e) == FrameOf(mem[t][i])) ||
      (IsFree(pmm, FrameOf(e)) && !IsFree(pmm', FrameOf(e)))
    ensures Apart(Store(mem, t, i, e), labels, pmm')
  {
    var mem' := Store(mem, t, i, e);
    forall u: nat, j: nat | IsSlot(mem', labels, u, j)
      ensures !IsFree(pmm', FrameOf(mem'[u][j])) && FrameOf(mem'[u][j]) !in labels
    {
      assert (u == t && j == i) || IsSlot(mem, labels, u, j);
      assert u == t && j == i ==> Present(mem[t][i]) ==> IsSlot(mem, labels, t, i);
    }
    forall u: nat, j: nat, v: nat, k: nat | IsSlot(mem', labels, u, j) && IsSlot(mem', labels, v, k)
                          && FrameOf(mem'[u][j]) == FrameOf(mem'[v][k])
      ensures u == v && j == k
    {
      assert (u == t && j == i) || IsSlot(mem, labels, u, j);
      assert (v == t && k == i) || IsSlot(mem, labels, v, k);
      assert Present(mem[t][i]) ==> IsSlot(mem, labels, t, i);
    }
  }

  /** What an operation does, word by word. */
  lemma OpParts(mem: Memory, labels: Labels, op: Op, t: nat)
    requires OnePath(mem, labels) && OpOk(labels, op) && Leaf(mem, op.root, op.path) == Some(t)
    ensures t in labels && |labels[t]| == 3 && OnePath(OpStep(mem, op), labels)
    ensures OpStep(mem, op) == Store(mem, t, op.path.d, NewEntry(op, mem[t][op.path.d]))
  {
    LeafLabel(mem, labels, op.root, op.path);
    StoreOnePath(mem, labels, t, op.path.d, NewEntry(op, mem[t][op.path.d]));
  }

  /** ... and a request. */
  lemma ServeParts(s: State, labels: Labels, q: Request, t: nat)
    requires Ok(s.pmm) && OnePath(s.mem, labels) && RequestOk(labels, q) && |s.pmm.free| < TWO_TO_THE_32
    requires Leaf(s.mem, q.root, q.path) == Some(t) && !s.pmm.stuck
    ensures OpOk(labels, OpFor(s, q)) && t in labels && |labels[t]| == 3
    ensures OnePath(Serve(s, q).mem, labels)
    ensures var e := s.mem[t][q.path.d];
      Serve(s, q) == State(Store(s.mem, t, q.path.d, NewEntry(OpFor(s, q), e)),
                           if q.WantMap? && !Present(e) then AllocStep(s.pmm).0 else s.pmm)
  {
    BaseFrame(Lowest(s.pmm.free, s.pmm.hint));
    OpParts(s.mem, labels, OpFor(s, q), t);
  }

  lemma ServeSound(s: State, labels: Labels, q: Request)
    requires Sound(s, labels) && RequestOk(labels, q)
    ensures Sound(Serve(s, q), labels)
  {
    var t := Leaf(s.mem, q.root, q.path);
    if s.pmm.stuck {
      BaseFrame(Lowest(s.pmm.free, s.pmm.hint));
      OpRefines(s.mem, labels, OpFor(s, q), q.root);
    } else if t.Some? {
      ServeParts(s, labels, q, t.value);
      if !Serve(s, q).pmm.stuck { LeafApart(s, labels, q, t.value); }
    }
  }

  lemma LeafApart(s: State, labels: Labels, q: Request, t: nat)
    requires Sound(s, labels) && !s.pmm.stuck && RequestOk(labels, q) && !Serve(s, q).pmm.stuck
    requires Leaf(s.mem, q.root, q.path) == Some(t)
    ensures Apart(Serve(s, q).mem, labels, Serve(s, q).pmm)
  {
    ServeParts(s, labels, q, t);
    var op, e := OpFor(s, q), s.mem[t][q.path.d];
    NewEntryParts(op, e);
    if q.WantMap? && !Present(e) { FreshFrame(s.mem, labels, s.pmm); }
    StoreApart(s.mem, labels, s.pmm, Serve(s, q).pmm, t, q.path.d, NewEntry(op, e));
  }

  function ServeAll(s: State, qs: seq<Request>): (r: State)
    requires Ok(s.pmm)
    ensures Ok(r.pmm)
    decreases |qs|
  {
    if qs == [] then s else ServeAll(Serve(s, qs[0]), qs[1..])
  }

  /** Over any run, until the frames run out: tables, mapped frames and free frames stay apart,
    and no two pages share a frame unless they share the table. */
  lemma {:induction false} RunSound(s: State, labels: Labels, qs: seq<Request>)
    requires Sound(s, labels)
    requires forall i :: 0 <= i < |qs| ==> RequestOk(labels, qs[i])
    ensures Sound(ServeAll(s, qs), labels)
    decreases |qs|
  {
    if qs == [] {
    } else {
      assert RequestOk(labels, qs[0]);
      ServeSound(s, labels, qs[0]);
      RunSound(Serve(s, qs[0]), labels, qs[1..]);
    }
  }

  /** Two pages of a space never show the same frame. */
  lemma PagesApart(s: State, labels: Labels, r: nat, p: Path, q: Path)
    requires Sound(s, labels) && !s.pmm.stuck && IsRoot(labels, r)
    requires p in View(s.mem, r) && q in View(s.mem, r) && p != q
    ensures View(s.mem, r)[p].frame != View(s.mem, r)[q].frame
  {
    LeafLabel(s.mem, labels, r, p);
    LeafLabel(s.mem, labels, r, q);
    var t, u := Leaf(s.mem, r, p).value, Leaf(s.mem, r, q).value;
    assert IsSlot(s.mem, labels, t, p.d) && IsSlot(s.mem, labels, u, q.d);
  }
}

/** vmm.c itself: words of physical memory written in place. */
module PageTables {
  import opened Common
  import opened PmmSpec
  import opened PmmManager
  import opened VmmSpec
  import opened VmmFrames

  /** `Waits`: the call waits for a lock that it holds itself. */
  datatype MapResult = Done | Waits

  datatype PageResult = Page(frame: nat) | OutOfFrames | PageWaits

  /** What a program sees: word i of frame n. */
  ghost predicate Shows(memory: array2<nat>, mem: Memory)
    reads memory
  {
    && memory.Length0 == |mem| && memory.Length1 == ENTRIES
    && (forall n :: 0 <= n < |mem| ==> |mem[n]| == ENTRIES)
    && (forall n, i :: 0 <= n < |mem| && 0 <= i < ENTRIES ==> memory[n, i] == mem[n][i])
  }

  lemma AlignedSplit(logical: nat)
    ensures Split(logical - logical % PAGE_SIZE) == Split(logical)
  {
    Shifts(logical);
    Shifts(logical - logical % PAGE_SIZE);
    assert (logical - logical % PAGE_SIZE) / 0x1000 == logical / 0x1000;
  }

  /** What mapping a page has done to it: it has these flags, if they say present, and the frame that
    it had, or else the one that the allocator hands out. */
  ghost predicate MappedAs(before: Option<Mapping>, after: Option<Mapping>, flags: nat, pmm: Pmm)
    requires Ok(pmm)
  {
    if flags % 2 == 0 then after.None?
    else
      && after.Some? && after.value.flags == flags
      && after.value.frame * PAGE_SIZE == if before.Some? then before.value.frame * PAGE_SIZE else AllocStep(pmm).1
  }

  lemma MapTranslates(s: State, labels: Labels, root: nat, p: Path, flags: nat)
    requires Ok(s.pmm) && |s.pmm.free| < TWO_TO_THE_32 && OnePath(s.mem, labels) && !s.pmm.stuck
    requires IsRoot(labels, root) && IsPath(p) && flags < 8 && Leaf(s.mem, root, p).Some?
    ensures var s' := Serve(s, WantMap(root, p, flags));
      MappedAs(Translate(s.mem, root, p), Translate(s'.mem, root, p), flags, s.pmm)
  {
    var q := WantMap(root, p, flags);
    ServeParts(s, labels, q, Leaf(s.mem, root, p).value);
    OpTranslates(s.mem, labels, OpFor(s, q), root, p);
    BaseFrame(Lowest(s.pmm.free, s.pmm.hint));
  }

  class AddressSpaces {
    var memory: array2<nat>
    var pmm: Allocator
    var cr3: nat                        // the frame of the current root
    var mapLock: bool

    ghost var model: Memory
    ghost var labels: Labels

    ghost predicate Valid()
      reads this, memory, pmm, pmm.bitmap
    {
      && Shows(memory, model) && OnePath(model, labels) && IsRoot(labels, cr3)
      && pmm.Valid() && |pmm.model.free| <= |model| && !mapLock
    }

    constructor (memory: array2<nat>, pmm: Allocator, cr3: nat, ghost mem: Memory, ghost labels: Labels)
      requires Shows(memory, mem) && OnePath(mem, labels) && IsRoot(labels, cr3)
      requires pmm.Valid() && |pmm.model.free| <= |mem|
      ensures Valid() && model == mem && this.labels == labels && this.pmm == pmm && this.cr3 == cr3
    {
      this.memory, this.pmm, this.cr3, mapLock, model, this.labels := memory, pmm, cr3, false, mem, labels;
    }

    /** memzero of a whole frame. */
    method ZeroFrame(n: nat)
      requires n < memory.Length0 && memory.Length1 == ENTRIES
      modifies memory
      ensures forall i :: 0 <= i < ENTRIES ==> memory[n, i] == 0
    {
      for i := 0 to ENTRIES
        invariant forall j :: 0 <= j < i ==> memory[n, j] == 0
      {
        memory[n, i] := 0;
      }
    }

    /** What vmm_map_page does for a missing upper table: a zeroed frame is entered, and then the
      function calls itself with its lock taken. */
    method AddTable(t: nat, i: nat, flags: nat)
      requires pmm.Valid() && !pmm.locked && |pmm.model.free| <= memory.Length0
      requires t < memory.Length0 && i < memory.Length1 == ENTRIES
      modifies memory, pmm, pmm.bitmap
    {
      var base := pmm.Alloc();
      ZeroFrame(base / PAGE_SIZE);
      memory[t, i] := FrameOf(base) * PAGE_SIZE + flags;
    }

    /** vmm_map_page.  It returns exactly when the three upper entries are present. */
    method MapPage(root: nat, logical: nat, flags: nat) returns (r: MapResult)
      requires Valid() && IsRoot(labels, root) && flags < 8 && !pmm.locked
      modifies `mapLock, `model, memory, pmm, pmm.bitmap
      ensures r.Done? <==> Leaf(old(model), root, Split(logical)).Some?
      ensures r.Waits? ==> mapLock
      ensures r.Done? ==>
        && Valid() && labels == old(labels) && cr3 == old(cr3) && memory == old(memory)
        && pmm == old(pmm) && pmm.bitmap == old(pmm.bitmap)
        && State(model, pmm.model) == Serve(old(State(model, pmm.model)), WantMap(root, Split(logical), flags))
      ensures r.Done? ==> MappedAs(old(Translate(model, root, Split(logical))), Translate(model, root, Split(logical)),
                                   flags, old(pmm.model))
    {
      if Leaf(model, root, Split(logical)).Some? {
        MapTranslates(State(model, pmm.model), labels, root, Split(logical), flags);
      }
      mapLock := true;
      var p := Split(logical);
      Upper(model, labels, root, p);
      if !Present(memory[root, p.a]) {
        AddTable(root, p.a, flags);
        return Waits;
      }
      var pdpt := FrameOf(memory[root, p.a]);
      if !Present(memory[pdpt, p.b]) {
        AddTable(pdpt, p.b, flags);
        return Waits;
      }
      var pdt := FrameOf(memory[pdpt, p.b]);
      if !Present(memory[pdt, p.c]) {
        AddTable(pdt, p.c, flags);
        return Waits;
      }
      var table := FrameOf(memory[pdt, p.c]);
      SetLeaf(root, p, table, flags);
      mapLock := false;
      r := Done;
    }

    /** Word i of frame t is overwritten. */
    method StoreWord(t: nat, i: nat, e: nat)
      requires Shows(memory, model) && t < |model| && i < ENTRIES
      modifies `model, memory
      ensures Shows(memory, model) && model == Store(old(model), t, i, e)
    {
      memory[t, i] := e;
      model := Store(model, t, i, e);
    }

    /** The entry that vmm_map_page writes at the last level. */
    method LeafEntry(entry: nat, flags: nat) returns (e: nat)
      requires pmm.Valid() && flags < 8 && !pmm.locked
      modifies pmm, pmm.bitmap
      ensures pmm.Valid() && pmm.bitmap == old(pmm.bitmap)
      ensures e == MapEntry(entry, NextFrame(old(pmm.model)), flags)
      ensures pmm.model == if Present(entry) then old(pmm.model) else AllocStep(old(pmm.model)).0
    {
      if !Present(entry) {
        BaseFrame(Lowest(pmm.model.free, pmm.model.hint));
        var base := pmm.Alloc();
        Fields(0, base / PAGE_SIZE, 0);
        e := FrameOf(base) * PAGE_SIZE + flags;
      } else {
        e := entry - entry % 8;
        e := e + flags;
      }
    }

    /** The last level of vmm_map_page. */
    method SetLeaf(ghost root: nat, p: Path, table: nat, flags: nat)
      requires Shows(memory, model) && OnePath(model, labels) && pmm.Valid() && |pmm.model.free| <= |model|
      requires IsRoot(labels, root) && IsPath(p) && flags < 8 && !pmm.locked && Leaf(model, root, p) == Some(table)
      modifies `model, memory, pmm, pmm.bitmap
      ensures Shows(memory, model) && OnePath(model, labels) && pmm.Valid() && pmm.bitmap == old(pmm.bitmap)
      ensures State(model, pmm.model) == Serve(old(State(model, pmm.model)), WantMap(root, p, flags))
    {
      ServeParts(State(model, pmm.model), labels, WantMap(root, p, flags), table);
      var e := LeafEntry(memory[table, p.d], flags);
      StoreWord(table, p.d, e);
    }

    /** vmm_unmap_page, which does not test the upper entries. */
    method UnmapPage(root: nat, logical: nat)
      requires Valid() && IsRoot(labels, root) && Leaf(model, root, Split(logical)).Some?
      modifies `model, memory
      ensures Valid() && model == OpStep(old(model), Unmap(root, Split(logical)))
      ensures Translate(model, root, Split(logical)).None?
    {
      OpTranslates(model, labels, Unmap(root, Split(logical)), root, Split(logical));
      AlignedSplit(logical);
      var p := Split(logical - logical % PAGE_SIZE);
      Upper(model, labels, root, p);
      OpParts(model, labels, Unmap(root, p), Leaf(model, root, p).value);
      var pdpt := FrameOf(memory[root, p.a]);
      var pdt := FrameOf(memory[pdpt, p.b]);
      var table := FrameOf(memory[pdt, p.c]);
      var e := memory[table, p.d];
      StoreWord(table, p.d, e - e % 8);
    }

    /** The address translation of the processor. */
    method Look(root: nat, logical: nat) returns (frame: nat)
      requires Valid() && IsRoot(labels, root) && Translate(model, root, Split(logical)).Some?
      ensures frame == Translate(model, root, Split(logical)).value.frame
    {
      var p := Split(logical);
      Upper(model, labels, root, p);
      var pdpt := FrameOf(memory[root, p.a]);
      var pdt := FrameOf(memory[pdpt, p.b]);
      var table := FrameOf(memory[pdt, p.c]);
      frame := FrameOf(memory[table, p.d]);
    }

    /** vmm_alloc_page: a frame, and the page with the frame's own address mapped. */
    method AllocPage() returns (r: PageResult)
      requires Valid() && !pmm.locked
      modifies `mapLock, `model, memory, pmm, pmm.bitmap
      ensures r.OutOfFrames? <==> AllocStep(old(pmm.model)).1 == 0
      ensures var base := AllocStep(old(pmm.model)).1;
        r.Page? <==> base != 0 && Leaf(old(model), cr3, Split(base)).Some?
      ensures r.Page? ==>
        && Valid() && labels == old(labels) && memory == old(memory) && pmm == old(pmm) && cr3 == old(cr3)
        && pmm.bitmap == old(pmm.bitmap)
        && var (next, base) := AllocStep(old(pmm.model));
        && r.frame == base / PAGE_SIZE
        && State(model, pmm.model) == Serve(State(old(model), next), WantMap(cr3, Split(base), 3))
    {
      var base := pmm.Alloc();
      if base == 0 {
        return OutOfFrames;
      }
      var mapped := MapPage(cr3, base, 3);
      r := if mapped.Done? then Page(base / PAGE_SIZE) else PageWaits;
    }

    /** The loop of mkpml4. */
    method CopyTable(src: nat, dst: nat)
      requires Shows(memory, model) && src < |model| && dst < |model|
      modifies `model, memory
      ensures Shows(memory, model) && model == CopyRoot(old(model), src, dst)
    {
      for i := 0 to ENTRIES
        invariant model == old(model)
        invariant forall n, j :: 0 <= n < |model| && 0 <= j < ENTRIES ==>
          memory[n, j] == if n == dst && j < i then model[src][j] else model[n][j]
      {
        memory[dst, i] := memory[src, i];
      }
      model := CopyRoot(model, src, dst);
    }

    /** mkpml4: the root is copied word by word to where the new page is mapped.  The copy is the
      new root exactly when the frame's own page was already mapped, to the frame itself; else
      vmm_alloc_page has mapped the page to yet another frame, and the words go there. */
    method MakeSpace() returns (r: PageResult)
      requires Valid() && !pmm.locked && Sound(State(model, pmm.model), labels)
      requires var (next, base) := AllocStep(pmm.model);
        Translate(model, cr3, Split(base)).Some? ==> Translate(model, cr3, Split(base)).value.frame == base / PAGE_SIZE
      modifies this, memory, pmm, pmm.bitmap
      ensures var base := AllocStep(old(pmm.model)).1;
        r.Page? <==> base != 0 && Leaf(old(model), old(cr3), Split(base)).Some?
      ensures r.Page? ==>
        var base := AllocStep(old(pmm.model)).1;
        && r.frame == base / PAGE_SIZE < |old(model)| == |model|
        && if Translate(old(model), cr3, Split(base)).Some? then
             && Valid() && cr3 == old(cr3) && labels == old(labels)[r.frame := []]
             && View(model, r.frame) == View(model, cr3)
           else model[r.frame] == old(model)[r.frame]
    {
      ghost var s0 := State(model, pmm.model);
      r := AllocPage();
      if !r.Page? {
        return;
      }
      ghost var m1 := model;
      PageLands(s0, labels, cr3);
      var target := Look(cr3, r.frame * PAGE_SIZE);
      CopyTable(cr3, target);
      if target == r.frame {
        CopyAgrees(m1, labels, cr3, target, cr3);
        labels := labels[target := []];
      }
    }
  }

  /** Where mkpml4's writes go. */
  lemma PageLands(s: State, labels: Labels, root: nat)
    requires Sound(s, labels) && !s.pmm.stuck && IsRoot(labels, root) && |s.pmm.free| <= |s.mem|
    requires var base := AllocStep(s.pmm).1;
      && base != 0 && Leaf(s.mem, root, Split(base)).Some?
      && (Translate(s.mem, root, Split(base)).Some? ==>
            Translate(s.mem, root, Split(base)).value.frame == base / PAGE_SIZE)
    ensures var (next, base) := AllocStep(s.pmm);
      var (n, p) := (base / PAGE_SIZE, Split(base));
      var s2 := Serve(State(s.mem, next), WantMap(root, p, 3));
      && n * PAGE_SIZE == base && n < |s.mem| == |s2.mem| && n !in labels && s2.mem[n] == s.mem[n]
      && Translate(s2.mem, root, p).Some?
      && Translate(s2.mem, root, p).value.frame < |s.mem|
      && (Translate(s2.mem, root, p).value.frame == n <==> Translate(s.mem, root, p).Some?)
  {
    var (next, base) := AllocStep(s.pmm);
    var (n, p) := (base / PAGE_SIZE, Split(base));
    BaseFrame(Lowest(s.pmm.free, s.pmm.hint));
    FreshFrame(s.mem, labels, s.pmm);
    var s1, q := State(s.mem, next), WantMap(root, p, 3);
    ServeParts(s1, labels, q, Leaf(s.mem, root, p).value);
    OpTranslates(s.mem, labels, OpFor(s1, q), root, p);
    BaseFrame(Lowest(next.free, next.hint));
  }

  /** The tables on the way to a page. */
  lemma Upper(mem: Memory, labels: Labels, root: nat, p: Path)
    requires OnePath(mem, labels) && IsRoot(labels, root) && IsPath(p)
    ensures root < |mem| && |mem[root]| == ENTRIES
    ensures var t3 := Step(mem, Some(root), p.a);
      && (t3.Some? ==> t3.value < |mem| && |mem[t3.value]| == ENTRIES)
      && var t2 := Step(mem, t3, p.b);
         && (t2.Some? ==> t2.value < |mem| && |mem[t2.value]| == ENTRIES)
         && var t1 := Step(mem, t2, p.c);
            t1.Some? ==> t1.value < |mem| && |mem[t1.value]| == ENTRIES
  {
    var t3 := Step(mem, Some(root), p.a);
    var t2 := Step(mem, t3, p.b);
    StepLabel(mem, labels, Some(root), p.a, []);
    StepLabel(mem, labels, t3, p.b, [] + [p.a]);
    StepLabel(mem, labels, t2, p.c, [] + [p.a] + [p.b]);
  }
}
