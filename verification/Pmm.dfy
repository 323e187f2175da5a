/** The hinted frame bitmap of kernel/src/mm/pmm.c. */
module PmmSpec {
  import opened Common

  /** `free[i]` says that byte i of the bitmap holds BITMAP_FREE.  `stuck` says that pmm_alloc
    has returned with its lock held, so that the next call waits forever. */
  datatype Pmm = Pmm(free: seq<bool>, hint: nat, stuck: bool)

  ghost predicate Ok(p: Pmm) {
    2 <= |p.free| && p.hint <= |p.free|
  }

  /** The lowest free frame from i on; |free| if there is none. */
  function Lowest(free: seq<bool>, i: nat): (r: nat)
    requires i <= |free|
    ensures i <= r <= |free|
    ensures r < |free| ==> free[r]
    ensures forall j :: i <= j < r ==> !free[j]
    decreases |free| - i
  {
    if i == |free| || free[i] then i else Lowest(free, i + 1)
  }

  /** pmm_alloc. */
  function AllocStep(p: Pmm): (r: (Pmm, nat))
    requires Ok(p)
    ensures Ok(r.0)
  {
    var i := Lowest(p.free, p.hint);
    if i == |p.free| then
      (p.(hint := if p.hint < |p.free| then |p.free| - 1 else p.hint, stuck := true), 0)
    else
      (Pmm(p.free[i := false], i + 1, false), PAGE_SIZE * i)
  }

  /** pmm_free multiplies in 32 bits, so it finds only frames below 4 GiB. */
  predicate Finds(p: Pmm, base: nat) {
    base % PAGE_SIZE == 0 && base < TWO_TO_THE_32 && base / PAGE_SIZE < |p.free|
  }

  /** pmm_free. */
  function FreeStep(p: Pmm, base: nat): (r: Pmm)
    requires Ok(p)
    ensures Ok(r)
  {
    if Finds(p, base) then
      p.(free := p.free[base / PAGE_SIZE := true], hint := base / PAGE_SIZE)
    else p
  }

  function CountFree(free: seq<bool>): nat {
    if free == [] then 0 else (if free[0] then 1 else 0) + CountFree(free[1..])
  }

  lemma {:induction false} CountUpdate(free: seq<bool>, i: nat, b: bool)
    requires i < |free|
    ensures CountFree(free[i := b]) + (if free[i] then 1 else 0) == CountFree(free) + (if b then 1 else 0)
  {
    var free' := free[i := b];
    if i == 0 {
      assert free'[1..] == free[1..];
    } else {
      CountUpdate(free[1..], i - 1, b);
      assert free'[1..] == free[1..][i - 1 := b];
    }
  }

  // ----- runs: a caller that frees what it was given -----------------------------------------

  /** The allocator and the frames that its caller holds, in the order they were handed out. */
  datatype Ledger = Ledger(pmm: Pmm, held: seq<nat>)

  /** Allocate a frame, or give back the i-th frame held. */
  datatype Call = Alloc | Free(i: nat)

  predicate Enabled(l: Ledger, op: Call) {
    !l.pmm.stuck && (op.Free? ==> op.i < |l.held|)
  }

  function Without(s: seq<nat>, i: nat): seq<nat>
    requires i < |s|
  {
    s[..i] + s[i + 1..]
  }

  function Do(l: Ledger, op: Call): (r: Ledger)
    requires Ok(l.pmm)
    ensures Ok(r.pmm)
  {
    if !Enabled(l, op) then l
    else match op
      case Alloc =>
        var (pmm, base) := AllocStep(l.pmm);
        Ledger(pmm, if pmm.stuck then l.held else l.held + [base])
      case Free(i) => Ledger(FreeStep(l.pmm, l.held[i]), Without(l.held, i))
  }

  function DoAll(l: Ledger, ops: seq<Call>): (r: Ledger)
    requires Ok(l.pmm)
    ensures Ok(r.pmm)
    decreases |ops|
  {
    if ops == [] then l else DoAll(Do(l, ops[0]), ops[1..])
  }

  /** The frames held are whole, distinct, managed by this allocator and not free; and with the
    free ones they make up the `total` that there was to begin with. */
  ghost predicate Accounted(l: Ledger, total: nat) {
    && Ok(l.pmm) && 2 <= l.pmm.hint
    && (forall i :: 0 <= i < |l.held| ==> Held(l.pmm, l.held[i]))
    && (forall i, j :: 0 <= i < j < |l.held| ==> l.held[i] != l.held[j])
    && CountFree(l.pmm.free) + |l.held| == total
  }

  ghost predicate Held(p: Pmm, base: nat) {
    && base % PAGE_SIZE == 0 && 2 <= base / PAGE_SIZE < |p.free| && !p.free[base / PAGE_SIZE]
  }

  lemma BaseFrame(i: nat)
    ensures (PAGE_SIZE * i) % PAGE_SIZE == 0 && (PAGE_SIZE * i) / PAGE_SIZE == i
  {
  }

  lemma AllocAccounted(l: Ledger, total: nat)
    requires Accounted(l, total) && !l.pmm.stuck
    ensures Accounted(Do(l, Alloc), total)
    ensures AllocStep(l.pmm).1 == 0 <==> AllocStep(l.pmm).0.stuck
    ensures AllocStep(l.pmm).1 !in l.held
  {
    var i := Lowest(l.pmm.free, l.pmm.hint);
    BaseFrame(i);
    if i < |l.pmm.free| {
      CountUpdate(l.pmm.free, i, false);
      var l' := Do(l, Alloc);
      forall j | 0 <= j < |l'.held| ensures Held(l'.pmm, l'.held[j]) {
        if j < |l.held| { assert Held(l.pmm, l.held[j]); }
      }
    }
  }

  lemma WithoutEntries(s: seq<nat>, i: nat)
    requires i < |s|
    ensures |Without(s, i)| == |s| - 1
    ensures forall j :: 0 <= j < |s| - 1 ==> Without(s, i)[j] == s[if j < i then j else j + 1]
  {
  }

  /** Giving back a frame keeps the books exactly when the frame lies below 4 GiB. */
  lemma FreeAccounted(l: Ledger, i: nat, total: nat)
    requires Accounted(l, total) && !l.pmm.stuck && i < |l.held|
    ensures Accounted(Do(l, Free(i)), total) <==> l.held[i] < TWO_TO_THE_32
  {
    var l', base := Do(l, Free(i)), l.held[i];
    WithoutEntries(l.held, i);
    assert Held(l.pmm, base);
    if base < TWO_TO_THE_32 {
      CountUpdate(l.pmm.free, base / PAGE_SIZE, true);
      forall j | 0 <= j < |l'.held| ensures Held(l'.pmm, l'.held[j]) {
        var j' := if j < i then j else j + 1;
        assert Held(l.pmm, l.held[j']);
        assert l.held[j'] != base;
      }
    }
  }

  /** Every frame given back along the run lies below 4 GiB. */
  ghost predicate BelowFourGiB(l: Ledger, ops: seq<Call>)
    requires Ok(l.pmm)
    decreases |ops|
  {
    ops == [] ||
    (&& (Enabled(l, ops[0]) && ops[0].Free? ==> l.held[ops[0].i] < TWO_TO_THE_32)
     && BelowFourGiB(Do(l, ops[0]), ops[1..]))
  }

  ghost predicate AlwaysAccounted(l: Ledger, ops: seq<Call>, total: nat)
    requires Ok(l.pmm)
    decreases |ops|
  {
    Accounted(l, total) && (ops == [] || AlwaysAccounted(Do(l, ops[0]), ops[1..], total))
  }

  /** Frame accounting over whole runs, from any bitmap. */
  lemma {:induction false} RunAccounted(l: Ledger, ops: seq<Call>, total: nat)
    requires Accounted(l, total)
    ensures AlwaysAccounted(l, ops, total) <==> BelowFourGiB(l, ops)
    decreases |ops|
  {
    if ops == [] {
    } else {
      var l' := Do(l, ops[0]);
      if Enabled(l, ops[0]) {
        if ops[0].Alloc? { AllocAccounted(l, total); } else { FreeAccounted(l, ops[0].i, total); }
      }
      if Accounted(l', total) { RunAccounted(l', ops[1..], total); }
    }
  }

  /** The state that pmm_init leaves: nobody has filled the bitmap. */
  lemma BootAccounted(free: seq<bool>)
    requires 2 <= |free|
    ensures Accounted(Ledger(Pmm(free, 2, false), []), CountFree(free))
  {
  }

  // ----- the hint -----------------------------------------------------------------------------

  /** The hint skips no free frame. */
  ghost predicate NoneBelow(p: Pmm) {
    forall i :: 2 <= i < p.hint && i < |p.free| ==> !p.free[i]
  }

  /** With such a hint pmm_alloc hands out the lowest free frame, and fails only when there is none. */
  lemma AllocIsLowest(p: Pmm)
    requires Ok(p) && NoneBelow(p) && 2 <= p.hint && !p.stuck
    ensures var (p', base) := AllocStep(p);
      && NoneBelow(p')
      && (base == 0 <==> forall i :: 2 <= i < |p.free| ==> !p.free[i])
      && (base != 0 ==> exists i :: 2 <= i < |p.free| && base == PAGE_SIZE * i && p.free[i]
                                    && forall j :: 2 <= j < i ==> !p.free[j])
  {
    var i := Lowest(p.free, p.hint);
    if i < |p.free| {
      assert AllocStep(p).1 == PAGE_SIZE * i && p.free[i];
    }
  }

  /** pmm_free keeps the hint correct exactly when no free frame lies from the hint up to the
    frame given back. */
  lemma FreeKeepsHint(p: Pmm, base: nat)
    requires Ok(p) && NoneBelow(p) && Finds(p, base)
    ensures NoneBelow(FreeStep(p, base)) <==>
      forall i :: p.hint <= i < base / PAGE_SIZE && 2 <= i ==> !p.free[i]
  {
    var p' := FreeStep(p, base);
    if NoneBelow(p') {
      forall i | p.hint <= i < base / PAGE_SIZE && 2 <= i ensures !p.free[i] {
        assert !p'.free[i];
      }
    }
  }

  /** The call skips no free frame: an allocation never does, and a frame given back has no free
    frame from the hint up to it. */
  ghost predicate SkipsNone(l: Ledger, op: Call)
    requires Ok(l.pmm)
  {
    Enabled(l, op) && op.Free? && Finds(l.pmm, l.held[op.i]) ==>
      forall i :: l.pmm.hint <= i < l.held[op.i] / PAGE_SIZE && 2 <= i ==> !l.pmm.free[i]
  }

  lemma DoKeepsHint(l: Ledger, op: Call)
    requires Ok(l.pmm) && NoneBelow(l.pmm)
    ensures NoneBelow(Do(l, op).pmm) <==> SkipsNone(l, op)
  {
    if Enabled(l, op) && op.Free? && Finds(l.pmm, l.held[op.i]) { FreeKeepsHint(l.pmm, l.held[op.i]); }
  }

  ghost predicate AllSkipNone(l: Ledger, ops: seq<Call>)
    requires Ok(l.pmm)
    decreases |ops|
  {
    ops == [] || (SkipsNone(l, ops[0]) && AllSkipNone(Do(l, ops[0]), ops[1..]))
  }

  ghost predicate AlwaysNoneBelow(l: Ledger, ops: seq<Call>)
    requires Ok(l.pmm)
    decreases |ops|
  {
    NoneBelow(l.pmm) && (ops == [] || AlwaysNoneBelow(Do(l, ops[0]), ops[1..]))
  }

  /** Over every run the hint is correct all along exactly when no call skips a free frame. */
  lemma {:induction false} RunKeepsHint(l: Ledger, ops: seq<Call>)
    requires Ok(l.pmm) && NoneBelow(l.pmm)
    ensures AlwaysNoneBelow(l, ops) <==> AllSkipNone(l, ops)
    decreases |ops|
  {
    if ops == [] {
    } else {
      DoKeepsHint(l, ops[0]);
      if SkipsNone(l, ops[0]) { RunKeepsHint(Do(l, ops[0]), ops[1..]); }
    }
  }

  /** Only the frame handed out last is ever given back. */
  ghost predicate LastInFirstOut(l: Ledger, ops: seq<Call>)
    requires Ok(l.pmm)
    decreases |ops|
  {
    ops == [] ||
    (&& (ops[0].Free? ==> |l.held| > 0 && ops[0].i == |l.held| - 1 && l.held[ops[0].i] < TWO_TO_THE_32)
     && LastInFirstOut(Do(l, ops[0]), ops[1..]))
  }

  /** The frames held rise, and all lie below the hint. */
  ghost predicate Stacked(l: Ledger) {
    && (forall i, j :: 0 <= i < j < |l.held| ==> l.held[i] / PAGE_SIZE < l.held[j] / PAGE_SIZE)
    && (forall i :: 0 <= i < |l.held| ==> l.held[i] / PAGE_SIZE < l.pmm.hint)
  }

  lemma AllocStacks(l: Ledger, total: nat)
    requires Accounted(l, total) && NoneBelow(l.pmm) && !l.pmm.stuck && Stacked(l)
    ensures var l' := Do(l, Alloc);
      Accounted(l', total) && NoneBelow(l'.pmm) && (l'.pmm.stuck || Stacked(l'))
  {
    AllocAccounted(l, total);
    BaseFrame(Lowest(l.pmm.free, l.pmm.hint));
  }

  lemma FreeUnstacks(l: Ledger, total: nat)
    requires Accounted(l, total) && NoneBelow(l.pmm) && !l.pmm.stuck && Stacked(l)
    requires |l.held| > 0 && l.held[|l.held| - 1] < TWO_TO_THE_32
    ensures var l' := Do(l, Free(|l.held| - 1));
      Accounted(l', total) && NoneBelow(l'.pmm) && Stacked(l')
  {
    var i := |l.held| - 1;
    assert Held(l.pmm, l.held[i]);
    FreeAccounted(l, i, total);
    WithoutEntries(l.held, i);
    FreeKeepsHint(l.pmm, l.held[i]);
  }

  /** Over any last-in-first-out run the hint stays correct, so that every allocation is the
    lowest free frame and fails exactly when the managed frames are exhausted. */
  lemma {:induction false} LastInFirstOutIsLowest(l: Ledger, ops: seq<Call>, total: nat)
    requires Accounted(l, total) && NoneBelow(l.pmm) && (l.pmm.stuck || Stacked(l))
    requires LastInFirstOut(l, ops)
    ensures Accounted(DoAll(l, ops), total) && NoneBelow(DoAll(l, ops).pmm)
    decreases |ops|
  {
    if ops == [] {
    } else {
      if Enabled(l, ops[0]) {
        if ops[0].Alloc? { AllocStacks(l, total); } else { FreeUnstacks(l, total); }
      }
      LastInFirstOutIsLowest(Do(l, ops[0]), ops[1..], total);
    }
  }

  /** In any other order it can fail: two frames are given back in the order they were handed
    out; the second is then handed out again, and the next allocation fails although the first
    is free. */
  lemma FirstInFirstOutLosesAFrame()
    ensures var l0 := Ledger(Pmm([false, false, true, true], 2, false), []);
      var l := DoAll(l0, [Alloc, Alloc, Free(0), Free(0), Alloc, Alloc]);
      l.pmm.stuck && l.pmm.free == [false, false, true, false] && l.held == [3 * PAGE_SIZE]
  {
    var l0 := Ledger(Pmm([false, false, true, true], 2, false), []);
    var l2 := Ledger(Pmm([false, false, false, false], 4, false), [2 * PAGE_SIZE, 3 * PAGE_SIZE]);
    var l4 := Ledger(Pmm([false, false, true, true], 3, false), []);
    assert Do(Do(l0, Alloc), Alloc) == l2;
    assert Do(Do(l2, Free(0)), Free(0)) == l4;
  }
}

/** The allocator itself, proved to make the steps of PmmSpec. */
module PmmManager {
  import opened Common
  import opened PmmSpec

  const BITMAP_FREE: nat := 1

  class Allocator {
    /** One byte for each managed frame, and the byte behind them, which pmm_alloc reads when
      its hint has reached the end. */
    var bitmap: array<nat>
    var bitmapI: nat
    var locked: bool

    ghost var model: Pmm

    ghost predicate Valid()
      reads this, bitmap
    {
      && 2 <= |model.free| < TWO_TO_THE_32 && bitmap.Length == |model.free| + 1
      && bitmap[|model.free|] != BITMAP_FREE
      && (forall i :: 0 <= i < |model.free| ==> model.free[i] == (bitmap[i] == BITMAP_FREE))
      && model.hint == bitmapI <= |model.free|
      && model.stuck == locked
    }

    /** The end of pmm_init: the bitmap is memory with arbitrary contents. */
    constructor (memory: array<nat>)
      requires 3 <= memory.Length <= TWO_TO_THE_32 && memory[memory.Length - 1] != BITMAP_FREE
      ensures Valid() && bitmap == memory && model.hint == 2 && !locked && |model.free| == memory.Length - 1
      ensures forall i :: 0 <= i < |model.free| ==> model.free[i] == (memory[i] == BITMAP_FREE)
    {
      bitmap, bitmapI, locked := memory, 2, false;
      ghost var bytes := memory[..];
      model := Pmm(seq(memory.Length - 1, i requires 0 <= i < |bytes| => bytes[i] == BITMAP_FREE), 2, false);
    }

    /** pmm_alloc. */
    method Alloc() returns (base: nat)
      requires Valid() && !locked
      modifies this, bitmap
      ensures Valid() && bitmap == old(bitmap)
      ensures model == AllocStep(old(model)).0 && base == AllocStep(old(model)).1
      ensures locked ==> base == 0 && bitmap[..] == old(bitmap[..]) && NoneFrom(old(bitmap[..]), old(bitmapI))
      ensures !locked ==> Took(old(bitmap[..]), bitmap[..], old(bitmapI), bitmapI, base)
    {
      locked := true;
      var found := Search();
      if !found {
        model := AllocStep(model).0;
        return 0;
      }
      bitmap[bitmapI] := 0;
      model := AllocStep(model).0;
      locked := false;
      base := PAGE_SIZE * bitmapI;
      bitmapI := bitmapI + 1;
    }

    /** The loop of pmm_alloc, which moves the hint to the first free frame. */
    method Search() returns (found: bool)
      requires bitmapI <= |model.free| && bitmap.Length == |model.free| + 1
      requires bitmap[|model.free|] != BITMAP_FREE
      requires forall i :: 0 <= i < |model.free| ==> model.free[i] == (bitmap[i] == BITMAP_FREE)
      modifies `bitmapI
      ensures if found
        then old(bitmapI) <= bitmapI == Lowest(model.free, old(bitmapI)) < |model.free|
        else NoneFrom(bitmap[..], old(bitmapI)) && Lowest(model.free, old(bitmapI)) == |model.free|
             && bitmapI == if old(bitmapI) < |model.free| then |model.free| - 1 else old(bitmapI)
    {
      while bitmap[bitmapI] != BITMAP_FREE
        invariant old(bitmapI) <= bitmapI <= |model.free|
        invariant bitmapI == old(bitmapI) || bitmapI < |model.free|
        invariant Lowest(model.free, old(bitmapI)) == Lowest(model.free, bitmapI)
        decreases |model.free| - bitmapI
      {
        if bitmapI >= bitmap.Length - 2 {
          return false;
        }
        bitmapI := bitmapI + 1;
      }
      return true;
    }

    /** No managed frame from `from` on is free. */
    static ghost predicate NoneFrom(bytes: seq<nat>, from: nat) {
      forall j :: from <= j < |bytes| - 1 ==> bytes[j] != BITMAP_FREE
    }

    /** The frame at `base` was the first free one from `from` on, and is not free any more. */
    static ghost predicate Took(before: seq<nat>, after: seq<nat>, from: nat, hint: nat, base: nat) {
      && from < hint <= |before| && base == 0x1000 * (hint - 1) && before[hint - 1] == BITMAP_FREE
      && (forall j :: from <= j < hint - 1 ==> before[j] != BITMAP_FREE)
      && after == before[hint - 1 := 0]
    }

    /** pmm_free; its lock is a local variable, so it never waits. */
    method Free(base: nat)
      requires Valid()
      modifies `bitmapI, `model, bitmap
      ensures Valid() && model == FreeStep(old(model), base)
      ensures var i := base / 0x1000;
        if base % 0x1000 == 0 && base < 0x1_0000_0000 && i < |model.free|
        then bitmap[..] == old(bitmap[..])[i := BITMAP_FREE] && bitmapI == i
        else bitmap[..] == old(bitmap[..]) && bitmapI == old(bitmapI)
    {
      var i := 0;
      while i < bitmap.Length - 1
        invariant 0 <= i <= |model.free|
        invariant forall j :: 0 <= j < i ==> PAGE_SIZE * j % TWO_TO_THE_32 != base
        invariant Valid() && model == old(model) && bitmap == old(bitmap)
        invariant bitmap[..] == old(bitmap[..]) && bitmapI == old(bitmapI)
      {
        if PAGE_SIZE * i % TWO_TO_THE_32 == base {
          FirstProduct(i, base);
          model := FreeStep(model, base);
          bitmap[i] := BITMAP_FREE;
          bitmapI := i;
          return;
        }
        i := i + 1;
      }
      assert base % PAGE_SIZE == 0 && base < TWO_TO_THE_32 ==> PAGE_SIZE * (base / PAGE_SIZE) % TWO_TO_THE_32 == base;
    }

    static lemma ProductWraps(i: nat)
      ensures PAGE_SIZE * i % TWO_TO_THE_32 == PAGE_SIZE * (i % 0x10_0000)
    {
      assert PAGE_SIZE * i == i / 0x10_0000 * TWO_TO_THE_32 + PAGE_SIZE * (i % 0x10_0000);
    }

    /** The first 32-bit product that equals the base is that of the base's own frame. */
    static lemma FirstProduct(i: nat, base: nat)
      requires PAGE_SIZE * i % TWO_TO_THE_32 == base
      requires forall j :: 0 <= j < i ==> PAGE_SIZE * j % TWO_TO_THE_32 != base
      ensures base % PAGE_SIZE == 0 && base < TWO_TO_THE_32 && base / PAGE_SIZE == i
    {
      ProductWraps(i);
      ProductWraps(i % 0x10_0000);
    }
  }
}
