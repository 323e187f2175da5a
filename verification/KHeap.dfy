/** The layout of the kernel heap of kernel/src/mm/kheap.c.

  No block is ever free, so a heap is the list of the sizes of its blocks, the first of which
  is the empty block of kheap_init. */
module KHeapSpec {

  const HEADER_SIZE: nat := 48                    // sizeof(struct KHeapBlock)
  const HEAP_SIZE: nat := 0x1_0000_0000           // 4 GiB
  const HEAP_START: nat := 0xFFFF_8000_0000_0000

  /** Units of HEADER_SIZE bytes from one block to the next: `heap_head + heap_head->size` is
    scaled by the size of the header. */
  function Units(sizes: seq<nat>): nat {
    if sizes == [] then 0 else Units(sizes[..|sizes| - 1]) + sizes[|sizes| - 1] + 1
  }

  /** The address of block k. */
  function Addr(sizes: seq<nat>, k: nat): nat
    requires k <= |sizes|
  {
    HEAP_START + HEADER_SIZE * Units(sizes[..k])
  }

  /** The pointer that kmalloc returns for block k. */
  function Data(sizes: seq<nat>, k: nat): nat
    requires k < |sizes|
  {
    Addr(sizes, k) + HEADER_SIZE
  }

  lemma AddrNext(sizes: seq<nat>, k: nat)
    requires k < |sizes|
    ensures Addr(sizes, k + 1) == Addr(sizes, k) + HEADER_SIZE * (sizes[k] + 1)
  {
    assert sizes[..k + 1][..k] == sizes[..k];
  }

  /** Blocks already there are not moved by new ones. */
  lemma AddrPrefix(sizes: seq<nat>, more: seq<nat>, k: nat)
    requires k <= |sizes| && sizes <= more
    ensures Addr(more, k) == Addr(sizes, k)
  {
    assert more[..k] == sizes[..k];
  }

  lemma {:induction false} AddrRises(sizes: seq<nat>, j: nat, k: nat)
    requires j < k <= |sizes|
    ensures Addr(sizes, j) + HEADER_SIZE * (sizes[j] + 1) <= Addr(sizes, k)
  {
    AddrNext(sizes, k - 1);
    if j < k - 1 { AddrRises(sizes, j, k - 1); }
  }

  /** Header and data of a block end before any later block begins, and data is aligned. */
  lemma BlocksApart(sizes: seq<nat>, j: nat, k: nat)
    requires j < k < |sizes|
    ensures Addr(sizes, j) + HEADER_SIZE + sizes[j] <= Addr(sizes, k)
    ensures Data(sizes, j) + sizes[j] <= Addr(sizes, k) < Data(sizes, k)
    ensures Data(sizes, j) % 16 == 0 && Data(sizes, k) % 16 == 0
  {
    AddrRises(sizes, j, k);
    Aligned(Units(sizes[..j]));
    Aligned(Units(sizes[..k]));
  }

  lemma Aligned(units: nat)
    ensures (HEAP_START + HEADER_SIZE * units + HEADER_SIZE) % 16 == 0
  {
    assert HEAP_START + HEADER_SIZE * units + HEADER_SIZE == 16 * (HEAP_START / 16 + 3 * units + 3);
  }

  // ----- copying bytes --------------------------------------------------------------------------

  type Ram = nat -> nat

  /** What memcpy of n bytes has done to memory: nothing outside the destination; inside, it
    copied every byte that it had not itself overwritten before. */
  ghost predicate Copied(before: Ram, after: Ram, dst: nat, src: nat, n: nat) {
    && (forall a: nat :: !(dst <= a < dst + n) ==> after(a) == before(a))
    && (forall a: nat :: dst <= a < dst + n && !(dst <= a - dst + src < a) ==> after(a) == before(a - dst + src))
  }

  ghost predicate SameBytes(before: Ram, after: Ram, start: nat, n: nat) {
    forall a: nat :: start <= a < start + n ==> after(a) == before(a)
  }

  /** The new block starts with what the old one held, as far as it fits. */
  ghost predicate SamePrefix(before: Ram, after: Ram, p: nat, from: nat, n: nat, size: nat) {
    forall a: nat :: p <= a < p + n && a < p + size ==> after(a) == before(a - p + from)
  }

  /** The bytes of every block are what they were. */
  ghost predicate SameBlocks(before: Ram, after: Ram, sizes: seq<nat>) {
    forall j :: 0 <= j < |sizes| ==> SameBytes(before, after, Data(sizes, j), sizes[j])
  }

  /** A copy of a block to behind all blocks. */
  lemma CopiedBlock(s: seq<nat>, k: nat, n: nat, before: Ram, after: Ram)
    requires k < |s| && Copied(before, after, Addr(s, |s|) + HEADER_SIZE, Data(s, k), n)
    ensures SamePrefix(before, after, Addr(s, |s|) + HEADER_SIZE, Data(s, k), n, s[k])
    ensures SameBlocks(before, after, s)
  {
    forall j | 0 <= j < |s| ensures Data(s, j) + s[j] <= Addr(s, |s|) { AddrRises(s, j, |s|); }
  }

  // ----- runs -----------------------------------------------------------------------------------

  datatype Call = Kmalloc(n: nat) | Krealloc(block: nat, n: nat) | Kfree(block: nat)

  /** bytes_allocated is never increased, so only requests above 4 GiB are refused. */
  predicate Refused(n: nat) { n > HEAP_SIZE }

  function After(sizes: seq<nat>, c: Call): seq<nat> {
    if c.Kfree? || Refused(c.n) then sizes else sizes + [c.n]
  }

  /** The pointer that the call returns; 0 is NULL. */
  function Pointer(sizes: seq<nat>, c: Call): nat {
    if c.Kfree? || Refused(c.n) then 0 else Addr(sizes, |sizes|) + HEADER_SIZE
  }

  function Run(sizes: seq<nat>, calls: seq<Call>): seq<nat>
    decreases |calls|
  {
    if calls == [] then sizes else Run(After(sizes, calls[0]), calls[1..])
  }

  /** The pointers returned along a run, with the sizes asked for. */
  function Returned(sizes: seq<nat>, calls: seq<Call>): seq<(nat, nat)>
    decreases |calls|
  {
    if calls == [] then []
    else (if Pointer(sizes, calls[0]) == 0 then [] else [(Pointer(sizes, calls[0]), calls[0].n)])
         + Returned(After(sizes, calls[0]), calls[1..])
  }

  /** The sizes of the requests of a run that ask for no more than 4 GiB. */
  function Reasonable(calls: seq<Call>): seq<nat> {
    if calls == [] then []
    else (if !calls[0].Kfree? && calls[0].n <= 0x1_0000_0000 then [calls[0].n] else []) + Reasonable(calls[1..])
  }

  /** Those are served, however many there are, and no others: for each a pointer is returned, in
    the order of the requests. */
  lemma {:induction false} ReasonableAreServed(sizes: seq<nat>, calls: seq<Call>)
    ensures var (r, asked) := (Returned(sizes, calls), Reasonable(calls));
      |r| == |asked| && forall i :: 0 <= i < |r| ==> r[i].1 == asked[i] && r[i].0 != 0
    decreases |calls|
  {
    if calls == [] {
    } else {
      ReasonableAreServed(After(sizes, calls[0]), calls[1..]);
    }
  }

  lemma {:induction false} RunGrows(sizes: seq<nat>, calls: seq<Call>)
    ensures sizes <= Run(sizes, calls)
    decreases |calls|
  {
    if calls == [] {
    } else {
      RunGrows(After(sizes, calls[0]), calls[1..]);
    }
  }

  /** The i-th pointer returned is that of the i-th block made by the run, now and for ever. */
  lemma {:induction false} ReturnedAre(sizes: seq<nat>, calls: seq<Call>)
    ensures var r, end := Returned(sizes, calls), Run(sizes, calls);
      && |end| == |sizes| + |r| && sizes <= end
      && forall i :: 0 <= i < |r| ==> r[i] == (Data(end, |sizes| + i), end[|sizes| + i])
    decreases |calls|
  {
    if calls == [] {
    } else {
      var mid, end := After(sizes, calls[0]), Run(sizes, calls);
      var r, rest := Returned(sizes, calls), Returned(mid, calls[1..]);
      ReturnedAre(mid, calls[1..]);
      RunGrows(sizes, calls);
      if |mid| == |sizes| {
        assert r == rest;
      } else {
        FirstReturned(sizes, calls);
        forall i | 0 < i < |r| ensures r[i] == (Data(end, |sizes| + i), end[|sizes| + i]) {
          assert r[i] == rest[i - 1];
        }
      }
    }
  }

  /** The first pointer returned by a run that starts with a request that is served. */
  lemma FirstReturned(sizes: seq<nat>, calls: seq<Call>)
    requires calls != [] && |After(sizes, calls[0])| > |sizes|
    ensures var r, end := Returned(sizes, calls), Run(sizes, calls);
      && |sizes| < |end| && r == [(Data(end, |sizes|), end[|sizes|])] + Returned(After(sizes, calls[0]), calls[1..])
  {
    var mid, end := After(sizes, calls[0]), Run(sizes, calls);
    RunGrows(mid, calls[1..]);
    AddrPrefix(sizes, end, |sizes|);
  }

  /** Over any run of kmalloc, krealloc and kfree, the data ranges ever returned are pairwise
    disjoint, aligned, and clear of every block header. */
  lemma RunDisjoint(sizes: seq<nat>, calls: seq<Call>, i: nat, j: nat, k: nat)
    requires i < j < |Returned(sizes, calls)| && k < |Run(sizes, calls)|
    ensures var r, end := Returned(sizes, calls), Run(sizes, calls);
      && r[i].0 + r[i].1 <= r[j].0 && r[i].0 % 16 == 0 && r[j].0 % 16 == 0
      && (r[i].0 + r[i].1 <= Addr(end, k) || Addr(end, k) + HEADER_SIZE <= r[i].0)
  {
    var end := Run(sizes, calls);
    ReturnedAre(sizes, calls);
    BlocksApart(end, |sizes| + i, |sizes| + j);
    HeadersClear(end, |sizes| + i, k);
  }

  lemma HeadersClear(sizes: seq<nat>, i: nat, k: nat)
    requires i < |sizes| && k < |sizes|
    ensures Data(sizes, i) + sizes[i] <= Addr(sizes, k) || Addr(sizes, k) + HEADER_SIZE <= Data(sizes, i)
  {
    if k < i { BlocksApart(sizes, k, i); }
    if i < k { BlocksApart(sizes, i, k); }
  }
}

/** kheap.c itself: a linked list of headers, found at their addresses. */
module KHeap {
  import opened Common
  import opened KHeapSpec

  const KHEAP_MAG: nat := 0xCA75C001

  datatype Header = Header(isFree: bool, mag: nat, size: nat, next: nat, prev: nat)

  /** The pages that the loop of kmalloc_user passes to vmm_map_page. */
  ghost predicate Covers(pages: seq<nat>, start: nat, n: nat) {
    forall p: nat :: p in pages <==> p % PAGE_SIZE == 0 && start - start % PAGE_SIZE <= p < start + n
  }

  /** They are all the pages that the block touches. */
  lemma CoversBlock(pages: seq<nat>, start: nat, n: nat, a: nat)
    requires Covers(pages, start, n) && start <= a < start + n
    ensures a - a % PAGE_SIZE in pages
  {
    var p := a - a % PAGE_SIZE;
    assert p == PAGE_SIZE * (a / PAGE_SIZE) && p % PAGE_SIZE == 0;
    assert start - start % PAGE_SIZE == PAGE_SIZE * (start / PAGE_SIZE);
  }

  method MapPages(start: nat, n: nat) returns (pages: seq<nat>)
    ensures Covers(pages, start, n)
  {
    pages := [];
    var i := start - start % PAGE_SIZE;
    assert i == PAGE_SIZE * (start / PAGE_SIZE);
    while i < start + n
      invariant i % PAGE_SIZE == 0 && start - start % PAGE_SIZE <= i
      invariant forall p: nat :: p in pages <==>
        p % PAGE_SIZE == 0 && start - start % PAGE_SIZE <= p < i && p < start + n
      decreases start + n - i
    {
      pages := pages + [i];
      NextMultiple(i);
      i := i + PAGE_SIZE;
    }
  }

  lemma NextMultiple(i: nat)
    requires i % PAGE_SIZE == 0
    ensures (i + PAGE_SIZE) % PAGE_SIZE == 0
    ensures forall p: nat :: p % PAGE_SIZE == 0 && i <= p < i + PAGE_SIZE ==> p == i
  {
  }

  function HeaderAt(sizes: seq<nat>, k: nat): Header
    requires k < |sizes|
  {
    Header(false, KHEAP_MAG, sizes[k],
           if k + 1 < |sizes| then Addr(sizes, k + 1) else 0,
           if k > 0 then Addr(sizes, k - 1) else 0)
  }

  ghost predicate BlockOk(headers: map<nat, Header>, sizes: seq<nat>, k: nat)
    requires k < |sizes|
  {
    Addr(sizes, k) in headers && headers[Addr(sizes, k)] == HeaderAt(sizes, k)
  }

  /** The list that starts with the oldest block runs through all blocks and back. */
  ghost predicate Chained(headers: map<nat, Header>, sizes: seq<nat>) {
    0 < |sizes| && forall k :: 0 <= k < |sizes| ==> BlockOk(headers, sizes, k)
  }

  function Extended(headers: map<nat, Header>, head: nat, region: nat, n: nat): map<nat, Header>
    requires head in headers
  {
    headers[head := headers[head].(next := region)][region := Header(false, KHEAP_MAG, n, 0, head)]
  }

  lemma ExtendedChain(headers: map<nat, Header>, s: seq<nat>, n: nat)
    requires Chained(headers, s)
    ensures Addr(s, |s| - 1) in headers && Addr(s + [n], |s|) == Addr(s, |s|)
    ensures Chained(Extended(headers, Addr(s, |s| - 1), Addr(s, |s|), n), s + [n])
  {
    var last, t := |s| - 1, s + [n];
    assert BlockOk(headers, s, last);
    var h := Extended(headers, Addr(s, last), Addr(s, |s|), n);
    AddrPrefix(s, t, |s|);
    AddrPrefix(s, t, last);
    AddrNext(s, last);
    forall k | 0 <= k < |t| ensures BlockOk(h, t, k) {
      if k < last {
        assert BlockOk(headers, s, k);
        AddrPrefix(s, t, k);
        AddrPrefix(s, t, k + 1);
        if k > 0 { AddrPrefix(s, t, k - 1); }
        AddrRises(s, k, last);
      } else if k == last && k > 0 {
        AddrPrefix(s, t, k - 1);
      }
    }
  }

  class Heap {
    var headers: map<nat, Header>
    var heapHead: nat                   // the newest block
    var heapTail: nat                   // the oldest
    var bytesAllocated: nat
    var ram: Ram                        // bytes other than headers

    ghost var sizes: seq<nat>

    ghost predicate Valid()
      reads this
    {
      && Chained(headers, sizes)
      && heapTail == Addr(sizes, 0) == HEAP_START && heapHead == Addr(sizes, |sizes| - 1)
      && bytesAllocated == 0
    }

    /** kheap_init. */
    constructor ()
      ensures Valid() && sizes == [0]
    {
      headers := map[HEAP_START := Header(false, KHEAP_MAG, 0, 0, 0)];
      heapHead, heapTail, bytesAllocated, ram, sizes := HEAP_START, HEAP_START, 0, _ => 0, [0];
    }

    /** first_fit, which also sets every `prev` to what it is. */
    method FirstFit(sz: nat) returns (block: nat)
      requires Valid()
      modifies `headers
      ensures Valid() && headers == old(headers) && block == 0
    {
      block := heapTail;
      ghost var k := 0;
      while block != 0
        invariant Valid() && headers == old(headers) && k <= |sizes|
        invariant block == if k < |sizes| then Addr(sizes, k) else 0
        decreases |sizes| - k
      {
        assert BlockOk(headers, sizes, k);
        var header := headers[block];
        if header.isFree && header.size >= sz {
          return;
        }
        var next := header.next;
        if next != 0 {
          assert BlockOk(headers, sizes, k + 1);
          assert headers[next].prev == block && headers[next := headers[next].(prev := block)] == headers;
          headers := headers[next := headers[next].(prev := block)];
        }
        block := next;
        k := k + 1;
      }
    }

    /** kmalloc, while the heap does not reach the end of the address space. */
    method Kmalloc(n: nat) returns (p: nat)
      requires Valid() && Addr(sizes, |sizes|) + HEADER_SIZE < TWO_TO_THE_64
      modifies `headers, `heapHead, `sizes
      ensures Valid() && sizes == After(old(sizes), Call.Kmalloc(n)) && p == Pointer(old(sizes), Call.Kmalloc(n))
      ensures p == 0 <==> n > 0x1_0000_0000
    {
      if bytesAllocated + n > HEAP_SIZE {
        return 0;
      }
      var region := FirstFit(n);
      if region == 0 {
        region := Extend(n);
      }
      p := region + HEADER_SIZE;
    }

    /** The part of kmalloc that makes a block behind the newest one. */
    method Extend(n: nat) returns (region: nat)
      requires Valid()
      modifies `headers, `heapHead, `sizes
      ensures Valid() && sizes == old(sizes) + [n] && region == Addr(old(sizes), |old(sizes)|)
    {
      ghost var last := |sizes| - 1;
      assert BlockOk(headers, sizes, last);
      AddrNext(sizes, last);
      ExtendedChain(headers, sizes, n);
      AddrPrefix(sizes, sizes + [n], 0);
      region := heapHead + HEADER_SIZE * headers[heapHead].size + HEADER_SIZE;
      headers := headers[heapHead := headers[heapHead].(next := region)];
      headers := headers[region := Header(false, KHEAP_MAG, n, 0, heapHead)];
      heapHead := region;
      sizes := sizes + [n];
    }

    /** memcpy. */
    method Memcpy(dst: nat, src: nat, n: nat)
      modifies `ram
      ensures Copied(old(ram), ram, dst, src, n)
    {
      for i := 0 to n
        invariant Copied(old(ram), ram, dst, src, i)
      {
        var byte, before, at := ram(src + i), ram, dst + i;
        ram := a => if a == at then byte else before(a);
      }
    }

    /** kfree; `mag` is the word found where the header's magic number would be.  The loop that
      would free the block and all behind it first compares `block` with the data of the block's
      own header, so that its body is never reached. */
    method Kfree(block: nat, mag: nat)
      requires Valid() && block < TWO_TO_THE_64
      modifies `headers
      ensures Valid() && headers == old(headers)
    {
      var region := (block - HEADER_SIZE) % TWO_TO_THE_64;
      if mag != KHEAP_MAG {
        return;
      }
      var cur := region;
      if cur != 0 && block != (cur + HEADER_SIZE) % TWO_TO_THE_64 {
        assert false;
      }
    }

    /** krealloc of block k: what the old block held is at the start of the new one, as far as it
      fits, and no other block's bytes change. */
    method Krealloc(from: nat, n: nat, ghost k: nat) returns (p: nat)
      requires Valid() && Addr(sizes, |sizes|) + HEADER_SIZE < TWO_TO_THE_64
      requires k < |sizes| && from == Data(sizes, k) && !Refused(n)
      modifies this
      ensures Valid() && sizes == After(old(sizes), Call.Krealloc(from, n))
      ensures p == Pointer(old(sizes), Call.Krealloc(from, n)) == Data(sizes, |sizes| - 1)
      ensures SamePrefix(old(ram), ram, p, from, n, old(sizes)[k])
      ensures SameBlocks(old(ram), ram, old(sizes))
    {
      ghost var s, before := sizes, ram;
      p := Kmalloc(n);
      Memcpy(p, from, n);
      CopiedBlock(s, k, n, before, ram);
      AddrRises(s, k, |s|);
      AddrPrefix(s, sizes, k);
      AddrPrefix(s, sizes, |s|);
      assert BlockOk(headers, sizes, k);
      var mag := headers[from - HEADER_SIZE].mag;
      Kfree(from, mag);
    }

    /** kmalloc_user. */
    method KmallocUser(n: nat) returns (block: nat, pages: seq<nat>)
      requires Valid() && Addr(sizes, |sizes|) + HEADER_SIZE < TWO_TO_THE_64
      modifies `headers, `heapHead, `sizes
      ensures Valid() && sizes == After(old(sizes), Call.Kmalloc(n)) && block == Pointer(old(sizes), Call.Kmalloc(n))
      ensures Covers(pages, block, n)
    {
      block := Kmalloc(n);
      pages := MapPages(block, n);
    }
  }
}
