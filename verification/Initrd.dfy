/** The initial ramdisk: a ustar writer, and what opening a file of its archives must yield.
  (POSIX.1 pax utility, section "ustar Interchange Format".) */
module Ustar {
  import KHeapSpec
  import opened ByteFields

  const BLOCK: nat := 512
  const NAME_FIELD: nat := 100
  const SIZE_OFFSET: nat := 124
  const SIZE_DIGITS: nat := 11

  /** A file of the archive; the bytes of the header that the kernel does not read, and the
    padding, are whatever the writer put there. */
  datatype Member = Member(name: seq<byte>, data: seq<byte>, nameFill: seq<byte>, fields: seq<byte>,
                           rest: seq<byte>, padding: seq<byte>)

  function Power8(k: nat): nat {
    if k == 0 then 1 else 8 * Power8(k - 1)
  }

  /** Bytes from the end of the data to the next block. */
  function PadLength(n: nat): nat {
    (BLOCK - n % BLOCK) % BLOCK
  }

  ghost predicate MemberOk(m: Member) {
    && 0 < |m.name| < NAME_FIELD && (forall i :: 0 <= i < |m.name| ==> m.name[i] != 0)
    && |m.nameFill| == NAME_FIELD - 1 - |m.name|
    && |m.fields| == SIZE_OFFSET - NAME_FIELD
    && |m.rest| == BLOCK - SIZE_OFFSET - SIZE_DIGITS
    && |m.data| < Power8(SIZE_DIGITS)
    && |m.padding| == PadLength(|m.data|)
  }

  /** The last k octal digits of n. */
  function Octal(n: nat, k: nat): (s: seq<byte>)
    ensures |s| == k
  {
    if k == 0 then [] else Octal(n / 8, k - 1) + [48 + n % 8]
  }

  function HeaderOf(m: Member): seq<byte> {
    m.name + [0] + m.nameFill + m.fields + Octal(|m.data|, SIZE_DIGITS) + m.rest
  }

  function Encode(m: Member): seq<byte> {
    HeaderOf(m) + m.data + m.padding
  }

  function Zeros(n: nat): (s: seq<byte>)
    ensures |s| == n && forall i :: 0 <= i < n ==> s[i] == 0
  {
    seq(n, _ => 0)
  }

  /** The members, the zero block, and what follows it. */
  function Body(members: seq<Member>, trailer: seq<byte>): seq<byte> {
    if members == [] then Zeros(BLOCK) + trailer else Encode(members[0]) + Body(members[1..], trailer)
  }

  /** The whole image; the first header is that of the directory, and is skipped unread. */
  function Archive(first: seq<byte>, members: seq<Member>, trailer: seq<byte>): seq<byte> {
    first + Body(members, trailer)
  }

  ghost predicate AllOk(members: seq<Member>) {
    forall i :: 0 <= i < |members| ==> MemberOk(members[i])
  }

  ghost predicate ArchiveOk(first: seq<byte>, members: seq<Member>) {
    |first| == BLOCK && AllOk(members)
  }

  // ----- what initrd_open yields ------------------------------------------------------------------

  /** `NullBuffer`: the allocation failed, and the copy goes through a null pointer. */
  datatype Opened = NotFound | Contents(bytes: seq<byte>) | NullBuffer

  /** The first member with this name, from the k-th on. */
  function FindName(members: seq<Member>, path: seq<byte>, k: nat): (r: nat)
    requires k <= |members|
    ensures k <= r <= |members|
    ensures r < |members| ==> members[r].name == path
    ensures forall j :: k <= j < r ==> members[j].name != path
    decreases |members| - k
  {
    if k == |members| || members[k].name == path then k else FindName(members, path, k + 1)
  }

  /** A file with the zero byte that ends it; one that does not fit into the heap is not read. */
  function ReadFile(data: seq<byte>): Opened {
    if |data| + 1 > KHeapSpec.HEAP_SIZE then NullBuffer else Contents(data + [0])
  }

  /** Opening a path.  The empty path matches the zero block behind the last member. */
  function Lookup(members: seq<Member>, path: seq<byte>): Opened {
    var i := FindName(members, path, 0);
    if |path| >= NAME_FIELD then NotFound
    else if i < |members| then ReadFile(members[i].data)
    else if path == [] && members != [] then NullBuffer
    else NotFound
  }

  /** On an archive whose names differ, every file is found under its name and nothing else is. */
  lemma LookupInverts(members: seq<Member>, i: nat, path: seq<byte>)
    requires i < |members| && AllOk(members)
    requires forall j, k :: 0 <= j < k < |members| ==> members[j].name != members[k].name
    ensures path == members[i].name ==>
      Lookup(members, path) ==
        if |members[i].data| < 0x1_0000_0000 then Contents(members[i].data + [0]) else NullBuffer
    ensures Lookup(members, path) == NotFound <==>
      path != [] && forall j :: 0 <= j < |members| ==> members[j].name != path
  {
    var r := FindName(members, path, 0);
    if path == members[i].name {
      assert r <= i;
    }
    if r < |members| { assert MemberOk(members[r]); }
  }

  /** A path that is no name: the empty one makes the allocation fail, unless the archive is empty. */
  lemma LookupMisses(members: seq<Member>, path: seq<byte>)
    requires AllOk(members) && forall j :: 0 <= j < |members| ==> members[j].name != path
    ensures Lookup(members, path) == if path == [] && members != [] then NullBuffer else NotFound
  {
  }

  // ----- where the writer puts things --------------------------------------------------------------

  /** The header of the member that an image goes on with. */
  lemma HeaderParts(m: Member, tail: seq<byte>)
    requires MemberOk(m)
    ensures var s := Encode(m) + tail;
      && |Encode(m)| == BLOCK + |m.data| + PadLength(|m.data|)
      && s[..|m.name|] == m.name && s[|m.name|] == 0
      && s[SIZE_OFFSET..SIZE_OFFSET + SIZE_DIGITS] == Octal(|m.data|, SIZE_DIGITS)
      && s[BLOCK..BLOCK + |m.data|] == m.data
      && s[|Encode(m)|..] == tail
  {
    var h := m.name + [0] + m.nameFill + m.fields;
    var size := Octal(|m.data|, SIZE_DIGITS);
    assert |h| == SIZE_OFFSET && |HeaderOf(m)| == BLOCK;
    assert Encode(m) + tail == m.name + ([0] + m.nameFill + m.fields + size + m.rest + m.data + m.padding + tail);
    assert Encode(m) + tail == h + size + (m.rest + m.data + m.padding + tail);
    assert Encode(m) + tail == HeaderOf(m) + m.data + (m.padding + tail);
  }

  /** The blocks of a member: its header, and its data rounded up. */
  lemma Blocks(n: nat)
    ensures ((n + 511) / 512 + 1) * 512 == BLOCK + n + PadLength(n)
  {
    var q, r := n / 512, n % 512;
    if r == 0 {
      assert n + 511 == q * 512 + 511;
    } else {
      assert n + 511 == (q + 1) * 512 + (r - 1);
    }
  }
}

/** initrd.c itself. */
module Initrd {
  import opened Common
  import opened ByteFields
  import opened CStrings
  import opened Ustar

  /** A char is signed. */
  function Signed(b: byte): int {
    if b < 128 then b else b - 256
  }

  /** What getsize adds up over the first j digits. */
  function SizeSum(s: seq<byte>, p: nat, j: nat): int
    requires p + j <= |s|
  {
    if j == 0 then 0 else SizeSum(s, p, j - 1) * 8 + Signed(s[p + j - 1]) - 48
  }

  /** ... and over the others, each with its weight. */
  function TailSum(s: seq<byte>, p: nat, j: nat): int
    requires j <= SIZE_DIGITS && p + SIZE_DIGITS <= |s|
    decreases SIZE_DIGITS - j
  {
    if j == SIZE_DIGITS then 0
    else (Signed(s[p + j]) - 48) * Power8(SIZE_DIGITS - 1 - j) + TailSum(s, p, j + 1)
  }

  lemma {:induction false} SumsMeet(s: seq<byte>, p: nat, j: nat)
    requires j <= SIZE_DIGITS && p + SIZE_DIGITS <= |s|
    ensures SizeSum(s, p, j) * Power8(SIZE_DIGITS - j) + TailSum(s, p, j) == SizeSum(s, p, SIZE_DIGITS)
    decreases SIZE_DIGITS - j
  {
    if j < SIZE_DIGITS {
      SumsMeet(s, p, j + 1);
      var w, high, d := Power8(SIZE_DIGITS - 1 - j), SizeSum(s, p, j), Signed(s[p + j]) - 48;
      assert Power8(SIZE_DIGITS - j) == 8 * w;
      Distribute(high, d, w);
    }
  }

  lemma Distribute(high: int, d: int, w: int)
    ensures (high * 8 + d) * w == high * (8 * w) + d * w
  {
    assert (high * 8 + d) * w == (high * 8) * w + d * w;
    assert (high * 8) * w == high * (8 * w);
  }

  /** getsize: arithmetic is on size_t. */
  method GetSize(s: seq<byte>, p: nat) returns (size: nat)
    requires p + SIZE_DIGITS <= |s|
    ensures size == SizeSum(s, p, SIZE_DIGITS) % TWO_TO_THE_64
  {
    size := 0;
    var count, j := 1, SIZE_DIGITS;
    ghost var sum := 0;
    while j > 0
      invariant 0 <= j <= SIZE_DIGITS && count == Power8(SIZE_DIGITS - j)
      invariant sum == TailSum(s, p, j) && size == sum % TWO_TO_THE_64
    {
      j := j - 1;
      var term := (Signed(s[p + j]) - 48) * count;
      AddModulo(sum, term);
      size := (size + term) % TWO_TO_THE_64;
      sum := sum + term;
      count := count * 8;
    }
    SumsMeet(s, p, 0);
  }

  lemma AddModulo(x: int, y: int)
    ensures (x % TWO_TO_THE_64 + y) % TWO_TO_THE_64 == (x + y) % TWO_TO_THE_64
  {
  }

  /** getsize inverts the octal digits of the writer. */
  lemma {:induction false} SizeOfOctal(s: seq<byte>, p: nat, n: nat, k: nat)
    requires p + k <= |s| && s[p..p + k] == Octal(n, k) && n < Power8(k)
    ensures SizeSum(s, p, k) == n
  {
    if k == 0 {
    } else {
      var d := Octal(n, k);
      assert s[p + k - 1] == d[k - 1] == 48 + n % 8;
      assert s[p..p + k - 1] == d[..k - 1] == Octal(n / 8, k - 1);
      SizeOfOctal(s, p, n / 8, k - 1);
    }
  }

  lemma Power8Bound()
    ensures Power8(SIZE_DIGITS) == 0x2_0000_0000
  {
    assert Power8(3) == 0x200;
    assert Power8(7) == 0x20_0000;
  }

  /** Eleven zero bytes make an enormous size. */
  lemma {:induction false} SizeOfZeros(s: seq<byte>, p: nat, k: nat)
    requires p + k <= |s| && (forall i :: p <= i < p + k ==> s[i] == 0)
    ensures 7 * SizeSum(s, p, k) == -48 * (Power8(k) - 1)
  {
    if k == 0 {
    } else {
      SizeOfZeros(s, p, k - 1);
    }
  }

  /** What getting a file of this size at this place yields. */
  ghost function Got(image: seq<byte>, address: nat, n: nat): Opened
    requires n + 1 <= KHeapSpec.HEAP_SIZE ==> address + BLOCK + n <= |image|
  {
    if n + 1 > KHeapSpec.HEAP_SIZE then NullBuffer else Contents(image[address + BLOCK..address + BLOCK + n] + [0])
  }

  /** get_buf, on the heap of KHeap: only requests above 4 GiB fail. */
  method GetBuf(image: seq<byte>, address: nat, n: nat) returns (r: Opened)
    requires n + 1 <= KHeapSpec.HEAP_SIZE ==> address + BLOCK + n <= |image|
    requires n < TWO_TO_THE_64 - 1
    ensures r == Got(image, address, n)
  {
    if (n + 1) % TWO_TO_THE_64 > KHeapSpec.HEAP_SIZE {
      return NullBuffer;
    }
    var data := address + BLOCK;
    var buffer := new byte[n + 1];
    for i := 0 to n
      invariant buffer[..i] == image[data..data + i]
    {
      buffer[i] := image[data + i];
      assert buffer[..i + 1] == buffer[..i] + [image[data + i]];
    }
    buffer[n] := 0;
    assert buffer[..] == buffer[..n] + [0];
    r := Contents(buffer[..]);
  }

  /** What the loop of initrd_open meets at a member. */
  lemma AtMember(image: seq<byte>, address: nat, members: seq<Member>, trailer: seq<byte>)
    requires address <= |image| && image[address..] == Body(members, trailer)
    requires members != [] && MemberOk(members[0])
    ensures var (m, n) := (members[0], |Encode(members[0])|);
      && address + n <= |image| && n == BLOCK + |m.data| + PadLength(|m.data|)
      && image[address] != 0 && image[address + n..] == Body(members[1..], trailer)
      && Terminated(image, address) && CStr(image, address) == m.name
      && SizeSum(image, address + SIZE_OFFSET, SIZE_DIGITS) == |m.data|
      && image[address + BLOCK..address + BLOCK + |m.data|] == m.data
  {
    var m, s := members[0], image[address..];
    HeaderParts(m, Body(members[1..], trailer));
    SliceAt(image, address, 0, |m.name|);
    SliceAt(image, address, SIZE_OFFSET, SIZE_OFFSET + SIZE_DIGITS);
    SliceAt(image, address, BLOCK, BLOCK + |m.data|);
    assert image[address + |Encode(m)|..] == s[|Encode(m)|..];
    NameThere(image, address, m.name);
    SizeOfOctal(image, address + SIZE_OFFSET, |m.data|, SIZE_DIGITS);
  }

  lemma SliceAt(image: seq<byte>, address: nat, lo: nat, hi: nat)
    requires lo <= hi && address + hi <= |image|
    ensures image[address + lo..address + hi] == image[address..][lo..hi]
  {
  }

  lemma NameThere(image: seq<byte>, address: nat, name: seq<byte>)
    requires address + |name| < |image| && image[address..address + |name|] == name && image[address + |name|] == 0
    requires name != [] && forall i :: 0 <= i < |name| ==> name[i] != 0
    ensures image[address] != 0 && Terminated(image, address) && CStr(image, address) == name
  {
    forall i | address <= i < address + |name| ensures image[i] != 0 {
      assert image[i] == name[i - address];
    }
    CStrIs(image, address, |name|);
  }

  /** ... and at the zero block. */
  lemma AtZeros(image: seq<byte>, address: nat, trailer: seq<byte>)
    requires address <= |image| && image[address..] == Zeros(BLOCK) + trailer
    ensures address + BLOCK <= |image| && image[address] == 0
    ensures Terminated(image, address) && CStr(image, address) == []
    ensures SizeSum(image, address + SIZE_OFFSET, SIZE_DIGITS) % TWO_TO_THE_64 + 1 > KHeapSpec.HEAP_SIZE
    ensures SizeSum(image, address + SIZE_OFFSET, SIZE_DIGITS) % TWO_TO_THE_64 < TWO_TO_THE_64 - 1
  {
    var s := image[address..];
    assert forall i :: 0 <= i < BLOCK ==> image[address + i] == s[i] == 0;
    CStrIs(image, address, 0);
    SizeOfZeros(image, address + SIZE_OFFSET, SIZE_DIGITS);
    Power8Bound();
    Negative(SizeSum(image, address + SIZE_OFFSET, SIZE_DIGITS));
  }

  lemma Negative(sum: int)
    requires sum == -58_902_408_624
    ensures sum % TWO_TO_THE_64 == sum + TWO_TO_THE_64
  {
  }

  ghost predicate At(image: seq<byte>, address: nat, members: seq<Member>, trailer: seq<byte>) {
    address <= |image| && image[address..] == Body(members, trailer)
  }

  ghost function SizeAt(image: seq<byte>, address: nat): nat
    requires address + BLOCK <= |image|
  {
    SizeSum(image, address + SIZE_OFFSET, SIZE_DIGITS) % TWO_TO_THE_64
  }

  /** `address += (((sz + 511) / 512) + 1) * 512`. */
  function Advance(address: nat, size: nat): nat {
    (address + ((size + 511) % TWO_TO_THE_64 / 512 + 1) * 512) % TWO_TO_THE_64
  }

  lemma GotMember(image: seq<byte>, address: nat, data: seq<byte>)
    requires address + BLOCK + |data| <= |image|
    requires image[address + BLOCK..address + BLOCK + |data|] == data
    ensures Got(image, address, |data|) == ReadFile(data)
  {
  }

  lemma SmallAdvance(address: nat, n: nat)
    requires n < 0x2_0000_0000 && address + BLOCK + n + PadLength(n) < TWO_TO_THE_64
    ensures n % TWO_TO_THE_64 == n && Advance(address, n) == address + BLOCK + n + PadLength(n)
  {
    Blocks(n);
  }

  /** What is found at a header: a name, a size, and what opening it would yield. */
  ghost predicate Meets(image: seq<byte>, address: nat, name: seq<byte>, n: nat, result: Opened) {
    && address + BLOCK <= |image| && SizeAt(image, address) == n < TWO_TO_THE_64 - 1
    && Terminated(image, address) && CStr(image, address) == name && |name| < NAME_FIELD
    && (n + 1 <= KHeapSpec.HEAP_SIZE ==> address + BLOCK + n <= |image|)
    && Got(image, address, n) == result
  }

  lemma MeetsMember(image: seq<byte>, address: nat, members: seq<Member>, trailer: seq<byte>)
    requires |image| < TWO_TO_THE_64 && At(image, address, members, trailer)
    requires members != [] && MemberOk(members[0])
    ensures var m := members[0];
      && Meets(image, address, m.name, |m.data|, ReadFile(m.data)) && image[address] != 0
      && At(image, Advance(address, |m.data|), members[1..], trailer)
  {
    var m := members[0];
    AtMember(image, address, members, trailer);
    Power8Bound();
    SmallAdvance(address, |m.data|);
    GotMember(image, address, m.data);
  }

  lemma MeetsZeros(image: seq<byte>, address: nat, trailer: seq<byte>)
    requires At(image, address, [], trailer)
    ensures address + BLOCK <= |image| && image[address] == 0
    ensures Meets(image, address, [], SizeAt(image, address), NullBuffer)
  {
    AtZeros(image, address, trailer);
  }

  function NameAt(members: seq<Member>, k: nat): seq<byte> {
    if k < |members| then members[k].name else []
  }

  function YieldAt(members: seq<Member>, k: nat): Opened {
    if k < |members| then ReadFile(members[k].data) else NullBuffer
  }

  /** One round of the loop of initrd_open: at the k-th member, or at the zero block. */
  lemma Round(image: seq<byte>, address: nat, members: seq<Member>, k: nat, trailer: seq<byte>)
    requires |image| < TWO_TO_THE_64 && k <= |members| && At(image, address, members[k..], trailer)
    requires AllOk(members)
    ensures address + BLOCK <= |image| && (image[address] == 0 <==> k == |members|)
    ensures Meets(image, address, NameAt(members, k), SizeAt(image, address), YieldAt(members, k))
    ensures k < |members| ==> At(image, Advance(address, SizeAt(image, address)), members[k + 1..], trailer)
  {
    if k < |members| {
      assert members[k..][0] == members[k] && members[k..][1..] == members[k + 1..];
      MeetsMember(image, address, members[k..], trailer);
    } else {
      MeetsZeros(image, address, trailer);
    }
  }

  /** A member found early is the first one. */
  lemma FoundAt(members: seq<Member>, path: seq<byte>, k: nat)
    requires k <= |members| && |path| < NAME_FIELD && FindName(members, path, 0) == FindName(members, path, k)
    requires NameAt(members, k) == path && members != []
    ensures Lookup(members, path) == YieldAt(members, k)
  {
  }

  lemma PathString(path: seq<byte>)
    requires forall i :: 0 <= i < |path| ==> path[i] != 0
    ensures Terminated(path + [0], 0) && CStr(path + [0], 0) == path
  {
    CStrIs(path + [0], 0, |path|);
  }

  lemma AtStart(first: seq<byte>, members: seq<Member>, trailer: seq<byte>)
    requires |first| == BLOCK
    ensures At(Archive(first, members, trailer), BLOCK, members[0..], trailer)
  {
    assert members[0..] == members;
  }

  /** The name and size in a header. */
  method Probe(image: seq<byte>, header: nat, cpath: seq<byte>,
               ghost name: seq<byte>, ghost n: nat, ghost result: Opened) returns (size: nat, same: bool)
    requires Meets(image, header, name, n, result)
    requires Terminated(cpath, 0) && |CStr(cpath, 0)| < NAME_FIELD
    ensures size == n && (same <==> name == CStr(cpath, 0))
  {
    size := GetSize(image, header + SIZE_OFFSET);
    var differ := Strcmp(image, header, cpath, 0);
    ShortEqual(name, CStr(cpath, 0));
    same := differ == 0;
  }

  /** initrd_open.  The test of the loop looks at the header of the round before, so that the zero
    block is treated as a member before the loop ends. */
  method Open(image: seq<byte>, path: seq<byte>,
              ghost first: seq<byte>, ghost members: seq<Member>, ghost trailer: seq<byte>) returns (r: Opened)
    requires ArchiveOk(first, members) && image == Archive(first, members, trailer)
    requires |image| < TWO_TO_THE_64 && |path| < TWO_TO_THE_32 && forall i :: 0 <= i < |path| ==> path[i] != 0
    ensures r == Lookup(members, path)
  {
    if |path| > 99 {
      return NotFound;
    }
    PathString(path);
    AtStart(first, members, trailer);
    r := Search(image, path, path + [0], members, trailer);
  }

  /** The loop of initrd_open. */
  method Search(image: seq<byte>, ghost path: seq<byte>, cpath: seq<byte>,
                ghost members: seq<Member>, ghost trailer: seq<byte>) returns (r: Opened)
    requires |image| < TWO_TO_THE_64 && AllOk(members) && At(image, BLOCK, members[0..], trailer)
    requires |path| < NAME_FIELD && Terminated(cpath, 0) && CStr(cpath, 0) == path
    ensures r == Lookup(members, path)
  {
    var address: nat, header: nat := BLOCK, BLOCK;
    ghost var k := 0;
    Round(image, address, members, 0, trailer);
    while image[header] != 0
      invariant 0 <= k <= |members| + 1 && header < |image|
      invariant image[header] == 0 <==> k == |members| + 1 || members == []
      invariant k <= |members| ==> At(image, address, members[k..], trailer)
      invariant k <= |members| ==> FindName(members, path, 0) == FindName(members, path, k)
      invariant k == |members| + 1 ==> FindName(members, path, 0) == |members| && path != []
      invariant members == [] ==> k == 0
      decreases |members| + 1 - k
    {
      header := address;
      Round(image, header, members, k, trailer);
      var size, same := Probe(image, header, cpath, NameAt(members, k), SizeAt(image, header), YieldAt(members, k));
      if same {
        FoundAt(members, path, k);
        r := GetBuf(image, address, size);
        return;
      }
      address := Advance(address, size);
      k := k + 1;
    }
    r := NotFound;
  }
}
