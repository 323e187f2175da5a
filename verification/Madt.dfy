/** The MADT, a table of records, and what its walks must find.  (ACPI Specification 6.4, sections
  5.2.12 and 5.2.12.5.) */
module MadtSpec {
  import opened ByteFields

  const LOCAL_APIC: byte := 0
  const IO_APIC: byte := 1
  const INTERRUPT_OVERRIDE: byte := 2
  const MADT_SIZE: nat := 44            // sizeof(acpi_madt_t)

  const LAPIC_OFFSET: nat := 36         // of lapic_addr

  type Record = seq<byte>

  /** A record starts with its type and its own length. */
  ghost predicate RecordOk(r: Record) {
    && 2 <= |r| && r[1] == |r|
    && (r[0] == IO_APIC || r[0] == INTERRUPT_OVERRIDE ==> |r| >= 8)
  }

  ghost predicate AllOk(records: seq<Record>) {
    forall i :: 0 <= i < |records| ==> RecordOk(records[i])
  }

  function Flatten(records: seq<Record>): seq<byte> {
    if records == [] then [] else records[0] + Flatten(records[1..])
  }

  /** A table: its length is in bytes 4 to 7; records tile what follows the fixed part. */
  ghost predicate TableOk(table: seq<byte>, records: seq<Record>) {
    && MADT_SIZE <= |table| && AllOk(records)
    && table[MADT_SIZE..] == Flatten(records) && Le(table[4..8]) == |table|
  }

  function CountType(records: seq<Record>, kind: byte): nat {
    if records == [] then 0
    else (if |records[0]| > 0 && records[0][0] == kind then 1 else 0) + CountType(records[1..], kind)
  }

  predicate IsIoApic(r: Record) { |r| >= 8 && r[0] == IO_APIC }

  /** The base in the last I/O APIC record. */
  function LastBase(records: seq<Record>, none: nat): nat {
    if records == [] then none
    else
      var r := records[|records| - 1];
      if IsIoApic(r) then Le(r[4..8]) else LastBase(records[..|records| - 1], none)
  }

  predicate Overrides(r: Record, irq: byte) { |r| >= 8 && r[0] == INTERRUPT_OVERRIDE && r[3] == irq }

  /** The first override of an interrupt, as a 16-bit number; the interrupt itself if there is none. */
  ghost predicate IsGsi(records: seq<Record>, irq: byte, gsi: nat) {
    if forall i :: 0 <= i < |records| ==> !Overrides(records[i], irq) then gsi == irq
    else exists i :: 0 <= i < |records| && Overrides(records[i], irq) && gsi == Le(records[i][4..8]) % 0x1_0000
                  && forall j :: 0 <= j < i ==> !Overrides(records[j], irq)
  }

  /** There is only one such number. */
  lemma GsiUnique(records: seq<Record>, irq: byte, g: nat, h: nat)
    requires IsGsi(records, irq, g) && IsGsi(records, irq, h)
    ensures g == h
  {
  }

  // ----- the table, written ---------------------------------------------------------------------

  /** What firmware describes: a processor, an I/O APIC, an interrupt override; or something that the
    kernel passes over. */
  datatype Entry =
    | Processor(id: byte, apicId: byte, flags: nat)
    | IoApic(id: byte, address: nat, gsiBase: nat)
    | Override(bus: byte, source: byte, gsi: nat, flags: nat)
    | Unknown(kind: byte, payload: seq<byte>)

  predicate EntryOk(e: Entry) {
    match e
    case Processor(_, _, flags) => flags < 0x1_0000_0000
    case IoApic(_, address, gsiBase) => address < 0x1_0000_0000 && gsiBase < 0x1_0000_0000
    case Override(_, _, gsi, flags) => gsi < 0x1_0000_0000 && flags < 0x1_0000
    case Unknown(kind, payload) => kind > INTERRUPT_OVERRIDE && |payload| < 254
  }

  function EncodeEntry(e: Entry): Record
    requires EntryOk(e)
  {
    match e
    case Processor(id, apicId, flags) => [0, 8, id, apicId] + LeBytes(flags, 4)
    case IoApic(id, address, gsiBase) => [1, 12, id, 0] + LeBytes(address, 4) + LeBytes(gsiBase, 4)
    case Override(bus, source, gsi, flags) => [2, 10, bus, source] + LeBytes(gsi, 4) + LeBytes(flags, 2)
    case Unknown(kind, payload) => [kind, |payload| + 2] + payload
  }

  ghost predicate EntriesOk(entries: seq<Entry>) {
    forall i :: 0 <= i < |entries| ==> EntryOk(entries[i])
  }

  ghost function EncodeEntries(entries: seq<Entry>): (records: seq<Record>)
    requires EntriesOk(entries)
    ensures |records| == |entries|
    ensures forall i :: 0 <= i < |entries| ==> records[i] == EncodeEntry(entries[i])
  {
    seq(|entries|, i requires 0 <= i < |entries| => EncodeEntry(entries[i]))
  }

  /** A record is recognized for what it describes, and its fields are read from where they are. */
  lemma EntryRead(e: Entry, irq: byte)
    requires EntryOk(e)
    ensures var r := EncodeEntry(e);
      && RecordOk(r) && (r[0] == LOCAL_APIC <==> e.Processor?) && (IsIoApic(r) <==> e.IoApic?)
      && (Overrides(r, irq) <==> e.Override? && e.source == irq)
      && (e.IoApic? ==> Le(r[4..8]) == e.address) && (e.Override? ==> Le(r[4..8]) == e.gsi)
  {
    FieldSizes();
    match e
    case IoApic(_, address, _) => LeRoundTrip(address, 4); assert EncodeEntry(e)[4..8] == LeBytes(address, 4);
    case Override(_, _, gsi, _) => LeRoundTrip(gsi, 4); assert EncodeEntry(e)[4..8] == LeBytes(gsi, 4);
    case _ =>
  }

  /** A whole table: signature, length, the rest of the header, the local APIC's address, flags, and
    the records. */
  ghost function EncodeMadt(signature: seq<byte>, rest: seq<byte>, lapic: nat, flags: nat, entries: seq<Entry>)
      : seq<byte>
    requires EntriesOk(entries)
  {
    var records := Flatten(EncodeEntries(entries));
    signature + LeBytes(MADT_SIZE + |records|, 4) + rest + LeBytes(lapic, 4) + LeBytes(flags, 4) + records
  }

  /** Its records tile it, and its fields are read from where they are. */
  lemma WrittenTable(signature: seq<byte>, rest: seq<byte>, lapic: nat, flags: nat, entries: seq<Entry>)
    requires EntriesOk(entries) && |signature| == 4 && |rest| == 28
    requires lapic < 0x1_0000_0000 && MADT_SIZE + |Flatten(EncodeEntries(entries))| < 0x1_0000_0000
    ensures var table := EncodeMadt(signature, rest, lapic, flags, entries);
      TableOk(table, EncodeEntries(entries)) && Le(table[LAPIC_OFFSET..LAPIC_OFFSET + 4]) == lapic
  {
    var table, records := EncodeMadt(signature, rest, lapic, flags, entries), EncodeEntries(entries);
    FieldSizes();
    LeRoundTrip(MADT_SIZE + |Flatten(records)|, 4);
    LeRoundTrip(lapic, 4);
    forall i | 0 <= i < |records| ensures RecordOk(records[i]) { EntryRead(entries[i], 0); }
    assert table[4..8] == LeBytes(MADT_SIZE + |Flatten(records)|, 4);
    assert table[LAPIC_OFFSET..LAPIC_OFFSET + 4] == LeBytes(lapic, 4);
    assert table[MADT_SIZE..] == Flatten(records);
  }

  function Processors(entries: seq<Entry>): nat {
    if entries == [] then 0 else (if entries[0].Processor? then 1 else 0) + Processors(entries[1..])
  }

  /** What parse_madt counts are the processors. */
  lemma {:induction false} CountIsProcessors(entries: seq<Entry>)
    requires EntriesOk(entries)
    ensures CountType(EncodeEntries(entries), LOCAL_APIC) == Processors(entries)
  {
    if entries == [] {
    } else {
      EntryRead(entries[0], 0);
      assert EncodeEntries(entries)[1..] == EncodeEntries(entries[1..]);
      CountIsProcessors(entries[1..]);
    }
  }

  /** The base it keeps is the address of the last I/O APIC. */
  lemma {:induction false} BaseIsLast(entries: seq<Entry>, none: nat, i: nat)
    requires EntriesOk(entries) && i < |entries| && entries[i].IoApic?
    requires forall j :: i < j < |entries| ==> !entries[j].IoApic?
    ensures LastBase(EncodeEntries(entries), none) == entries[i].address
  {
    LastEntry(entries, none);
    if i < |entries| - 1 { BaseIsLast(entries[..|entries| - 1], none, i); }
  }

  /** ... or what it was, if there is none. */
  lemma {:induction false} BaseIsNone(entries: seq<Entry>, none: nat)
    requires EntriesOk(entries) && forall j :: 0 <= j < |entries| ==> !entries[j].IoApic?
    ensures LastBase(EncodeEntries(entries), none) == none
  {
    if entries == [] {
    } else {
      LastEntry(entries, none);
      BaseIsNone(entries[..|entries| - 1], none);
    }
  }

  lemma LastEntry(entries: seq<Entry>, none: nat)
    requires EntriesOk(entries) && entries != []
    ensures var n := |entries| - 1;
      LastBase(EncodeEntries(entries), none) ==
        if entries[n].IoApic? then entries[n].address else LastBase(EncodeEntries(entries[..n]), none)
  {
    var n, records := |entries| - 1, EncodeEntries(entries);
    EntryRead(entries[n], 0);
    assert records[n] == EncodeEntry(entries[n]) && records[..n] == EncodeEntries(entries[..n]);
  }

  /** An interrupt is what its first override says, cut to 16 bits, or itself. */
  lemma GsiIsOverride(entries: seq<Entry>, irq: byte, gsi: nat)
    requires EntriesOk(entries)
    ensures IsGsi(EncodeEntries(entries), irq, gsi) <==>
      if forall i :: 0 <= i < |entries| ==> !(entries[i].Override? && entries[i].source == irq) then gsi == irq
      else exists i :: 0 <= i < |entries| && entries[i].Override? && entries[i].source == irq
                    && gsi == entries[i].gsi % 0x1_0000
                    && forall j :: 0 <= j < i ==> !(entries[j].Override? && entries[j].source == irq)
  {
    forall i | 0 <= i < |entries|
      ensures Overrides(EncodeEntries(entries)[i], irq) <==> entries[i].Override? && entries[i].source == irq
      ensures entries[i].Override? ==> Le(EncodeEntries(entries)[i][4..8]) == entries[i].gsi
    {
      EntryRead(entries[i], irq);
    }
  }

  lemma LastBasePush(records: seq<Record>, r: Record, none: nat)
    ensures LastBase(records + [r], none) == if IsIoApic(r) then Le(r[4..8]) else LastBase(records, none)
  {
    assert (records + [r])[..|records|] == records;
  }

  lemma {:induction false} CountPush(records: seq<Record>, r: Record, kind: byte)
    requires |r| > 0
    ensures CountType(records + [r], kind) == CountType(records, kind) + if r[0] == kind then 1 else 0
  {
    if records == [] {
    } else {
      assert (records + [r])[1..] == records[1..] + [r];
      CountPush(records[1..], r, kind);
    }
  }
}

/** The walks of acpi.c. */
module Madt {
  import opened ByteFields
  import opened MadtSpec

  /** The cursor of a walk stands at record k. */
  ghost predicate At(table: seq<byte>, records: seq<Record>, cur: nat, k: nat) {
    k <= |records| && cur <= |table| && table[cur..] == Flatten(records[k..])
  }

  lemma AtRecord(table: seq<byte>, records: seq<Record>, cur: nat, k: nat)
    requires AllOk(records) && At(table, records, cur, k)
    ensures cur < |table| <==> k < |records|
    ensures k < |records| ==>
      && RecordOk(records[k]) && cur + |records[k]| <= |table| && table[cur..cur + |records[k]|] == records[k]
      && At(table, records, cur + |records[k]|, k + 1)
  {
    if k < |records| {
      var r, rest := records[k], Flatten(records[k + 1..]);
      assert records[k..][0] == r && records[k..][1..] == records[k + 1..] && RecordOk(r);
      assert table[cur..] == r + rest;
      assert table[cur..cur + |r|] == table[cur..][..|r|];
      assert table[cur + |r|..] == table[cur..][|r|..];
    }
  }

  lemma Fields(table: seq<byte>, cur: nat, r: Record)
    requires cur + |r| <= |table| && table[cur..cur + |r|] == r && RecordOk(r)
    ensures table[cur] == r[0] && table[cur + 1] == r[1]
    ensures |r| >= 8 ==> table[cur + 3] == r[3] && table[cur + 4..cur + 8] == r[4..8]
  {
    forall i | 0 <= i < |r| ensures table[cur + i] == r[i] {
      assert table[cur..cur + |r|][i] == r[i];
    }
  }

  lemma PrefixGrows(records: seq<Record>, k: nat, none: nat)
    requires k < |records| && RecordOk(records[k])
    ensures CountType(records[..k + 1], LOCAL_APIC) ==
      CountType(records[..k], LOCAL_APIC) + if records[k][0] == LOCAL_APIC then 1 else 0
    ensures LastBase(records[..k + 1], none) ==
      if IsIoApic(records[k]) then Le(records[k][4..8]) else LastBase(records[..k], none)
  {
    assert records[..k + 1] == records[..k] + [records[k]];
    CountPush(records[..k], records[k], LOCAL_APIC);
    LastBasePush(records[..k], records[k], none);
  }

  /** What parse_madt does with a record. */
  lemma Visit(table: seq<byte>, records: seq<Record>, cur: nat, k: nat, none: nat)
    requires AllOk(records) && At(table, records, cur, k) && cur < |table|
    ensures k < |records| && cur + 2 <= |table| && (table[cur] == IO_APIC ==> cur + 8 <= |table|)
    ensures table[cur + 1] > 0 && At(table, records, cur + table[cur + 1] as nat, k + 1)
    ensures CountType(records[..k + 1], LOCAL_APIC) ==
      CountType(records[..k], LOCAL_APIC) + if table[cur] == LOCAL_APIC then 1 else 0
    ensures LastBase(records[..k + 1], none) ==
      if table[cur] == IO_APIC then Le(table[cur + 4..cur + 8]) else LastBase(records[..k], none)
  {
    AtRecord(table, records, cur, k);
    Fields(table, cur, records[k]);
    PrefixGrows(records, k, none);
  }

  /** What parse_madt has found after the first k records. */
  ghost predicate Found(records: seq<Record>, k: nat, nCores: nat, base: nat, cores0: nat, base0: nat)
    requires k <= |records|
  {
    nCores == (cores0 + CountType(records[..k], LOCAL_APIC)) % 256 && base == LastBase(records[..k], base0)
  }

  lemma FoundMore(table: seq<byte>, records: seq<Record>, cur: nat, k: nat, nCores: nat, base: nat,
                  cores0: nat, base0: nat)
    requires AllOk(records) && At(table, records, cur, k) && cur < |table|
    requires k < |records| ==> Found(records, k, nCores, base, cores0, base0)
    ensures k < |records| && cur + 2 <= |table| && (table[cur] == IO_APIC ==> cur + 8 <= |table|)
    ensures table[cur + 1] > 0 && At(table, records, cur + table[cur + 1] as nat, k + 1)
    ensures Found(records, k + 1, if table[cur] == LOCAL_APIC then (nCores + 1) % 256 else nCores,
                  if table[cur] == IO_APIC then Le(table[cur + 4..cur + 8]) else base, cores0, base0)
  {
    Visit(table, records, cur, k, base0);
    OneMore(cores0 + CountType(records[..k], LOCAL_APIC));
  }

  lemma OneMore(n: nat)
    ensures (n % 256 + 1) % 256 == (n + 1) % 256
  {
  }

  class Acpi {
    var madt: seq<byte>
    var nCores: nat                     // uint8_t
    var ioapicBase: nat
    var lapicBase: nat

    ghost predicate Valid(records: seq<Record>)
      reads this
    {
      TableOk(madt, records) && nCores < 256
    }

    /** parse_madt. */
    method ParseMadt(ghost records: seq<Record>)
      requires Valid(records)
      modifies `nCores, `ioapicBase, `lapicBase
      ensures Valid(records) && lapicBase == Le(madt[LAPIC_OFFSET..LAPIC_OFFSET + 4])
      ensures nCores == (old(nCores) + CountType(records, LOCAL_APIC)) % 256
      ensures ioapicBase == LastBase(records, old(ioapicBase))
    {
      lapicBase := Le(madt[LAPIC_OFFSET..LAPIC_OFFSET + 4]);
      var cur, end := MADT_SIZE, Le(madt[4..8]);
      ghost var k := 0;
      assert records[0..] == records;
      while cur < end
        invariant At(madt, records, cur, k) && end == |madt|
        invariant Found(records, k, nCores, ioapicBase, old(nCores), old(ioapicBase))
        invariant lapicBase == Le(madt[LAPIC_OFFSET..LAPIC_OFFSET + 4])
        decreases end - cur
      {
        FoundMore(madt, records, cur, k, nCores, ioapicBase, old(nCores), old(ioapicBase));
        if madt[cur] == LOCAL_APIC {
          nCores := (nCores + 1) % 256;
        } else if madt[cur] == IO_APIC {
          ioapicBase := Le(madt[cur + 4..cur + 8]);
        }
        cur := cur + madt[cur + 1] as nat;
        k := k + 1;
      }
      AtRecord(madt, records, cur, k);
      assert records[..k] == records;
    }

    /** acpi_irq_to_gsi. */
    method IrqToGsi(irq: byte, ghost records: seq<Record>) returns (gsi: nat)
      requires Valid(records)
      ensures IsGsi(records, irq, gsi)
    {
      var cur, end := MADT_SIZE, Le(madt[4..8]);
      ghost var k := 0;
      assert records[0..] == records;
      while cur < end
        invariant At(madt, records, cur, k) && end == |madt|
        invariant forall j :: 0 <= j < k ==> !Overrides(records[j], irq)
        decreases end - cur
      {
        AtRecord(madt, records, cur, k);
        Fields(madt, cur, records[k]);
        if madt[cur] == INTERRUPT_OVERRIDE && madt[cur + 3] == irq {
          assert Overrides(records[k], irq);
          return Le(madt[cur + 4..cur + 8]) % 0x1_0000;
        }
        cur := cur + madt[cur + 1] as nat;
        k := k + 1;
      }
      AtRecord(madt, records, cur, k);
      gsi := irq;
    }
  }
}
