/** The node side of the radio protocol (BranlyProtocol.h and
    BranlyProtocol.cpp): packet and flag codes, the bit-packing macros, and
    the builders that assemble one packet at a time in a static 64-byte
    buffer, prefixed by the packet type and a wrapping 8-bit counter. */
module BranlyProtocol {
  import opened Common

  /** The packet kinds (BranlyPacket_t), in wire order. */
  datatype PacketType = Hello | Ping | ContactList | ContactReport | ContactValue
  {
    function Code(): byte
    {
      match this
      case Hello => 0
      case Ping => 1
      case ContactList => 2
      case ContactReport => 3
      case ContactValue => 4
    }
  }

  /** ContactFlags_t: the bits of the 2-bit flags field of a report entry. */
  const FlagRFU: nat := 2
  const FlagViolated: nat := 1

  /** ContactSize_t: the 2-bit size class of a report entry. */
  datatype ContactSize = Size8 | Size16 | Size24 | Size32
  {
    function Code(): nat
    {
      match this
      case Size8 => 0
      case Size16 => 1
      case Size24 => 2
      case Size32 => 3
    }
  }

  /** Size of the static packet buffer. */
  const BufferSize: nat := 64

  // ---------------------------------------------------------------------
  // Bit-packing macros. Every argument is unsigned in the source, so the
  // masks `&3`, `&7`, `&0xf` are remainders and the shifts are products.

  /** CONTACT_SET_FLAGS_SIZE_ID: flags in bits 7-6, size in bits 5-4, id in
      bits 3-0; the three CONTACT_GET_* macros recover the masked fields. */
  function ContactSetFlagsSizeId(flags: nat, size: nat, id: nat): (b: byte)
    ensures ContactGetFlags(b) == flags % 4
    ensures ContactGetSize(b) == size % 4
    ensures ContactGetId(b) == id % 16
  {
    (flags % 4) * 64 + (size % 4) * 16 + id % 16
  }

  /** CONTACT_GET_FLAGS */
  function ContactGetFlags(b: nat): nat { b / 64 % 4 }

  /** CONTACT_GET_SIZE */
  function ContactGetSize(b: nat): nat { b / 16 % 4 }

  /** CONTACT_GET_ID */
  function ContactGetId(b: nat): nat { b % 16 }

  /** CONTACTLIST_SET_WR_ID_TYPE: writeable in bit 7, id in bits 6-4, type
      in bits 3-0. Only the low three bits of the id survive. */
  function ContactListSetWrIdType(writeable: bool, id: nat, ctype: nat): (b: byte)
    ensures b / 128 == (if writeable then 1 else 0)
    ensures b / 16 % 8 == id % 8
    ensures b % 16 == ctype % 16
  {
    (if writeable then 1 else 0) * 128 + (id % 8) * 16 + ctype % 16
  }

  // ---------------------------------------------------------------------
  // What the builders write

  /** What a builder reads of one contact at build time: id(), type(),
      isWriteable(), value(), valueSize() and isVioloted(). */
  datatype ContactView = ContactView(
    id: byte, ctype: nat, writeable: bool, value: long, size: ContactSize, violated: bool)

  /** The flags of a report entry: kFlagViolated when the contact is
      violated, nothing otherwise. */
  function ReportFlags(v: ContactView): nat
  {
    if v.violated then FlagViolated else 0
  }

  function EntryHeader(v: ContactView): byte
  {
    ContactSetFlagsSizeId(ReportFlags(v), v.size.Code(), v.id)
  }

  /** The four bytes of `(unsigned long) value`, least significant first. */
  function LittleEndian32(value: long): (bs: seq<byte>)
    ensures |bs| == 4
  {
    var u := value % 0x1_0000_0000;
    [u % 0x100, u / 0x100 % 0x100, u / 0x1_0000 % 0x100, u / 0x100_0000]
  }

  /** One report entry: the header, then four bytes for a 32-bit value or
      the one byte `(char) value` for any other size. */
  function EntryBytes(v: ContactView): (bs: seq<byte>)
    ensures |bs| == (if v.size == Size32 then 5 else 2)
  {
    [EntryHeader(v)] + (if v.size == Size32 then LittleEndian32(v.value) else [v.value % 0x100])
  }

  /** The entries of several contacts, in order. */
  function EntriesBytes(vs: seq<ContactView>): seq<byte>
  {
    if vs == [] then [] else EntriesBytes(vs[..|vs| - 1]) + EntryBytes(vs[|vs| - 1])
  }

  lemma {:induction false} EntriesBytesBound(vs: seq<ContactView>)
    ensures 2 * |vs| <= |EntriesBytes(vs)| <= 5 * |vs|
  {
    if vs != [] {
      EntriesBytesBound(vs[..|vs| - 1]);
    }
  }

  /** How many entries of `vs` carry a 32-bit value. */
  function WideEntries(vs: seq<ContactView>): (w: nat)
    ensures w <= |vs|
  {
    if vs == [] then 0
    else WideEntries(vs[..|vs| - 1]) + (if vs[|vs| - 1].size == Size32 then 1 else 0)
  }

  /** Every entry takes two bytes, and a 32-bit one three more. */
  lemma {:induction false} EntriesBytesLength(vs: seq<ContactView>)
    ensures |EntriesBytes(vs)| == 2 * |vs| + 3 * WideEntries(vs)
  {
    if vs != [] {
      EntriesBytesLength(vs[..|vs| - 1]);
    }
  }

  /** Whether a contact report of `vs` fits the packet buffer, counted in
      contacts and 32-bit contacts; 31 contacts with one-byte values still
      fit. */
  lemma ReportFit(vs: seq<ContactView>)
    ensures 2 + |EntriesBytes(vs)| <= BufferSize <==> 2 * |vs| + 3 * WideEntries(vs) <= 62
    ensures |vs| <= 31 && WideEntries(vs) == 0 ==> 2 + |EntriesBytes(vs)| <= BufferSize
  {
    EntriesBytesLength(vs);
  }

  lemma EntriesBytesSnoc(vs: seq<ContactView>, v: ContactView)
    ensures EntriesBytes(vs + [v]) == EntriesBytes(vs) + EntryBytes(v)
  {
    assert (vs + [v])[..|vs|] == vs;
  }

  /** A contact value packet: its type, the packet counter, then the
      contact's entry. */
  function ValuePacket(counter: byte, v: ContactView): seq<byte>
  {
    [PacketType.ContactValue.Code(), counter] + EntryBytes(v)
  }

  /** The body of a contact list packet: one byte per contact, in node order. */
  function ListBytes(vs: seq<ContactView>): (bs: seq<byte>)
    ensures |bs| == |vs|
    ensures forall k :: 0 <= k < |vs| ==>
      bs[k] == ContactListSetWrIdType(vs[k].writeable, vs[k].id, vs[k].ctype)
  {
    if vs == [] then []
    else ListBytes(vs[..|vs| - 1]) + [ContactListSetWrIdType(vs[|vs| - 1].writeable, vs[|vs| - 1].id, vs[|vs| - 1].ctype)]
  }

  // ---------------------------------------------------------------------
  // The static packet buffer and its builders

  /** BranlyProtocol's static state: mPacketBuffer (the 64-byte buf),
      mPacketLength and mPacketCounter. */
  class PacketBuffer {
    const buffer: array<byte>
    var length: byte
    var counter: byte
    /** Every packet built so far, oldest first; the counter is their
        number modulo 256. */
    ghost var packets: seq<seq<byte>>

    ghost predicate Valid()
      reads this
    {
      buffer.Length == BufferSize && length <= BufferSize && counter == |packets| % 0x100
    }

    /** packetData() up to packetLength(). */
    ghost function Packet(): seq<byte>
      reads this, buffer
      requires Valid()
    {
      buffer[..length]
    }

    constructor ()
      ensures Valid() && fresh(buffer)
      ensures length == 0 && counter == 0 && packets == []
    {
      buffer := new byte[BufferSize];
      length, counter := 0, 0;
      packets := [];
    }

    /** buildDefaultPacket: type at byte 0, the counter at byte 1 (then
        incremented modulo 256), length 2. */
    method BuildDefault(t: PacketType) returns (n: byte)
      requires Valid()
      modifies this, buffer
      ensures Valid()
      ensures n == 2 && length == 2
      ensures Packet() == [t.Code(), old(counter)]
      ensures counter == (old(counter) + 1) % 0x100 && packets == old(packets) + [Packet()]
      ensures buffer[2..] == old(buffer[..])[2..]
    {
      buffer[0] := t.Code();
      buffer[1] := counter;
      counter := (counter + 1) % 0x100;
      length := 2;
      packets := packets + [buffer[..length]];
      n := length;
    }

    /** buildHelloPacket: hardware and software version, then a zero for the
        AVR mcusr register. */
    method BuildHello(hwVersion: byte, swVersion: byte)
      requires Valid()
      modifies this, buffer
      ensures Valid()
      ensures Packet() == [PacketType.Hello.Code(), old(counter), hwVersion, swVersion, 0]
      ensures counter == (old(counter) + 1) % 0x100 && packets == old(packets) + [Packet()]
      ensures buffer[length..] == old(buffer[..])[length..]
    {
      var i := BuildDefault(PacketType.Hello);
      buffer[i] := hwVersion;
      buffer[i + 1] := swVersion;
      buffer[i + 2] := 0;
      length := i + 3;
      packets := old(packets) + [buffer[..length]];
    }

    /** buildPingPacket: the default packet alone. */
    method BuildPing()
      requires Valid()
      modifies this, buffer
      ensures Valid()
      ensures Packet() == [PacketType.Ping.Code(), old(counter)]
      ensures counter == (old(counter) + 1) % 0x100 && packets == old(packets) + [Packet()]
      ensures buffer[length..] == old(buffer[..])[length..]
    {
      var _ := BuildDefault(PacketType.Ping);
    }

    /** buildContactListPacket: one CONTACTLIST_SET_WR_ID_TYPE byte per
        contact, in node order. */
    method BuildContactList(contacts: seq<ContactView>)
      requires Valid()
      requires 2 + |contacts| <= BufferSize
      modifies this, buffer
      ensures Valid()
      ensures Packet() == [PacketType.ContactList.Code(), old(counter)] + ListBytes(contacts)
      ensures counter == (old(counter) + 1) % 0x100 && packets == old(packets) + [Packet()]
      ensures buffer[length..] == old(buffer[..])[length..]
    {
      var i := BuildDefault(PacketType.ContactList);
      ghost var head := buffer[..2];
      ghost var tail := old(buffer[..]);
      var j := 0;
      while j < |contacts|
        invariant 0 <= j <= |contacts|
        invariant i == 2 + j
        invariant buffer[..i] == head + ListBytes(contacts[..j])
        invariant buffer[i..] == tail[i..]
        invariant counter == (old(counter) + 1) % 0x100 && length == 2
      {
        ghost var before := buffer[..];
        var c := contacts[j];
        buffer[i] := ContactListSetWrIdType(c.writeable, c.id, c.ctype);
        assert contacts[..j + 1][..j] == contacts[..j];
        SliceJoin(buffer[..], before, tail, i, i + 1);
        i, j := i + 1, j + 1;
      }
      assert contacts[..j] == contacts;
      length := i;
      packets := old(packets) + [buffer[..length]];
    }

    /** Writes one report entry at index i and returns the index after it. */
    method WriteEntry(i: nat, v: ContactView) returns (next: nat)
      requires Valid()
      requires i + |EntryBytes(v)| <= BufferSize
      modifies buffer
      ensures next == i + |EntryBytes(v)|
      ensures buffer[..i] == old(buffer[..i])
      ensures buffer[i..next] == EntryBytes(v)
      ensures buffer[next..] == old(buffer[next..])
    {
      buffer[i] := EntryHeader(v);
      next := i + 1;
      if v.size == Size32 {
        var value := v.value % 0x1_0000_0000;
        buffer[next] := value % 0x100;
        value := value / 0x100;
        buffer[next + 1] := value % 0x100;
        value := value / 0x100;
        buffer[next + 2] := value % 0x100;
        value := value / 0x100;
        buffer[next + 3] := value;
        next := next + 4;
      } else {
        buffer[next] := v.value % 0x100;
        next := next + 1;
      }
      assert buffer[i..next] == EntryBytes(v);
    }

    /** buildContactReportPacket: one entry per contact, in node order. The
        contacts' values are refreshed by the caller. */
    method BuildContactReport(contacts: seq<ContactView>)
      requires Valid()
      requires 2 + |EntriesBytes(contacts)| <= BufferSize
      modifies this, buffer
      ensures Valid()
      ensures Packet() == [PacketType.ContactReport.Code(), old(counter)] + EntriesBytes(contacts)
      ensures counter == (old(counter) + 1) % 0x100 && packets == old(packets) + [Packet()]
      ensures buffer[length..] == old(buffer[..])[length..]
    {
      var _ := BuildDefault(PacketType.ContactReport);
      var i := WriteEntries(contacts);
      assert buffer[..i] == buffer[..2] + buffer[2..i];
      length := i;
      packets := old(packets) + [buffer[..length]];
    }

    /** The loop of buildContactReportPacket: the entries from index 2 on. */
    method WriteEntries(contacts: seq<ContactView>) returns (i: nat)
      requires Valid()
      requires 2 + |EntriesBytes(contacts)| <= BufferSize
      modifies buffer
      ensures i == 2 + |EntriesBytes(contacts)|
      ensures buffer[..2] == old(buffer[..2])
      ensures buffer[2..i] == EntriesBytes(contacts)
      ensures buffer[i..] == old(buffer[i..])
    {
      ghost var head := buffer[..2];
      ghost var tail := buffer[..];
      i := 2;
      var j := 0;
      while j < |contacts|
        invariant 0 <= j <= |contacts|
        invariant i == 2 + |EntriesBytes(contacts[..j])|
        invariant |EntriesBytes(contacts[..j])| <= |EntriesBytes(contacts)|
        invariant buffer[..i] == head + EntriesBytes(contacts[..j])
        invariant buffer[i..] == tail[i..]
      {
        ghost var before := buffer[..];
        ReportStep(contacts, j);
        var next := WriteEntry(i, contacts[j]);
        SliceJoin(buffer[..], before, tail, i, next);
        i, j := next, j + 1;
      }
      assert contacts[..j] == contacts;
      assert buffer[..2] == buffer[..i][..2];
      assert buffer[2..i] == buffer[..i][2..];
    }

    /** buildContactValuePacket: exactly one entry, laid out as in a report. */
    method BuildContactValue(contact: ContactView)
      requires Valid()
      modifies this, buffer
      ensures Valid()
      ensures Packet() == [PacketType.ContactValue.Code(), old(counter)] + EntryBytes(contact)
      ensures counter == (old(counter) + 1) % 0x100 && packets == old(packets) + [Packet()]
      ensures buffer[length..] == old(buffer[..])[length..]
    {
      var i := BuildDefault(PacketType.ContactValue);
      ghost var head := buffer[..2];
      var next := WriteEntry(i, contact);
      assert buffer[..next] == buffer[..i] + buffer[i..next];
      length := next;
      packets := old(packets) + [buffer[..length]];
    }
  }

  lemma ReportStep(vs: seq<ContactView>, j: nat)
    requires j < |vs|
    ensures EntriesBytes(vs[..j + 1]) == EntriesBytes(vs[..j]) + EntryBytes(vs[j])
    ensures |EntriesBytes(vs[..j + 1])| <= |EntriesBytes(vs)|
  {
    assert vs[..j + 1] == vs[..j] + [vs[j]];
    EntriesBytesSnoc(vs[..j], vs[j]);
    EntriesBytesPrefix(vs, j + 1);
  }

  /** The array after writing [i, next) over `before`, which agreed with
      `tail` from i on. */
  lemma SliceJoin(after: seq<byte>, before: seq<byte>, tail: seq<byte>, i: nat, next: nat)
    requires i <= next <= |after| == |before| == |tail|
    requires after[..i] == before[..i]
    requires after[next..] == before[next..]
    requires before[i..] == tail[i..]
    ensures after[..next] == before[..i] + after[i..next]
    ensures after[next..] == tail[next..]
  {
    assert after[..next] == after[..i] + after[i..next];
    assert before[next..] == before[i..][next - i..];
  }

  /** A prefix of the contacts never needs more bytes than all of them. */
  lemma {:induction false} EntriesBytesPrefix(vs: seq<ContactView>, k: nat)
    requires k <= |vs|
    ensures |EntriesBytes(vs[..k])| <= |EntriesBytes(vs)|
    decreases |vs|
  {
    if k < |vs| {
      assert vs[..|vs| - 1][..k] == vs[..k];
      EntriesBytesPrefix(vs[..|vs| - 1], k);
    } else {
      assert vs[..k] == vs;
    }
  }
}
