/** What the gateway decodes from what a node sends: the node's packet
    builders (BranlyProtocol) against the gateway's decoder (BranlyPacket)
    and the modem line format (Gateway). The two sides agree on the packet
    codes and on the layout of report entries; the contact list byte keeps
    only three bits of a contact id and four of its type, and a report
    entry of size class 8, 16 or 24 bits carries one byte of the value,
    read back without sign extension. */
module RoundTrip {
  import opened Common
  import opened BranlyProtocol
  import opened BranlyPacket
  import Gateway

  /** The packet codes of the node are the gateway's kPacket* constants. */
  lemma PacketCodesAgree()
    ensures PacketType.Hello.Code() == PacketHello
    ensures PacketType.Ping.Code() == PacketPing
    ensures PacketType.ContactList.Code() == PacketContactList
    ensures PacketType.ContactReport.Code() == PacketContactReport
    ensures PacketType.ContactValue.Code() == PacketContactValue
  {
  }

  /** The size class 32 bits (code 3) is the only one whose entries the
      decoder reads as five bytes, and the only one the encoder writes as
      five bytes. */
  lemma EntryLengthAgrees(v: ContactView)
    ensures EntryLength(EntryHeader(v)) == |EntryBytes(v)|
    ensures EntryLength(EntryHeader(v)) == 5 <==> v.size == Size32
  {
  }

  // ---------------------------------------------------------------------
  // Contact lists

  /** What the gateway learns about a contact from its contact list byte. */
  function ListedAs(v: ContactView): ListEntry
  {
    ListEntry(v.id % 8, v.ctype % 16, if v.writeable then 1 else 0)
  }

  /** The contact list body decodes to one entry per contact, in order,
      with the id's low three bits, the type's low four bits and the
      writeable bit. */
  lemma ListRoundTrip(vs: seq<ContactView>)
    ensures |ListEntries(ListBytes(vs))| == |vs|
    ensures forall k :: 0 <= k < |vs| ==> ListEntries(ListBytes(vs))[k] == ListedAs(vs[k])
  {
    var bs := ListBytes(vs);
    forall k | 0 <= k < |vs|
      ensures ListEntryOf(bs[k]) == ListedAs(vs[k])
    {
      var b := bs[k];
      assert b / 128 < 2;
    }
  }

  /** Contacts 1 and 9 of the same type are listed alike: ids from 8
      upwards alias the ids below them. */
  lemma ListIdsAlias(ctype: nat, value: long, size: ContactSize)
    ensures ListedAs(ContactView(1, ctype, false, value, size, false))
         == ListedAs(ContactView(9, ctype, false, value, size, false))
  {
  }

  /** The user-defined type 100 is listed as type 4 (humidity). */
  lemma UserDefinedListedAs(id: byte, value: long, size: ContactSize)
    ensures ListedAs(ContactView(id, 100, false, value, size, false)).ctype == 4
  {
  }

  // ---------------------------------------------------------------------
  // Report entries

  /** The value the gateway reads back: the 32-bit pattern for a 32-bit
      entry, otherwise the low byte, both as unsigned numbers. */
  function ReportedValue(v: ContactView): nat
  {
    if v.size == Size32 then v.value % 0x1_0000_0000 else v.value % 0x100
  }

  /** The entry the gateway decodes from a contact's report entry. */
  function ReportedAs(v: ContactView): ValueEntry
  {
    ValueEntry(v.id % 16, ReportedValue(v), ReportFlags(v))
  }

  function ReportedAll(vs: seq<ContactView>): seq<ValueEntry>
  {
    seq(|vs|, k requires 0 <= k < |vs| => ReportedAs(vs[k]))
  }

  /** Reading four little-endian bytes gives back the unsigned 32-bit value. */
  lemma LittleEndianValue(value: long)
    ensures var bs := LittleEndian32(value);
      Value32(bs[0], bs[1], bs[2], bs[3]) == value % 0x1_0000_0000
  {
    var u := value % 0x1_0000_0000;
    var a := u / 0x100;
    var b := a / 0x100;
    assert u == a * 0x100 + u % 0x100;
    assert a == b * 0x100 + a % 0x100;
    assert b == b / 0x100 * 0x100 + b % 0x100;
    assert u / 0x1_0000 == b;
    assert u / 0x100_0000 == b / 0x100;
    assert b / 0x100 < 0x100;
  }

  /** The header byte of an entry carries the size code, the id and the flags. */
  lemma HeaderFields(v: ContactView)
    ensures HeaderSize(EntryHeader(v)) == v.size.Code()
    ensures EntryHeader(v) % 16 == v.id % 16
    ensures EntryHeader(v) / 64 % 4 == ReportFlags(v)
  {
    var h := EntryHeader(v);
    assert ContactGetSize(h) == v.size.Code() % 4;
    assert ContactGetFlags(h) == ReportFlags(v) % 4;
  }

  lemma LongEntryRoundTrip(v: ContactView, rest: seq<byte>)
    requires v.size == Size32
    ensures DecodeEntry(EntryBytes(v) + rest) == Some((ReportedAs(v), 5))
  {
    var p := EntryBytes(v) + rest;
    var bs := LittleEndian32(v.value);
    assert p[0] == EntryHeader(v);
    assert p[1] == bs[0] && p[2] == bs[1] && p[3] == bs[2] && p[4] == bs[3];
    HeaderFields(v);
    LittleEndianValue(v.value);
  }

  lemma ShortEntryRoundTrip(v: ContactView, rest: seq<byte>)
    requires v.size != Size32
    ensures DecodeEntry(EntryBytes(v) + rest) == Some((ReportedAs(v), 2))
  {
    var p := EntryBytes(v) + rest;
    assert p[0] == EntryHeader(v) && p[1] == v.value % 0x100;
    HeaderFields(v);
  }

  /** One entry decodes to its contact's id, value and flags, whatever
      follows it. */
  lemma EntryRoundTrip(v: ContactView, rest: seq<byte>)
    ensures DecodeEntry(EntryBytes(v) + rest) == Some((ReportedAs(v), |EntryBytes(v)|))
  {
    if v.size == Size32 {
      LongEntryRoundTrip(v, rest);
    } else {
      ShortEntryRoundTrip(v, rest);
    }
  }

  /** EntriesBytes taken apart at the front. */
  lemma {:induction false} EntriesBytesCons(v: ContactView, vs: seq<ContactView>)
    ensures EntriesBytes([v] + vs) == EntryBytes(v) + EntriesBytes(vs)
    decreases |vs|
  {
    if vs == [] {
      assert [v] + vs == [v];
      assert [v][..0] == [];
    } else {
      var init := vs[..|vs| - 1];
      assert ([v] + vs)[..|vs|] == [v] + init;
      EntriesBytesCons(v, init);
    }
  }

  /** A contact report body decodes to one entry per contact, in order. */
  lemma {:induction false} ReportRoundTrip(vs: seq<ContactView>)
    ensures ReportEntries(EntriesBytes(vs)) == Some(ReportedAll(vs))
    decreases |vs|
  {
    if vs == [] {
      assert ReportedAll(vs) == [];
    } else {
      var v, tail := vs[0], vs[1..];
      assert vs == [v] + tail;
      EntriesBytesCons(v, tail);
      ReportRoundTrip(tail);
      EntryThenReport(v, EntriesBytes(tail), ReportedAll(tail));
      ReportedAllCons(v, tail);
    }
  }

  lemma ReportedAllCons(v: ContactView, vs: seq<ContactView>)
    ensures ReportedAll([v] + vs) == [ReportedAs(v)] + ReportedAll(vs)
  {
  }

  /** One entry in front of a body that decodes puts its contact in front. */
  lemma EntryThenReport(v: ContactView, rest: seq<byte>, es: seq<ValueEntry>)
    requires ReportEntries(rest) == Some(es)
    ensures ReportEntries(EntryBytes(v) + rest) == Some([ReportedAs(v)] + es)
  {
    EntryRoundTrip(v, rest);
    var p := EntryBytes(v) + rest;
    assert p[|EntryBytes(v)|..] == rest;
  }

  /** A contact value body decodes to exactly its one entry. */
  lemma ValueRoundTrip(v: ContactView)
    ensures ParseBody(PacketContactValue, EntryBytes(v)) == BodyOk(ValuesBody([ReportedAs(v)]))
  {
    EntryRoundTrip(v, []);
    assert EntryBytes(v) + [] == EntryBytes(v);
  }

  /** An entry cut short does not decode. */
  lemma TruncatedEntry(v: ContactView, k: nat)
    requires 0 < k < |EntryBytes(v)|
    ensures ReportEntries(EntryBytes(v)[..k]) == None
  {
    var part := EntryBytes(v)[..k];
    assert part[0] == EntryHeader(v);
    HeaderFields(v);
  }

  /** A report cut short inside its last entry raises in the decoder. */
  lemma {:induction false} TruncatedReport(vs: seq<ContactView>, v: ContactView, k: nat)
    requires 0 < k < |EntryBytes(v)|
    ensures ReportEntries(EntriesBytes(vs) + EntryBytes(v)[..k]) == None
    decreases |vs|
  {
    var part := EntryBytes(v)[..k];
    if vs == [] {
      assert EntriesBytes(vs) + part == part;
      TruncatedEntry(v, k);
    } else {
      var w := vs[0];
      assert [w] + vs[1..] == vs;
      EntriesBytesCons(w, vs[1..]);
      var rest := EntriesBytes(vs[1..]) + part;
      assert EntriesBytes(vs) + part == EntryBytes(w) + rest;
      EntryRoundTrip(w, rest);
      assert (EntryBytes(w) + rest)[|EntryBytes(w)|..] == rest;
      TruncatedReport(vs[1..], v, k);
    }
  }

  /** Negative 8-bit readings reach the gateway as their byte: -1 reads 255. */
  lemma NoSignExtension(id: byte)
    ensures ReportedAs(ContactView(id, 1, false, -1, Size8, false)).value == 255
  {
  }

  /** With at most twelve contacts a report always fits the 64-byte buffer;
      thirteen or more 32-bit contacts never do (a node admits sixteen). */
  lemma ReportFits(vs: seq<ContactView>)
    ensures |vs| <= 12 ==> 2 + |EntriesBytes(vs)| <= BufferSize
    ensures (|vs| > 12 && forall k :: 0 <= k < |vs| ==> vs[k].size == Size32) ==> 2 + |EntriesBytes(vs)| > BufferSize
  {
    EntriesBytesBound(vs);
    if forall k :: 0 <= k < |vs| ==> vs[k].size == Size32 {
      AllLongEntries(vs);
    }
  }

  lemma {:induction false} AllLongEntries(vs: seq<ContactView>)
    requires forall k :: 0 <= k < |vs| ==> vs[k].size == Size32
    ensures |EntriesBytes(vs)| == 5 * |vs|
  {
    if vs != [] {
      AllLongEntries(vs[..|vs| - 1]);
    }
  }

  // ---------------------------------------------------------------------
  // Whole packets, as the modem prints them

  /** A contact report built by a node and printed by the modem reaches
      handlePacket with the node's counter as sequence number and one
      entry per contact. */
  lemma ReportPacketDelivered(fromAddr: nat, toAddr: nat, rssi: int, counter: byte, vs: seq<ContactView>)
    ensures Gateway.Classify(Gateway.ModemLine(fromAddr, toAddr, rssi, [PacketType.ContactReport.Code(), counter] + EntriesBytes(vs)))
      == Gateway.Deliver(Packet(fromAddr, toAddr, rssi, PacketContactReport, counter, EntriesBytes(vs), ValuesBody(ReportedAll(vs))))
  {
    var radio := [PacketType.ContactReport.Code(), counter] + EntriesBytes(vs);
    assert radio[2..] == EntriesBytes(vs);
    ReportRoundTrip(vs);
    Gateway.ModemLineClassified(fromAddr, toAddr, rssi, radio);
  }

  /** Likewise a contact list: one listed entry per contact. */
  lemma ListPacketDelivered(fromAddr: nat, toAddr: nat, rssi: int, counter: byte, vs: seq<ContactView>)
    ensures Gateway.Classify(Gateway.ModemLine(fromAddr, toAddr, rssi, [PacketType.ContactList.Code(), counter] + ListBytes(vs)))
      == Gateway.Deliver(Packet(fromAddr, toAddr, rssi, PacketContactList, counter, ListBytes(vs), ListBody(ListEntries(ListBytes(vs)))))
  {
    var radio := [PacketType.ContactList.Code(), counter] + ListBytes(vs);
    assert radio[2..] == ListBytes(vs);
    Gateway.ModemLineClassified(fromAddr, toAddr, rssi, radio);
  }

  /** Likewise a contact value packet: its one entry. */
  lemma ValuePacketDelivered(fromAddr: nat, toAddr: nat, rssi: int, counter: byte, v: ContactView)
    ensures Gateway.Classify(Gateway.ModemLine(fromAddr, toAddr, rssi, [PacketType.ContactValue.Code(), counter] + EntryBytes(v)))
      == Gateway.Deliver(Packet(fromAddr, toAddr, rssi, PacketContactValue, counter, EntryBytes(v), ValuesBody([ReportedAs(v)])))
  {
    var radio := [PacketType.ContactValue.Code(), counter] + EntryBytes(v);
    assert radio[2..] == EntryBytes(v);
    ValueRoundTrip(v);
    Gateway.ModemLineClassified(fromAddr, toAddr, rssi, radio);
  }

  /** A hello packet carries the versions, and the MCUSR byte the builder
      writes as 0. */
  lemma HelloPacketDelivered(fromAddr: nat, toAddr: nat, rssi: int, counter: byte, hwVersion: byte, swVersion: byte)
    ensures Gateway.Classify(Gateway.ModemLine(fromAddr, toAddr, rssi, [PacketType.Hello.Code(), counter, hwVersion, swVersion, 0]))
      == Gateway.Deliver(Packet(fromAddr, toAddr, rssi, PacketHello, counter, [hwVersion, swVersion, 0], HelloBody(hwVersion, swVersion, 0)))
  {
    var radio: seq<byte> := [PacketType.Hello.Code(), counter, hwVersion, swVersion, 0];
    assert radio[2..] == [hwVersion, swVersion, 0];
    Gateway.ModemLineClassified(fromAddr, toAddr, rssi, radio);
  }

  /** A ping packet has no payload. */
  lemma PingPacketDelivered(fromAddr: nat, toAddr: nat, rssi: int, counter: byte)
    ensures Gateway.Classify(Gateway.ModemLine(fromAddr, toAddr, rssi, [PacketType.Ping.Code(), counter]))
      == Gateway.Deliver(Packet(fromAddr, toAddr, rssi, PacketPing, counter, [], PingBody))
  {
    var radio: seq<byte> := [PacketType.Ping.Code(), counter];
    assert radio[2..] == [];
    Gateway.ModemLineClassified(fromAddr, toAddr, rssi, radio);
  }
}
