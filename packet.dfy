/** The gateway's radio packet decoder (class BranlyPacket in emoncms.py).
    The modem prints a received packet as the fields
    `<from>:<to>:<rssi>:<type> <seqNo> <byte> <byte> ...`, addresses and
    payload bytes in hex. Decoding either accepts the packet, marks it
    invalid (the `valid` member), or stops with a Python exception (from
    int(), bytearray.fromhex or an index past the end of the payload),
    which the gateway thread catches and logs. A BranlyPacket is never
    changed after its constructor returns, so it is modelled as a value. */
module BranlyPacket {
  import opened Common

  /** The packet type codes the gateway knows (kPacket*). */
  const PacketHello: nat := 0
  const PacketPing: nat := 1
  const PacketContactList: nat := 2
  const PacketContactReport: nat := 3
  const PacketContactValue: nat := 4

  /** One entry of contactList: the dictionary {"id", "type", "writeable"};
      writeable is the bit itself, 0 or 1. */
  datatype ListEntry = ListEntry(id: nat, ctype: nat, writeable: nat)

  /** One entry of contactValues: the dictionary {"id", "value", "flags"}. */
  datatype ValueEntry = ValueEntry(id: nat, value: nat, flags: nat)

  /** What __parsePacket leaves behind for each packet type. */
  datatype Body =
    | HelloBody(hwVersion: byte, swVersion: byte, mcusrRegister: byte)
    | PingBody
    | ListBody(contactList: seq<ListEntry>)
    | ValuesBody(contactValues: seq<ValueEntry>)
    | OtherBody

  datatype Packet = Packet(
    fromAddr: int, toAddr: int, rssi: int, ptype: int, seqNo: int,
    payload: seq<byte>, body: Body)

  /** The outcome of constructing a BranlyPacket. */
  datatype Decoded = Accepted(packet: Packet) | Rejected | Raised

  /** The outcome of __parsePacket on its own. */
  datatype BodyResult = BodyOk(body: Body) | BodyRejected | BodyRaised

  // ---------------------------------------------------------------------
  // Contact list

  /** One contact list byte: writeable in bit 7, id in bits 6-4, type in
      bits 3-0. */
  function ListEntryOf(b: byte): ListEntry
  {
    ListEntry(b / 16 % 8, b % 16, b / 128 % 2)
  }

  /** __parseContactListPacket: one entry per payload byte, in order. */
  function ListEntries(p: seq<byte>): seq<ListEntry>
  {
    seq(|p|, k requires 0 <= k < |p| => ListEntryOf(p[k]))
  }

  /** __parseContactListPacket, walking the payload with an index. */
  method ParseContactList(payload: seq<byte>) returns (contactList: seq<ListEntry>)
    ensures contactList == ListEntries(payload)
  {
    var index := 0;
    contactList := [];
    while index < |payload|
      invariant 0 <= index <= |payload|
      invariant contactList == ListEntries(payload[..index])
    {
      var b := payload[index];
      var writeable := b / 128 % 2;
      var contactId := b / 16 % 8;
      var contactType := b % 16;
      assert payload[..index + 1] == payload[..index] + [b];
      index := index + 1;
      contactList := contactList + [ListEntry(contactId, contactType, writeable)];
    }
    assert payload[..index] == payload;
  }

  // ---------------------------------------------------------------------
  // Contact report and contact value

  /** The size field of a report entry header; 3 means four value bytes. */
  function HeaderSize(b: byte): nat { b / 16 % 4 }

  /** How many bytes an entry with header b takes. */
  function EntryLength(b: byte): nat { if HeaderSize(b) == 3 then 5 else 2 }

  /** Four bytes, least significant first. */
  function Value32(b0: byte, b1: byte, b2: byte, b3: byte): nat
  {
    b0 as int + b1 as int * 0x100 + b2 as int * 0x1_0000 + b3 as int * 0x100_0000
  }

  /** The entry at the front of p and its length, or None where the source
      indexes past the end of the payload (an IndexError). The source ORs
      the shifted bytes together; as each byte is below 256 this is their
      weighted sum. */
  function DecodeEntry(p: seq<byte>): (r: Option<(ValueEntry, nat)>)
    requires p != []
    ensures r.Some? <==> EntryLength(p[0]) <= |p|
    ensures r.Some? ==> r.value.1 == EntryLength(p[0])
    ensures r.Some? ==> r.value.0.id == p[0] % 16 && r.value.0.flags == p[0] / 64 % 4
  {
    var h := p[0];
    var entry := ValueEntry(h % 16, 0, h / 64 % 4);
    if HeaderSize(h) == 3 then
      if |p| >= 5 then Some((entry.(value := Value32(p[1], p[2], p[3], p[4])), 5))
      else None
    else if |p| >= 2 then Some((entry.(value := p[1]), 2))
    else None
  }

  /** `vs` in front of the entries of o, if there are any. */
  function Prepend(vs: seq<ValueEntry>, o: Option<seq<ValueEntry>>): Option<seq<ValueEntry>>
  {
    match o
    case None => None
    case Some(rest) => Some(vs + rest)
  }

  /** __parseContactReportPacket: entries one after the other until the
      payload is used up; None if an entry runs past the end. */
  function ReportEntries(p: seq<byte>): Option<seq<ValueEntry>>
    decreases |p|
  {
    if p == [] then Some([])
    else match DecodeEntry(p)
      case None => None
      case Some((e, n)) => Prepend([e], ReportEntries(p[n..]))
  }

  lemma PrependEmpty(o: Option<seq<ValueEntry>>)
    ensures Prepend([], o) == o
  {
    if o.Some? {
      assert [] + o.value == o.value;
    }
  }

  lemma PrependPrepend(a: seq<ValueEntry>, b: seq<ValueEntry>, o: Option<seq<ValueEntry>>)
    ensures Prepend(a, Prepend(b, o)) == Prepend(a + b, o)
  {
    if o.Some? {
      assert a + (b + o.value) == (a + b) + o.value;
    }
  }

  /** __parseContactReportPacket, walking the payload with an index; None
      stands for the IndexError. */
  method ParseContactReport(payload: seq<byte>) returns (contactValues: Option<seq<ValueEntry>>)
    ensures contactValues == ReportEntries(payload)
  {
    var index := 0;
    var values: seq<ValueEntry> := [];
    PrependEmpty(ReportEntries(payload));
    assert payload[0..] == payload;
    while index < |payload|
      invariant 0 <= index <= |payload|
      invariant ReportEntries(payload) == Prepend(values, ReportEntries(payload[index..]))
      decreases |payload| - index
    {
      var rest := payload[index..];
      var h := payload[index];
      var contactFlags := h / 64 % 4;
      var contactSize := h / 16 % 4;
      var contactId := h % 16;
      var contactValue: nat;
      var next: nat;
      if contactSize == 3 {
        if index + 4 >= |payload| {
          assert DecodeEntry(rest).None?;
          return None;
        }
        contactValue := Value32(payload[index + 1], payload[index + 2], payload[index + 3], payload[index + 4]);
        next := index + 5;
      } else {
        if index + 1 >= |payload| {
          assert DecodeEntry(rest).None?;
          return None;
        }
        contactValue := payload[index + 1];
        next := index + 2;
      }
      assert DecodeEntry(rest) == Some((ValueEntry(contactId, contactValue, contactFlags), next - index));
      assert rest[next - index..] == payload[next..];
      PrependPrepend(values, [ValueEntry(contactId, contactValue, contactFlags)], ReportEntries(payload[next..]));
      values := values + [ValueEntry(contactId, contactValue, contactFlags)];
      index := next;
    }
    assert values + [] == values;
    contactValues := Some(values);
  }

  /** __parseContactValuePacket: the first entry alone; an empty or
      truncated payload is an IndexError. */
  function ValueEntries(p: seq<byte>): Option<seq<ValueEntry>>
  {
    if p == [] then None
    else match DecodeEntry(p)
      case None => None
      case Some((e, _)) => Some([e])
  }

  /** __parsePacket: dispatch on the type; a type the gateway does not
      know leaves the packet valid with nothing parsed. */
  function ParseBody(ptype: int, p: seq<byte>): BodyResult
  {
    if ptype == PacketHello then
      if |p| == 3 then BodyOk(HelloBody(p[0], p[1], p[2])) else BodyRejected
    else if ptype == PacketPing then
      if |p| == 0 then BodyOk(PingBody) else BodyRejected
    else if ptype == PacketContactList then BodyOk(ListBody(ListEntries(p)))
    else if ptype == PacketContactReport then
      match ReportEntries(p)
      case None => BodyRaised
      case Some(vs) => BodyOk(ValuesBody(vs))
    else if ptype == PacketContactValue then
      match ValueEntries(p)
      case None => BodyRaised
      case Some(vs) => BodyOk(ValuesBody(vs))
    else BodyOk(OtherBody)
  }

  /** The four fields parsed, up to the payload bytes, or why not. */
  datatype Header = Header(fromAddr: int, toAddr: int, rssi: int, ptype: int, seqNo: int, payload: seq<byte>)
  datatype HeaderResult = HeaderOk(header: Header) | HeaderRejected | HeaderRaised

  /** BranlyPacket.__init__ up to the call of __parsePacket. */
  function ParseHeader(parts: seq<string>): HeaderResult
  {
    if |parts| != 4 then HeaderRejected
    else
      var fromAddr := ParseHex(parts[0]);
      var toAddr := ParseHex(parts[1]);
      var rssi := ParseInt(parts[2]);
      if fromAddr.None? || toAddr.None? || rssi.None? then HeaderRaised
      else
        var tokens := Split(parts[3], ' ');
        if |tokens| < 2 then HeaderRejected
        else
          var ptype := ParseHex(tokens[0]);
          var seqNo := ParseHex(tokens[1]);
          if ptype.None? || seqNo.None? then HeaderRaised
          else match FromHex(Join(tokens[2..], ' '))
            case None => HeaderRaised
            case Some(bytes) =>
              HeaderOk(Header(fromAddr.value, toAddr.value, rssi.value, ptype.value, seqNo.value, bytes))
  }

  /** BranlyPacket(parts): the packet, invalid, or an exception. */
  function DecodePacket(parts: seq<string>): Decoded
  {
    match ParseHeader(parts)
    case HeaderRejected => Rejected
    case HeaderRaised => Raised
    case HeaderOk(h) =>
      match ParseBody(h.ptype, h.payload)
      case BodyRejected => Rejected
      case BodyRaised => Raised
      case BodyOk(body) => Accepted(Packet(h.fromAddr, h.toAddr, h.rssi, h.ptype, h.seqNo, h.payload, body))
  }

  /** The constructor, running the parse loops. */
  method NewPacket(parts: seq<string>) returns (d: Decoded)
    ensures d == DecodePacket(parts)
  {
    var header := ParseHeader(parts);
    if !header.HeaderOk? {
      return if header.HeaderRejected? then Rejected else Raised;
    }
    var h := header.header;
    var body: Body;
    if h.ptype == PacketContactList {
      var entries := ParseContactList(h.payload);
      body := ListBody(entries);
    } else if h.ptype == PacketContactReport {
      var values := ParseContactReport(h.payload);
      if values.None? {
        return Raised;
      }
      body := ValuesBody(values.value);
    } else {
      var r := ParseBody(h.ptype, h.payload);
      if !r.BodyOk? {
        return if r.BodyRejected? then Rejected else Raised;
      }
      body := r.body;
    }
    d := Accepted(Packet(h.fromAddr, h.toAddr, h.rssi, h.ptype, h.seqNo, h.payload, body));
  }

  // ---------------------------------------------------------------------
  // Properties

  /** When a packet is accepted: there were exactly four fields and at least
      two payload tokens; a Hello carries exactly three bytes, a Ping none;
      a list has one entry per byte; a type the gateway does not know is
      accepted with nothing parsed. */
  lemma AcceptedShape(parts: seq<string>)
    requires DecodePacket(parts).Accepted?
    ensures |parts| == 4 && |Split(parts[3], ' ')| >= 2
    ensures var p := DecodePacket(parts).packet;
      && (p.ptype == PacketHello <==> p.body.HelloBody?)
      && (p.ptype == PacketHello ==> |p.payload| == 3)
      && (p.ptype == PacketPing <==> p.body.PingBody?)
      && (p.ptype == PacketPing ==> |p.payload| == 0)
      && (p.ptype == PacketContactList ==> p.body.ListBody? && |p.body.contactList| == |p.payload|)
      && (p.ptype == PacketContactValue ==> p.body.ValuesBody? && |p.body.contactValues| == 1)
      && (p.ptype < PacketHello || p.ptype > PacketContactValue <==> p.body.OtherBody?)
  {
  }

  /** int(s, 16) reads a sign: a ping whose sender field is "-a" is
      accepted, from address -10. */
  lemma SignedSenderPing()
    ensures DecodePacket(["-a", "1", "-42", "01 00"])
      == Accepted(Packet(-10, 1, -42, PacketPing, 0, [], PingBody))
  {
    SignedSenderFields();
    var tokens := Split("01 00", ' ');
    assert tokens[2..] == [] && Join([], ' ') == "" && FromHex("") == Some([]);
  }

  lemma SignedSenderFields()
    ensures Split("01 00", ' ') == ["01", "00"]
    ensures ParseHex("-a") == Some(-10) && ParseHex("1") == Some(1)
    ensures ParseHex("01") == Some(1) && ParseHex("00") == Some(0)
    ensures ParseInt("-42") == Some(-42)
  {
    SignedSenderSplit();
    assert "-a"[1..] == "a";
    assert DigitsValue("01", 16) == DigitsValue("0", 16) * 16 + 1;
    assert DigitsValue("00", 16) == DigitsValue("0", 16) * 16;
    assert "-42"[1..] == "42";
    assert DigitsValue("42", 10) == DigitsValue("4", 10) * 10 + 2;
  }

  lemma SignedSenderSplit()
    ensures Split("01 00", ' ') == ["01", "00"]
  {
    assert "0"[1..] == "" && Split("", ' ') == [""];
    assert ['0'] + Split("", ' ')[0] == "0";
    assert Split("0", ' ') == ["0"];
    assert "00"[1..] == "0" && ['0'] + "0" == "00";
    assert Split("00", ' ') == ["00"];
    assert " 00"[1..] == "00";
    assert Split(" 00", ' ') == ["", "00"];
    assert "1 00"[1..] == " 00" && ['1'] + "" == "1";
    assert Split("1 00", ' ') == ["1", "00"];
    assert "01 00"[1..] == "1 00" && ['0'] + "1" == "01";
  }

  /** Exactly which parts are marked invalid: a field count other than four,
      a payload field without a space, or a Hello or Ping with the wrong
      number of bytes. */
  lemma RejectedExactly(parts: seq<string>)
    ensures DecodePacket(parts).Rejected? <==>
      || |parts| != 4
      || (&& ParseHex(parts[0]).Some? && ParseHex(parts[1]).Some? && ParseInt(parts[2]).Some?
          && ' ' !in parts[3])
      || (&& ParseHeader(parts).HeaderOk?
          && var h := ParseHeader(parts).header;
             (h.ptype == PacketHello && |h.payload| != 3) || (h.ptype == PacketPing && |h.payload| != 0))
  {
    if |parts| == 4 {
      SplitPieces(parts[3], ' ');
      CountZero(parts[3], ' ');
    }
  }

  /** A contact value packet decodes its first entry only: bytes after it
      change nothing. */
  lemma ValueIgnoresTrailing(p: seq<byte>, extra: seq<byte>)
    requires p != [] && DecodeEntry(p).Some?
    ensures ParseBody(PacketContactValue, p + extra) == ParseBody(PacketContactValue, p)
  {
    var q := p + extra;
    assert forall k :: 0 <= k < |p| ==> q[k] == p[k];
  }

  /** Report decoding consumes each byte exactly once: after a run of
      whole entries, decoding goes on with the next byte. */
  lemma {:induction false} ReportEntriesAppend(a: seq<byte>, b: seq<byte>)
    requires ReportEntries(a).Some?
    ensures ReportEntries(a + b) == Prepend(ReportEntries(a).value, ReportEntries(b))
    decreases |a|
  {
    if a == [] {
      assert a + b == b;
      PrependEmpty(ReportEntries(b));
    } else {
      var n := DecodeEntry(a).value.1;
      var e := DecodeEntry(a).value.0;
      var ab := a + b;
      assert ab[0] == a[0];
      assert ab[..n] == a[..n];
      assert DecodeEntry(ab) == DecodeEntry(a);
      assert ab[n..] == a[n..] + b;
      ReportEntriesAppend(a[n..], b);
      PrependPrepend([e], ReportEntries(a[n..]).value, ReportEntries(b));
    }
  }
}
