/** The gateway's handling of one line from the modem (branly-gateway.py):
    the framing check validMessage, the classification done by the body of
    the gateway thread's loop, and handlePacketMessage, which decodes a
    packet line and hands the packet to the emoncms mirror.

    A line is ":" <type> ":" <fields> ";" where a radio packet has type P
    and the fields <from>:<to>:<rssi>:<type> <seqNo> <byte> ...; a line
    starting with "#" is a debug message from the modem. */
module Gateway {
  import opened Common
  import opened BranlyPacket
  import opened Emoncms
  import EmoncmsLemmas

  /** validMessage: exactly one ';', first character ':' and last ';'. */
  predicate ValidMessage(m: string)
  {
    Count(m, ';') == 1 && |m| >= 1 && m[0] == ':' && m[|m| - 1] == ';'
  }

  /** The only ';' of a valid message is its last character, so it has at
      least the two markers; and every such line is valid. */
  lemma ValidMessageExactly(m: string)
    ensures ValidMessage(m) <==>
      |m| >= 2 && m[0] == ':' && m[|m| - 1] == ';' && ';' !in m[..|m| - 1]
  {
    if |m| >= 1 {
      assert m == m[..|m| - 1] + [m[|m| - 1]];
      CountAppend(m[..|m| - 1], [m[|m| - 1]], ';');
      CountZero(m[..|m| - 1], ';');
      assert [m[|m| - 1]][1..] == [];
    }
  }

  /** handlePacketMessage: the markers dropped, split on ':', and every field
      after the message type. */
  function PacketFields(m: string): seq<string>
    requires |m| >= 2
  {
    Split(m[1..|m| - 1], ':')[1..]
  }

  /** What the gateway thread does with one line. */
  datatype Action =
    | IndexCrash            // message[0] of an empty line raises IndexError
    | DebugMessage          // a '#' line, passed to handleDebugMessage
    | InvalidMessage        // "Invalid message"
    | UnknownType(msgType: char)
    | IllegalPacket         // the BranlyPacket is not valid
    | PacketCrash           // the BranlyPacket constructor raised
    | Deliver(packet: Packet)

  /** The classification of one line. A packet is delivered to
      handlePacket only if the line is valid, of type P, and decodes to a
      valid packet, whose body then always matches its type. */
  function Classify(line: string): (a: Action)
    ensures a.Deliver? ==> BodyMatchesType(a.packet)
    ensures a.Deliver? <==>
      && ValidMessage(line) && line[1] == 'P'
      && DecodePacket(PacketFields(line)).Accepted?
    ensures a.Deliver? ==> a.packet == DecodePacket(PacketFields(line)).packet
    ensures a == IndexCrash <==> line == []
    ensures line != [] && line[0] == '#' ==> a == DebugMessage
  {
    if line == [] then IndexCrash
    else if line[0] == '#' then DebugMessage
    else if !ValidMessage(line) then InvalidMessage
    else if line[1] != 'P' then UnknownType(line[1])
    else
      ValidMessageExactly(line);
      match DecodePacket(PacketFields(line))
      case Rejected => IllegalPacket
      case Raised => PacketCrash
      case Accepted(p) =>
        AcceptedMatchesType(PacketFields(line));
        Deliver(p)
  }

  /** Every accepted packet has the body its type calls for. */
  lemma AcceptedMatchesType(parts: seq<string>)
    requires DecodePacket(parts).Accepted?
    ensures BodyMatchesType(DecodePacket(parts).packet)
  {
    AcceptedShape(parts);
  }

  /** One pass of the gateway thread's loop body for `line`, received at
      time `now`: only a delivered packet reaches the mirror, and then as
      Emoncms.handlePacket would handle it; every other line leaves the
      mirror and its store untouched. */
  method HandleMessage(cms: Emoncms, line: string, now: int) returns (action: Action, outcome: Option<Outcome>)
    modifies cms
    ensures action == Classify(line)
    ensures action.Deliver? ==>
      outcome.Some? && Handling(outcome.value, cms.State()) == HandlePacketOn(old(cms.State()), action.packet, now)
    ensures !action.Deliver? ==> outcome.None? && cms.State() == old(cms.State())
  {
    outcome := None;
    if line == [] {
      return IndexCrash, outcome;
    }
    if line[0] == '#' {
      return DebugMessage, outcome;
    }
    if !ValidMessage(line) {
      return InvalidMessage, outcome;
    }
    var msgType := line[1];
    if msgType != 'P' {
      return UnknownType(msgType), outcome;
    }
    var decoded := NewPacket(PacketFields(line));
    match decoded
    case Rejected =>
      action := IllegalPacket;
    case Raised =>
      action := PacketCrash;
    case Accepted(p) =>
      AcceptedMatchesType(PacketFields(line));
      var handled := cms.HandlePacket(p, now);
      action, outcome := Deliver(p), Some(handled);
  }

  // ---------------------------------------------------------------------
  // The line format the modem prints for a received packet

  /** The packet fields as the decoder reads them: addresses in hex, the
      RSSI in decimal, and the radio bytes (type, sequence number, payload)
      as space-separated "%02x" pairs. */
  function ModemFields(fromAddr: nat, toAddr: nat, rssi: int, radio: seq<byte>): seq<string>
  {
    [FormatNat(fromAddr, 16), FormatNat(toAddr, 16), FormatInt(rssi), Join(HexTokens(radio), ' ')]
  }

  /** The whole line ":P:<from>:<to>:<rssi>:<bytes>;". */
  function ModemLine(fromAddr: nat, toAddr: nat, rssi: int, radio: seq<byte>): string
  {
    ":" + Join(["P"] + ModemFields(fromAddr, toAddr, rssi, radio), ':') + ";"
  }

  lemma HexByteParses(b: byte)
    ensures ParseHex(HexByte(b)) == Some(b)
  {
    var s := HexByte(b);
    assert s[..|s| - 1] == [s[0]];
    assert [s[0]][..0] == [];
    assert DigitsValue([s[0]], 16) == HexValue(s[0]);
    assert DigitsValue(s, 16) == HexValue(s[0]) * 16 + HexValue(s[1]);
  }

  lemma HexTokensNoSpace(bs: seq<byte>)
    ensures forall k :: 0 <= k < |HexTokens(bs)| ==> ' ' !in HexTokens(bs)[k]
  {
  }

  lemma HexTokensSlice(bs: seq<byte>, i: nat)
    requires i <= |bs|
    ensures HexTokens(bs)[i..] == HexTokens(bs[i..])
  {
  }

  /** The header of a modem line reads back as the fields it was printed
      from, for every address, RSSI and at least two radio bytes. */
  lemma {:induction false} ModemFieldsHeader(fromAddr: nat, toAddr: nat, rssi: int, radio: seq<byte>)
    requires |radio| >= 2
    ensures ParseHeader(ModemFields(fromAddr, toAddr, rssi, radio))
      == HeaderOk(Header(fromAddr, toAddr, rssi, radio[0], radio[1], radio[2..]))
  {
    var parts := ModemFields(fromAddr, toAddr, rssi, radio);
    ParseHexFormat(fromAddr);
    ParseHexFormat(toAddr);
    EmoncmsLemmas.ParseFormatInt(rssi);
    var tokens := HexTokens(radio);
    HexTokensNoSpace(radio);
    SplitJoin(tokens, ' ');
    assert Split(parts[3], ' ') == tokens;
    HexByteParses(radio[0]);
    HexByteParses(radio[1]);
    HexTokensSlice(radio, 2);
    FromHexTokens(radio[2..]);
  }

  lemma FieldsFree(fromAddr: nat, toAddr: nat, rssi: int, radio: seq<byte>)
    ensures var fs := ["P"] + ModemFields(fromAddr, toAddr, rssi, radio);
      forall k :: 0 <= k < |fs| ==> ':' !in fs[k] && ';' !in fs[k]
  {
    var fs := ["P"] + ModemFields(fromAddr, toAddr, rssi, radio);
    var s := FormatNat(if rssi < 0 then -rssi else rssi, 10);
    assert FormatInt(rssi) == (if rssi < 0 then "-" + s else s);
    JoinHexNoMarks(HexTokens(radio));
  }

  /** Joining "%02x" tokens never produces a ':' or a ';'. */
  lemma {:induction false} JoinHexNoMarks(ts: seq<string>)
    requires forall k :: 0 <= k < |ts| ==> |ts[k]| == 2 && IsHexDigit(ts[k][0]) && IsHexDigit(ts[k][1])
    ensures ':' !in Join(ts, ' ') && ';' !in Join(ts, ' ')
  {
    if |ts| > 1 {
      JoinHexNoMarks(ts[1..]);
    }
  }

  /** Every line printed in the modem format is valid, of type P, and its
      fields are exactly the printed fields; so it is delivered exactly
      when those fields decode to a valid packet. */
  lemma {:induction false} ModemLineFields(fromAddr: nat, toAddr: nat, rssi: int, radio: seq<byte>)
    ensures var line := ModemLine(fromAddr, toAddr, rssi, radio);
      && ValidMessage(line) && line[1] == 'P'
      && PacketFields(line) == ModemFields(fromAddr, toAddr, rssi, radio)
  {
    var fs := ["P"] + ModemFields(fromAddr, toAddr, rssi, radio);
    var body := Join(fs, ':');
    var line := ModemLine(fromAddr, toAddr, rssi, radio);
    FieldsFree(fromAddr, toAddr, rssi, radio);
    SplitJoin(fs, ':');
    JoinNoMark(fs, ':', ';');
    assert body == "P" + [':'] + Join(fs[1..], ':');
    assert line[1] == 'P';
    assert line[1..|line| - 1] == body;
    assert line[..|line| - 1] == ":" + body;
    ValidMessageExactly(line);
    assert fs[1..] == ModemFields(fromAddr, toAddr, rssi, radio);
  }

  /** A join with a separator other than c of pieces without c has no c. */
  lemma {:induction false} JoinNoMark(parts: seq<string>, sep: char, c: char)
    requires sep != c
    requires forall k :: 0 <= k < |parts| ==> c !in parts[k]
    ensures c !in Join(parts, sep)
  {
    if |parts| > 1 {
      JoinNoMark(parts[1..], sep, c);
    }
  }

  /** The modem line of a packet is classified from its radio bytes alone:
      delivered with the printed header and the body the type calls for,
      illegal, or a decoding crash, exactly as the body decoder decides. */
  lemma ModemLineClassified(fromAddr: nat, toAddr: nat, rssi: int, radio: seq<byte>)
    requires |radio| >= 2
    ensures var a := Classify(ModemLine(fromAddr, toAddr, rssi, radio));
      match ParseBody(radio[0], radio[2..])
      case BodyOk(body) => a == Deliver(Packet(fromAddr, toAddr, rssi, radio[0], radio[1], radio[2..], body))
      case BodyRejected => a == IllegalPacket
      case BodyRaised => a == PacketCrash
  {
    ModemLineFields(fromAddr, toAddr, rssi, radio);
    ModemFieldsHeader(fromAddr, toAddr, rssi, radio);
  }

  // ---------------------------------------------------------------------
  // The test lines of addTestData

  /** ":P:10:1:-42:" is how the test lines start: node 0x10 to node 1 at
      -42 dBm. */
  lemma TestHeader()
    ensures FormatNat(16, 16) == "10" && FormatNat(1, 16) == "1" && FormatInt(-42) == "-42"
  {
  }

  /** Join unfolded once. */
  lemma JoinCons(first: string, rest: seq<string>, sep: char)
    requires rest != []
    ensures Join([first] + rest, sep) == first + [sep] + Join(rest, sep)
  {
    assert ([first] + rest)[1..] == rest;
  }

  /** The test line without the closing ';' is an invalid message. */
  lemma TestLineInvalid()
    ensures Classify(":P:10:1:-42:00 00 10 25 00") == InvalidMessage
  {
    var m := ":P:10:1:-42:00 00 10 25 00";
    assert m[|m| - 1] != ';';
  }

  /** Test lines that begin with a line feed are not debug messages and are
      invalid. */
  lemma TestFeedLinesInvalid()
    ensures Classify("\n# FRQ:868 RTEMP:45\n") == InvalidMessage
    ensures Classify("\n") == InvalidMessage
  {
    var m := "\n# FRQ:868 RTEMP:45\n";
    assert m[0] != ':';
  }

  lemma TestFields(radio: seq<byte>)
    ensures ["P"] + ModemFields(16, 1, -42, radio) == ["P", "10", "1", "-42", Join(HexTokens(radio), ' ')]
  {
    TestHeader();
  }

  lemma TestJoin(text: string)
    ensures Join(["P", "10", "1", "-42", text], ':') == "P:10:1:-42:" + text
  {
    JoinCons("-42", [text], ':');
    JoinCons("1", ["-42", text], ':');
    JoinCons("10", ["1", "-42", text], ':');
    JoinCons("P", ["10", "1", "-42", text], ':');
  }

  /** A test line from node 0x10 to node 1 at -42 dBm carrying `radio`. */
  lemma TestLine(radio: seq<byte>, text: string)
    requires Join(HexTokens(radio), ' ') == text
    ensures ModemLine(16, 1, -42, radio) == ":P:10:1:-42:" + text + ";"
  {
    TestFields(radio);
    TestJoin(text);
    assert ":" + ("P:10:1:-42:" + text) + ";" == ":P:10:1:-42:" + text + ";";
  }

  lemma ListTestTokens()
    ensures HexTokens([2, 1, 0x12, 0x21, 0x37, 0xca]) == ["02", "01", "12", "21", "37", "ca"]
  {
    assert HexByte(2) == "02" && HexByte(1) == "01" && HexByte(0x12) == "12";
    assert HexByte(0x21) == "21" && HexByte(0x37) == "37" && HexByte(0xca) == "ca";
  }

  lemma ListTestText()
    ensures Join(["02", "01", "12", "21", "37", "ca"], ' ') == "02 01 12 21 37 ca"
  {
    JoinCons("37", ["ca"], ' ');
    JoinCons("21", ["37", "ca"], ' ');
    JoinCons("12", ["21", "37", "ca"], ' ');
    JoinCons("01", ["12", "21", "37", "ca"], ' ');
    JoinCons("02", ["01", "12", "21", "37", "ca"], ' ');
  }

  lemma ListTestLine(radio: seq<byte>)
    requires radio == [2, 1, 0x12, 0x21, 0x37, 0xca]
    ensures ModemLine(16, 1, -42, radio) == ":P:10:1:-42:" + "02 01 12 21 37 ca" + ";"
  {
    ListTestTokens();
    ListTestText();
    TestLine(radio, "02 01 12 21 37 ca");
  }

  lemma ListTestConcat()
    ensures ":P:10:1:-42:" + "02 01 12 21 37 ca" + ";" == ":P:10:1:-42:02 01 12 21 37 ca;"
  {
  }

  lemma ListTestDecoded()
    ensures Classify(ModemLine(16, 1, -42, [2, 1, 0x12, 0x21, 0x37, 0xca]))
      == Deliver(Packet(16, 1, -42, 2, 1, [0x12, 0x21, 0x37, 0xca], ListBody(ListEntries([0x12, 0x21, 0x37, 0xca]))))
  {
    var radio: seq<byte> := [2, 1, 0x12, 0x21, 0x37, 0xca];
    ModemLineClassified(16, 1, -42, radio);
    assert radio[2..] == [0x12, 0x21, 0x37, 0xca];
  }

  lemma ListTestEntries()
    ensures ListEntries([0x12, 0x21, 0x37, 0xca]) == [ListEntry(1, 2, 0), ListEntry(2, 1, 0), ListEntry(3, 7, 0), ListEntry(4, 10, 1)]
  {
  }

  /** The contact list test line: body bytes 12 21 37 ca give the contacts
      (id, type, writeable) (1, 2, 0), (2, 1, 0), (3, 7, 0) and (4, 10, 1). */
  lemma TestContactList()
    ensures Classify(":P:10:1:-42:02 01 12 21 37 ca;")
      == Deliver(Packet(16, 1, -42, 2, 1, [0x12, 0x21, 0x37, 0xca],
           ListBody([ListEntry(1, 2, 0), ListEntry(2, 1, 0), ListEntry(3, 7, 0), ListEntry(4, 10, 1)])))
  {
    ListTestLine([2, 1, 0x12, 0x21, 0x37, 0xca]);
    ListTestConcat();
    ListTestDecoded();
    ListTestEntries();
  }

  /** The payload of the contact report test line: ids 1, 2 and 3 with
      values 2940 (a 32-bit entry), 245 (a 32-bit entry) and 0 (an 8-bit
      entry), all without flags. */
  lemma TestContactReportPayload()
    ensures ParseBody(PacketContactReport, [0x31, 0x7c, 0x0b, 0x00, 0x00, 0x32, 0xf5, 0x00, 0x00, 0x00, 0x03, 0x00])
      == BodyOk(ValuesBody([ValueEntry(1, 2940, 0), ValueEntry(2, 245, 0), ValueEntry(3, 0, 0)]))
  {
    var p: seq<byte> := [0x31, 0x7c, 0x0b, 0x00, 0x00, 0x32, 0xf5, 0x00, 0x00, 0x00, 0x03, 0x00];
    var q: seq<byte> := [0x32, 0xf5, 0x00, 0x00, 0x00, 0x03, 0x00];
    var t: seq<byte> := [0x03, 0x00];
    var e1, e2, e3 := ValueEntry(1, 2940, 0), ValueEntry(2, 245, 0), ValueEntry(3, 0, 0);
    assert p[5..] == q && q[5..] == t && t[2..] == [];
    assert DecodeEntry(p) == Some((e1, 5));
    assert DecodeEntry(q) == Some((e2, 5));
    assert DecodeEntry(t) == Some((e3, 2));
    assert ReportEntries(t) == Prepend([e3], Some([]));
    assert [e3] + [] == [e3];
    assert ReportEntries(q) == Prepend([e2], Some([e3]));
    assert [e2] + [e3] == [e2, e3];
    assert ReportEntries(p) == Prepend([e1], Some([e2, e3]));
    assert [e1] + [e2, e3] == [e1, e2, e3];
  }

  /** The payloads of the contact value test lines: one entry each. */
  lemma TestContactValuePayloads()
    ensures ParseBody(PacketContactValue, [0x32, 0xf5, 0x00, 0x00, 0x00]) == BodyOk(ValuesBody([ValueEntry(2, 245, 0)]))
    ensures ParseBody(PacketContactValue, [0x03, 0x0a]) == BodyOk(ValuesBody([ValueEntry(3, 10, 0)]))
    ensures ParseBody(PacketContactValue, [0x31, 0x7c, 0x0b, 0x00, 0x00]) == BodyOk(ValuesBody([ValueEntry(1, 2940, 0)]))
  {
  }

  /** The payload of the hello test line: hardware version 0x10, software
      version 0x25, MCUSR 0. */
  lemma TestHelloPayload()
    ensures ParseBody(PacketHello, [0x10, 0x25, 0x00]) == BodyOk(HelloBody(0x10, 0x25, 0x00))
  {
  }
}
