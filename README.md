# Branly: the radio protocol, the node and the gateway's emoncms mirror

Branly links battery-powered radio sensor nodes to an emoncms time-series store.
A node (an Arduino sketch built on the `branly_node` library) owns up to 16
contacts. A contact is one sensor or actuator channel. The node introduces
itself with a hello packet and lists its contacts. After that it reports
their values, either when a contact's reporting interval runs out or when
the contact has been enqueued. A Raspberry Pi modem prints every packet it
receives as one ASCII line, `:P:<from>:<to>:<rssi>:<byte> <byte> ...;`.
The gateway script reads these lines. It decodes each line into a
`BranlyPacket` and drops immediate repeats of a sequence number. For nodes
and contacts it has not seen, it creates inputs and feeds in emoncms,
through a chain of API calls. Then it posts the values. At start-up it
rebuilds its registry of nodes from the feeds' tags `bc:<node>:<contact>:<type>:<flags>`.

The project models this in eight modules:

- `Common`: the Python string operations the gateway relies on.
  - `str.split`, `join` and `count`;
  - `int(s, 16)`, `int(s)` and Python 2's `bytearray.fromhex`;
  - decimal and hex formatting.
- `BranlyProtocol`: the node's packet encoder.
  - The packet type, flag and size enums, and the bit-packing macros.
  - Class `PacketBuffer`: the static 64-byte buffer, its length and the packet counter, with one method per `build*Packet`.
- `BranlyContact`: class `Contact` with the fields of `BranlyContact`.
  - Its setters, its value size and its report scheduling (`intervalTick`).
- `BranlyNode`: class `Node` with its fixed array of 16 contact slots.
  - `addContact`, the four `send*` operations and the `run()` state machine.
  - The sleep interval `run()` returns.
- `BranlyPacket`: the gateway's decoder, `BranlyPacket.__init__` and its `__parse*` helpers. The loops stay as methods proved against functions.
- `Emoncms`: the gateway's registry and sync engine.
  - The registry itself: `BranlyNode` and `BranlyContact` of `emoncms.py` as values.
  - The store: the API as a scripted list of responses plus a log of requests.
  - The API call chains, `handlePacket` and `readBranlyNodes`, as functions.
  - Class `Emoncms`, whose methods run the loops and are proved against those functions.
- `EmoncmsLemmas`: what the sync engine guarantees. It covers duplicate suppression, the call chains, how each branch of `handlePacket` changes the registry, tag round trips and how `readBranlyNodes` groups feeds.
- `Gateway`: one line from the modem.
  - `validMessage`, the classification done by the body of the gateway thread, and `handlePacketMessage`.
  - The modem's line format, with a proof that a printed line is classified by its radio bytes alone.
  - The test lines of `addTestData`.
- `RoundTrip`: what the gateway decodes from what a node encodes. One lemma for each packet kind, from the bytes a node builds to the action the gateway takes on the modem's line.

Python's exceptions are modelled as explicit outcomes:

- `Raised` when constructing a packet;
- `Threw` inside `handlePacket`;
- `PacketCrash` and `IndexCrash` for one line.

State changed before an exception is kept. Python's `False` as the initial
`lastPacketSeqNo` equals `0`, so the model starts that field at 0. A packet
with sequence number 0 is therefore never suppressed and is recorded as 0
again. This is the code's behaviour.

Behaviour of the code worth noting:

- A report from a node the registry does not know is only logged, and `success` stays true.
- A decoder that reads past the payload raises an `IndexError`, and the packet is not marked invalid.
- A packet line must have exactly four fields.
- A contact value packet ignores bytes after its first entry.
- A value for a contact the node does not have raises `AttributeError`. That is the second row of Findings: the as-written loop is modelled beside the corrected one, and the rest of the model uses the corrected one, which skips the value.
- The sample contact value `32 f5 00 00 00` decodes to 245. The header byte `0x32` is not part of the value.
- `int(s, 16)` reads a leading sign, so a line such as `:P:-a:1:-42:01 00;` is a ping from address -10 (`BranlyPacket.SignedSenderPing`).
- A contact report whose entries do not fit the 64-byte packet buffer is not built: the send fails and the node stays in `kSendContactReport`. In the C++ code the builder writes on past the end of the buffer.

## Model

| member | source | states |
|---|---|---|
| Common.Split | branly-gateway/emoncms.py:310 | `str.split` on one character always yields at least one piece |
| Common.Count | branly-gateway/branly-gateway.py:118 | `str.count` of one character; `CountZero` and `CountAppend` give its meaning |
| Common.Join | branly-gateway/emoncms.py:161 | `str.join` with one separator; `JoinSplit` and `SplitJoin` make it the inverse of `Split` |
| Common.SplitPieces | branly-gateway/emoncms.py:310-311 | no piece contains the separator, and there is one piece more than separators |
| Common.CountZero | branly-gateway/branly-gateway.py:118 | `count` is 0 exactly when the character does not occur |
| Common.JoinSplit | branly-gateway/emoncms.py:310 | joining the pieces of a split with the same separator restores the string |
| Common.SplitJoin | branly-gateway/branly-gateway.py:126 | splitting a join of separator-free pieces gives the pieces back |
| Common.SplitNoSep | branly-gateway/emoncms.py:155 | a string without the separator splits into itself alone |
| Common.SplitPrefix | branly-gateway/branly-gateway.py:124-127 | splitting `a + [sep] + b` gives the pieces of `a` then those of `b` |
| Common.CountAppend | branly-gateway/branly-gateway.py:118 | `count` of a concatenation is the sum of the counts |
| Common.HexValue | branly-gateway/emoncms.py:152-153 | the value of a hex digit lies below 16 |
| Common.DigitChar | branly-gateway/emoncms.py:460 | the digit printed for d is a hex digit of value d, and a decimal digit when d < 10 |
| Common.FormatNat | branly-gateway/emoncms.py:460 | "%d" and "%x" of a number are non-empty and consist of digits of the base |
| Common.DigitsValueFormat | branly-gateway/emoncms.py:152-154 | reading back a formatted number gives the number |
| Common.ParseHexFormat | branly-gateway/emoncms.py:152-153 | `int(s, 16)` of the hex form of n is n |
| Common.ParseIntFormat | branly-gateway/emoncms.py:319 | `int(s)` of the decimal form of n is n |
| Common.ParseSigned | branly-gateway/emoncms.py:152-159 | `int(s, base)` of digits of the base after an optional `-` or `+`, None (an exception) otherwise |
| Common.ParseHex | branly-gateway/emoncms.py:152-153 | `int(s, 16)` of an optionally signed string of hex digits, None (an exception) otherwise; `ParseHexFormat` inverts `%x` and `ParseHexSigned` reads the sign |
| Common.ParseHexSigned | branly-gateway/emoncms.py:152-153 | `int(s, 16)` of `-` or `+` before the hex form of n is -n or n |
| Common.ParseInt | branly-gateway/emoncms.py:154 | `int(s)` of an optionally signed decimal, None (an exception) otherwise; `ParseIntFormat` and `EmoncmsLemmas.ParseFormatInt` invert `%d` |
| Common.HexByte | branly-gateway/emoncms.py:161 | a byte prints as exactly two hex digits whose value, high digit first, is the byte |
| Common.FromHexPair | branly-gateway/emoncms.py:161 | `bytearray.fromhex` of one pair of hex digits is that byte |
| Common.FromHexSpace | branly-gateway/emoncms.py:161 | `bytearray.fromhex` skips one leading space |
| Common.FromHex | branly-gateway/emoncms.py:161 | Python 2's `bytearray.fromhex`: spaces skipped before each pair, anything else an error; `FromHexTokens` inverts the modem's `%02x` tokens |
| Common.FromHexTokens | branly-gateway/emoncms.py:160-161 | `bytearray.fromhex` of space-joined "%02x" pairs is the bytes themselves |
| BranlyProtocol.ContactSetFlagsSizeId | branly_node/BranlyProtocol.h:50-53 | CONTACT_SET_FLAGS_SIZE_ID packs flags, size and id so that the three GET macros read back each field modulo its width |
| BranlyProtocol.ContactListSetWrIdType | branly_node/BranlyProtocol.h:56 | CONTACTLIST_SET_WR_ID_TYPE puts writeable in bit 7, the id modulo 8 in bits 6-4 and the type modulo 16 in bits 3-0 |
| BranlyProtocol.ReportFlags | branly_node/BranlyProtocol.cpp:103-109 | the entry flags: `kFlagViolated` when the contact is violated, none otherwise; `BranlyContact.Contact.ViolationReported` ties it to the threshold |
| BranlyProtocol.EntryHeader | branly_node/BranlyProtocol.cpp:111 | the entry header packs the flags, the size code and the id; `RoundTrip.HeaderFields` reads each back |
| BranlyProtocol.LittleEndian32 | branly_node/BranlyProtocol.cpp:113-121 | `(unsigned long) value` is written as exactly four bytes |
| BranlyProtocol.EntryBytes | branly_node/BranlyProtocol.cpp:106-125 | an entry is 5 bytes for a 32-bit contact and 2 bytes otherwise |
| BranlyProtocol.EntriesBytes | branly_node/BranlyProtocol.cpp:101-126 | the report body: every contact's entry, in node order; bounded by `EntriesBytesBound` and decoded by `RoundTrip.ReportRoundTrip` |
| BranlyProtocol.EntriesBytesBound | branly_node/BranlyProtocol.cpp:104-126 | a report body of n contacts takes between 2n and 5n bytes |
| BranlyProtocol.EntriesBytesSnoc | branly_node/BranlyProtocol.cpp:104-126 | one more contact appends exactly its entry to the body |
| BranlyProtocol.WideEntries | branly_node/BranlyProtocol.cpp:112-121 | the number of contacts whose entry carries a 32-bit value, never more than the contacts; `EntriesBytesLength` uses it |
| BranlyProtocol.EntriesBytesLength | branly_node/BranlyProtocol.cpp:106-125 | a report body takes two bytes per contact and three more per 32-bit contact |
| BranlyProtocol.ReportFit | branly_node/BranlyProtocol.cpp:98-128 | a report fits the 64-byte buffer exactly when 2 bytes per contact plus 3 per 32-bit contact come to at most 62; 31 contacts with one-byte values fit; `RoundTrip.ReportFits` gives the bounds by contact count |
| BranlyProtocol.ValuePacket | branly_node/BranlyProtocol.cpp:130-155 | the contact value packet: its type, the counter, then the contact's entry; `BranlyNode.Reported` is built from it |
| BranlyProtocol.EntriesBytesPrefix | branly_node/BranlyProtocol.cpp:104-126 | the entries of a prefix of the contacts never outgrow the whole body |
| BranlyProtocol.ListBytes | branly_node/BranlyProtocol.cpp:87-96 | one byte per contact, in node order, each the packed writeable flag, id and type |
| BranlyProtocol.PacketBuffer.constructor | branly_node/BranlyProtocol.cpp:33-37 | an empty buffer of 64 bytes, length 0, counter 0, no packet built yet |
| BranlyProtocol.PacketBuffer.BuildDefault | branly_node/BranlyProtocol.cpp:62-69 | the packet is the type then the old counter, the length is 2, the counter wraps at 256, later bytes unchanged; the packet is appended to the history of packets built, whose number modulo 256 is the counter |
| BranlyProtocol.PacketBuffer.BuildHello | branly_node/BranlyProtocol.cpp:73-80 | the packet is hello, counter, hardware version, software version and a zero byte, and is appended to the history |
| BranlyProtocol.PacketBuffer.BuildPing | branly_node/BranlyProtocol.cpp:82-85 | the packet is the two default bytes alone, and is appended to the history |
| BranlyProtocol.PacketBuffer.BuildContactList | branly_node/BranlyProtocol.cpp:87-96 | the packet is the default header followed by `ListBytes` of the contacts, and is appended to the history |
| BranlyProtocol.PacketBuffer.WriteEntry | branly_node/BranlyProtocol.cpp:104-125 | writes exactly one entry at the index and leaves the bytes before and after it alone |
| BranlyProtocol.PacketBuffer.BuildContactReport | branly_node/BranlyProtocol.cpp:98-128 | the packet is the default header followed by the entries of all contacts in order, and is appended to the history |
| BranlyProtocol.PacketBuffer.WriteEntries | branly_node/BranlyProtocol.cpp:101-126 | the report loop writes the entries of all contacts from index 2 on and leaves the header and the bytes after them alone |
| BranlyProtocol.PacketBuffer.BuildContactValue | branly_node/BranlyProtocol.cpp:130-155 | the packet is the default header followed by the one contact's entry, laid out as in a report, and is appended to the history |
| BranlyProtocol.ReportStep | branly_node/BranlyProtocol.cpp:104-126 | one pass of the report loop appends the next contact's entry |
| BranlyContact.RefreshedThenTicked | branly_node/BranlyNode.cpp:107-124 | a value refresh followed by a tick is a tick of the original state |
| BranlyContact.ValueSize | branly_node/BranlyContact.cpp:65-69 | one byte for a value strictly between -128 and 128, four bytes otherwise |
| BranlyContact.ValueSizeLossless | branly_node/BranlyContact.cpp:65-69 | the size chosen never loses the value: one byte exactly when `(char) value` restores it, -128 excepted; four bytes always restore it |
| BranlyContact.TickedNext | branly_node/BranlyContact.cpp:115-133 | the countdown after `intervalTick`: counted down saturating at 0 and restarted on expiry, untouched without an interval; `TickKeepsCountdown` proves its invariant |
| BranlyContact.TickSends | branly_node/BranlyContact.cpp:115-133 | whether `intervalTick` reports: on expiry with an interval, when enqueued without one; see `TickKeepsCountdown` |
| BranlyContact.TickedEnqueued | branly_node/BranlyContact.cpp:126-130 | the enqueued flag after `intervalTick`: cleared only on the path without an interval |
| BranlyContact.TickKeepsCountdown | branly_node/BranlyContact.cpp:115-133 | with an interval the countdown stays within 1..interval; a tick reports exactly when the time reaches the countdown, then restarts it, and otherwise counts it down; without an interval it reports exactly when enqueued |
| BranlyContact.Contact.constructor | branly_node/BranlyContact.cpp:33-54 | not writeable, no threshold, value 0, not enqueued, countdown at the reporting interval |
| BranlyContact.Contact.IsViolated | branly_node/BranlyContact.cpp:56-63 | violated exactly when a lower threshold is set and the value is at or below it |
| BranlyContact.Contact.ViolationReported | branly_node/BranlyProtocol.cpp:107-109 | a report entry carries `kFlagViolated` exactly when a threshold is set and the value is at or below it, and no flag otherwise |
| BranlyContact.SettingsView | branly_node/BranlyProtocol.cpp:102-111 | what the packet encoder reads of a contact with given settings and value: id, type, writeable flag, the value, its `ValueSize` and the threshold test |
| BranlyContact.Contact.View | branly_node/BranlyProtocol.cpp:102-111 | what the packet encoder reads of a contact: id, type, writeable flag, value, `ValueSize` and `IsViolated` |
| BranlyContact.Contact.ViewAt | branly_node/BranlyProtocol.cpp:102-111 | the same view with another value in place of the contact's own |
| BranlyContact.Contact.EnqueueReport | branly_node/BranlyContact.cpp:71-75 | the value is set and the contact enqueued; nothing else changes |
| BranlyContact.Contact.SetLowerThreshold | branly_node/BranlyContact.cpp:92-97 | the threshold is set and marked present; nothing else changes |
| BranlyContact.Contact.SetValue | branly_node/BranlyContact.cpp:99-106 | the value is always stored; the callback runs exactly when the contact is writeable and has one |
| BranlyContact.Contact.RefreshValue | branly_node/BranlyContact.cpp:108-113 | without a callback the value is kept; only the value may change |
| BranlyContact.Contact.SendReport | branly_node/BranlyContact.cpp:77-90 | refreshes the value and builds exactly one contact value packet of it, appended to the history |
| BranlyContact.Contact.IntervalTick | branly_node/BranlyContact.cpp:115-133 | whether it reports, the new countdown and the new enqueued flag are `TickSends`, `TickedNext` and `TickedEnqueued`; it builds a packet only when it reports, and that packet is the contact value packet of the contact's new view under the old counter, appended to the history; otherwise packet and history are unchanged |
| BranlyContact.Contact.IntervalReset | branly_node/BranlyContact.h:81 | the countdown restarts at the reporting interval; nothing else changes |
| BranlyContact.Contact.MakeWriteable | branly_node/BranlyContact.h:86 | the contact becomes writeable; nothing else changes |
| BranlyNode.StateOrder | branly_node/BranlyNode.h:36-41 | the states are numbered 1..4 in the order `run()` visits them, and `kRunning` stays |
| BranlyNode.SleepInterval | branly_node/BranlyNode.cpp:108-118 | the least positive countdown of the contacts not enqueued, 0xffffffff when there is none; `SleepIntervalIsMinimum` proves it |
| BranlyNode.SleepIntervalIsMinimum | branly_node/BranlyNode.cpp:107-118 | the sleep interval is positive and at most every candidate's countdown; it is either 0xffffffff or some candidate's countdown |
| BranlyNode.SleepIntervalNoCandidate | branly_node/BranlyNode.cpp:108 | with no contact on an interval the node sleeps 0xffffffff |
| BranlyNode.EnqueuedPicks | branly_node/BranlyNode.cpp:110 | the contacts the first pass reports: exactly the enqueued ones |
| BranlyNode.TickPicks | branly_node/BranlyNode.cpp:120-121 | the contacts the second pass reports: exactly those whose `intervalTick` by the time sends |
| BranlyNode.Reported | branly_node/BranlyNode.cpp:109-123 | the packet history after one pass: a contact value packet per picked contact, in node order, each with the counter of its place; `ReportedExtends`, `ReportedNone` and `ReportedAll` give its meaning |
| BranlyNode.ReportedExtends | branly_node/BranlyNode.cpp:109-123 | a pass keeps the history before it and adds exactly one packet per picked contact, each the contact value packet of a picked contact under the counter of its place |
| BranlyNode.ReportedNone | branly_node/BranlyNode.cpp:109-123 | a pass in which no contact is picked builds nothing |
| BranlyNode.ReportedAll | branly_node/BranlyNode.cpp:109-123 | a pass in which every contact is picked builds one contact value packet per contact, in node order, with successive counters modulo 256 |
| BranlyNode.ReportedStep | branly_node/BranlyNode.cpp:109-123 | one more contact in a pass appends its packet when it is picked, and nothing otherwise |
| BranlyNode.FirstPassStep | branly_node/BranlyNode.cpp:110-116 | one more contact of the first pass lowers the sleep interval to its countdown exactly when it is not enqueued and its countdown is positive and smaller |
| BranlyNode.SleepIntervalTicksExactly | branly_node/BranlyNode.cpp:107-124 | ticking by the sleep interval never skips a deadline: a contact on an interval reports exactly when its countdown equals the sleep interval, and otherwise has that much less left |
| BranlyNode.AddContactAsWrittenOverflows | branly_node/BranlyNode.cpp:73 | the written guard `<=` admits a full node, exactly when it already holds 16 contacts, and so stores into slot 16 |
| BranlyNode.AddContactAsWrittenStoresPastEnd | branly_node/BranlyNode.cpp:71-76 | on a node holding 16 contacts the written guard lets `addContact` through, and the index it stores at is past the end of the 16-slot array |
| BranlyNode.Node.constructor | branly_node/BranlyNode.cpp:60-69 | a node in `kSendHello` with its versions, no contacts and not in factory mode |
| BranlyNode.Node.GetContact | branly_node/BranlyNode.h:66 | every index below the contact count yields a registered, valid contact |
| BranlyNode.Node.AddContact | branly_node/BranlyNode.cpp:71-76 | below 16 contacts the contact goes into the next slot, at 16 nothing changes; earlier slots and the state are kept |
| BranlyNode.Node.SendPing | branly_node/BranlyNode.cpp:128-135 | builds exactly one ping packet, appended to the history |
| BranlyNode.Node.SendHelloPacket | branly_node/BranlyNode.cpp:137-144 | builds exactly one hello packet with the node's versions, appended to the history |
| BranlyNode.Node.CollectViews | branly_node/BranlyProtocol.cpp:90-94 | reads the contacts' views in node order |
| BranlyNode.Node.RefreshAll | branly_node/BranlyProtocol.cpp:104-105 | every contact has its value refreshed and nothing else |
| BranlyNode.Node.SendContactListPacket | branly_node/BranlyNode.cpp:146-153 | builds exactly one contact list packet of the node's contacts in order, appended to the history |
| BranlyNode.Node.SendContactReportPacket | branly_node/BranlyNode.cpp:155-162 | refreshes every contact; when the refreshed entries fit the buffer it builds one report packet of all of them in order, appended to the history; otherwise it builds nothing, the send fails and `overflow` is set (see `ReportFit`) |
| BranlyNode.Node.ReportAt | branly_node/BranlyNode.cpp:111-113 | contact i sends one report, the contact value packet of its refreshed view under the old counter, appended to the history; only its value may change, and every other contact keeps its state |
| BranlyNode.Node.TickAt | branly_node/BranlyNode.cpp:120-122 | contact i is ticked by the time and appends a packet to the history exactly when its tick reports; that packet is the contact value packet of its new view under the counter of its place; every other contact keeps its state and view |
| BranlyNode.Node.FirstPassAt | branly_node/BranlyNode.cpp:110-116 | contact i of the first pass: an enqueued contact appends its contact value packet to the history; any other offers its positive countdown for the sleep interval; every other contact keeps its state and view |
| BranlyNode.Node.ReportEnqueued | branly_node/BranlyNode.cpp:107-118 | the first pass returns the least positive countdown of the contacts not enqueued, or 0xffffffff, and the history gains exactly `Reported` of the contacts' views with the enqueued ones picked: one contact value packet per enqueued contact, in node order, with successive counters |
| BranlyNode.Node.TickAll | branly_node/BranlyNode.cpp:119-123 | the second pass ticks every contact by the time, and the history gains exactly `Reported` of the views with the contacts picked whose tick sends: one contact value packet each, in node order, with successive counters |
| BranlyNode.Node.RunRunning | branly_node/BranlyNode.cpp:107-124 | `RunningOutcome`: the sleep interval of the old scheduling state, every contact ticked by it, and the history extended by the first pass's packets of the enqueued contacts (their views then differ from the final ones at most in the value, and only with a callback) followed by the second pass's packets of the contacts whose tick sends |
| BranlyNode.Node.RunningOutcome | branly_node/BranlyNode.cpp:107-124 | what the `kRunning` branch leaves, as stated for `RunRunning` |
| BranlyNode.Node.RunSendHello | branly_node/BranlyNode.cpp:86-91 | sends a hello, appended to the history, and moves on to `kSendContactList` exactly when the radio acknowledged it |
| BranlyNode.Node.RunSendContactList | branly_node/BranlyNode.cpp:92-98 | sends the contact list, appended to the history, and moves on to `kSendContactReport` exactly when acknowledged |
| BranlyNode.Node.RunSendContactReport | branly_node/BranlyNode.cpp:99-106 | sends the report and moves on to `kRunning` exactly when acknowledged; a report that does not fit the buffer is not built and the state stays |
| BranlyNode.Node.Run | branly_node/BranlyNode.cpp:83-126 | one step: a start-up state sends its packet (none for a report that does not fit) and moves to the next state on success only; `kRunning` stays and leaves `RunningOutcome`: which packets were built, with which counters, and how every contact was ticked |
| BranlyPacket.ParseContactList | branly-gateway/emoncms.py:222-230 | the loop yields one entry per payload byte, in order, equal to `ListEntries` |
| BranlyPacket.ListEntries | branly-gateway/emoncms.py:222-230 | one entry per payload byte, in order; `RoundTrip.ListRoundTrip` inverts the node's encoding |
| BranlyPacket.DecodeEntry | branly-gateway/emoncms.py:236-245 | an entry decodes exactly when the payload holds its 2 or 5 bytes; its id and flags come from the header and its length from the size field |
| BranlyPacket.ReportEntries | branly-gateway/emoncms.py:233-246 | entries one after the other until the payload is used up, None where an entry runs past it; `ReportEntriesAppend` and `RoundTrip.ReportRoundTrip` give its meaning |
| BranlyPacket.ValueEntries | branly-gateway/emoncms.py:249-257 | the first entry alone, None for an empty or truncated payload; `ValueIgnoresTrailing` |
| BranlyPacket.ParseBody | branly-gateway/emoncms.py:194-219 | the body by packet type: hello exactly 3 bytes, ping none, list, report, value; any other type is valid with nothing parsed |
| BranlyPacket.ParseHeader | branly-gateway/emoncms.py:148-162 | the four fields parsed up to the payload bytes: rejected for a wrong count or fewer than two tokens, raised where `int()` or `fromhex` fails |
| BranlyPacket.DecodePacket | branly-gateway/emoncms.py:148-257 | the whole constructor: accepted, invalid or raised; `AcceptedShape` and `RejectedExactly` characterise it |
| BranlyPacket.ParseContactReport | branly-gateway/emoncms.py:233-246 | the loop yields `ReportEntries`, None when an entry runs past the payload (the `IndexError`) |
| BranlyPacket.NewPacket | branly-gateway/emoncms.py:148-164 | the constructor yields `DecodePacket` of the fields: a packet, invalid, or raised |
| BranlyPacket.AcceptedShape | branly-gateway/emoncms.py:148-164 | an accepted packet had exactly four fields and at least two payload tokens; a hello carries three bytes, a ping none, a list one entry per byte, a value packet one entry, and any type outside 0..4, negative ones included, is accepted with nothing parsed |
| BranlyPacket.SignedSenderPing | branly-gateway/emoncms.py:148-159 | the fields `-a`, `1`, `-42`, `01 00` are accepted as a ping from address -10 with RSSI -42 |
| BranlyPacket.RejectedExactly | branly-gateway/emoncms.py:148-219 | invalid exactly when the field count is not four, the payload has fewer than two tokens, or a hello or ping body has the wrong length |
| BranlyPacket.ValueIgnoresTrailing | branly-gateway/emoncms.py:249-257 | a contact value packet decodes its first entry only; later bytes change nothing |
| BranlyPacket.ReportEntriesAppend | branly-gateway/emoncms.py:233-246 | decoding consumes bytes exactly: a run of complete entries followed by more bytes decodes as those entries followed by the rest |
| Emoncms.ContactIndex | branly-gateway/emoncms.py:69-76 | `findContact` finds the first contact with the id, and finds none exactly when no contact has it |
| Emoncms.NodeIndex | branly-gateway/emoncms.py:417-424 | `__findNode` finds the first node with the id, and none exactly when no node has it |
| Emoncms.FindContact | branly-gateway/emoncms.py:69-76 | the loop returns `ContactIndex` |
| Emoncms.SetContactValue | branly-gateway/emoncms.py:78-88 | only the first contact with the id takes the value and flags; ids, name and every other contact are kept |
| Emoncms.Call | branly-gateway/emoncms.py:509-533 | one API call takes the next scripted response and logs its request |
| Emoncms.CreateCmsNodeContact | branly-gateway/emoncms.py:437-467 | the five-call chain, each call only after the one before passed its test; `EmoncmsLemmas.CreateContactChain` proves what it does |
| Emoncms.ReportCmsInput | branly-gateway/emoncms.py:470-493 | the named-input post, with the feed chain for a newly created input; `EmoncmsLemmas.ReportInputContract` proves what it does |
| Emoncms.ReportCmsContact | branly-gateway/emoncms.py:496-506 | one post of the value whose reply's `success` is the result; the flags are not sent |
| Emoncms.CreateCmsNode | branly-gateway/emoncms.py:427-434 | always succeeds: the store has no node concept |
| Emoncms.ListStep | branly-gateway/emoncms.py:378-390 | one list entry; see `EmoncmsLemmas.ListStepCreatesOnlyIfAbsent` |
| Emoncms.ApplyList | branly-gateway/emoncms.py:378-390 | the list entries in order; see `EmoncmsLemmas.ApplyListFacts` |
| Emoncms.ReportStep | branly-gateway/emoncms.py:398-407 | one value entry, with an unknown contact skipped; see `EmoncmsLemmas.ReportStepChangesOnlyOnSuccess` |
| Emoncms.ApplyReports | branly-gateway/emoncms.py:398-407 | the value entries in order (the corrected loop); see `EmoncmsLemmas.ApplyReportsFacts` |
| Emoncms.ApplyReportsAsWritten | branly-gateway/emoncms.py:398-407 | the loop as written, aborting at the first unknown contact; see `EmoncmsLemmas.UnknownContactAsWrittenAborts` |
| Emoncms.ListBranch | branly-gateway/emoncms.py:367-390 | the contact list branch: an unknown node is created and appended, a known one updated in place; see `EmoncmsLemmas.NewNodeFromList` and `EmoncmsLemmas.ReplayKnownList` |
| Emoncms.ValuesBranch | branly-gateway/emoncms.py:392-407 | the report and value branch: an unknown node is only logged, a known one takes the values; see `EmoncmsLemmas.UnknownNodeReport` |
| Emoncms.Dispatch | branly-gateway/emoncms.py:363-412 | the branch on the packet type; see `EmoncmsLemmas.DispatchExtends` and `EmoncmsLemmas.DispatchKeepsIds` |
| Emoncms.HandlePacketOn | branly-gateway/emoncms.py:343-412 | `handlePacket`: duplicate suppression, the time stamp and RSSI inputs, then the type branch; see `EmoncmsLemmas.DuplicateIsNoOp`, `EmoncmsLemmas.NotDuplicateIsRecorded` and `EmoncmsLemmas.InputFailureStops` |
| Emoncms.ParseTag | branly-gateway/emoncms.py:309-329 | a tag with five fields starting with `bc` is a contact, one whose numbers `int()` cannot read raises; see `EmoncmsLemmas.TagRoundTrip` |
| Emoncms.ReadNodes | branly-gateway/emoncms.py:301-340 | `readBranlyNodes` on the feed list; see `EmoncmsLemmas.ReadGroupsFeeds` and `EmoncmsLemmas.ReadThrowsExactly` |
| Emoncms.FormatInt | branly-gateway/emoncms.py:460 | "%d" never contains a ':' |
| Emoncms.Emoncms.constructor | branly-gateway/emoncms.py:276-278 | no nodes, no packet seen yet, the given store |
| Emoncms.Emoncms.FindNode | branly-gateway/emoncms.py:417-424 | the loop returns `NodeIndex` |
| Emoncms.Emoncms.HandlePacket | branly-gateway/emoncms.py:343-412 | the result and the new registry, sequence number and store are `HandlePacketOn` of the old state |
| Emoncms.Emoncms.HandleContactList | branly-gateway/emoncms.py:367-390 | the contact list branch equals `ListBranch` |
| Emoncms.Emoncms.ApplyContactList | branly-gateway/emoncms.py:378-390 | the loop over the list entries ends in `ApplyList` of the node, store and success it starts from |
| Emoncms.Emoncms.HandleContactValues | branly-gateway/emoncms.py:392-407 | the report and value branch equals `ValuesBranch` |
| Emoncms.Emoncms.ReadBranlyNodes | branly-gateway/emoncms.py:301-340 | returns `ReadNodes` of the feeds; on success the registry becomes the result, on an exception it is kept |
| EmoncmsLemmas.CallExtends | branly-gateway/emoncms.py:509-533 | the request log only grows |
| EmoncmsLemmas.CreateContactExtends | branly-gateway/emoncms.py:437-467 | creating a contact makes at least one call and only appends to the log |
| EmoncmsLemmas.ReportInputExtends | branly-gateway/emoncms.py:470-493 | reporting an input makes at least one call and only appends to the log |
| EmoncmsLemmas.CreateContactChain | branly-gateway/emoncms.py:437-467 | the five-call chain succeeds exactly when every response passes its test, consumes one response per call made, starts by posting the input with value 0 and, when all five calls are made, ends by tagging the feed `bc:<node>:<contact>:<type>:<flags>` |
| EmoncmsLemmas.ReportInputContract | branly-gateway/emoncms.py:470-493 | without feed creation the report is one post that succeeds exactly when the reply has success and a `created` key; any success needs the first post's success; it raises exactly when a newly created input comes without an id |
| EmoncmsLemmas.DuplicateIsNoOp | branly-gateway/emoncms.py:351-354 | a repeat of the last sequence number returns true and changes nothing |
| EmoncmsLemmas.NotDuplicateIsRecorded | branly-gateway/emoncms.py:355-361 | any other packet is recorded as the last one, the log only grows, and the first call posts the time stamp `_time` |
| EmoncmsLemmas.DispatchExtends | branly-gateway/emoncms.py:363-412 | the type branch only extends the store's log and keeps the sequence number |
| EmoncmsLemmas.OnlyImmediateRepeatSuppressed | branly-gateway/emoncms.py:351-355 | in the sequence N, M, N the third packet is not suppressed |
| EmoncmsLemmas.InputFailureStops | branly-gateway/emoncms.py:358-361 | a failed or raising time stamp or RSSI report ends the call unsuccessfully with the registry untouched, but the sequence number already recorded |
| EmoncmsLemmas.ListStepCreatesOnlyIfAbsent | branly-gateway/emoncms.py:378-390 | an entry the node has changes nothing; one it lacks is created, and added only on success |
| EmoncmsLemmas.ApplyListFacts | branly-gateway/emoncms.py:378-390 | over a whole list the node keeps its id, name and earlier contacts, unique contact ids stay unique, success is never regained, and the log only grows |
| EmoncmsLemmas.ReplayMakesNoCalls | branly-gateway/emoncms.py:378-390 | replaying a list whose contacts the node already has makes no API call |
| EmoncmsLemmas.ReportStepChangesOnlyOnSuccess | branly-gateway/emoncms.py:398-407 | a value changes the node only once the store accepted it; an unknown contact is skipped |
| EmoncmsLemmas.ApplyReportsFacts | branly-gateway/emoncms.py:398-407 | over a whole report the node keeps its id, name and contact ids, success is never regained, and the log only grows |
| EmoncmsLemmas.UnknownContactAsWrittenAborts | branly-gateway/emoncms.py:399-401 | as written, a value for a contact the node does not have raises and abandons the remaining values, where the corrected loop skips it |
| EmoncmsLemmas.UnknownContactExample | branly-gateway/emoncms.py:399-401 | node 16 with no contacts and the entry (5, 245, 0): the written loop raises |
| EmoncmsLemmas.AsWrittenAgreesWhenCompleted | branly-gateway/emoncms.py:398-407 | wherever the written loop completes it agrees with the corrected one |
| EmoncmsLemmas.UniqueNodeIdsPreserved | branly-gateway/emoncms.py:368-373 | `handlePacket` keeps node ids unique: a node is appended only when no node has its id |
| EmoncmsLemmas.DispatchKeepsIds | branly-gateway/emoncms.py:363-410 | the type branch keeps node ids unique |
| EmoncmsLemmas.ReplayKnownList | branly-gateway/emoncms.py:378-390 | replaying a known contact list returns true and changes neither the registry nor the store |
| EmoncmsLemmas.UnknownNodeReport | branly-gateway/emoncms.py:394-396 | values from an unknown node are logged: true, nothing changes |
| EmoncmsLemmas.NewNodeFromList | branly-gateway/emoncms.py:368-373 | a list from an unknown node appends exactly one node with that id |
| EmoncmsLemmas.ParseFormatInt | branly-gateway/emoncms.py:319 | `int("%d" % i)` is i, negative numbers included |
| EmoncmsLemmas.TagRoundTrip | branly-gateway/emoncms.py:310-329 | a tag written by contact creation reads back as the same node, contact, type and flags |
| EmoncmsLemmas.NewContactTagRoundTrip | branly-gateway/emoncms.py:381-385 | in particular for every contact created from a list entry |
| EmoncmsLemmas.PairsSnoc | branly-gateway/emoncms.py:322-337 | appending a node appends its contacts to the flattened list |
| EmoncmsLemmas.GroupedSnoc | branly-gateway/emoncms.py:322-324 | appending a non-empty unnamed node with a new id keeps the grouping |
| EmoncmsLemmas.GroupedReplaceLast | branly-gateway/emoncms.py:334 | adding a contact to the current node keeps the grouping |
| EmoncmsLemmas.ReadStepContact | branly-gateway/emoncms.py:309-334 | a contact feed adds exactly its (node, contact) pair |
| EmoncmsLemmas.ReadStepPairs | branly-gateway/emoncms.py:308-334 | every feed adds exactly its pairs, none for a feed that is not a contact |
| EmoncmsLemmas.ReadFromPairs | branly-gateway/emoncms.py:308-337 | reading the feeds adds their pairs in feed order |
| EmoncmsLemmas.ReadGroupsFeeds | branly-gateway/emoncms.py:301-340 | `readBranlyNodes` keeps exactly the contact feeds, in order, in non-empty nodes whose neighbours differ in id |
| EmoncmsLemmas.ReadThrowsExactly | branly-gateway/emoncms.py:319-328 | reading raises exactly when some contact tag has a field `int()` cannot read |
| EmoncmsLemmas.ExampleTags | branly-gateway/emoncms.py:310-329 | the tags bc:2:1:3:r and bc:2:2:1:w parse as contacts 1 and 2 of node 2 |
| EmoncmsLemmas.ReadExample | branly-gateway/emoncms.py:301-340 | those two feeds give one node, id 2, with both contacts and their types and flags |
| Gateway.ValidMessageExactly | branly-gateway/branly-gateway.py:114-118 | valid exactly when the line has both markers and no ';' before the last character |
| Gateway.ValidMessage | branly-gateway/branly-gateway.py:114-118 | `validMessage`: one ';', starting with ':' and ending with ';'; `ValidMessageExactly` characterises it |
| Gateway.PacketFields | branly-gateway/branly-gateway.py:124-127 | the markers dropped, the line split on ':', the fields after the message type; `ModemLineFields` inverts the modem format |
| Gateway.Classify | branly-gateway/branly-gateway.py:120-166 | a packet is delivered exactly when the line is valid, of type P and decodes, and then it has the body its type calls for; only the empty line crashes on `message[0]`, and a '#' line is a debug message |
| Gateway.AcceptedMatchesType | branly-gateway/emoncms.py:148-164 | every accepted packet has the body its type calls for |
| Gateway.HandleMessage | branly-gateway/branly-gateway.py:154-166 | the line's action is its classification; only a delivered packet reaches the mirror, handled as `handlePacket` would, and otherwise mirror and store are unchanged |
| Gateway.HexByteParses | branly-gateway/emoncms.py:158-159 | `int(t, 16)` of a printed byte is the byte |
| Gateway.ModemFieldsHeader | branly-gateway/emoncms.py:148-160 | the printed header fields read back as address, address, RSSI, type and sequence number |
| Gateway.ModemLineFields | branly-gateway/branly-gateway.py:114-127 | every line printed in the modem format is valid, of type P, and yields the printed fields |
| Gateway.ModemLineClassified | branly-gateway/branly-gateway.py:120-166 | a printed line is delivered, illegal or a crash exactly as the body decoder decides for its radio bytes |
| Gateway.TestLineInvalid | branly-gateway/branly-gateway.py:200 | the test line without ';' is an invalid message |
| Gateway.TestFeedLinesInvalid | branly-gateway/branly-gateway.py:204-205 | the test lines starting with a line feed are invalid messages, not debug messages |
| Gateway.TestContactList | branly-gateway/branly-gateway.py:187 | the contact list test line delivers contacts (1,2,0), (2,1,0), (3,7,0) and (4,10,1) |
| Gateway.TestContactReportPayload | branly-gateway/branly-gateway.py:190 | the report test payload decodes to (1, 2940), (2, 245) and (3, 0), without flags |
| Gateway.TestContactValuePayloads | branly-gateway/branly-gateway.py:193-197 | the value test payloads decode to (2, 245), (3, 10) and (1, 2940) |
| Gateway.TestHelloPayload | branly-gateway/branly-gateway.py:184 | the hello test payload is hardware 0x10, software 0x25, MCUSR 0 |
| RoundTrip.PacketCodesAgree | branly-gateway/emoncms.py:30-34 | the node's packet type codes are the gateway's kPacket* constants |
| RoundTrip.EntryLengthAgrees | branly-gateway/emoncms.py:240-245 | the gateway reads as many bytes as the node wrote for every size class |
| RoundTrip.ListRoundTrip | branly-gateway/emoncms.py:222-230 | a node's contact list decodes to one entry per contact, in order, with the id modulo 8 and the type modulo 16 |
| RoundTrip.ListIdsAlias | branly_node/BranlyProtocol.h:56 | contacts 1 and 9 of the same type are listed alike |
| RoundTrip.UserDefinedListedAs | branly_node/BranlyContact.h:44 | the user-defined type 100 is listed as type 4 |
| RoundTrip.LittleEndianValue | branly-gateway/emoncms.py:241 | the four little-endian bytes read back as the value modulo 2^32 |
| RoundTrip.HeaderFields | branly-gateway/emoncms.py:237-239 | an entry header reads back as the size code, id and violated flag |
| RoundTrip.LongEntryRoundTrip | branly-gateway/emoncms.py:240-242 | a 32-bit entry decodes to its 32-bit value, taking 5 bytes |
| RoundTrip.ShortEntryRoundTrip | branly-gateway/emoncms.py:243-245 | any other entry decodes to the low byte, taking 2 bytes |
| RoundTrip.EntryRoundTrip | branly-gateway/emoncms.py:236-246 | one entry decodes to its contact's id, value and flags, whatever follows it |
| RoundTrip.ReportRoundTrip | branly-gateway/emoncms.py:233-246 | a node's report body decodes to one entry per contact, in order |
| RoundTrip.ValueRoundTrip | branly-gateway/emoncms.py:249-257 | a contact value body decodes to exactly its one entry |
| RoundTrip.TruncatedEntry | branly-gateway/emoncms.py:240-244 | an entry cut short does not decode |
| RoundTrip.TruncatedReport | branly-gateway/emoncms.py:233-246 | a report cut inside its last entry raises in the decoder |
| RoundTrip.NoSignExtension | branly-gateway/emoncms.py:244 | an 8-bit reading of -1 reaches the gateway as 255 |
| RoundTrip.ReportFits | branly_node/BranlyProtocol.cpp:98-128 | a report of up to twelve contacts always fits the 64-byte buffer; more than twelve 32-bit contacts never do |
| RoundTrip.AllLongEntries | branly_node/BranlyProtocol.cpp:106-118 | a body of n 32-bit contacts takes exactly 5n bytes |
| RoundTrip.ReportPacketDelivered | branly-gateway/branly-gateway.py:120-133 | a report built by a node and printed by the modem is delivered with the node's entries |
| RoundTrip.ListPacketDelivered | branly-gateway/branly-gateway.py:120-133 | likewise a contact list, with one listed entry per contact |
| RoundTrip.ValuePacketDelivered | branly-gateway/branly-gateway.py:120-133 | likewise a contact value packet, with its one entry |
| RoundTrip.HelloPacketDelivered | branly-gateway/emoncms.py:210-215 | a hello packet is delivered with the node's versions and MCUSR 0 |
| RoundTrip.PingPacketDelivered | branly-gateway/emoncms.py:218-219 | a ping packet is delivered with no payload |

## Left out

- BranlyNode.Node.AddContact: requires a contact that is not yet registered. The source does not check this, and adding one contact twice would alias two slots.
- BranlyNode.Node.SendContactReportPacket, BranlyNode.Node.RunSendContactReport and BranlyNode.Node.Run: a report whose refreshed entries do not fit the 64-byte buffer (`BranlyProtocol.ReportFit`; by `RoundTrip.ReportFits` 13 contacts with 32-bit values already overflow) is not built, and the send is taken to fail. The C++ builder goes on writing past the end of the static buffer and then sends whatever `packetLength()` says. That is undefined behaviour, so what the radio then sends is not modelled.
- BranlyProtocol.PacketBuffer.BuildContactReport and BranlyProtocol.PacketBuffer.BuildContactList: require the packet to fit the buffer, for the same reason. Every node caller checks the fit first for the report; a contact list of at most 16 contacts always fits.
- The packet history `packets` of `BranlyProtocol.PacketBuffer` is ghost. It records what the node builds, whether or not the radio delivers it.
- Emoncms.Emoncms.HandlePacket and Gateway packets: `HandlePacket` requires a body that matches the packet type. Every packet the decoder accepts has one (`Gateway.AcceptedMatchesType`). A packet built by other means, with a missing `contactList`, is not modelled.
- Emoncms.Emoncms.HandlePacket, Emoncms.Emoncms.HandleContactValues and Gateway.HandleMessage: model the corrected skip of an unknown contact (second row of Findings). The `AttributeError` the code raises at emoncms.py:401 is captured only by `Emoncms.ApplyReportsAsWritten` and `EmoncmsLemmas.UnknownContactAsWrittenAborts`.
- BranlyContact.Contact.constructor: does not register the contact with the singleton `BranlyNode::node()` (BranlyContact.cpp:50-53). Registration is the caller's `BranlyNode.Node.AddContact`.
- BranlyContact.Contact.SendReport: every contact is taken to belong to a node. The branch that returns false without building a packet when `BranlyNode::node()` is null (BranlyContact.cpp:81-89) is not modelled.
- Emoncms.Emoncms.constructor: the registry starts as `[]`. The source leaves `nodes` as `False` until `readBranlyNodes` has run. Before that, a contact list, contact report or contact value packet raises in `__findNode`, whose loop runs over `False` (emoncms.py:368, 394, 421). Hello and ping packets are handled as in the model, and a duplicate is skipped.
- The radio (`sendWithRetry`), the contacts' value callbacks and the time slept are not visible code. They are nondeterministic choices, or parameters.
- The HTTP layer (`requests`, JSON decoding, URLs, the API key) is a scripted list of responses with a log of requests. Values are posted with "%.2f"; the model keeps them as integers.
- `time.time()` is the parameter `now`. The feed listing of `readBranlyNodes` is a parameter.
- Common.ParseHex and Common.ParseInt: accept digits after an optional `-` or `+` only. Python also accepts surrounding white space and, for `int(s, 16)`, a `0x` prefix. These are not modelled.
- `encode('utf8','ignore')` of feed names and flags is the identity.
- The registry's node and contact objects are values, so the aliasing between `self.nodes` and the node a branch works on is not modelled. The branch writes the updated node back.
- Threads, the serial-line queue and `gQuit` are not modelled. Not modelled with them: `uartThread`, the gateway thread's loop and its exception handlers, `main` and its restart loop. `Gateway.HandleMessage` models one pass of the loop body.
- The following are not modelled: logging, `bprintf`, `__str__`, `enableDebug`, `handleDebugMessage`, and the node's factory mode (`enterFactoryMon`).
- The modem firmware that prints the lines is not part of this model. `Gateway.ModemLine` follows the format documented at branly-gateway.py:180.
- The Arduino wrapper library (`Arduino Library/Branly.*`) is not part of this model.

## Findings

| source | as written | input that shows it | evidently intended | confidence | as-written member | corrected member |
|---|---|---|---|---|---|---|
| branly_node/BranlyNode.cpp:73 | `addContact` checks `mNumContacts <= CONFIG_MAX_CONTACTS` before storing at index `mNumContacts` | a node already holding 16 contacts stores a 17th into `mContacts[16]`, past the array | `<`: a full node ignores further contacts | not executed | BranlyNode.AddContactAsWrittenStoresPastEnd | BranlyNode.Node.AddContact |
| branly-gateway/emoncms.py:401 | the unknown-contact branch logs `contact.id` while `contact` is `None` | node 16 known with no contacts, receiving the entry (id 5, value 245, flags 0): `AttributeError`, and the remaining values of the packet are lost | log the entry's id and go on with the next value | not executed | EmoncmsLemmas.UnknownContactAsWrittenAborts | Emoncms.ApplyReports |
