/** The node (BranlyNode.h and BranlyNode.cpp): up to CONFIG_MAX_CONTACTS
    contacts and the start-up state machine Hello -> ContactList ->
    ContactReport -> Running. The radio's send outcome is chosen
    nondeterministically; printing and sleeping are outside the model. */
module BranlyNode {
  import opened Common
  import opened BranlyProtocol
  import opened BranlyContact

  /** CONFIG_MAX_CONTACTS */
  const MaxContacts: nat := 16

  /** NodeState_t */
  datatype NodeState = SendHello | SendContactList | SendContactReport | Running
  {
    function Code(): nat
    {
      match this
      case SendHello => 1
      case SendContactList => 2
      case SendContactReport => 3
      case Running => 4
    }

    /** The state run() moves to after a successful send; Running stays. */
    function Next(): NodeState
    {
      match this
      case SendHello => SendContactList
      case SendContactList => SendContactReport
      case SendContactReport => Running
      case Running => Running
    }
  }

  /** The states are numbered 1..4 in the order run() visits them. */
  lemma StateOrder(s: NodeState)
    ensures 1 <= s.Code() <= 4
    ensures s != Running ==> s.Next().Code() == s.Code() + 1
    ensures s == Running ==> s.Next() == Running
  {
  }

  // ---------------------------------------------------------------------
  // What one pass of the Running state computes from the contacts'
  // scheduling states, in node order.

  /** sleepInterval: the least positive countdown among the contacts that
      are not enqueued, starting from 0xffffffff. */
  function SleepInterval(ts: seq<Tick>): ulong
  {
    if ts == [] then 0xffff_ffff
    else
      var r := SleepInterval(ts[..|ts| - 1]);
      var t := ts[|ts| - 1];
      if !t.enqueued && t.next > 0 && t.next < r then t.next else r
  }

  /** A contact that takes part in choosing the sleep interval. */
  predicate Candidate(t: Tick)
  {
    !t.enqueued && t.next > 0
  }

  /** The sleep interval is positive, at most every candidate's countdown,
      and either one of them or 0xffffffff. */
  lemma {:induction false} SleepIntervalIsMinimum(ts: seq<Tick>)
    ensures SleepInterval(ts) > 0
    ensures forall k :: 0 <= k < |ts| && Candidate(ts[k]) ==> SleepInterval(ts) <= ts[k].next
    ensures SleepInterval(ts) == 0xffff_ffff ||
      exists k :: 0 <= k < |ts| && Candidate(ts[k]) && ts[k].next == SleepInterval(ts)
  {
    if ts != [] {
      var init := ts[..|ts| - 1];
      SleepIntervalIsMinimum(init);
      var r := SleepInterval(ts);
      var t := ts[|ts| - 1];
      forall k | 0 <= k < |ts| && Candidate(ts[k])
        ensures r <= ts[k].next
      {
        if k < |ts| - 1 {
          assert ts[k] == init[k];
        }
      }
      if r != 0xffff_ffff && !(Candidate(t) && t.next == r) {
        assert r == SleepInterval(init);
        var k :| 0 <= k < |init| && Candidate(init[k]) && init[k].next == r;
        assert ts[k] == init[k];
      }
    }
  }

  /** With no candidate the node sleeps for 0xffffffff. */
  lemma SleepIntervalNoCandidate(ts: seq<Tick>)
    requires forall k :: 0 <= k < |ts| ==> !Candidate(ts[k])
    ensures SleepInterval(ts) == 0xffff_ffff
  {
    SleepIntervalIsMinimum(ts);
  }

  /** Ticking every contact by the sleep interval never skips a deadline: a
      candidate with a reporting interval reports exactly when its countdown
      equals the sleep interval, and otherwise has that much less left. */
  lemma SleepIntervalTicksExactly(ts: seq<Tick>, k: nat)
    requires k < |ts| && Candidate(ts[k]) && ts[k].interval > 0
    ensures var s := SleepInterval(ts);
      && (TickSends(ts[k].interval, ts[k].next, ts[k].enqueued, s) <==> ts[k].next == s)
      && TickedNext(ts[k].interval, ts[k].next, s) ==
        (if ts[k].next == s then ts[k].interval else ts[k].next - s)
  {
    SleepIntervalIsMinimum(ts);
  }

  /** The first pass reports the enqueued contacts. */
  function EnqueuedPicks(ts: seq<Tick>): (picks: seq<bool>)
    ensures |picks| == |ts|
    ensures forall k :: 0 <= k < |ts| ==> picks[k] == ts[k].enqueued
  {
    seq(|ts|, k requires 0 <= k < |ts| => ts[k].enqueued)
  }

  /** The second pass reports the contacts whose tick by `time` sends. */
  function TickPicks(ts: seq<Tick>, time: ulong): (picks: seq<bool>)
    ensures |picks| == |ts|
    ensures forall k :: 0 <= k < |ts| ==> picks[k] == TickSends(ts[k].interval, ts[k].next, ts[k].enqueued, time)
  {
    seq(|ts|, k requires 0 <= k < |ts| => TickSends(ts[k].interval, ts[k].next, ts[k].enqueued, time))
  }

  /** The packet history `h` followed by the packets of one pass, in node
      order: a contact value packet of `vs[k]` for every contact k with
      `picks[k]` set, each with the packet counter of its place in the
      history. */
  function Reported(h: seq<seq<byte>>, vs: seq<ContactView>, picks: seq<bool>): seq<seq<byte>>
    requires |vs| <= |picks|
  {
    if vs == [] then h
    else
      var before := Reported(h, vs[..|vs| - 1], picks);
      before + if picks[|vs| - 1] then [ValuePacket(|before| % 0x100, vs[|vs| - 1])] else []
  }

  /** How many of the first m picks are set. */
  function Picked(picks: seq<bool>, m: nat): nat
    requires m <= |picks|
  {
    if m == 0 then 0 else Picked(picks, m - 1) + (if picks[m - 1] then 1 else 0)
  }

  /** `p`, at place j of a history, is the contact value packet of a
      picked contact, with the counter of that place. */
  ghost predicate PickedPacket(p: seq<byte>, j: nat, vs: seq<ContactView>, picks: seq<bool>)
    requires |vs| <= |picks|
  {
    exists k :: 0 <= k < |vs| && picks[k] && p == ValuePacket(j % 0x100, vs[k])
  }

  /** A pass keeps the history before it and adds one packet per picked
      contact, each the contact value packet of a picked contact with the
      counter of its place. */
  lemma {:induction false} ReportedExtends(h: seq<seq<byte>>, vs: seq<ContactView>, picks: seq<bool>)
    requires |vs| <= |picks|
    ensures |Reported(h, vs, picks)| == |h| + Picked(picks, |vs|)
    ensures Reported(h, vs, picks)[..|h|] == h
    ensures forall j :: |h| <= j < |Reported(h, vs, picks)| ==> PickedPacket(Reported(h, vs, picks)[j], j, vs, picks)
  {
    if vs != [] {
      var m := |vs| - 1;
      var ivs := vs[..m];
      ReportedExtends(h, ivs, picks);
      var before := Reported(h, ivs, picks);
      var after := Reported(h, vs, picks);
      assert after[..|before|] == before;
      assert after[..|h|] == before[..|h|];
      forall j | |h| <= j < |after|
        ensures PickedPacket(after[j], j, vs, picks)
      {
        if j < |before| {
          assert PickedPacket(before[j], j, ivs, picks);
          var k :| 0 <= k < |ivs| && picks[k] && before[j] == ValuePacket(j % 0x100, ivs[k]);
          assert after[j] == before[j] && vs[k] == ivs[k];
        } else {
          assert picks[m] && after[j] == ValuePacket(j % 0x100, vs[m]);
        }
      }
    }
  }

  /** When no contact is picked a pass adds nothing to the history. */
  lemma {:induction false} ReportedNone(h: seq<seq<byte>>, vs: seq<ContactView>, picks: seq<bool>)
    requires |vs| <= |picks|
    requires forall k :: 0 <= k < |vs| ==> !picks[k]
    ensures Reported(h, vs, picks) == h
  {
    if vs != [] {
      ReportedNone(h, vs[..|vs| - 1], picks);
    }
  }

  /** When every contact is picked a pass adds one packet per contact, in
      node order, with successive counters. */
  lemma {:induction false} ReportedAll(h: seq<seq<byte>>, vs: seq<ContactView>, picks: seq<bool>)
    requires |vs| <= |picks|
    requires forall k :: 0 <= k < |vs| ==> picks[k]
    ensures |Reported(h, vs, picks)| == |h| + |vs|
    ensures forall k :: 0 <= k < |vs| ==> Reported(h, vs, picks)[|h| + k] == ValuePacket((|h| + k) % 0x100, vs[k])
  {
    if vs != [] {
      var m := |vs| - 1;
      var ivs := vs[..m];
      ReportedAll(h, ivs, picks);
      forall k | 0 <= k < |vs|
        ensures Reported(h, vs, picks)[|h| + k] == ValuePacket((|h| + k) % 0x100, vs[k])
      {
        if k < m {
          assert Reported(h, vs, picks)[|h| + k] == Reported(h, ivs, picks)[|h| + k] && vs[k] == ivs[k];
        }
      }
    }
  }

  /** The packet history after one more contact of a pass. */
  lemma ReportedStep(h: seq<seq<byte>>, vs: seq<ContactView>, v: ContactView, picks: seq<bool>)
    requires |vs| < |picks|
    ensures var before := Reported(h, vs, picks);
      Reported(h, vs + [v], picks) == before + if picks[|vs|] then [ValuePacket(|before| % 0x100, v)] else []
  {
    assert (vs + [v])[..|vs|] == vs;
  }

  /** One more contact in the first pass: a candidate for the sleep
      interval unless it is enqueued. */
  lemma FirstPassStep(ts: seq<Tick>, i: nat)
    requires i < |ts|
    ensures var r := SleepInterval(ts[..i]);
      SleepInterval(ts[..i + 1]) == if !ts[i].enqueued && ts[i].next > 0 && ts[i].next < r then ts[i].next else r
  {
    assert ts[..i + 1][..i] == ts[..i];
  }

  /** The as-written guard of addContact (BranlyNode.cpp:73). */
  predicate AddContactAdmitsAsWritten(numContacts: nat)
  {
    numContacts <= MaxContacts
  }

  /** The as-written guard admits exactly one count whose store index lies
      outside the 16-slot array: a full node, which then writes mContacts[16]. */
  lemma AddContactAsWrittenOverflows(n: nat)
    ensures AddContactAdmitsAsWritten(n) && n >= MaxContacts <==> n == MaxContacts
  {
  }

  /** On a full node the as-written guard lets addContact through, and the
      index it then stores at, mNumContacts, is past the end of mContacts. */
  lemma AddContactAsWrittenStoresPastEnd(node: Node)
    requires node.Valid() && node.numContacts == MaxContacts
    ensures AddContactAdmitsAsWritten(node.numContacts)
    ensures !(node.numContacts < node.contacts.Length)
  {
  }

  class Node {
    /** mContacts: exactly CONFIG_MAX_CONTACTS slots; the first numContacts hold contacts. */
    const contacts: array<Contact?>
    var numContacts: nat
    var state: NodeState
    const versionHW: byte
    const versionSW: byte
    /** mIsInfactoryMode: set false at construction and never changed. */
    const isInFactoryMode: bool

    /** The contacts registered so far. */
    ghost var Registered: set<Contact>

    /** The slot layout: the first numContacts slots hold distinct
        registered contacts. */
    ghost predicate SlotsValid()
      reads this`numContacts, this`Registered, contacts
    {
      && contacts.Length == MaxContacts
      && numContacts <= MaxContacts
      && (forall i :: 0 <= i < numContacts ==> contacts[i] != null && contacts[i] in Registered)
      && (forall i, j :: 0 <= i < j < numContacts ==> contacts[i] != contacts[j])
    }

    ghost predicate Valid()
      reads this`numContacts, this`Registered, contacts, Registered
    {
      && SlotsValid()
      && (forall c :: c in Registered ==> c.Valid())
    }

    /** The scheduling states of the contacts, in node order. */
    ghost function Ticks(): (ts: seq<Tick>)
      reads this`numContacts, this`Registered, contacts, Registered
      requires Valid()
      ensures |ts| == numContacts
    {
      var present := Registered;
      seq(numContacts, k reads contacts, present
        requires 0 <= k < contacts.Length && contacts[k] != null && contacts[k] in present =>
        contacts[k].TickState())
    }

    /** What the packet builders see of the contacts, in node order. */
    ghost function Views(): (vs: seq<ContactView>)
      reads this`numContacts, this`Registered, contacts, Registered
      requires Valid()
      ensures |vs| == numContacts
    {
      var present := Registered;
      seq(numContacts, k reads contacts, present
        requires 0 <= k < contacts.Length && contacts[k] != null && contacts[k] in present =>
        contacts[k].View())
    }

    /** The state of every contact, in node order. */
    ghost function States(): (ss: seq<ContactState>)
      reads this`numContacts, this`Registered, contacts, Registered
      requires Valid()
      ensures |ss| == numContacts
    {
      var present := Registered;
      seq(numContacts, k reads contacts, present
        requires 0 <= k < contacts.Length && contacts[k] != null && contacts[k] in present =>
        contacts[k].State())
    }

    /** A new node: in kSendHello with no contacts. */
    constructor (hwVersion: byte, swVersion: byte)
      ensures Valid() && fresh(contacts)
      ensures state == SendHello && numContacts == 0
      ensures versionHW == hwVersion && versionSW == swVersion && !isInFactoryMode
    {
      contacts := new Contact?[MaxContacts];
      Registered := {};
      isInFactoryMode := false;
      numContacts := 0;
      versionHW := hwVersion;
      versionSW := swVersion;
      state := SendHello;
    }

    /** getContact: a registered, valid contact, for any index below numContacts. */
    function GetContact(index: nat): (c: Contact)
      reads this`numContacts, this`Registered, contacts, Registered
      requires Valid() && index < numContacts
      ensures c in Registered && c.Valid()
    {
      contacts[index]
    }

    /** addContact, with the bound check corrected to `<` (see
        AddContactAsWrittenOverflows): stores at index numContacts and
        counts it while there is room; earlier slots are left alone. */
    method AddContact(contact: Contact)
      requires Valid() && contact.Valid() && contact !in Registered
      modifies this, contacts
      ensures Valid()
      ensures old(numContacts) < MaxContacts ==>
        numContacts == old(numContacts) + 1 && contacts[old(numContacts)] == contact
      ensures old(numContacts) >= MaxContacts ==> numContacts == old(numContacts)
      ensures forall k :: 0 <= k < old(numContacts) ==> contacts[k] == old(contacts[k])
      ensures state == old(state)
    {
      if numContacts < MaxContacts {
        contacts[numContacts] := contact;
        numContacts := numContacts + 1;
        Registered := Registered + {contact};
      }
    }

    /** sendPing: builds a ping packet; the radio's outcome is returned. */
    method SendPing(proto: PacketBuffer) returns (success: bool)
      requires proto.Valid()
      modifies proto, proto.buffer
      ensures proto.Valid()
      ensures proto.Packet() == [PacketType.Ping.Code(), old(proto.counter)]
      ensures proto.packets == old(proto.packets) + [proto.Packet()]
    {
      proto.BuildPing();
      success :| true;
    }

    /** sendHello: builds a hello packet with the node's versions. */
    method SendHelloPacket(proto: PacketBuffer) returns (success: bool)
      requires proto.Valid()
      modifies proto, proto.buffer
      ensures proto.Valid()
      ensures proto.Packet() == [PacketType.Hello.Code(), old(proto.counter), versionHW, versionSW, 0]
      ensures proto.packets == old(proto.packets) + [proto.Packet()]
    {
      proto.BuildHello(versionHW, versionSW);
      success :| true;
    }

    /** The loop of buildContactListPacket and buildContactReportPacket
        over getContact(0) .. getContact(numContacts - 1). */
    method CollectViews() returns (views: seq<ContactView>)
      requires Valid()
      ensures views == Views()
    {
      views := [];
      var j := 0;
      while j < numContacts
        invariant j <= numContacts
        invariant views == Views()[..j]
      {
        views := views + [contacts[j].View()];
        j := j + 1;
      }
    }

    /** The refreshValue() calls of buildContactReportPacket. */
    method RefreshAll()
      requires Valid()
      modifies Registered
      ensures Valid()
      ensures forall k :: 0 <= k < numContacts ==> Refreshed(old(States())[k], contacts[k].State())
    {
      ghost var ss := States();
      var j := 0;
      while j < numContacts
        invariant j <= numContacts
        invariant Valid()
        invariant forall k :: 0 <= k < numContacts ==> Refreshed(ss[k], contacts[k].State())
      {
        contacts[j].RefreshValue();
        j := j + 1;
      }
    }

    /** sendContactList: builds the contact list of all contacts in node order. */
    method SendContactListPacket(proto: PacketBuffer) returns (success: bool)
      requires Valid() && proto.Valid()
      modifies proto, proto.buffer
      ensures proto.Valid()
      ensures proto.Packet() == [PacketType.ContactList.Code(), old(proto.counter)] + ListBytes(Views())
      ensures proto.packets == old(proto.packets) + [proto.Packet()]
    {
      var views := CollectViews();
      proto.BuildContactList(views);
      success :| true;
    }

    /** sendContactReport: refreshes every contact's value and builds a
        report of all contacts in node order. When the refreshed entries do
        not fit the packet buffer (see ReportFit) nothing is built, the
        send fails and `overflow` is set. */
    method SendContactReportPacket(proto: PacketBuffer) returns (success: bool, overflow: bool)
      requires Valid() && proto.Valid()
      modifies proto, proto.buffer, Registered
      ensures Valid() && proto.Valid()
      ensures forall k :: 0 <= k < numContacts ==> Refreshed(old(States())[k], contacts[k].State())
      ensures overflow <==> 2 + |EntriesBytes(Views())| > BufferSize
      ensures overflow ==> !success && unchanged(proto, proto.buffer)
      ensures !overflow ==>
        && proto.Packet() == [PacketType.ContactReport.Code(), old(proto.counter)] + EntriesBytes(Views())
        && proto.packets == old(proto.packets) + [proto.Packet()]
    {
      RefreshAll();
      var views := CollectViews();
      overflow := 2 + |EntriesBytes(views)| > BufferSize;
      if overflow {
        success := false;
      } else {
        proto.BuildContactReport(views);
        success :| true;
      }
    }

    /** sendReport() on contact i. */
    method ReportAt(i: nat, proto: PacketBuffer)
      requires Valid() && proto.Valid() && i < numContacts
      modifies contacts[i], proto, proto.buffer
      ensures Valid() && proto.Valid()
      ensures proto.Packet() == ValuePacket(old(proto.counter), contacts[i].View())
      ensures proto.packets == old(proto.packets) + [proto.Packet()]
      ensures Refreshed(old(contacts[i].State()), contacts[i].State())
      ensures forall k :: 0 <= k < numContacts && k != i ==> contacts[k].State() == old(contacts[k].State())
    {
      assert forall k :: 0 <= k < numContacts && k != i ==> contacts[k] != contacts[i];
      var _ := contacts[i].SendReport(proto);
    }

    /** intervalTick(time) on contact i. */
    method TickAt(i: nat, time: ulong, proto: PacketBuffer)
      requires Valid() && proto.Valid() && i < numContacts
      modifies contacts[i], proto, proto.buffer
      ensures Valid() && proto.Valid()
      ensures Ticked(old(contacts[i].State()), contacts[i].State(), time)
      ensures var t := old(contacts[i].TickState());
        proto.packets == old(proto.packets) +
          if TickSends(t.interval, t.next, t.enqueued, time) then [ValuePacket(|old(proto.packets)| % 0x100, contacts[i].View())] else []
      ensures forall k :: 0 <= k < numContacts && k != i ==>
        contacts[k].State() == old(contacts[k].State()) && contacts[k].View() == old(contacts[k].View())
    {
      assert forall k :: 0 <= k < numContacts && k != i ==> contacts[k] != contacts[i];
      var _ := contacts[i].IntervalTick(time, proto);
    }

    /** One contact of the first pass: contact i reports if it is
        enqueued, and otherwise offers its countdown for the sleep interval. */
    method FirstPassAt(i: nat, proto: PacketBuffer, sleep: ulong) returns (sleepInterval: ulong)
      requires Valid() && proto.Valid() && i < numContacts
      modifies contacts[i], proto, proto.buffer
      ensures Valid() && proto.Valid()
      ensures var t := old(contacts[i].TickState());
        sleepInterval == if !t.enqueued && t.next > 0 && t.next < sleep then t.next else sleep
      ensures proto.packets == old(proto.packets) +
        if old(contacts[i].enqueued) then [ValuePacket(|old(proto.packets)| % 0x100, contacts[i].View())] else []
      ensures Refreshed(old(contacts[i].State()), contacts[i].State())
      ensures forall k :: 0 <= k < numContacts && k != i ==>
        contacts[k].State() == old(contacts[k].State()) && contacts[k].View() == old(contacts[k].View())
    {
      sleepInterval := sleep;
      if contacts[i].enqueued {
        ReportAt(i, proto);
      } else {
        var interval := contacts[i].nextReport;
        if interval > 0 && interval < sleepInterval {
          sleepInterval := interval;
        }
      }
    }

    /** The bookkeeping of ReportEnqueued's loop before contact i: the
        sleep interval over the contacts before i, their views `vs` and the
        packets they sent, and every contact's state relative to `ss`. */
    ghost predicate FirstPassAfter(i: nat, proto: PacketBuffer, sleep: ulong, ts: seq<Tick>, ss: seq<ContactState>,
                                   p0: seq<seq<byte>>, picks: seq<bool>, vs: seq<ContactView>)
      reads this`numContacts, this`Registered, contacts, Registered, proto
      requires Valid()
    {
      && i <= numContacts && |ts| == |ss| == |picks| == numContacts
      && (forall k :: 0 <= k < numContacts ==> ts[k] == ss[k].tick && picks[k] == ts[k].enqueued)
      && sleep == SleepInterval(ts[..i])
      && |vs| == i
      && (forall k :: 0 <= k < i ==> vs[k] == contacts[k].View())
      && proto.packets == Reported(p0, vs, picks)
      && (forall k :: 0 <= k < i ==> Refreshed(ss[k], contacts[k].State()))
      && (forall k :: i <= k < numContacts ==> contacts[k].State() == ss[k])
    }

    /** One round of ReportEnqueued's loop: FirstPassAt on contact i, with
        the bookkeeping carried from contact i to contact i + 1. */
    method FirstPassRound(i: nat, proto: PacketBuffer, sleep: ulong, ghost ts: seq<Tick>, ghost ss: seq<ContactState>,
                          ghost p0: seq<seq<byte>>, ghost picks: seq<bool>, ghost vs: seq<ContactView>)
      returns (sleepInterval: ulong, ghost vs': seq<ContactView>)
      requires Valid() && proto.Valid() && i < numContacts
      requires FirstPassAfter(i, proto, sleep, ts, ss, p0, picks, vs)
      modifies contacts[i], proto, proto.buffer
      ensures Valid() && proto.Valid()
      ensures FirstPassAfter(i + 1, proto, sleepInterval, ts, ss, p0, picks, vs')
    {
      assert contacts[i].TickState() == ts[i];
      FirstPassStep(ts, i);
      sleepInterval := FirstPassAt(i, proto, sleep);
      ReportedStep(p0, vs, contacts[i].View(), picks);
      vs' := vs + [contacts[i].View()];
    }

    /** The first pass of the kRunning branch: every enqueued contact sends
        a report, in node order; the others give the sleep interval. */
    method ReportEnqueued(proto: PacketBuffer) returns (sleepInterval: ulong)
      requires Valid() && proto.Valid()
      modifies proto, proto.buffer, Registered
      ensures Valid() && proto.Valid()
      ensures sleepInterval == SleepInterval(old(Ticks()))
      ensures proto.packets == Reported(old(proto.packets), Views(), EnqueuedPicks(old(Ticks())))
      ensures forall k :: 0 <= k < numContacts ==> Refreshed(old(States())[k], contacts[k].State())
    {
      ghost var ts := Ticks();
      ghost var ss := States();
      ghost var p0 := proto.packets;
      ghost var picks := EnqueuedPicks(ts);
      ghost var vs: seq<ContactView> := [];
      sleepInterval := 0xffff_ffff;
      var i := 0;
      while i < numContacts
        invariant Valid() && proto.Valid()
        invariant FirstPassAfter(i, proto, sleepInterval, ts, ss, p0, picks, vs)
      {
        sleepInterval, vs := FirstPassRound(i, proto, sleepInterval, ts, ss, p0, picks, vs);
        i := i + 1;
      }
      assert ts[..numContacts] == ts;
      assert vs == Views();
    }

    /** The bookkeeping of TickAll's loop before contact i: the views `vs`
        of the contacts before i and the packets they sent, and every
        contact's state relative to `ss`. */
    ghost predicate TickPassAfter(i: nat, proto: PacketBuffer, time: ulong, ts: seq<Tick>, ss: seq<ContactState>,
                                  p0: seq<seq<byte>>, picks: seq<bool>, vs: seq<ContactView>)
      reads this`numContacts, this`Registered, contacts, Registered, proto
      requires Valid()
    {
      && i <= numContacts && |ts| == |ss| == |picks| == numContacts
      && (forall k :: 0 <= k < numContacts ==>
            ts[k] == ss[k].tick && picks[k] == TickSends(ts[k].interval, ts[k].next, ts[k].enqueued, time))
      && |vs| == i
      && (forall k :: 0 <= k < i ==> vs[k] == contacts[k].View())
      && proto.packets == Reported(p0, vs, picks)
      && (forall k :: 0 <= k < i ==> Ticked(ss[k], contacts[k].State(), time))
      && (forall k :: i <= k < numContacts ==> contacts[k].State() == ss[k])
    }

    /** One round of TickAll's loop: TickAt on contact i, with the
        bookkeeping carried from contact i to contact i + 1. */
    method TickRound(i: nat, time: ulong, proto: PacketBuffer, ghost ts: seq<Tick>, ghost ss: seq<ContactState>,
                     ghost p0: seq<seq<byte>>, ghost picks: seq<bool>, ghost vs: seq<ContactView>)
      returns (ghost vs': seq<ContactView>)
      requires Valid() && proto.Valid() && i < numContacts
      requires TickPassAfter(i, proto, time, ts, ss, p0, picks, vs)
      modifies contacts[i], proto, proto.buffer
      ensures Valid() && proto.Valid()
      ensures TickPassAfter(i + 1, proto, time, ts, ss, p0, picks, vs')
    {
      assert contacts[i].TickState() == ts[i];
      TickAt(i, time, proto);
      ReportedStep(p0, vs, contacts[i].View(), picks);
      vs' := vs + [contacts[i].View()];
    }

    /** The second pass of the kRunning branch: every contact is ticked by
        the same interval, in node order. */
    method TickAll(time: ulong, proto: PacketBuffer)
      requires Valid() && proto.Valid()
      modifies proto, proto.buffer, Registered
      ensures Valid() && proto.Valid()
      ensures proto.packets == Reported(old(proto.packets), Views(), TickPicks(old(Ticks()), time))
      ensures forall k :: 0 <= k < numContacts ==> Ticked(old(States())[k], contacts[k].State(), time)
    {
      ghost var ts := Ticks();
      ghost var ss := States();
      ghost var p0 := proto.packets;
      ghost var picks := TickPicks(ts, time);
      ghost var vs: seq<ContactView> := [];
      var i := 0;
      while i < numContacts
        invariant Valid() && proto.Valid()
        invariant TickPassAfter(i, proto, time, ts, ss, p0, picks, vs)
      {
        vs := TickRound(i, time, proto, ts, ss, p0, picks, vs);
        i := i + 1;
      }
      assert vs == Views();
    }

    /** What the kRunning branch leaves, from the scheduling states `ts`,
        contact states `ss` and packet history `p0` before it: the sleep
        interval of `ts`; every contact ticked by it; the first pass's
        contact value packets of the enqueued contacts, reported as
        `firstViews` (which differ from the final views only in values, and
        only for contacts with a value callback), then the second pass's
        packets of the contacts whose tick sends, in their final views. */
    ghost predicate RunningOutcome(ts: seq<Tick>, ss: seq<ContactState>, p0: seq<seq<byte>>, proto: PacketBuffer,
                                   sleepInterval: ulong, firstViews: seq<ContactView>)
      reads this`numContacts, this`Registered, contacts, Registered, proto
      requires Valid()
    {
      && |ts| == |ss| == |firstViews| == numContacts
      && sleepInterval == SleepInterval(ts)
      && (forall k :: 0 <= k < numContacts ==> Ticked(ss[k], contacts[k].State(), sleepInterval))
      && (forall k :: 0 <= k < numContacts ==> firstViews[k] == contacts[k].ViewAt(firstViews[k].value))
      && (forall k :: 0 <= k < numContacts && !ss[k].hasValueFunc ==> firstViews[k].value == ss[k].value)
      && proto.packets == Reported(Reported(p0, firstViews, EnqueuedPicks(ts)), Views(), TickPicks(ts, sleepInterval))
    }

    /** The kRunning branch of run(): both passes, with the sleep interval
        the first one computes; see RunningOutcome. */
    method RunRunning(proto: PacketBuffer) returns (sleepInterval: ulong, ghost firstViews: seq<ContactView>)
      requires Valid() && proto.Valid()
      modifies proto, proto.buffer, Registered
      ensures Valid() && proto.Valid()
      ensures RunningOutcome(old(Ticks()), old(States()), old(proto.packets), proto, sleepInterval, firstViews)
    {
      ghost var ts := Ticks();
      ghost var ss := States();
      ghost var p0 := proto.packets;
      sleepInterval := ReportEnqueued(proto);
      firstViews := Views();
      ghost var middle := States();
      assert forall k :: 0 <= k < numContacts ==>
        firstViews[k] == SettingsView(contacts[k].id, contacts[k].ctype, middle[k].config, middle[k].value);
      assert Ticks() == ts by {
        assert forall k :: 0 <= k < numContacts ==> Ticks()[k] == middle[k].tick == ss[k].tick == ts[k];
      }
      TickAll(sleepInterval, proto);
      forall k | 0 <= k < numContacts
        ensures Ticked(ss[k], contacts[k].State(), sleepInterval)
        ensures firstViews[k] == contacts[k].ViewAt(firstViews[k].value)
        ensures !ss[k].hasValueFunc ==> firstViews[k].value == ss[k].value
      {
        RefreshedThenTicked(ss[k], middle[k], contacts[k].State(), sleepInterval);
      }
    }

    /** The kSendHello branch of run(). */
    method RunSendHello(proto: PacketBuffer) returns (success: bool)
      requires Valid() && proto.Valid() && state == SendHello
      modifies this`state, proto, proto.buffer
      ensures Valid() && proto.Valid()
      ensures state == (if success then SendContactList else SendHello)
      ensures proto.Packet() == [PacketType.Hello.Code(), old(proto.counter), versionHW, versionSW, 0]
      ensures proto.packets == old(proto.packets) + [proto.Packet()]
    {
      success := SendHelloPacket(proto);
      if success {
        state := SendContactList;
      }
    }

    /** The kSendContactList branch of run(). */
    method RunSendContactList(proto: PacketBuffer) returns (success: bool)
      requires Valid() && proto.Valid() && state == SendContactList
      modifies this`state, proto, proto.buffer
      ensures Valid() && proto.Valid()
      ensures state == (if success then SendContactReport else SendContactList)
      ensures proto.Packet() == [PacketType.ContactList.Code(), old(proto.counter)] + ListBytes(Views())
      ensures proto.packets == old(proto.packets) + [proto.Packet()]
    {
      success := SendContactListPacket(proto);
      if success {
        state := SendContactReport;
      }
    }

    /** The kSendContactReport branch of run(); a report that does not fit
        the buffer leaves the node in kSendContactReport. */
    method RunSendContactReport(proto: PacketBuffer) returns (success: bool)
      requires Valid() && proto.Valid() && state == SendContactReport
      modifies this`state, proto, proto.buffer, Registered
      ensures Valid() && proto.Valid()
      ensures state == (if success then Running else SendContactReport)
      ensures forall k :: 0 <= k < numContacts ==> Refreshed(old(States())[k], contacts[k].State())
      ensures 2 + |EntriesBytes(Views())| > BufferSize ==> !success && unchanged(proto, proto.buffer)
      ensures 2 + |EntriesBytes(Views())| <= BufferSize ==>
        && proto.Packet() == [PacketType.ContactReport.Code(), old(proto.counter)] + EntriesBytes(Views())
        && proto.packets == old(proto.packets) + [proto.Packet()]
    {
      var overflow;
      success, overflow := SendContactReportPacket(proto);
      if success {
        state := Running;
      }
    }

    /** run(): one step of the state machine. In the three start-up states
        the matching packet is sent and the state advances exactly when the
        send succeeds; Running stays Running and reschedules the contacts.
        `sleepInterval` is the Running branch's interval and `firstViews`
        the contacts as its first pass reported them. */
    method Run(proto: PacketBuffer) returns (success: bool, sleepInterval: ulong, ghost firstViews: seq<ContactView>)
      requires Valid() && proto.Valid()
      modifies this`state, proto, proto.buffer, Registered
      ensures Valid() && proto.Valid()
      ensures old(state) != Running ==> state == (if success then old(state).Next() else old(state))
      ensures old(state) == SendHello ==>
        && proto.Packet() == [PacketType.Hello.Code(), old(proto.counter), versionHW, versionSW, 0]
        && proto.packets == old(proto.packets) + [proto.Packet()]
        && unchanged(Registered)
      ensures old(state) == SendContactList ==>
        && proto.Packet() == [PacketType.ContactList.Code(), old(proto.counter)] + ListBytes(old(Views()))
        && proto.packets == old(proto.packets) + [proto.Packet()]
        && unchanged(Registered)
      ensures old(state) == SendContactReport ==>
        && (forall k :: 0 <= k < numContacts ==> Refreshed(old(States())[k], contacts[k].State()))
        && (2 + |EntriesBytes(Views())| > BufferSize ==> !success && unchanged(proto, proto.buffer))
        && (2 + |EntriesBytes(Views())| <= BufferSize ==>
          && proto.Packet() == [PacketType.ContactReport.Code(), old(proto.counter)] + EntriesBytes(Views())
          && proto.packets == old(proto.packets) + [proto.Packet()])
      ensures old(state) == Running ==>
        && state == Running
        && RunningOutcome(old(Ticks()), old(States()), old(proto.packets), proto, sleepInterval, firstViews)
    {
      sleepInterval := 0;
      success := false;
      firstViews := [];
      match state
      case SendHello =>
        success := RunSendHello(proto);
      case SendContactList =>
        success := RunSendContactList(proto);
      case SendContactReport =>
        success := RunSendContactReport(proto);
      case Running =>
        sleepInterval, firstViews := RunRunning(proto);
    }
  }
}
