/** The gateway's sync engine (emoncms.py): the registry of known nodes and
    their contacts, and class Emoncms, which mirrors decoded packets into an
    emoncms store and rebuilds the registry from the store's feed list.

    The store is reached over HTTP in the source. Here it is a script of
    responses consumed one per request, together with the log of requests
    made (Store); a response is either a failure (what __apiCall returns as
    False) or a JSON object with the keys the callers probe for. Python
    exceptions are the outcome Threw. The registry's node and contact
    objects are only ever reached through the registry, so they are modelled
    as values that the class reassigns. */
module Emoncms {
  import opened Common
  import opened BranlyPacket

  // ---------------------------------------------------------------------
  // The registry: BranlyNode and BranlyContact of emoncms.py

  /** A contact's flags: the "r"/"w" text given at creation or read from a
      feed tag, or the flag bits of the last reported value. */
  datatype Flags = Access(text: string) | ReportedFlags(bits: nat)

  /** "%s" of the flags. */
  function FlagsText(f: Flags): string
  {
    match f
    case Access(t) => t
    case ReportedFlags(b) => FormatNat(b, 10)
  }

  /** A contact; value None is the class default False (never set). */
  datatype CmsContact = CmsContact(id: int, ctype: int, name: string, flags: Flags, value: Option<int>)

  datatype CmsNode = CmsNode(id: int, name: string, contacts: seq<CmsContact>)

  /** BranlyNode.findContact: the index of the first contact with the id. */
  function ContactIndex(cs: seq<CmsContact>, id: int): (r: Option<nat>)
    ensures r.Some? ==> r.value < |cs| && cs[r.value].id == id
    ensures r.Some? ==> forall k :: 0 <= k < r.value ==> cs[k].id != id
    ensures r.None? <==> forall k :: 0 <= k < |cs| ==> cs[k].id != id
    decreases |cs|
  {
    if cs == [] then None
    else if cs[0].id == id then Some(0)
    else match ContactIndex(cs[1..], id)
      case None => None
      case Some(i) => Some(i + 1)
  }

  predicate HasContact(node: CmsNode, id: int)
  {
    ContactIndex(node.contacts, id).Some?
  }

  /** Emoncms.__findNode: the index of the first node with the id. */
  function NodeIndex(ns: seq<CmsNode>, id: int): (r: Option<nat>)
    ensures r.Some? ==> r.value < |ns| && ns[r.value].id == id
    ensures r.Some? ==> forall k :: 0 <= k < r.value ==> ns[k].id != id
    ensures r.None? <==> forall k :: 0 <= k < |ns| ==> ns[k].id != id
    decreases |ns|
  {
    if ns == [] then None
    else if ns[0].id == id then Some(0)
    else match NodeIndex(ns[1..], id)
      case None => None
      case Some(i) => Some(i + 1)
  }

  /** BranlyNode.findContact, as the loop it is. */
  method FindContact(contacts: seq<CmsContact>, id: int) returns (index: Option<nat>)
    ensures index == ContactIndex(contacts, id)
  {
    var k := 0;
    while k < |contacts|
      invariant 0 <= k <= |contacts|
      invariant forall j :: 0 <= j < k ==> contacts[j].id != id
    {
      if contacts[k].id == id {
        return Some(k);
      }
      k := k + 1;
    }
    return None;
  }

  /** BranlyNode.setContactValue: the first contact with the id takes the
      value and the flags; with no such contact (logged) nothing changes. */
  function SetContactValue(node: CmsNode, id: int, value: int, flags: nat): (r: CmsNode)
    ensures r.id == node.id && r.name == node.name && |r.contacts| == |node.contacts|
    ensures forall k :: 0 <= k < |r.contacts| ==> r.contacts[k].id == node.contacts[k].id
    ensures forall k :: 0 <= k < |r.contacts| && Some(k) != ContactIndex(node.contacts, id) ==>
      r.contacts[k] == node.contacts[k]
    ensures ContactIndex(node.contacts, id).Some? ==>
      var c := r.contacts[ContactIndex(node.contacts, id).value];
      c.value == Some(value) && c.flags == ReportedFlags(flags)
  {
    match ContactIndex(node.contacts, id)
    case None => node
    case Some(i) =>
      node.(contacts := node.contacts[i := node.contacts[i].(value := Some(value), flags := ReportedFlags(flags))])
  }

  predicate ContactIdsUnique(node: CmsNode)
  {
    forall i, j :: 0 <= i < j < |node.contacts| ==> node.contacts[i].id != node.contacts[j].id
  }

  predicate NodeIdsUnique(ns: seq<CmsNode>)
  {
    forall i, j :: 0 <= i < j < |ns| ==> ns[i].id != ns[j].id
  }

  // ---------------------------------------------------------------------
  // The store

  /** A decoded API response: failure (no response, a non-200 status or no
      JSON), or an object with the keys the callers look for. */
  datatype Response =
    | Failed
    | Json(success: Option<bool>, created: Option<bool>, idlist: Option<seq<int>>, feedid: Option<int>)

  /** The API calls, with the arguments the model keeps. */
  datatype Request =
    | PostInput(node: int, input: int, value: int)
    | PostInputNamed(node: int, inputName: string, value: int)
    | CreateFeed(input: int)
    | CreateProcess(input: int, feed: int)
    | SetInputProperties(input: int, inputName: string, description: string)
    | SetFeedProperties(feed: int, feedName: string, tag: string)

  /** The responses still to come, and the requests made so far. */
  datatype Store = Store(script: seq<Response>, log: seq<Request>)

  datatype Exchange = Exchange(reply: Response, after: Store)

  /** The k-th response still to come; a store that has run out fails. */
  function Reply(st: Store, k: nat): Response
  {
    if k < |st.script| then st.script[k] else Failed
  }

  /** One API call: logs the request and consumes one response. */
  function Call(st: Store, req: Request): (x: Exchange)
    ensures x.reply == Reply(st, 0)
    ensures x.after.log == st.log + [req]
    ensures forall k: nat :: Reply(x.after, k) == Reply(st, k + 1)
  {
    Exchange(Reply(st, 0), Store(if st.script == [] then [] else st.script[1..], st.log + [req]))
  }

  /** `j and "success" in j` */
  predicate HasSuccess(j: Response) { j.Json? && j.success.Some? }

  /** `j and "success" in j and j["success"]` */
  predicate Succeeded(j: Response) { HasSuccess(j) && j.success.value }

  /** The test on the input/post.json response of __createCmsNodeContact. */
  predicate InputCreated(j: Response)
  {
    Succeeded(j) && j.created.Some? && j.idlist.Some? && |j.idlist.value| > 0
  }

  /** The test on the feed/create.json response of __createCmsNodeContact:
      only the keys, not the value of "success". */
  predicate FeedCreated(j: Response) { HasSuccess(j) && j.feedid.Some? }

  /** "%d" */
  function FormatInt(i: int): (s: string)
    ensures ':' !in s
  {
    if i < 0 then "-" + FormatNat(-i, 10) else FormatNat(i, 10)
  }

  /** The feed tag "bc:<node id>:<contact id>:<type>:<flags>". */
  function ContactTag(nodeId: int, id: int, ctype: int, flags: string): string
  {
    Join(["bc", FormatInt(nodeId), FormatInt(id), FormatInt(ctype), flags], ':')
  }

  datatype Attempt = Attempt(ok: bool, store: Store)

  /** __createCmsNodeContact: input, feed, process, input properties and
      feed properties, each call made only if the one before passed its
      test; True only if the last reports success. */
  function CreateCmsNodeContact(nodeId: int, c: CmsContact, st: Store): Attempt
  {
    var x1 := Call(st, PostInput(nodeId, c.id, 0));
    if !InputCreated(x1.reply) then Attempt(false, x1.after)
    else
      var input := x1.reply.idlist.value[0];
      var x2 := Call(x1.after, CreateFeed(input));
      if !FeedCreated(x2.reply) then Attempt(false, x2.after)
      else
        var feed := x2.reply.feedid.value;
        var x3 := Call(x2.after, CreateProcess(input, feed));
        if !Succeeded(x3.reply) then Attempt(false, x3.after)
        else
          var x4 := Call(x3.after, SetInputProperties(input, "c" + FormatInt(c.id), "New contact"));
          if !Succeeded(x4.reply) then Attempt(false, x4.after)
          else
            var tag := ContactTag(nodeId, c.id, c.ctype, FlagsText(c.flags));
            var x5 := Call(x4.after, SetFeedProperties(feed, "New contact", tag));
            Attempt(Succeeded(x5.reply), x5.after)
  }

  /** What a call into the sync engine returns: a boolean, or an exception. */
  datatype Outcome = Returned(ok: bool) | Threw

  datatype InputReport = InputReport(outcome: Outcome, store: Store)

  /** __reportCmsInput: posts a named input; with createFeed, an input the
      store reports as newly created also gets a feed, a process and feed
      properties, and the value is posted again. The id list is indexed
      without a check, so a missing or empty one throws. */
  function ReportCmsInput(nodeId: int, inputName: string, value: int, createFeed: bool, st: Store): InputReport
  {
    var x1 := Call(st, PostInputNamed(nodeId, inputName, value));
    var j := x1.reply;
    if !(Succeeded(j) && j.created.Some?) then InputReport(Returned(false), x1.after)
    else if !(createFeed && j.created.value) then InputReport(Returned(true), x1.after)
    else if j.idlist.None? || |j.idlist.value| == 0 then InputReport(Threw, x1.after)
    else
      var input := j.idlist.value[0];
      var x2 := Call(x1.after, CreateFeed(input));
      if !(FeedCreated(x2.reply) && x2.reply.success.value) then InputReport(Returned(false), x2.after)
      else
        var feed := x2.reply.feedid.value;
        var x3 := Call(x2.after, CreateProcess(input, feed));
        if !Succeeded(x3.reply) then InputReport(Returned(false), x3.after)
        else
          var x4 := Call(x3.after, SetFeedProperties(feed, inputName, ""));
          if !Succeeded(x4.reply) then InputReport(Returned(false), x4.after)
          else
            var x5 := Call(x4.after, PostInputNamed(nodeId, inputName, value));
            InputReport(Returned(Succeeded(x5.reply)), x5.after)
  }

  /** __reportCmsContact: one post of the value; the flags are not sent. */
  function ReportCmsContact(nodeId: int, contactId: int, value: int, st: Store): Attempt
  {
    var x := Call(st, PostInput(nodeId, contactId, value));
    Attempt(Succeeded(x.reply), x.after)
  }

  /** __createCmsNode: the store has no node concept, so it always succeeds. */
  function CreateCmsNode(node: CmsNode): bool
  {
    true
  }

  // ---------------------------------------------------------------------
  // handlePacket

  /** The node a list or report packet is applied to, the store, and the
      `success` flag. */
  datatype Progress = Progress(node: CmsNode, store: Store, success: bool)

  /** The contact created for a list entry the node does not have. */
  function NewContact(e: ListEntry): CmsContact
  {
    CmsContact(e.id, e.ctype, "New contact", Access(if e.writeable != 0 then "w" else "r"), None)
  }

  /** One contact list entry: a contact the node lacks is created in the
      store and added only if that succeeds. */
  function ListStep(acc: Progress, e: ListEntry): Progress
  {
    if HasContact(acc.node, e.id) then acc
    else
      var c := NewContact(e);
      var a := CreateCmsNodeContact(acc.node.id, c, acc.store);
      if a.ok then Progress(acc.node.(contacts := acc.node.contacts + [c]), a.store, acc.success)
      else Progress(acc.node, a.store, false)
  }

  /** The contact list entries, in order. */
  function ApplyList(acc: Progress, es: seq<ListEntry>): Progress
    decreases |es|
  {
    if es == [] then acc else ApplyList(ListStep(acc, es[0]), es[1..])
  }

  /** One value entry: an unknown contact is logged and skipped; otherwise
      the value is posted and taken over only if the post succeeds. */
  function ReportStep(acc: Progress, v: ValueEntry): Progress
  {
    if !HasContact(acc.node, v.id) then acc
    else
      var a := ReportCmsContact(acc.node.id, v.id, v.value, acc.store);
      if a.ok then Progress(SetContactValue(acc.node, v.id, v.value, v.flags), a.store, acc.success)
      else Progress(acc.node, a.store, false)
  }

  /** The value entries, in order. */
  function ApplyReports(acc: Progress, vs: seq<ValueEntry>): Progress
    decreases |vs|
  {
    if vs == [] then acc else ApplyReports(ReportStep(acc, vs[0]), vs[1..])
  }

  /** The report loop as written: an unknown contact raises AttributeError
      (the log message reads `.id` of None), abandoning the remaining entries
      with the changes made so far in place. */
  datatype ReportRun = Completed(progress: Progress) | Aborted(progress: Progress)

  function ApplyReportsAsWritten(acc: Progress, vs: seq<ValueEntry>): ReportRun
    decreases |vs|
  {
    if vs == [] then Completed(acc)
    else if !HasContact(acc.node, vs[0].id) then Aborted(acc)
    else ApplyReportsAsWritten(ReportStep(acc, vs[0]), vs[1..])
  }

  /** The registry, the last sequence number and the store. */
  datatype Sync = Sync(nodes: seq<CmsNode>, lastPacketSeqNo: int, store: Store)

  datatype Handling = Handling(outcome: Outcome, state: Sync)

  /** What the decoder guarantees about a packet's body. */
  predicate BodyMatchesType(p: Packet)
  {
    && (p.ptype == PacketContactList ==> p.body.ListBody?)
    && (p.ptype == PacketContactReport || p.ptype == PacketContactValue ==> p.body.ValuesBody?)
  }

  function ListBranch(s: Sync, p: Packet): Handling
    requires p.body.ListBody?
  {
    var found := NodeIndex(s.nodes, p.fromAddr);
    if found.Some? then
      var acc := ApplyList(Progress(s.nodes[found.value], s.store, true), p.body.contactList);
      Handling(Returned(acc.success), s.(nodes := s.nodes[found.value := acc.node], store := acc.store))
    else
      var node := CmsNode(p.fromAddr, "New node", []);
      var created := CreateCmsNode(node);
      var acc := ApplyList(Progress(node, s.store, created), p.body.contactList);
      Handling(Returned(acc.success), s.(nodes := if created then s.nodes + [acc.node] else s.nodes, store := acc.store))
  }

  function ValuesBranch(s: Sync, p: Packet): Handling
    requires p.body.ValuesBody?
  {
    var found := NodeIndex(s.nodes, p.fromAddr);
    if found.None? then Handling(Returned(true), s)
    else
      var acc := ApplyReports(Progress(s.nodes[found.value], s.store, true), p.body.contactValues);
      Handling(Returned(acc.success), s.(nodes := s.nodes[found.value := acc.node], store := acc.store))
  }

  /** The branch on the packet type after the two input reports. */
  function Dispatch(s: Sync, p: Packet): Handling
    requires BodyMatchesType(p)
  {
    if p.ptype == PacketContactList then ListBranch(s, p)
    else if p.ptype == PacketContactReport || p.ptype == PacketContactValue then ValuesBranch(s, p)
    else Handling(Returned(true), s)
  }

  /** Emoncms.handlePacket, for a packet received at time `now`. */
  function HandlePacketOn(s: Sync, p: Packet, now: int): Handling
    requires BodyMatchesType(p)
  {
    if s.lastPacketSeqNo != 0 && p.seqNo == s.lastPacketSeqNo then Handling(Returned(true), s)
    else
      var s1 := s.(lastPacketSeqNo := p.seqNo);
      var t := ReportCmsInput(p.fromAddr, "_time", now, false, s1.store);
      if t.outcome != Returned(true) then Handling(t.outcome, s1.(store := t.store))
      else
        var r := ReportCmsInput(p.fromAddr, "_rssi", p.rssi, true, t.store);
        if r.outcome != Returned(true) then Handling(r.outcome, s1.(store := r.store))
        else Dispatch(s1.(store := r.store), p)
  }

  // ---------------------------------------------------------------------
  // readBranlyNodes

  /** One entry of the feed/list.json response. */
  datatype Feed = Feed(tag: Option<string>, name: string, value: Option<int>)

  datatype TagResult = NotContact | TagContact(node: int, id: int, ctype: int, flags: string) | TagThrew

  /** A feed tag: five ':'-separated fields starting with "bc" describe a
      contact; int() of a field that is not a number throws. */
  function ParseTag(tag: string): TagResult
  {
    var t := Split(tag, ':');
    if |t| == 5 && t[0] == "bc" then
      var n := ParseInt(t[1]);
      var i := ParseInt(t[2]);
      var ty := ParseInt(t[3]);
      if n.None? || i.None? || ty.None? then TagThrew
      else TagContact(n.value, i.value, ty.value, t[4])
    else NotContact
  }

  function FeedTag(f: Feed): TagResult
  {
    if f.tag.None? then NotContact else ParseTag(f.tag.value)
  }

  const UnnamedNode := "Node names currently not supported"

  /** The nodes completed so far and the node being filled (curNode). */
  datatype Reading = Reading(nodes: seq<CmsNode>, current: Option<CmsNode>)

  function ReadStep(r: Reading, f: Feed): Option<Reading>
  {
    match FeedTag(f)
    case NotContact => Some(r)
    case TagThrew => None
    case TagContact(n, id, ty, fl) =>
      var c := CmsContact(id, ty, f.name, Access(fl), f.value);
      var cur := if r.current.None? then CmsNode(n, UnnamedNode, []) else r.current.value;
      if cur.id != n then Some(Reading(r.nodes + [cur], Some(CmsNode(n, UnnamedNode, [c]))))
      else Some(Reading(r.nodes, Some(cur.(contacts := cur.contacts + [c]))))
  }

  function ReadFrom(r: Reading, fs: seq<Feed>): Option<Reading>
    decreases |fs|
  {
    if fs == [] then Some(r)
    else match ReadStep(r, fs[0])
      case None => None
      case Some(r') => ReadFrom(r', fs[1..])
  }

  function Finish(r: Reading): seq<CmsNode>
  {
    r.nodes + (if r.current.Some? then [r.current.value] else [])
  }

  /** readBranlyNodes on the feed list (None: the call failed, and iterating
      over False throws). */
  function ReadNodes(feeds: Option<seq<Feed>>): Option<seq<CmsNode>>
  {
    if feeds.None? then None
    else match ReadFrom(Reading([], None), feeds.value)
      case None => None
      case Some(r) => Some(Finish(r))
  }

  // ---------------------------------------------------------------------
  // class Emoncms

  class Emoncms {
    var nodes: seq<CmsNode>
    var lastPacketSeqNo: int
    var store: Store

    /** A new instance, talking to `server`; no packet seen yet (False, which
        compares equal to 0). */
    constructor (server: Store)
      ensures nodes == [] && lastPacketSeqNo == 0 && store == server
    {
      nodes := [];
      lastPacketSeqNo := 0;
      store := server;
    }

    function State(): Sync
      reads this
    {
      Sync(nodes, lastPacketSeqNo, store)
    }

    /** __findNode */
    method FindNode(id: int) returns (index: Option<nat>)
      ensures index == NodeIndex(nodes, id)
    {
      var k := 0;
      while k < |nodes|
        invariant 0 <= k <= |nodes|
        invariant forall j :: 0 <= j < k ==> nodes[j].id != id
      {
        if nodes[k].id == id {
          return Some(k);
        }
        k := k + 1;
      }
      return None;
    }

    /** handlePacket */
    method HandlePacket(packet: Packet, now: int) returns (result: Outcome)
      requires BodyMatchesType(packet)
      modifies this
      ensures Handling(result, State()) == HandlePacketOn(old(State()), packet, now)
    {
      if lastPacketSeqNo != 0 && packet.seqNo == lastPacketSeqNo {
        return Returned(true);
      }
      lastPacketSeqNo := packet.seqNo;
      var report := ReportCmsInput(packet.fromAddr, "_time", now, false, store);
      store := report.store;
      if report.outcome != Returned(true) {
        return report.outcome;
      }
      report := ReportCmsInput(packet.fromAddr, "_rssi", packet.rssi, true, store);
      store := report.store;
      if report.outcome != Returned(true) {
        return report.outcome;
      }
      if packet.ptype == PacketContactList {
        result := HandleContactList(packet);
      } else if packet.ptype == PacketContactReport || packet.ptype == PacketContactValue {
        result := HandleContactValues(packet);
      } else {
        result := Returned(true);
      }
    }

    /** The contact list branch of handlePacket. */
    method HandleContactList(packet: Packet) returns (result: Outcome)
      requires packet.body.ListBody?
      modifies this`nodes, this`store
      ensures Handling(result, State()) == ListBranch(old(State()), packet)
    {
      var found := FindNode(packet.fromAddr);
      var node: CmsNode;
      var success: bool;
      // The registry holds the node object itself, so the contacts the loop
      // adds show in the registry: the node is written back after the loop.
      if found.Some? {
        node, success := ApplyContactList(nodes[found.value], true, packet.body.contactList);
        nodes := nodes[found.value := node];
      } else {
        node := CmsNode(packet.fromAddr, "New node", []);
        var created := CreateCmsNode(node);
        node, success := ApplyContactList(node, created, packet.body.contactList);
        if created {
          nodes := nodes + [node];
        }
      }
      result := Returned(success);
    }

    /** The loop of handleContactListPacket over the list entries. */
    method ApplyContactList(node0: CmsNode, success0: bool, entries: seq<ListEntry>) returns (node: CmsNode, success: bool)
      modifies this`store
      ensures Progress(node, store, success) == ApplyList(Progress(node0, old(store), success0), entries)
    {
      node, success := node0, success0;
      var i := 0;
      while i < |entries|
        invariant 0 <= i <= |entries|
        invariant ApplyList(Progress(node0, old(store), success0), entries)
          == ApplyList(Progress(node, store, success), entries[i..])
      {
        var e := entries[i];
        var k := FindContact(node.contacts, e.id);
        if k.None? {
          var contact := NewContact(e);
          var created := CreateCmsNodeContact(node.id, contact, store);
          store := created.store;
          if created.ok {
            node := node.(contacts := node.contacts + [contact]);
          } else {
            success := false;
          }
        }
        assert entries[i..][1..] == entries[i + 1..];
        i := i + 1;
      }
    }

    method HandleContactValues(packet: Packet) returns (result: Outcome)
      requires packet.body.ValuesBody?
      modifies this`nodes, this`store
      ensures Handling(result, State()) == ValuesBranch(old(State()), packet)
    {
      var found := FindNode(packet.fromAddr);
      if found.None? {
        return Returned(true);
      }
      var node := nodes[found.value];
      var success := true;
      ghost var start := Progress(node, store, success);
      var values := packet.body.contactValues;
      var i := 0;
      while i < |values|
        invariant 0 <= i <= |values|
        invariant nodes == old(nodes)
        invariant ApplyReports(start, values) == ApplyReports(Progress(node, store, success), values[i..])
      {
        var v := values[i];
        var k := FindContact(node.contacts, v.id);
        if k.Some? {
          var posted := ReportCmsContact(node.id, v.id, v.value, store);
          store := posted.store;
          if posted.ok {
            node := SetContactValue(node, v.id, v.value, v.flags);
          } else {
            success := false;
          }
        }
        assert values[i..][1..] == values[i + 1..];
        i := i + 1;
      }
      nodes := nodes[found.value := node];
      result := Returned(success);
    }

    /** readBranlyNodes: on success the registry becomes the nodes read;
        when it throws the registry is left as it was. */
    method ReadBranlyNodes(feeds: Option<seq<Feed>>) returns (result: Option<seq<CmsNode>>)
      modifies this`nodes
      ensures result == ReadNodes(feeds)
      ensures nodes == if result.Some? then result.value else old(nodes)
    {
      if feeds.None? {
        return None;
      }
      var fs := feeds.value;
      var collected: seq<CmsNode> := [];
      var curNode: Option<CmsNode> := None;
      var i := 0;
      while i < |fs|
        invariant 0 <= i <= |fs|
        invariant ReadFrom(Reading([], None), fs) == ReadFrom(Reading(collected, curNode), fs[i..])
      {
        var f := fs[i];
        ghost var before := Reading(collected, curNode);
        assert fs[i..][1..] == fs[i + 1..];
        if f.tag.Some? {
          var tag := ParseTag(f.tag.value);
          if tag.TagThrew? {
            assert ReadStep(before, f).None?;
            return None;
          }
          if tag.TagContact? {
            var nodeId := tag.node;
            if curNode.None? {
              curNode := Some(CmsNode(nodeId, UnnamedNode, []));
            }
            if curNode.value.id != nodeId {
              collected := collected + [curNode.value];
              curNode := Some(CmsNode(nodeId, UnnamedNode, []));
            }
            var contact := CmsContact(tag.id, tag.ctype, f.name, Access(tag.flags), f.value);
            assert [] + [contact] == [contact];
            curNode := Some(curNode.value.(contacts := curNode.value.contacts + [contact]));
          }
        }
        assert ReadStep(before, f) == Some(Reading(collected, curNode));
        i := i + 1;
      }
      assert fs[i..] == [];
      assert ReadFrom(Reading([], None), fs) == Some(Reading(collected, curNode));
      if curNode.Some? {
        collected := collected + [curNode.value];
      } else {
        assert collected + [] == collected;
      }
      nodes := collected;
      result := Some(collected);
    }
  }
}
