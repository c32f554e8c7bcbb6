/** What the sync engine of emoncms.py promises: duplicate suppression,
    the all-or-nothing contact creation chain, registry invariants of
    handlePacket, and the rebuild of the registry from tagged feeds. */
module EmoncmsLemmas {
  import opened Common
  import opened BranlyPacket
  import opened Emoncms

  // ---------------------------------------------------------------------
  // The store only ever grows its log

  lemma CallExtends(st: Store, req: Request)
    ensures st.log <= Call(st, req).after.log
  {
    assert Call(st, req).after.log[..|st.log|] == st.log;
  }

  lemma CreateContactExtends(nodeId: int, c: CmsContact, st: Store)
    ensures st.log <= CreateCmsNodeContact(nodeId, c, st).store.log
    ensures |CreateCmsNodeContact(nodeId, c, st).store.log| > |st.log|
  {
    var a := CreateCmsNodeContact(nodeId, c, st);
    assert a.store.log[..|st.log|] == st.log;
  }

  lemma ReportInputExtends(nodeId: int, name: string, value: int, createFeed: bool, st: Store)
    ensures st.log <= ReportCmsInput(nodeId, name, value, createFeed, st).store.log
    ensures |ReportCmsInput(nodeId, name, value, createFeed, st).store.log| > |st.log|
  {
    var r := ReportCmsInput(nodeId, name, value, createFeed, st);
    assert r.store.log[..|st.log|] == st.log;
  }

  // ---------------------------------------------------------------------
  // __createCmsNodeContact

  /** How many calls the creation chain makes: up to and including the
      first whose response fails its test, or all five. */
  function ChainCalls(st: Store): nat
  {
    if !InputCreated(Reply(st, 0)) then 1
    else if !FeedCreated(Reply(st, 1)) then 2
    else if !Succeeded(Reply(st, 2)) then 3
    else if !Succeeded(Reply(st, 3)) then 4
    else 5
  }

  /** The chain succeeds exactly when all five responses pass their tests;
      it stops at the first that does not, consuming one response per call;
      it starts by posting the input with value 0 and, when it gets that
      far, ends by tagging the feed with the contact's tag. */
  lemma CreateContactChain(nodeId: int, c: CmsContact, st: Store)
    ensures var a := CreateCmsNodeContact(nodeId, c, st);
      && (a.ok <==> (&& InputCreated(Reply(st, 0)) && FeedCreated(Reply(st, 1))
                     && Succeeded(Reply(st, 2)) && Succeeded(Reply(st, 3)) && Succeeded(Reply(st, 4))))
      && |a.store.log| == |st.log| + ChainCalls(st)
      && a.store.log[|st.log|] == PostInput(nodeId, c.id, 0)
      && (forall k: nat :: Reply(a.store, k) == Reply(st, k + ChainCalls(st)))
      && (ChainCalls(st) == 5 ==>
            a.store.log[|st.log| + 4] ==
              SetFeedProperties(Reply(st, 1).feedid.value, "New contact",
                                ContactTag(nodeId, c.id, c.ctype, FlagsText(c.flags))))
  {
    var x1 := Call(st, PostInput(nodeId, c.id, 0));
    assert x1.after.log[|st.log|] == PostInput(nodeId, c.id, 0);
    if InputCreated(x1.reply) {
      var x2 := Call(x1.after, CreateFeed(x1.reply.idlist.value[0]));
      assert Reply(x2.after, 0) == Reply(st, 2);
      if FeedCreated(x2.reply) {
        var x3 := Call(x2.after, CreateProcess(x1.reply.idlist.value[0], x2.reply.feedid.value));
        assert Reply(x3.after, 0) == Reply(st, 3);
        if Succeeded(x3.reply) {
          var x4 := Call(x3.after, SetInputProperties(x1.reply.idlist.value[0], "c" + FormatInt(c.id), "New contact"));
          assert Reply(x4.after, 0) == Reply(st, 4);
        }
      }
    }
  }

  // ---------------------------------------------------------------------
  // __reportCmsInput

  /** Without feed creation the report is one post, never throws, and
      succeeds exactly when the store answers success with a "created" key;
      it only ever succeeds if that first post succeeded, and it throws only
      when a newly created input comes without an id. */
  lemma ReportInputContract(nodeId: int, name: string, value: int, createFeed: bool, st: Store)
    ensures var r := ReportCmsInput(nodeId, name, value, createFeed, st);
      && (!createFeed ==>
            && r.outcome == Returned(Succeeded(Reply(st, 0)) && Reply(st, 0).created.Some?)
            && r.store.log == st.log + [PostInputNamed(nodeId, name, value)])
      && (r.outcome == Returned(true) ==> Succeeded(Reply(st, 0)))
      && (r.outcome == Threw <==>
            && createFeed && Succeeded(Reply(st, 0)) && Reply(st, 0).created == Some(true)
            && (Reply(st, 0).idlist.None? || |Reply(st, 0).idlist.value| == 0))
  {
  }

  // ---------------------------------------------------------------------
  // handlePacket: duplicates and the two input reports

  predicate IsDuplicate(s: Sync, p: Packet)
  {
    s.lastPacketSeqNo != 0 && p.seqNo == s.lastPacketSeqNo
  }

  /** A repeat of the last sequence number succeeds and changes nothing:
      no store call, no registry change. */
  lemma DuplicateIsNoOp(s: Sync, p: Packet, now: int)
    requires BodyMatchesType(p) && IsDuplicate(s, p)
    ensures HandlePacketOn(s, p, now) == Handling(Returned(true), s)
  {
  }

  /** Any other packet is recorded as the last one and reported to the
      store, starting with its time stamp; the log only grows. Since 0
      compares equal to False, a stored 0 suppresses nothing. */
  lemma NotDuplicateIsRecorded(s: Sync, p: Packet, now: int)
    requires BodyMatchesType(p) && !IsDuplicate(s, p)
    ensures var r := HandlePacketOn(s, p, now).state;
      && r.lastPacketSeqNo == p.seqNo
      && s.store.log <= r.store.log
      && |r.store.log| > |s.store.log|
      && r.store.log[|s.store.log|] == PostInputNamed(p.fromAddr, "_time", now)
  {
    var t := ReportCmsInput(p.fromAddr, "_time", now, false, s.store);
    ReportInputContract(p.fromAddr, "_time", now, false, s.store);
    ReportInputExtends(p.fromAddr, "_time", now, false, s.store);
    if t.outcome == Returned(true) {
      var rs := ReportCmsInput(p.fromAddr, "_rssi", p.rssi, true, t.store);
      ReportInputExtends(p.fromAddr, "_rssi", p.rssi, true, t.store);
      DispatchExtends(s.(lastPacketSeqNo := p.seqNo, store := rs.store), p);
    }
  }

  lemma DispatchExtends(s: Sync, p: Packet)
    requires BodyMatchesType(p)
    ensures s.store.log <= Dispatch(s, p).state.store.log
    ensures Dispatch(s, p).state.lastPacketSeqNo == s.lastPacketSeqNo
  {
    if p.ptype == PacketContactList {
      var found := NodeIndex(s.nodes, p.fromAddr);
      var node := if found.Some? then s.nodes[found.value] else CmsNode(p.fromAddr, "New node", []);
      ApplyListFacts(Progress(node, s.store, true), p.body.contactList);
    } else if p.ptype == PacketContactReport || p.ptype == PacketContactValue {
      var found := NodeIndex(s.nodes, p.fromAddr);
      if found.Some? {
        ApplyReportsFacts(Progress(s.nodes[found.value], s.store, true), p.body.contactValues);
      }
    }
  }

  /** The sequence N, N+1, N: the second N is handled, not suppressed;
      only an immediate repeat is. */
  lemma OnlyImmediateRepeatSuppressed(s: Sync, p1: Packet, p2: Packet, p3: Packet, t1: int, t2: int, t3: int)
    requires BodyMatchesType(p1) && BodyMatchesType(p2) && BodyMatchesType(p3)
    requires p1.seqNo == p3.seqNo != p2.seqNo
    ensures var s1 := HandlePacketOn(s, p1, t1).state;
      var s2 := HandlePacketOn(s1, p2, t2).state;
      && s2.lastPacketSeqNo == p2.seqNo
      && !IsDuplicate(s2, p3)
      && |HandlePacketOn(s2, p3, t3).state.store.log| > |s2.store.log|
  {
    var s1 := HandlePacketOn(s, p1, t1).state;
    if !IsDuplicate(s, p1) {
      NotDuplicateIsRecorded(s, p1, t1);
    }
    assert s1.lastPacketSeqNo == p1.seqNo;
    NotDuplicateIsRecorded(s1, p2, t2);
    NotDuplicateIsRecorded(HandlePacketOn(s1, p2, t2).state, p3, t3);
  }

  /** When the time stamp or the RSSI report fails or throws, handlePacket
      stops there: the registry is untouched but the sequence number is
      already recorded. */
  lemma InputFailureStops(s: Sync, p: Packet, now: int)
    requires BodyMatchesType(p) && !IsDuplicate(s, p)
    requires var t := ReportCmsInput(p.fromAddr, "_time", now, false, s.store);
      t.outcome != Returned(true)
      || ReportCmsInput(p.fromAddr, "_rssi", p.rssi, true, t.store).outcome != Returned(true)
    ensures var r := HandlePacketOn(s, p, now);
      && r.outcome != Returned(true)
      && r.state.nodes == s.nodes
      && r.state.lastPacketSeqNo == p.seqNo
  {
  }

  // ---------------------------------------------------------------------
  // The contact list and report loops

  /** A list entry for a contact the node has changes nothing and calls
      nothing; otherwise at most the new contact is appended, and only when
      its creation chain succeeded. */
  lemma ListStepCreatesOnlyIfAbsent(acc: Progress, e: ListEntry)
    ensures var r := ListStep(acc, e);
      && (HasContact(acc.node, e.id) ==> r == acc)
      && r.node.id == acc.node.id && r.node.name == acc.node.name
      && (r.node.contacts == acc.node.contacts
          || (&& r.node.contacts == acc.node.contacts + [NewContact(e)]
              && !HasContact(acc.node, e.id)
              && CreateCmsNodeContact(acc.node.id, NewContact(e), acc.store).ok))
      && (r.success ==> acc.success)
  {
  }

  /** Across a whole list: the node keeps its id, name and earlier contacts,
      contact ids stay unique, success is never regained, and the store log
      only grows. */
  lemma {:induction false} ApplyListFacts(acc: Progress, es: seq<ListEntry>)
    ensures var r := ApplyList(acc, es);
      && r.node.id == acc.node.id && r.node.name == acc.node.name
      && acc.node.contacts <= r.node.contacts
      && (ContactIdsUnique(acc.node) ==> ContactIdsUnique(r.node))
      && (r.success ==> acc.success)
      && acc.store.log <= r.store.log
    decreases |es|
  {
    if es != [] {
      var next := ListStep(acc, es[0]);
      ListStepCreatesOnlyIfAbsent(acc, es[0]);
      if !HasContact(acc.node, es[0].id) {
        CreateContactExtends(acc.node.id, NewContact(es[0]), acc.store);
      }
      if ContactIdsUnique(acc.node) && next.node.contacts != acc.node.contacts {
        assert forall k :: 0 <= k < |acc.node.contacts| ==> acc.node.contacts[k].id != es[0].id;
      }
      ApplyListFacts(next, es[1..]);
    }
  }

  /** Replaying a list whose contacts the node already has makes no store
      call and changes nothing. */
  lemma {:induction false} ReplayMakesNoCalls(acc: Progress, es: seq<ListEntry>)
    requires forall k :: 0 <= k < |es| ==> HasContact(acc.node, es[k].id)
    ensures ApplyList(acc, es) == acc
    decreases |es|
  {
    if es != [] {
      assert ListStep(acc, es[0]) == acc;
      ReplayMakesNoCalls(acc, es[1..]);
    }
  }

  /** A value entry changes the node only after the store accepted it, and
      then only the value and flags of the contact with that id; an unknown
      contact is skipped without a store call. */
  lemma ReportStepChangesOnlyOnSuccess(acc: Progress, v: ValueEntry)
    ensures var r := ReportStep(acc, v);
      && (!HasContact(acc.node, v.id) ==> r == acc)
      && (r.node != acc.node ==>
            && ReportCmsContact(acc.node.id, v.id, v.value, acc.store).ok
            && r.node == SetContactValue(acc.node, v.id, v.value, v.flags))
      && (r.success ==> acc.success)
  {
  }

  /** Across a whole report: a node keeps its id, name and contact ids, so
      it keeps unique contact ids; success is never regained; the store log
      only grows. */
  lemma {:induction false} ApplyReportsFacts(acc: Progress, vs: seq<ValueEntry>)
    ensures var r := ApplyReports(acc, vs);
      && r.node.id == acc.node.id && r.node.name == acc.node.name
      && |r.node.contacts| == |acc.node.contacts|
      && (forall k :: 0 <= k < |r.node.contacts| ==> r.node.contacts[k].id == acc.node.contacts[k].id)
      && (r.success ==> acc.success)
      && acc.store.log <= r.store.log
    decreases |vs|
  {
    if vs != [] {
      var next := ReportStep(acc, vs[0]);
      if HasContact(acc.node, vs[0].id) {
        var x := Call(acc.store, PostInput(acc.node.id, vs[0].id, vs[0].value));
        CallExtends(acc.store, PostInput(acc.node.id, vs[0].id, vs[0].value));
      }
      ApplyReportsFacts(next, vs[1..]);
    }
  }

  // ---------------------------------------------------------------------
  // Finding: the unknown-contact branch of the report loop

  /** As written, a value for a contact the node does not have raises (the
      log message dereferences None), so every later entry of the packet is
      lost; the corrected loop skips it and applies the rest. */
  lemma UnknownContactAsWrittenAborts(acc: Progress, v: ValueEntry, vs: seq<ValueEntry>)
    requires !HasContact(acc.node, v.id)
    ensures ApplyReportsAsWritten(acc, [v] + vs) == Aborted(acc)
    ensures ApplyReports(acc, [v] + vs) == ApplyReports(acc, vs)
  {
    assert ([v] + vs)[1..] == vs;
  }

  /** A concrete packet body that shows it: a node with no contacts, a report
      for contact 5 followed by nothing else. */
  lemma UnknownContactExample(st: Store)
    ensures var acc := Progress(CmsNode(16, "New node", []), st, true);
      && ApplyReportsAsWritten(acc, [ValueEntry(5, 245, 0)]).Aborted?
      && ApplyReports(acc, [ValueEntry(5, 245, 0)]) == acc
  {
    var acc := Progress(CmsNode(16, "New node", []), st, true);
    UnknownContactAsWrittenAborts(acc, ValueEntry(5, 245, 0), []);
    assert [ValueEntry(5, 245, 0)] + [] == [ValueEntry(5, 245, 0)];
  }

  /** Where the written loop does complete, it agrees with the corrected one. */
  lemma {:induction false} AsWrittenAgreesWhenCompleted(acc: Progress, vs: seq<ValueEntry>)
    requires ApplyReportsAsWritten(acc, vs).Completed?
    ensures ApplyReportsAsWritten(acc, vs).progress == ApplyReports(acc, vs)
    decreases |vs|
  {
    if vs != [] {
      AsWrittenAgreesWhenCompleted(ReportStep(acc, vs[0]), vs[1..]);
    }
  }

  // ---------------------------------------------------------------------
  // handlePacket on the registry

  /** Node ids in the registry stay unique: a node is appended only when
      none has the packet's address, and the loops never change a node id. */
  lemma UniqueNodeIdsPreserved(s: Sync, p: Packet, now: int)
    requires BodyMatchesType(p) && NodeIdsUnique(s.nodes)
    ensures NodeIdsUnique(HandlePacketOn(s, p, now).state.nodes)
  {
    if !IsDuplicate(s, p) {
      var t := ReportCmsInput(p.fromAddr, "_time", now, false, s.store);
      if t.outcome == Returned(true) {
        var rs := ReportCmsInput(p.fromAddr, "_rssi", p.rssi, true, t.store);
        if rs.outcome == Returned(true) {
          DispatchKeepsIds(s.(lastPacketSeqNo := p.seqNo, store := rs.store), p);
        }
      }
    }
  }

  lemma DispatchKeepsIds(s: Sync, p: Packet)
    requires BodyMatchesType(p) && NodeIdsUnique(s.nodes)
    ensures NodeIdsUnique(Dispatch(s, p).state.nodes)
  {
    var found := NodeIndex(s.nodes, p.fromAddr);
    if p.ptype == PacketContactList {
      var node := if found.Some? then s.nodes[found.value] else CmsNode(p.fromAddr, "New node", []);
      ApplyListFacts(Progress(node, s.store, true), p.body.contactList);
    } else if p.ptype == PacketContactReport || p.ptype == PacketContactValue {
      if found.Some? {
        ApplyReportsFacts(Progress(s.nodes[found.value], s.store, true), p.body.contactValues);
      }
    }
  }

  /** Replaying a contact list the node already knows, once the two input
      reports went through: success, no creation call, registry unchanged. */
  lemma ReplayKnownList(s: Sync, p: Packet)
    requires p.ptype == PacketContactList && p.body.ListBody?
    requires NodeIndex(s.nodes, p.fromAddr).Some?
    requires var node := s.nodes[NodeIndex(s.nodes, p.fromAddr).value];
      forall k :: 0 <= k < |p.body.contactList| ==> HasContact(node, p.body.contactList[k].id)
    ensures Dispatch(s, p) == Handling(Returned(true), s)
  {
    var i := NodeIndex(s.nodes, p.fromAddr).value;
    ReplayMakesNoCalls(Progress(s.nodes[i], s.store, true), p.body.contactList);
    assert s.nodes[i := s.nodes[i]] == s.nodes;
  }

  /** Values from a node the registry does not know are logged: the
      registry is unchanged, nothing is posted, and success is not cleared. */
  lemma UnknownNodeReport(s: Sync, p: Packet)
    requires p.ptype == PacketContactReport || p.ptype == PacketContactValue
    requires p.body.ValuesBody? && NodeIndex(s.nodes, p.fromAddr).None?
    ensures Dispatch(s, p) == Handling(Returned(true), s)
  {
  }

  /** A contact list from an unknown node appends exactly one node with that
      id, holding the contacts whose creation succeeded. */
  lemma NewNodeFromList(s: Sync, p: Packet)
    requires p.ptype == PacketContactList && p.body.ListBody?
    requires NodeIndex(s.nodes, p.fromAddr).None?
    ensures var r := Dispatch(s, p).state;
      && |r.nodes| == |s.nodes| + 1 && r.nodes[..|s.nodes|] == s.nodes
      && r.nodes[|s.nodes|].id == p.fromAddr
  {
    ApplyListFacts(Progress(CmsNode(p.fromAddr, "New node", []), s.store, true), p.body.contactList);
  }

  // ---------------------------------------------------------------------
  // Feed tags

  lemma ParseFormatInt(i: int)
    ensures ParseInt(FormatInt(i)) == Some(i)
  {
    if i < 0 {
      var t := FormatNat(-i, 10);
      assert ("-" + t)[1..] == t;
      DigitsValueFormat(-i, 10);
    } else {
      ParseIntFormat(i);
    }
  }

  /** The tag written for a contact reads back as the same node, contact,
      type and flags, for any flags text without ':'. */
  lemma TagRoundTrip(nodeId: int, id: int, ctype: int, flags: string)
    requires ':' !in flags
    ensures ParseTag(ContactTag(nodeId, id, ctype, flags)) == TagContact(nodeId, id, ctype, flags)
  {
    var parts := ["bc", FormatInt(nodeId), FormatInt(id), FormatInt(ctype), flags];
    SplitJoin(parts, ':');
    ParseFormatInt(nodeId);
    ParseFormatInt(id);
    ParseFormatInt(ctype);
  }

  /** In particular for every contact created from a list entry. */
  lemma NewContactTagRoundTrip(nodeId: int, e: ListEntry)
    ensures var c := NewContact(e);
      ParseTag(ContactTag(nodeId, c.id, c.ctype, FlagsText(c.flags))) == TagContact(nodeId, e.id, e.ctype, FlagsText(c.flags))
  {
    var c := NewContact(e);
    TagRoundTrip(nodeId, c.id, c.ctype, FlagsText(c.flags));
  }

  // ---------------------------------------------------------------------
  // readBranlyNodes

  /** Each contact of a node list with its node's id, in order. */
  function NodePairs(n: CmsNode): seq<(int, CmsContact)>
  {
    seq(|n.contacts|, k requires 0 <= k < |n.contacts| => (n.id, n.contacts[k]))
  }

  function Pairs(ns: seq<CmsNode>): seq<(int, CmsContact)>
  {
    if ns == [] then [] else Pairs(ns[..|ns| - 1]) + NodePairs(ns[|ns| - 1])
  }

  /** The contact a feed describes, with its node id, if it is a contact feed. */
  function FeedPair(f: Feed): seq<(int, CmsContact)>
  {
    match FeedTag(f)
    case TagContact(n, id, ty, fl) => [(n, CmsContact(id, ty, f.name, Access(fl), f.value))]
    case _ => []
  }

  function FeedPairs(fs: seq<Feed>): seq<(int, CmsContact)>
  {
    if fs == [] then [] else FeedPair(fs[0]) + FeedPairs(fs[1..])
  }

  /** Every node has contacts and the placeholder name, and neighbours differ in id. */
  predicate Grouped(ns: seq<CmsNode>)
  {
    && (forall k :: 0 <= k < |ns| ==> |ns[k].contacts| > 0 && ns[k].name == UnnamedNode)
    && (forall k :: 1 <= k < |ns| ==> ns[k - 1].id != ns[k].id)
  }

  predicate ReadingOk(r: Reading)
  {
    (r.current.None? ==> r.nodes == []) && Grouped(Finish(r))
  }

  lemma PairsSnoc(ns: seq<CmsNode>, n: CmsNode)
    ensures Pairs(ns + [n]) == Pairs(ns) + NodePairs(n)
  {
    assert (ns + [n])[..|ns|] == ns;
  }

  lemma GroupedSnoc(ns: seq<CmsNode>, n: CmsNode)
    requires Grouped(ns) && |n.contacts| > 0 && n.name == UnnamedNode
    requires ns != [] ==> ns[|ns| - 1].id != n.id
    ensures Grouped(ns + [n])
  {
  }

  lemma GroupedReplaceLast(ns: seq<CmsNode>, n: CmsNode, n': CmsNode)
    requires Grouped(ns + [n]) && n'.id == n.id && n'.name == n.name && |n'.contacts| > 0
    ensures Grouped(ns + [n'])
  {
    var before, after := ns + [n], ns + [n'];
    assert forall k :: 0 <= k < |ns| ==> after[k] == before[k];
    assert after[|ns|] == n' && before[|ns|] == n;
    forall k | 1 <= k < |after|
      ensures after[k - 1].id != after[k].id
    {
      assert before[k - 1].id != before[k].id;
    }
  }

  /** A contact feed that the reading takes up. */
  lemma ReadStepContact(r: Reading, f: Feed, n: int, c: CmsContact)
    requires ReadingOk(r)
    requires FeedTag(f).TagContact? && n == FeedTag(f).node
    requires c == CmsContact(FeedTag(f).id, FeedTag(f).ctype, f.name, Access(FeedTag(f).flags), f.value)
    ensures ReadStep(r, f).Some?
    ensures ReadingOk(ReadStep(r, f).value)
    ensures Pairs(Finish(ReadStep(r, f).value)) == Pairs(Finish(r)) + [(n, c)]
  {
    var r' := ReadStep(r, f).value;
    var started := CmsNode(n, UnnamedNode, [c]);
    assert NodePairs(started) == [(n, c)];
    if r.current.None? {
      assert [] + [c] == [c];
      assert r' == Reading([], Some(started));
      assert Finish(r') == [] + [started];
      PairsSnoc([], started);
      GroupedSnoc([], started);
    } else {
      var cur := r.current.value;
      assert Finish(r) == r.nodes + [cur];
      if cur.id != n {
        assert r' == Reading(r.nodes + [cur], Some(started));
        assert Finish(r') == (r.nodes + [cur]) + [started];
        PairsSnoc(r.nodes + [cur], started);
        GroupedSnoc(r.nodes + [cur], started);
      } else {
        var grown := cur.(contacts := cur.contacts + [c]);
        assert r' == Reading(r.nodes, Some(grown));
        assert Finish(r') == r.nodes + [grown];
        PairsSnoc(r.nodes, cur);
        PairsSnoc(r.nodes, grown);
        assert NodePairs(grown) == NodePairs(cur) + [(n, c)];
        GroupedReplaceLast(r.nodes, cur, grown);
      }
    }
  }

  lemma ReadStepPairs(r: Reading, f: Feed)
    requires ReadingOk(r) && ReadStep(r, f).Some?
    ensures ReadingOk(ReadStep(r, f).value)
    ensures Pairs(Finish(ReadStep(r, f).value)) == Pairs(Finish(r)) + FeedPair(f)
  {
    var tag := FeedTag(f);
    if tag.NotContact? {
      assert ReadStep(r, f).value == r;
      assert Pairs(Finish(r)) + [] == Pairs(Finish(r));
    } else {
      var c := CmsContact(tag.id, tag.ctype, f.name, Access(tag.flags), f.value);
      ReadStepContact(r, f, tag.node, c);
    }
  }

  lemma ReadFromCons(r: Reading, fs: seq<Feed>)
    requires fs != [] && ReadFrom(r, fs).Some?
    ensures ReadStep(r, fs[0]).Some?
    ensures ReadFrom(r, fs) == ReadFrom(ReadStep(r, fs[0]).value, fs[1..])
  {
  }

  lemma FeedPairsCons(prefix: seq<(int, CmsContact)>, fs: seq<Feed>)
    requires fs != []
    ensures prefix + FeedPairs(fs) == (prefix + FeedPair(fs[0])) + FeedPairs(fs[1..])
  {
  }

  lemma {:induction false} ReadFromPairs(r: Reading, fs: seq<Feed>)
    requires ReadingOk(r) && ReadFrom(r, fs).Some?
    ensures ReadingOk(ReadFrom(r, fs).value)
    ensures Pairs(Finish(ReadFrom(r, fs).value)) == Pairs(Finish(r)) + FeedPairs(fs)
    decreases |fs|
  {
    if fs == [] {
      assert Pairs(Finish(r)) + [] == Pairs(Finish(r));
    } else {
      ReadFromCons(r, fs);
      var r1 := ReadStep(r, fs[0]).value;
      ReadStepPairs(r, fs[0]);
      ReadFromPairs(r1, fs[1..]);
      FeedPairsCons(Pairs(Finish(r)), fs);
    }
  }

  /** readBranlyNodes keeps exactly the contact feeds, in feed order, each
      under a node with its tag's node id, and groups consecutive feeds of
      the same node: every node has contacts and neighbouring nodes differ. */
  lemma ReadGroupsFeeds(fs: seq<Feed>)
    requires ReadNodes(Some(fs)).Some?
    ensures Pairs(ReadNodes(Some(fs)).value) == FeedPairs(fs)
    ensures Grouped(ReadNodes(Some(fs)).value)
  {
    ReadFromPairs(Reading([], None), fs);
    assert Pairs(Finish(Reading([], None))) == [];
  }

  /** readBranlyNodes throws exactly when some contact tag has a field
      that is not a number. */
  lemma {:induction false} ReadThrowsExactly(r: Reading, fs: seq<Feed>)
    ensures ReadFrom(r, fs).None? <==> exists k :: 0 <= k < |fs| && FeedTag(fs[k]).TagThrew?
    decreases |fs|
  {
    if fs != [] {
      if ReadStep(r, fs[0]).Some? {
        ReadThrowsExactly(ReadStep(r, fs[0]).value, fs[1..]);
        if exists k :: 0 <= k < |fs| && FeedTag(fs[k]).TagThrew? {
          var k :| 0 <= k < |fs| && FeedTag(fs[k]).TagThrew?;
          assert fs[1..][k - 1] == fs[k];
        }
        if exists k :: 0 <= k < |fs[1..]| && FeedTag(fs[1..][k]).TagThrew? {
          var k :| 0 <= k < |fs[1..]| && FeedTag(fs[1..][k]).TagThrew?;
          assert fs[k + 1] == fs[1..][k];
        }
      }
    }
  }

  /** The two tags of the example below. */
  lemma ExampleTags()
    ensures ParseTag("bc:2:1:3:r") == TagContact(2, 1, 3, "r")
    ensures ParseTag("bc:2:2:1:w") == TagContact(2, 2, 1, "w")
  {
    assert FormatInt(1) == "1" && FormatInt(2) == "2" && FormatInt(3) == "3";
    assert ContactTag(2, 1, 3, "r") == "bc:2:1:3:r";
    assert ContactTag(2, 2, 1, "w") == "bc:2:2:1:w";
    TagRoundTrip(2, 1, 3, "r");
    TagRoundTrip(2, 2, 1, "w");
  }

  /** Feeds tagged bc:2:1:3:r and bc:2:2:1:w give one node, id 2, owning
      contact 1 of type 3 (read-only) and contact 2 of type 1 (writeable). */
  lemma ReadExample(name1: string, name2: string)
    ensures ReadNodes(Some([Feed(Some("bc:2:1:3:r"), name1, None), Feed(Some("bc:2:2:1:w"), name2, None)]))
      == Some([CmsNode(2, UnnamedNode, [CmsContact(1, 3, name1, Access("r"), None),
                                        CmsContact(2, 1, name2, Access("w"), None)])])
  {
    ExampleTags();
    var f1 := Feed(Some("bc:2:1:3:r"), name1, None);
    var f2 := Feed(Some("bc:2:2:1:w"), name2, None);
    var fs := [f1, f2];
    var c1 := CmsContact(1, 3, name1, Access("r"), None);
    var c2 := CmsContact(2, 1, name2, Access("w"), None);
    var r1 := Reading([], Some(CmsNode(2, UnnamedNode, [c1])));
    var node := CmsNode(2, UnnamedNode, [c1, c2]);
    var r2 := Reading([], Some(node));
    assert [] + [c1] == [c1];
    assert [c1] + [c2] == [c1, c2];
    assert ReadStep(Reading([], None), f1) == Some(r1);
    assert ReadStep(r1, f2) == Some(r2);
    assert fs[1..] == [f2];
    assert [f2][1..] == [];
    assert ReadFrom(r1, [f2]) == ReadFrom(r2, []);
    assert ReadFrom(Reading([], None), fs) == ReadFrom(r1, [f2]);
    assert Finish(r2) == [node];
  }
}
