/** The billing gate's store as an object: each call changes it as the steps say. */
module HoldbackObject {
  import opened Sequences
  import opened Bytes
  import opened FrameCodec
  import opened HoldbackRules
  import opened HoldbackTally
  import opened Holdback
  import opened HoldbackSteps
  import opened HoldbackApproval
  import opened HoldbackRuns

  class MessageHoldback {
    const hash: seq<byte> -> Digest
    const limits: Limits
    var entries: map<Key, Entry>
    var connections: map<Place, Conn>
    var nodes: map<Name, nat>
    var approved: seq<Key>
    var tally: Tally
    var nextUid: nat

    ghost function View(): (h: Store)
      reads this
    {
      Store(entries, connections, nodes, approved, tally, nextUid)
    }

    constructor (hash: seq<byte> -> Digest, limits: Limits)
      ensures this.hash == hash && this.limits == limits && View() == EMPTY
    {
      this.hash, this.limits := hash, limits;
      entries, connections, nodes, approved, tally, nextUid := map[], map[], map[], [], ZERO, 0;
    }

    method RemoveIdleConnection(p: Place)
      modifies this`connections
      ensures View() == RemoveIdle(old(View()), p)
    {
      if p !in connections { return; }
      var c := connections[p];
      if c.tally.pendingMessages != 0 || c.tally.pendingFrames != 0 || c.tally.approvedMessages != 0
          || HasPhase(c.phase) { return; }
      connections := connections - {p};
    }

    /** Takes an entry out of the map, the counters, the list and, if nothing else is left, its
        connection. */
    method RemoveEntry(k: Key)
      modifies this
      ensures View() == Remove(old(View()), k)
    {
      hide Unlisted, Of, Add, Sub;
      if k !in entries { return; }
      var e := entries[k];
      entries := entries - {k};
      var node := k.place.node;
      if node in nodes && nodes[node] > 1 {
        nodes := nodes[node := nodes[node] - 1];
      } else {
        nodes := nodes - {node};
      }
      tally := Sub(tally, Of(e));
      if k.place in connections {
        var c := connections[k.place];
        connections := connections[k.place := c.(tally := Sub(c.tally, Of(e)))];
      }
      if e.stage == Approved {
        approved := Unlisted(approved, k);
      }
      RemoveIdleConnection(k.place);
    }

    method AddFrame(node: Name, f: Frame, due: bool) returns (r: Receipt)
      modifies this
      ensures (View(), r) == AddData(hash, limits, old(View()), node, f, due)
    {
      hide AddNew;
      if f.kind != DATA && f.kind != RETRANSMIT { return Pass; }
      if f.connectionId == [] { return Error; }
      if f.messageId == 0 || f.total == 0 || f.seqId >= f.total { return Error; }
      if f.total > limits.messageFrames { return Error; }
      var k := KeyOf(node, f);
      if k in entries {
        var e := entries[k];
        if e.total != f.total { return Error; }
        if f.seqId in e.digests {
          if e.digests[f.seqId] != hash(f.payload) { return Error; }
          if e.stage == Approved { return Repeat; }
          if e.stage == Deferred && f.seqId + 1 == e.total && due {
            entries := entries[k := e.(stage := Validating)];
            return Completed(k);
          }
          return Held;
        }
        if e.stage != Collecting { return Error; }
      }
      r := AddMissing(k, f);
    }

    /** Checks every limit before anything is counted. */
    method AddMissing(k: Key, f: Frame) returns (r: Receipt)
      requires k in entries ==> entries[k].stage == Collecting
      modifies this
      ensures (View(), r) == AddNew(hash, limits, old(View()), k, f)
    {
      hide Whole, Remove, RemoveIdle, Of, Stored, RoomFor, Extended;
      if k.place !in connections && |connections| >= limits.connections { return Error; }
      var e := if k !in entries then Entry(nextUid, f.total, map[], map[], 0, Collecting) else entries[k];
      var room := HasRoom(k, e, |f.payload|);
      if !room {
        RemoveIdleConnection(k.place);
        return Error;
      }
      var grown := StoreFrame(k, e, f);
      if grown.stage == Collecting { return Held; }
      if Whole(grown.frames, grown.total).Some? { return Completed(k); }
      RemoveEntry(k);
      r := Broken;
    }

    method HasRoom(k: Key, e: Entry, n: nat) returns (ok: bool)
      ensures ok == RoomFor(limits, View(), k, e, n)
    {
      var c := if k.place in connections then connections[k.place] else NEW_CONN;
      if k !in entries {
        if c.tally.pendingMessages >= limits.connectionMessages { return false; }
        if tally.pendingMessages >= limits.globalMessages { return false; }
      }
      if e.bytes > limits.messageBytes - n { return false; }
      if c.tally.pendingBytes > limits.connectionBytes - n { return false; }
      if c.tally.pendingFrames >= limits.connectionFrames { return false; }
      if tally.pendingBytes > limits.globalBytes - n { return false; }
      ok := tally.pendingFrames < limits.globalFrames;
    }

    method StoreFrame(k: Key, e: Entry, f: Frame) returns (grown: Entry)
      requires e == EntryFor(View(), k, f.total)
      modifies this
      ensures grown == Extended(hash, e, f) && View() == Stored(hash, old(View()), k, f)
    {
      hide Of, Put;
      var frames := e.frames[f.seqId := f];
      grown := e.(frames := frames, digests := e.digests[f.seqId := hash(f.payload)], bytes := e.bytes + |f.payload|,
                  stage := if |frames| == e.total then Validating else Collecting);
      CountFrame(k, grown, if k.place in connections then connections[k.place] else NEW_CONN, k !in entries);
    }

    method CountFrame(k: Key, e: Entry, c: Conn, isNew: bool)
      requires isNew == (k !in entries) && c == (if k.place in connections then connections[k.place] else NEW_CONN)
      modifies this
      ensures var h := WithConn(old(View()), k.place);
              View() == Put(h.(nextUid := if isNew then h.nextUid + 1 else h.nextUid), k, e)
    {
      hide Of, Add, Sub;
      var worth := if isNew then ZERO else Of(entries[k]);
      if isNew {
        nextUid := nextUid + 1;
        var node := k.place.node;
        nodes := nodes[node := (if node in nodes then nodes[node] else 0) + 1];
      }
      entries := entries[k := e];
      tally := Add(Sub(tally, worth), Of(e));
      connections := connections[k.place := c.(tally := Add(Sub(c.tally, worth), Of(e)))];
      Overwrite(old(connections), k.place, c, connections[k.place]);
    }

    /** Evicts the oldest approved messages while there are too many in all. */
    method EvictFromAll()
      requires Listing(View())
      modifies this
      ensures View() == EvictOldest(limits, old(View())) && Listing(View())
    {
      hide Listing, Remove;
      while tally.approvedMessages > limits.approvedMessages || tally.approvedBytes > limits.approvedBytes
        invariant EvictOldest(limits, View()) == EvictOldest(limits, old(View())) && Listing(View())
        decreases |approved|
      {
        if approved == [] { break; }
        ListingAt(View(), 0);
        RemoveShortens(View(), 0);
        RemoveListing(View(), approved[0]);
        RemoveEntry(approved[0]);
      }
    }

    /** Evicts the oldest approved messages of one connection while it has too many. */
    method EvictFrom(p: Place)
      requires Listing(View())
      modifies this
      ensures View() == EvictAt(limits, old(View()), p)
    {
      hide Listing, Remove;
      while true
        invariant EvictAt(limits, View(), p) == EvictAt(limits, old(View()), p) && Listing(View())
        decreases |approved|
      {
        if p !in connections { break; }
        var t := connections[p].tally;
        if t.approvedMessages <= limits.connectionApprovedMessages
            && t.approvedBytes <= limits.connectionApprovedBytes { break; }
        var i := 0;
        while i < |approved| && approved[i].place != p
          invariant 0 <= i <= |approved| && OldestAt(approved, p, i) == OldestAt(approved, p, 0)
        {
          i := i + 1;
        }
        if i == |approved| { break; }
        ListingAt(View(), i);
        RemoveShortens(View(), i);
        RemoveListing(View(), approved[i]);
        RemoveEntry(approved[i]);
      }
    }

    /** Approves a message; an approval that the rules permit in the phase of its connection keeps the store
        consistent. */
    method ApproveMessage(k: Key, uid: nat, a: Approval) returns (ok: bool)
      requires Listing(View())
      modifies this
      ensures (View(), ok) == if k in old(entries) && old(entries[k]).uid != uid then (old(View()), false)
                else ApproveEntry(limits, old(View()), k, a)
      ensures Sensible(limits) && old(Consistent(hash, limits, View()))
              && (k.place in old(connections) ==> Permitted(old(connections)[k.place].phase, a)) ==>
                Consistent(hash, limits, View())
    {
      hide Consistent, EvictOldest, EvictAt, Permitted, Admit, Listing, Sensible;
      if Consistent(hash, limits, View()) && Sensible(limits)
         && (k.place in connections ==> Permitted(connections[k.place].phase, a)) {
        ApproveValid(hash, limits, View(), k, a);
      }
      if k !in entries || entries[k].uid != uid { return false; }
      var e := entries[k];
      if !(e.stage == Validating || e.stage == Deferred) { return false; }
      if k.place !in connections { return false; }
      var c := connections[k.place];
      if (a.HandshakeInfo? || a.Billing?) && c.phase.session.Some?
          && c.phase.session.value != a.session { return false; }
      ghost var h := View();
      AdmitListing(h, k, a);
      StampMessage(k, a);
      EvictFromAll();
      EvictFrom(k.place);
      ok := true;
    }

    method StampMessage(k: Key, a: Approval)
      requires k in entries && k.place in connections
      modifies this
      ensures View() == Admit(old(View()), k, a)
    {
      hide Of, Advance, Add, Sub;
      var e := entries[k];
      var c := connections[k.place];
      var stamped := e.(frames := map[], bytes := 0, stage := Approved);
      tally := Add(Sub(tally, Of(e)), Of(stamped));
      entries := entries[k := stamped];
      var noted := c.(phase := Advance(c.phase, a), passed := c.passed + [a]);
      connections := connections[k.place := noted.(tally := Add(Sub(c.tally, Of(e)), Of(stamped)))];
      Overwrite(old(connections), k.place, noted, connections[k.place]);
      approved := approved + [k];
    }

    method DeferMessage(k: Key, uid: nat) returns (ok: bool)
      modifies this
      ensures ok == (k in old(entries) && old(entries)[k].uid == uid
              && (old(entries)[k].stage == Validating || old(entries)[k].stage == Deferred))
      ensures View() == if ok then Restaged(old(View()), k, Deferred) else old(View())
    {
      if k !in entries || entries[k].uid != uid { return false; }
      if !(entries[k].stage == Validating || entries[k].stage == Deferred) { return false; }
      entries := entries[k := entries[k].(stage := Deferred)];
      ok := true;
    }

    /** Takes up the message that was put off and comes first: lowest billing sequence, then lowest ID. */
    method NextDeferred(node: Name, session: Digest) returns (next: Option<Key>)
      modifies this
      ensures next.None? ==> View() == old(View()) && forall k :: !IsDeferred(old(View()), node, session, k)
      ensures next.Some? ==>
                IsNext(old(View()), node, session, next.value)
                    && View() == Restaged(old(View()), next.value, Validating)
    {
      hide Whole;
      next := None;
      var rest := entries.Keys;
      while rest != {}
        invariant rest <= entries.Keys && View() == old(View())
        invariant next.None? ==> forall k :: IsDeferred(View(), node, session, k) ==> k in rest
        invariant next.Some? ==> IsDeferred(View(), node, session, next.value)
        invariant next.Some? ==> forall k :: IsDeferred(View(), node, session, k) ==>
                    k in rest || !Before(View(), k, next.value)
        decreases |rest|
      {
        var k :| k in rest;
        rest := rest - {k};
        var e := entries[k];
        var m := Whole(e.frames, e.total);
        if e.stage == Deferred && k.place.node == node && m.Some? && m.value.header.billingSession == session {
          if next.None? {
            next := Some(k);
          } else {
            var best := Whole(entries[next.value].frames, entries[next.value].total).value.header.billingSequence;
            var mine := m.value.header.billingSequence;
            if mine < best || (mine == best && k.message < next.value.message) {
              next := Some(k);
            }
          }
        }
      }
      if next.Some? {
        entries := entries[next.value := entries[next.value].(stage := Validating)];
      }
    }

    method AcknowledgeMessage(k: Key)
      modifies this
      ensures View() == if k in old(entries) && old(entries)[k].stage == Approved then Remove(old(View()), k)
                else old(View())
    {
      if k in entries && entries[k].stage == Approved { RemoveEntry(k); }
    }

    /** Removes the entries of a connection in some order. */
    method RemoveEntriesAt(p: Place) returns (ghost order: seq<Key>)
      modifies this
      ensures Enumerates(order, old(View()), p) && View() == RemoveMany(old(View()), order)
    {
      hide Remove;
      var rest := entries.Keys;
      order := [];
      while rest != {}
        invariant rest <= old(entries).Keys && View() == RemoveMany(old(View()), order)
        invariant DistinctKeys(order) && forall k :: k in order <==> k in old(entries) && k !in rest && k.place == p
        decreases |rest|
      {
        var k :| k in rest;
        rest := rest - {k};
        if k.place == p {
          AppendDistinct(order, k);
          assert (order + [k])[..|order|] == order;
          RemoveEntry(k);
          order := order + [k];
        }
      }
    }

    method ForgetConnection(p: Place) returns (ghost order: seq<Key>)
      modifies this
      ensures if p.connection == [] then View() == old(View())
              else Enumerates(order, old(View()), p) && View() == DropPlace(RemoveMany(old(View()), order), p)
    {
      order := [];
      if p.connection == [] { return; }
      order := RemoveEntriesAt(p);
      connections := connections - {p};
    }

    method ResetConnection(p: Place) returns (ghost order: seq<Key>)
      modifies this
      ensures if p.connection == [] then View() == old(View())
              else Enumerates(order, old(View()), p) && View() == Cleared(old(View()), p, order)
    {
      order := [];
      if p.connection == [] { return; }
      order := RemoveEntriesAt(p);
      if p in connections && !HasPhase(connections[p].phase) {
        connections := connections - {p};
      }
    }
  }

  lemma AdmitListing(h: Store, k: Key, a: Approval)
    requires Listing(h) && k in h.entries && k.place in h.connections && h.entries[k].stage != Approved
    ensures Listing(Admit(h, k, a))
  {
    AdmitParts(h, k, a);
    AppendDistinct(h.approved, k);
    hide Admit, Fingerprint, DistinctKeys;
  }
}
