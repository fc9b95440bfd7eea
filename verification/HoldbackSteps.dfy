/** The calls on the store of withheld messages, each as one step.

    A frame is refused by the first limit it would break, in the order the gate checks them; an
    accepted one is filed under its entry, and the counters of the entry, its connection and the
    gate move together. Each step is shown to keep the store consistent. */
module HoldbackSteps {
  import opened Bytes
  import opened FrameCodec
  import opened Assembler
  import opened HoldbackRules
  import opened HoldbackTally
  import opened Holdback

  /** What becomes of a frame: not gated, refused, withheld, let through as a repetition, the last one of a
      message that can now be validated, or of one that cannot be read. */
  datatype Receipt = Pass | Error | Held | Repeat | Completed(key: Key) | Broken

  // ---- A frame arrives ---------------------------------------------------------------------

  predicate Coordinates(l: Limits, f: Frame) {
    f.connectionId != [] && f.messageId != 0 && f.total != 0 && f.seqId < f.total && f.total <= l.messageFrames
  }

  function KeyOf(node: Name, f: Frame): (k: Key) { Key(Place(node, f.connectionId), f.messageId) }

  function WithConn(h: Store, p: Place): (r: Store) {
    if p in h.connections then h else h.(connections := h.connections[p := NEW_CONN])
  }

  function EntryFor(h: Store, k: Key, total: uint32): (e: Entry) {
    if k in h.entries then h.entries[k] else Entry(h.nextUid, total, map[], map[], 0, Collecting)
  }

  /** Whether the limits leave room for n more bytes of the message. */
  predicate RoomFor(l: Limits, h: Store, k: Key, e: Entry, n: nat) {
    var c := if k.place in h.connections then h.connections[k.place] else NEW_CONN;
    && (k !in h.entries ==>
        c.tally.pendingMessages < l.connectionMessages && h.tally.pendingMessages < l.globalMessages)
    && e.bytes <= l.messageBytes - n
    && c.tally.pendingBytes <= l.connectionBytes - n
    && c.tally.pendingFrames < l.connectionFrames
    && h.tally.pendingBytes <= l.globalBytes - n
    && h.tally.pendingFrames < l.globalFrames
  }

  function Extended(hash: seq<byte> -> Digest, e: Entry, f: Frame): (r: Entry) {
    var frames := e.frames[f.seqId := f];
    e.(frames := frames, digests := e.digests[f.seqId := hash(f.payload)], bytes := e.bytes + |f.payload|,
       stage := if |frames| == e.total then Validating else Collecting)
  }

  function Stored(hash: seq<byte> -> Digest, h: Store, k: Key, f: Frame): (r: Store) {
    var c := WithConn(h, k.place);
    Put(c.(nextUid := if k in h.entries then h.nextUid else h.nextUid + 1), k,
        Extended(hash, EntryFor(h, k, f.total), f))
  }

  function Restaged(h: Store, k: Key, stage: Stage): (r: Store)
    requires k in h.entries
  {
    h.(entries := h.entries[k := h.entries[k].(stage := stage)])
  }

  /** A repeated frame: it passes once its message is approved, and otherwise it may at most bring back a
      message that was put off. */
  function AddRepeat(h: Store, k: Key, f: Frame, digest: Digest, due: bool): (r: (Store, Receipt))
    requires k in h.entries && f.seqId in h.entries[k].digests
  {
    var e := h.entries[k];
    if e.digests[f.seqId] != digest then (h, Error)
    else if e.stage == Approved then (h, Repeat)
    else if e.stage == Deferred && f.seqId + 1 == e.total && due then (Restaged(h, k, Validating), Completed(k))
    else (h, Held)
  }

  function AddNew(hash: seq<byte> -> Digest, l: Limits, h: Store, k: Key, f: Frame): (r: (Store, Receipt)) {
    if k.place !in h.connections && |h.connections| >= l.connections then (h, Error)
    else if !RoomFor(l, h, k, EntryFor(h, k, f.total), |f.payload|) then (RemoveIdle(h, k.place), Error)
    else
      var s := Stored(hash, h, k, f);
      var e := Extended(hash, EntryFor(h, k, f.total), f);
      if e.stage == Collecting then (s, Held)
      else if Whole(e.frames, e.total).Some? then (s, Completed(k))
      else (Remove(s, k), Broken)
  }

  /** Takes in a frame; only data is gated. `due` says whether a message that was put off may be tried again. */
  function AddData(hash: seq<byte> -> Digest, l: Limits, h: Store, node: Name, f: Frame,
                   due: bool): (r: (Store, Receipt)) {
    var k := KeyOf(node, f);
    if f.kind != DATA && f.kind != RETRANSMIT then (h, Pass)
    else if !Coordinates(l, f) then (h, Error)
    else if k in h.entries && h.entries[k].total != f.total then (h, Error)
    else if k in h.entries && f.seqId in h.entries[k].digests then AddRepeat(h, k, f, hash(f.payload), due)
    else if k in h.entries && h.entries[k].stage != Collecting then (h, Error)
    else AddNew(hash, l, h, k, f)
  }

  // ---- Keeping the invariant ---------------------------------------------------------------

  lemma WithConnSums(h: Store, p: Place)
    requires Sums(h)
    ensures Sums(WithConn(h, p))
  {
    hide SumOf;
    if p !in h.connections {
      assert forall k :: k in h.entries ==> k.place != p;
      EmptyPlace(h.entries, p);
    }
  }

  lemma WithConnLimits(l: Limits, h: Store, p: Place)
    requires Sensible(l) && (p in h.connections || |h.connections| < l.connections)
    ensures PendingLimits(l, h) ==> PendingLimits(l, WithConn(h, p))
    ensures ApprovedLimits(l, h) ==> ApprovedLimits(l, WithConn(h, p))
  {
    var r := WithConn(h, p);
    assert |r.connections| <= l.connections || |r.connections| <= |h.connections| by {
      if p !in h.connections {
        assert r.connections.Keys == h.connections.Keys + {p};
        assert |r.connections| == |r.connections.Keys| && |h.connections| == |h.connections.Keys|;
      }
    }
  }

  lemma WithConnPhases(h: Store, p: Place)
    requires Phases(h)
    ensures Phases(WithConn(h, p))
  {
    assert Legal([]) && After([]) == NO_PHASE;
    hide Legal, After;
  }

  lemma WithConnSound(hash: seq<byte> -> Digest, l: Limits, h: Store, p: Place)
    requires Sound(hash, l, h) && Sensible(l) && (p in h.connections || |h.connections| < l.connections)
    ensures Sound(hash, l, WithConn(h, p))
    ensures ApprovedLimits(l, h) ==> ApprovedLimits(l, WithConn(h, p))
  {
    hide Sums, Nodes, Listing, Shapes, Uids, Phases, PendingLimits, ApprovedLimits;
    WithConnSums(h, p);
    WithConnLimits(l, h, p);
    WithConnPhases(h, p);
    SameEntries(hash, h, WithConn(h, p));
  }

  /** An entry was put in: it is valid, it is the one that was there or a new one, and it was not and
      does not become approved. */
  lemma PutEntries(hash: seq<byte> -> Digest, h: Store, r: Store, k: Key, e: Entry)
    requires r.entries == h.entries[k := e] && EntryValid(hash, k, e) && r.approved == h.approved
    requires e.stage != Approved && (k in h.entries ==> h.entries[k].stage != Approved)
    requires if k in h.entries then e.uid == h.entries[k].uid && r.nextUid == h.nextUid
             else e.uid == h.nextUid && r.nextUid == h.nextUid + 1
    ensures Shapes(hash, h) ==> Shapes(hash, r)
    ensures Uids(h) ==> Uids(r)
    ensures Listing(h) ==> Listing(r)
  {
    hide EntryValid, DistinctKeys;
  }

  lemma SamePhases(h: Store, r: Store)
    requires r.connections.Keys == h.connections.Keys
    requires forall p :: p in h.connections ==>
               r.connections[p].passed == h.connections[p].passed && r.connections[p].phase == h.connections[p].phase
    ensures Phases(h) ==> Phases(r)
  {
    hide Legal, After;
  }

  lemma SameWorth(h: Store, k: Key, e: Entry)
    requires k in h.entries && k.place in h.connections && Of(e) == Of(h.entries[k])
    ensures Put(h, k, e) == h.(entries := h.entries[k := e])
  {
    assert Add(Sub(h.tally, Of(e)), Of(e)) == h.tally;
    var conn := h.connections[k.place];
    assert Add(Sub(conn.tally, Of(e)), Of(e)) == conn.tally;
    hide Of, Add, Sub;
  }

  lemma RestagedValid(hash: seq<byte> -> Digest, k: Key, e: Entry, stage: Stage)
    requires EntryValid(hash, k, e) && (e.stage == Validating || e.stage == Deferred)
             && (stage == Validating || stage == Deferred)
    ensures EntryValid(hash, k, e.(stage := stage)) && Of(e.(stage := stage)) == Of(e)
  {
    hide Whole, HeldBytes, Fits;
  }

  lemma RestageSound(hash: seq<byte> -> Digest, l: Limits, h: Store, k: Key, stage: Stage)
    requires Sound(hash, l, h) && k in h.entries
    requires h.entries[k].stage == Validating || h.entries[k].stage == Deferred
    requires stage == Validating || stage == Deferred
    ensures Sound(hash, l, Restaged(h, k, stage))
    ensures ApprovedLimits(l, h) ==> ApprovedLimits(l, Restaged(h, k, stage))
  {
    hide EntryValid, SumOf, KeysAt, Put, Of, Uids, Listing, Nodes, Phases, ApprovedLimits;
    var r := Restaged(h, k, stage);
    var e := h.entries[k].(stage := stage);
    RestagedValid(hash, k, h.entries[k], stage);
    SameWorth(h, k, e);
    PutSums(h, k, e);
    PutNodes(h, k, e);
    PutEntries(hash, h, r, k, e);
    SamePhases(h, r);
    RestageLimits(l, h, k, stage);
    hide Sums, Shapes, PendingLimits;
  }

  lemma RestageLimits(l: Limits, h: Store, k: Key, stage: Stage)
    requires k in h.entries
    ensures PendingLimits(l, h) ==> PendingLimits(l, Restaged(h, k, stage))
    ensures ApprovedLimits(l, h) ==> ApprovedLimits(l, Restaged(h, k, stage))
  {
  }

  lemma Grown<K, V>(m: map<K, V>, k: K, v: V)
    requires k !in m
    ensures m[k := v].Keys == m.Keys + {k} && |m[k := v]| == |m| + 1
  {
    assert m[k := v].Keys == m.Keys + {k};
    assert |m[k := v]| == |m[k := v].Keys| && |m| == |m.Keys|;
  }

  lemma FrameFits(id: uint64, total: uint32, frames: map<uint32, Frame>, f: Frame)
    requires Fits(id, total, frames) && f.seqId < f.total == total && f.messageId == id
             && (f.kind == DATA || f.kind == RETRANSMIT)
    ensures Fits(id, total, frames[f.seqId := f])
  {
  }

  lemma ExtendedWorth(hash: seq<byte> -> Digest, e: Entry, f: Frame)
    requires e.stage == Collecting && f.seqId !in e.digests
    ensures var o, n := Of(e), Of(Extended(hash, e, f));
            n == Tally(o.pendingBytes + |f.payload|, 1, o.pendingFrames + 1, 0, 0)
  {
    Grown(e.digests, f.seqId, hash(f.payload));
  }

  lemma ExtendedValid(hash: seq<byte> -> Digest, k: Key, e: Entry, f: Frame)
    requires EntryValid(hash, k, e) && e.stage == Collecting && f.seqId !in e.digests
    requires f.seqId < f.total == e.total && f.messageId == k.message && f.connectionId == k.place.connection
    requires f.kind == DATA || f.kind == RETRANSMIT
    ensures EntryValid(hash, k, Extended(hash, e, f))
  {
    hide HeldBytes, Fits, Full;
    assert f.seqId !in e.frames;
    HeldBytesGrow(e.frames, f.seqId, f, e.total);
    FrameFits(k.message, e.total, e.frames, f);
    CountIsFull(k.message, e.total, e.frames[f.seqId := f]);
    Grown(e.frames, f.seqId, f);
    Grown(e.digests, f.seqId, hash(f.payload));
  }

  lemma FreshValid(hash: seq<byte> -> Digest, k: Key, uid: nat, total: uint32)
    requires total > 0
    ensures EntryValid(hash, k, Entry(uid, total, map[], map[], 0, Collecting))
  {
    NoBytes(total);
  }

  /** The frame belongs to the message and is not there yet. */
  ghost predicate Missing(h: Store, k: Key, f: Frame) {
    && f.seqId < f.total && f.messageId == k.message && f.connectionId == k.place.connection
    && (f.kind == DATA || f.kind == RETRANSMIT)
    && (k in h.entries ==>
        h.entries[k].stage == Collecting && h.entries[k].total == f.total && f.seqId !in h.entries[k].digests)
  }

  lemma StoredLimits(hash: seq<byte> -> Digest, l: Limits, h: Store, k: Key, f: Frame)
    requires PendingLimits(l, h) && k.place in h.connections && f.total <= l.messageFrames && Missing(h, k, f)
    requires RoomFor(l, h, k, EntryFor(h, k, f.total), |f.payload|)
    requires var o, n := Worth(h, k), Of(Extended(hash, EntryFor(h, k, f.total), f));
             && n.pendingBytes == o.pendingBytes + |f.payload| && n.pendingFrames == o.pendingFrames + 1
             && n.pendingMessages == o.pendingMessages + (if k in h.entries then 0 else 1)
             && n.approvedBytes == o.approvedBytes && n.approvedMessages == o.approvedMessages
    ensures PendingLimits(l, Stored(hash, h, k, f))
    ensures ApprovedLimits(l, h) ==> ApprovedLimits(l, Stored(hash, h, k, f))
  {
    hide Of;
    var r := Stored(hash, h, k, f);
    assert r.connections.Keys == h.connections.Keys;
    assert |r.connections| == |r.connections.Keys| && |h.connections| == |h.connections.Keys|;
  }

  lemma EntryForValid(hash: seq<byte> -> Digest, h: Store, k: Key, total: uint32)
    requires Shapes(hash, h) && total > 0
    ensures EntryValid(hash, k, EntryFor(h, k, total))
  {
    FreshValid(hash, k, h.nextUid, total);
    hide EntryValid;
  }

  lemma OnlyUid(h: Store, uid: nat)
    ensures Sums(h) ==> Sums(h.(nextUid := uid))
    ensures Nodes(h) ==> Nodes(h.(nextUid := uid))
  {
    hide SumOf, KeysAt;
  }

  lemma StoredIsPut(hash: seq<byte> -> Digest, h: Store, k: Key, f: Frame, c: Store)
    requires k.place in h.connections && c == h.(nextUid := if k in h.entries then h.nextUid else h.nextUid + 1)
    ensures var r := Stored(hash, h, k, f);
            && r == Put(c, k, Extended(hash, EntryFor(h, k, f.total), f))
            && r.entries == h.entries[k := Extended(hash, EntryFor(h, k, f.total), f)] && r.approved == h.approved
               && r.nextUid == c.nextUid
            && r.connections.Keys == h.connections.Keys
            && forall p :: p in h.connections ==>
               r.connections[p].passed == h.connections[p].passed && r.connections[p].phase == h.connections[p].phase
  {
    hide Extended, Of;
  }

  lemma StoredSound(hash: seq<byte> -> Digest, l: Limits, h: Store, k: Key, f: Frame)
    requires Sound(hash, l, h) && k.place in h.connections && f.total <= l.messageFrames && Missing(h, k, f)
    requires RoomFor(l, h, k, EntryFor(h, k, f.total), |f.payload|)
    ensures Sound(hash, l, Stored(hash, h, k, f))
    ensures ApprovedLimits(l, h) ==> ApprovedLimits(l, Stored(hash, h, k, f))
  {
    hide Sums, Nodes, Shapes, EntryValid, Of, Uids, Listing, Phases, ApprovedLimits, PendingLimits, RoomFor, Extended,
        Stored, Put;
    var e0 := EntryFor(h, k, f.total);
    var e := Extended(hash, e0, f);
    EntryForValid(hash, h, k, f.total);
    ExtendedValid(hash, k, e0, f);
    ExtendedWorth(hash, e0, f);
    ExtendedUid(hash, e0, f);
    FreshWorth(h, k, f.total);
    StoredLimits(hash, l, h, k, f);
    var c := h.(nextUid := if k in h.entries then h.nextUid else h.nextUid + 1);
    OnlyUid(h, c.nextUid);
    PutSums(c, k, e);
    PutNodes(c, k, e);
    var r := Stored(hash, h, k, f);
    StoredIsPut(hash, h, k, f, c);
    PutEntries(hash, h, r, k, e);
    SamePhases(h, r);
  }

  lemma ExtendedUid(hash: seq<byte> -> Digest, e: Entry, f: Frame)
    ensures Extended(hash, e, f).uid == e.uid && Extended(hash, e, f).total == e.total
            && Extended(hash, e, f).stage != Approved
  {
  }

  lemma FreshWorth(h: Store, k: Key, total: uint32)
    ensures k !in h.entries ==> Of(EntryFor(h, k, total)) == Tally(0, 1, 0, 0, 0) && Worth(h, k) == ZERO
    ensures k in h.entries ==> Of(EntryFor(h, k, total)) == Worth(h, k)
    ensures k in h.entries && h.entries[k].stage != Approved ==>
              Worth(h, k).pendingMessages == 1 && Worth(h, k).approvedBytes == 0 && Worth(h, k).approvedMessages == 0
  {
  }

  lemma RemoveReadable(h: Store, k: Key)
    requires forall j | j in h.entries && j != k ::
               h.entries[j].stage == Validating || h.entries[j].stage == Deferred ==>
                 Whole(h.entries[j].frames, h.entries[j].total).Some?
    ensures Readable(Remove(h, k)) || k !in h.entries
  {
    hide Whole, Of, Sub, Unlisted;
  }

  lemma RemoveValid(hash: seq<byte> -> Digest, l: Limits, h: Store, k: Key)
    requires Consistent(hash, l, h)
    ensures Consistent(hash, l, Remove(h, k))
  {
    hide Sound, Remove, ApprovedLimits, Whole;
    RemoveKeeps(hash, l, h, k);
    RemoveReadable(h, k);
    RemoveNothing(h, k);
  }

  lemma RemoveNothing(h: Store, k: Key)
    ensures k !in h.entries ==> Remove(h, k) == h
  {
  }

  lemma RemoveIdleValid(hash: seq<byte> -> Digest, l: Limits, h: Store, p: Place)
    requires Consistent(hash, l, h)
    ensures Consistent(hash, l, RemoveIdle(h, p))
  {
    hide Sound, ApprovedLimits, Whole;
    if p in h.connections && Idle(h.connections[p]) {
      DropConnection(hash, l, h, p);
    }
  }

  lemma StoredEntries(hash: seq<byte> -> Digest, h: Store, k: Key, f: Frame)
    ensures Stored(hash, h, k, f).entries == h.entries[k := Extended(hash, EntryFor(h, k, f.total), f)]
  {
    hide Extended;
  }

  lemma AddNewValid(hash: seq<byte> -> Digest, l: Limits, h: Store, k: Key, f: Frame)
    requires Consistent(hash, l, h) && Sensible(l) && f.total <= l.messageFrames && Missing(h, k, f)
    ensures Consistent(hash, l, AddNew(hash, l, h, k, f).0)
  {
    hide Sound, ApprovedLimits, Whole, Remove, RemoveIdle, Stored, RoomFor, Extended, Missing, Readable;
    if k.place !in h.connections && |h.connections| >= l.connections {
    } else if !RoomFor(l, h, k, EntryFor(h, k, f.total), |f.payload|) {
      RemoveIdleValid(hash, l, h, k.place);
    } else {
      var c := WithConn(h, k.place);
      WithConnSound(hash, l, h, k.place);
      SameRoom(hash, l, h, k, f);
      StoredSound(hash, l, c, k, f);
      StoredEntries(hash, h, k, f);
      var s := Stored(hash, h, k, f);
      var e := Extended(hash, EntryFor(h, k, f.total), f);
      StillReadable(h, s, k, e);
      ExtendedUid(hash, EntryFor(h, k, f.total), f);
      if e.stage != Collecting && Whole(e.frames, e.total).None? {
        RemoveKeeps(hash, l, s, k);
        RemoveReadable(s, k);
      }
    }
  }

  lemma SameRoom(hash: seq<byte> -> Digest, l: Limits, h: Store, k: Key, f: Frame)
    ensures var c := WithConn(h, k.place);
            && Stored(hash, c, k, f) == Stored(hash, h, k, f)
            && (RoomFor(l, h, k, EntryFor(h, k, f.total), |f.payload|) ==>
                RoomFor(l, c, k, EntryFor(c, k, f.total), |f.payload|))
            && (Missing(h, k, f) ==> Missing(c, k, f)) && k.place in c.connections
  {
    hide Extended;
  }

  lemma StillReadable(h: Store, s: Store, k: Key, e: Entry)
    requires Readable(h) && s.entries == h.entries[k := e]
    ensures forall j | j in s.entries && j != k ::
              s.entries[j].stage == Validating || s.entries[j].stage == Deferred ==>
                Whole(s.entries[j].frames, s.entries[j].total).Some?
    ensures e.stage == Collecting || e.stage == Approved || Whole(e.frames, e.total).Some? ==> Readable(s)
  {
    hide Whole;
  }

  /** Every frame keeps the invariant, whatever becomes of it. */
  lemma AddDataValid(hash: seq<byte> -> Digest, l: Limits, h: Store, node: Name, f: Frame, due: bool)
    requires Consistent(hash, l, h) && Sensible(l)
    ensures Consistent(hash, l, AddData(hash, l, h, node, f, due).0)
  {
    hide Sound, ApprovedLimits, Whole, AddNew;
    var k := KeyOf(node, f);
    if f.kind != DATA && f.kind != RETRANSMIT {
    } else if !Coordinates(l, f) {
    } else if k in h.entries && h.entries[k].total != f.total {
    } else if k in h.entries && f.seqId in h.entries[k].digests {
      var e := h.entries[k];
      if e.digests[f.seqId] == hash(f.payload) && e.stage == Deferred && f.seqId + 1 == e.total && due {
        RestageSound(hash, l, h, k, Validating);
        assert Readable(Restaged(h, k, Validating));
      }
    } else if k in h.entries && h.entries[k].stage != Collecting {
    } else {
      AddNewValid(hash, l, h, k, f);
    }
  }
}
