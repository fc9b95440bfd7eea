/** The billing gate's store of withheld messages: entries, connections and counters. */
module Holdback {
  import opened Sequences
  import opened Bytes
  import opened FrameCodec
  import opened FrameAssembly
  import opened Assembler
  import opened HoldbackRules
  import opened HoldbackTally
  import M = MessageCodec

  /** `passed` lists what the connection was let through since its record was made. */
  datatype Conn = Conn(tally: Tally, phase: Phase, passed: seq<Approval>)

  datatype Store = Store(
    entries: map<Key, Entry>,
    connections: map<Place, Conn>,
    nodes: map<Name, nat>,
    approved: seq<Key>,
    tally: Tally,
    nextUid: nat)

  datatype Limits = Limits(
    messageBytes: int, messageFrames: int,
    connectionBytes: int, connectionMessages: int, connectionFrames: int,
    globalBytes: int, globalMessages: int, globalFrames: int,
    connections: int,
    approvedBytes: int, approvedMessages: int,
    connectionApprovedBytes: int, connectionApprovedMessages: int)

  const EMPTY := Store(map[], map[], map[], [], ZERO, 0)

  const NEW_CONN := Conn(ZERO, NO_PHASE, [])

  // ---- What the counters mean --------------------------------------------------------------

  /** Every counter is the sum over the live entries, and every entry has a connection record. */
  ghost predicate Sums(h: Store) {
    && h.tally == SumOf(h.entries, Everywhere)
    && (forall p :: p in h.connections ==> h.connections[p].tally == SumOf(h.entries, At(p)))
    && (forall k :: k in h.entries ==> k.place in h.connections)
  }

  ghost predicate Nodes(h: Store) {
    && (forall n :: n in h.nodes ==> h.nodes[n] == |KeysAt(h.entries, n)| && h.nodes[n] > 0)
    && (forall k :: k in h.entries ==> k.place.node in h.nodes)
  }

  ghost predicate DistinctKeys(s: seq<Key>) {
    forall i, j :: 0 <= i < j < |s| ==> s[i] != s[j]
  }

  /** The list holds exactly the approved entries, each once. */
  ghost predicate Listing(h: Store) {
    DistinctKeys(h.approved) && forall k :: k in h.approved <==> k in h.entries && h.entries[k].stage == Approved
  }

  // ---- Putting an entry in and taking it out -----------------------------------------------

  function Worth(h: Store, k: Key): (t: Tally) { if k in h.entries then Of(h.entries[k]) else ZERO }

  function Put(h: Store, k: Key, e: Entry): (r: Store)
    requires k.place in h.connections
  {
    var node := k.place.node;
    var conn := h.connections[k.place];
    h.(entries := h.entries[k := e],
       tally := Add(Sub(h.tally, Worth(h, k)), Of(e)),
       connections := h.connections[k.place := conn.(tally := Add(Sub(conn.tally, Worth(h, k)), Of(e)))],
       nodes := if k in h.entries then h.nodes else h.nodes[node := (if node in h.nodes then h.nodes[node] else 0) + 1])
  }

  predicate Idle(c: Conn) {
    c.tally.pendingMessages == 0 && c.tally.pendingFrames == 0 && c.tally.approvedMessages == 0 && !HasPhase(c.phase)
  }

  function RemoveIdle(h: Store, p: Place): (r: Store) {
    if p in h.connections && Idle(h.connections[p]) then h.(connections := h.connections - {p}) else h
  }

  function Unlisted(s: seq<Key>, k: Key): (r: seq<Key>) {
    if s == [] then [] else if s[0] == k then s[1..] else [s[0]] + Unlisted(s[1..], k)
  }

  function TakeOut(h: Store, k: Key): (r: Store)
    requires k in h.entries
  {
    var node := k.place.node;
    var e := h.entries[k];
    h.(entries := h.entries - {k},
       tally := Sub(h.tally, Of(e)),
       connections := if k.place in h.connections then
                        var conn := h.connections[k.place];
                        h.connections[k.place := conn.(tally := Sub(conn.tally, Of(e)))]
                      else h.connections,
       nodes := if node in h.nodes && h.nodes[node] > 1 then h.nodes[node := h.nodes[node] - 1] else h.nodes - {node},
       approved := if e.stage == Approved then Unlisted(h.approved, k) else h.approved)
  }

  /** Removing an entry also drops a connection record that has nothing left to remember. */
  function Remove(h: Store, k: Key): (r: Store) {
    if k in h.entries then RemoveIdle(TakeOut(h, k), k.place) else h
  }

  lemma PutSums(h: Store, k: Key, e: Entry)
    requires Sums(h) && k.place in h.connections
    ensures Sums(Put(h, k, e))
  {
    hide SumOf, Of, Add, Sub;
    var r := Put(h, k, e);
    SumReplace(h.entries, k, e, Everywhere);
    forall p | p in r.connections ensures r.connections[p].tally == SumOf(r.entries, At(p)) {
      SumReplace(h.entries, k, e, At(p));
      NoShare(SumOf(h.entries, At(p)));
    }
  }

  lemma NoShare(t: Tally)
    ensures Add(Sub(t, ZERO), ZERO) == t && Sub(t, ZERO) == t
  {
  }

  lemma PutNodes(h: Store, k: Key, e: Entry)
    requires Nodes(h) && k.place in h.connections
    ensures Nodes(Put(h, k, e))
  {
    hide KeysAt, Of, Add, Sub;
    var r := Put(h, k, e);
    NoKeys(h, k.place.node);
    forall n | n in r.nodes ensures r.nodes[n] == |KeysAt(r.entries, n)| && r.nodes[n] > 0 {
      KeysReplace(h.entries, k, e, n);
    }
  }

  lemma NoKeys(h: Store, node: Name)
    requires Nodes(h)
    ensures node !in h.nodes ==> KeysAt(h.entries, node) == {}
  {
    if node !in h.nodes {
      assert forall k :: k in KeysAt(h.entries, node) ==> k in h.entries && k.place.node == node;
    }
  }

  lemma TakeOutSums(h: Store, k: Key)
    requires Sums(h) && k in h.entries
    ensures Sums(TakeOut(h, k))
  {
    hide SumOf, Of, Add, Sub, Unlisted;
    var r := TakeOut(h, k);
    SharesWithout(h.entries, k, Everywhere);
    forall p | p in r.connections ensures r.connections[p].tally == SumOf(r.entries, At(p)) {
      SharesWithout(h.entries, k, At(p));
      NoShare(SumOf(h.entries, At(p)));
    }
  }

  lemma TakeOutNodes(h: Store, k: Key)
    requires Nodes(h) && k in h.entries
    ensures Nodes(TakeOut(h, k))
  {
    hide Of, Sub, Unlisted, KeysAt;
    var r := TakeOut(h, k);
    var node := k.place.node;
    KeysWithout(h.entries, k, node);
    forall n | n in r.nodes ensures r.nodes[n] == |KeysAt(r.entries, n)| && r.nodes[n] > 0 {
      KeysWithout(h.entries, k, n);
    }
    forall j | j in r.entries ensures j.place.node in r.nodes {
      if j.place.node == node {
        KeyCounts(r.entries, j, node);
      }
    }
  }

  lemma KeyCounts(entries: map<Key, Entry>, k: Key, node: Name)
    requires k in entries && k.place.node == node
    ensures |KeysAt(entries, node)| > 0
  {
    assert k in KeysAt(entries, node);
  }

  lemma {:induction false} UnlistedMembers(s: seq<Key>, k: Key)
    requires DistinctKeys(s)
    ensures DistinctKeys(Unlisted(s, k))
    ensures forall j :: j in Unlisted(s, k) <==> j in s && j != k
    ensures |Unlisted(s, k)| == |s| - if k in s then 1 else 0
  {
    if s != [] {
      UnlistedMembers(s[1..], k);
      assert s == [s[0]] + s[1..];
      assert forall i :: 0 <= i < |s[1..]| ==> s[1..][i] != s[0];
      if s[0] != k {
        var rest := Unlisted(s[1..], k);
        assert s[0] !in rest;
        FirstDistinct(s[0], rest);
      }
    }
  }

  lemma FirstDistinct(x: Key, s: seq<Key>)
    requires DistinctKeys(s) && x !in s
    ensures DistinctKeys([x] + s)
    ensures forall j :: j in [x] + s <==> j == x || j in s
  {
  }

  lemma TakeOutListing(h: Store, k: Key)
    requires Listing(h) && k in h.entries
    ensures Listing(TakeOut(h, k))
  {
    UnlistedMembers(h.approved, k);
    hide Of, Sub, Unlisted;
  }

  // ---- What an entry holds -----------------------------------------------------------------

  function HeldBytes(frames: map<uint32, Frame>, n: nat): (b: nat)
    requires n <= MAX_UINT32 + 1
  {
    if n == 0 then 0 else HeldBytes(frames, n - 1) + if n - 1 in frames then |frames[n - 1].payload| else 0
  }

  lemma {:induction false} HeldBytesGrow(frames: map<uint32, Frame>, s: uint32, f: Frame, n: nat)
    requires n <= MAX_UINT32 + 1 && s !in frames
    ensures HeldBytes(frames[s := f], n) == HeldBytes(frames, n) + if s < n then |f.payload| else 0
  {
    if n > 0 {
      HeldBytesGrow(frames, s, f, n - 1);
    }
  }

  lemma {:induction false} NoBytes(n: nat)
    requires n <= MAX_UINT32 + 1
    ensures HeldBytes(map[], n) == 0
  {
    if n > 0 {
      NoBytes(n - 1);
    }
  }

  /** The message that frames make up when they are all there. */
  function Whole(frames: map<uint32, Frame>, total: uint32): (m: Option<M.Message>) {
    if Full(frames, total) then Meaning(InOrder(frames, total)) else None
  }

  /** Withheld frames belong to their message and are kept with their digests; a message that is being
      validated is whole; of an approved one only the digests of all frames are left. */
  ghost predicate EntryValid(hash: seq<byte> -> Digest, k: Key, e: Entry) {
    && e.total > 0
    && (forall s :: s in e.digests ==> s < e.total)
    && (e.stage != Approved ==>
          && e.digests.Keys == e.frames.Keys
          && Fits(k.message, e.total, e.frames)
          && (forall s :: s in e.frames ==>
              e.digests[s] == hash(e.frames[s].payload) && e.frames[s].connectionId == k.place.connection)
          && e.bytes == HeldBytes(e.frames, e.total))
    && (e.stage == Collecting ==> |e.frames| < e.total)
    && (e.stage == Validating || e.stage == Deferred ==> Full(e.frames, e.total) && |e.frames| == e.total)
    && (e.stage == Approved ==> e.frames == map[] && e.bytes == 0 && |e.digests| == e.total)
  }

  ghost predicate Shapes(hash: seq<byte> -> Digest, h: Store) {
    forall k :: k in h.entries ==> EntryValid(hash, k, h.entries[k])
  }

  ghost predicate Uids(h: Store) {
    && (forall k :: k in h.entries ==> h.entries[k].uid < h.nextUid)
    && (forall j, k :: j in h.entries && k in h.entries && h.entries[j].uid == h.entries[k].uid ==> j == k)
  }

  ghost predicate Phases(h: Store) {
    forall p :: p in h.connections ==>
        Legal(h.connections[p].passed) && h.connections[p].phase == After(h.connections[p].passed)
  }

  predicate Sensible(l: Limits) {
    && l.messageBytes >= 0 && l.connectionBytes >= 0 && l.connectionMessages >= 0 && l.connectionFrames >= 0
    && l.globalBytes >= 0 && l.globalMessages >= 0 && l.globalFrames >= 0 && l.connections >= 0
    && l.approvedBytes >= 0 && l.approvedMessages >= 0 && l.connectionApprovedBytes >= 0
       && l.connectionApprovedMessages >= 0
  }

  predicate PendingWithin(t: Tally, bytes: int, messages: int, frames: int) {
    t.pendingBytes <= bytes && t.pendingMessages <= messages && t.pendingFrames <= frames
  }

  predicate ApprovedWithin(t: Tally, bytes: int, messages: int) {
    t.approvedBytes <= bytes && t.approvedMessages <= messages
  }

  ghost predicate PendingLimits(l: Limits, h: Store) {
    && PendingWithin(h.tally, l.globalBytes, l.globalMessages, l.globalFrames)
    && (forall p :: p in h.connections ==>
          PendingWithin(h.connections[p].tally, l.connectionBytes, l.connectionMessages, l.connectionFrames))
    && |h.connections| <= l.connections
    && (forall k :: k in h.entries ==> h.entries[k].bytes <= l.messageBytes && h.entries[k].total <= l.messageFrames)
  }

  ghost predicate ApprovedLimits(l: Limits, h: Store) {
    && ApprovedWithin(h.tally, l.approvedBytes, l.approvedMessages)
    && (forall p :: p in h.connections ==>
          ApprovedWithin(h.connections[p].tally, l.connectionApprovedBytes, l.connectionApprovedMessages))
  }

  /** A message that is being validated can be read. */
  ghost predicate Readable(h: Store) {
    forall k :: k in h.entries && (h.entries[k].stage == Validating || h.entries[k].stage == Deferred) ==>
      Whole(h.entries[k].frames, h.entries[k].total).Some?
  }

  /** Everything that holds between two calls. */
  ghost predicate Consistent(hash: seq<byte> -> Digest, l: Limits, h: Store) {
    Sound(hash, l, h) && ApprovedLimits(l, h) && Readable(h)
  }

  /** Everything but the limits on approved messages, which an approval first breaks and then restores. */
  ghost predicate Sound(hash: seq<byte> -> Digest, l: Limits, h: Store) {
    Sums(h) && Nodes(h) && Listing(h) && Shapes(hash, h) && Uids(h) && Phases(h) && PendingLimits(l, h)
  }

  // ---- Removal keeps everything ------------------------------------------------------------

  /** No counter grew, and nothing was added. */
  ghost predicate Shrinks(h: Store, r: Store) {
    && NonNegative(Sub(h.tally, r.tally))
    && |r.connections| <= |h.connections|
    && (forall p :: p in r.connections ==>
        p in h.connections && NonNegative(Sub(h.connections[p].tally, r.connections[p].tally)))
    && (forall k :: k in r.entries ==> k in h.entries && r.entries[k] == h.entries[k])
  }

  lemma ShrinkLimits(l: Limits, h: Store, r: Store)
    requires Shrinks(h, r)
    ensures PendingLimits(l, h) ==> PendingLimits(l, r)
    ensures ApprovedLimits(l, h) ==> ApprovedLimits(l, r)
  {
  }

  lemma TakeOutShrinks(h: Store, k: Key)
    requires k in h.entries
    ensures Shrinks(h, TakeOut(h, k))
  {
    hide Unlisted;
    var r := TakeOut(h, k);
    assert NonNegative(Of(h.entries[k]));
    hide Of;
    assert r.connections.Keys == h.connections.Keys;
    assert |r.connections| == |r.connections.Keys| && |h.connections| == |h.connections.Keys|;
  }

  lemma TakeOutLimits(l: Limits, h: Store, k: Key)
    requires k in h.entries
    ensures PendingLimits(l, h) ==> PendingLimits(l, TakeOut(h, k))
    ensures ApprovedLimits(l, h) ==> ApprovedLimits(l, TakeOut(h, k))
  {
    hide TakeOut, Shrinks, PendingLimits, ApprovedLimits;
    TakeOutShrinks(h, k);
    ShrinkLimits(l, h, TakeOut(h, k));
  }

  lemma TakeOutSound(hash: seq<byte> -> Digest, l: Limits, h: Store, k: Key)
    requires Sound(hash, l, h) && k in h.entries
    ensures Sound(hash, l, TakeOut(h, k))
  {
    hide EntryValid, Legal, Of, Sub, PendingLimits, Sums, Nodes, Listing;
    TakeOutSums(h, k);
    TakeOutNodes(h, k);
    TakeOutListing(h, k);
    TakeOutLimits(l, h, k);
  }

  lemma DropConnection(hash: seq<byte> -> Digest, l: Limits, h: Store, p: Place)
    requires Sound(hash, l, h) && p in h.connections
    requires h.connections[p].tally.pendingMessages == 0 && h.connections[p].tally.approvedMessages == 0
    ensures var r := h.(connections := h.connections - {p});
            Sound(hash, l, r) && (ApprovedLimits(l, h) ==> ApprovedLimits(l, r))
  {
    hide EntryValid, Legal, SumOf, KeysAt, PendingLimits, ApprovedLimits, Shapes, Uids, Listing, Shrinks;
    forall k | k in h.entries ensures k.place != p {
      if k.place == p { NoMessagesNoEntries(h.entries, p, k); }
    }
    var r := h.(connections := h.connections - {p});
    DropShrinks(h, p);
    ShrinkLimits(l, h, r);
    SameEntries(hash, h, r);
  }

  lemma DropShrinks(h: Store, p: Place)
    requires p in h.connections
    ensures Shrinks(h, h.(connections := h.connections - {p}))
  {
    Fewer(h.connections, p);
  }

  lemma SameEntries(hash: seq<byte> -> Digest, h: Store, r: Store)
    requires r.entries == h.entries && r.approved == h.approved && r.nextUid == h.nextUid && r.nodes == h.nodes
    ensures Shapes(hash, h) ==> Shapes(hash, r)
    ensures Uids(h) ==> Uids(r)
    ensures Listing(h) ==> Listing(r)
    ensures Nodes(h) ==> Nodes(r)
  {
    hide EntryValid, KeysAt;
  }

  lemma RemoveKeeps(hash: seq<byte> -> Digest, l: Limits, h: Store, k: Key)
    requires Sound(hash, l, h)
    ensures Sound(hash, l, Remove(h, k))
    ensures ApprovedLimits(l, h) ==> ApprovedLimits(l, Remove(h, k))
  {
    hide Sound, TakeOut, ApprovedLimits;
    if k in h.entries {
      TakeOutSound(hash, l, h, k);
      TakeOutLimits(l, h, k);
      var r := TakeOut(h, k);
      if k.place in r.connections && Idle(r.connections[k.place]) {
        DropConnection(hash, l, r, k.place);
      }
    }
  }

  lemma RemoveListing(h: Store, k: Key)
    requires Listing(h)
    ensures Listing(Remove(h, k))
  {
    hide TakeOut, HasPhase;
    if k in h.entries { TakeOutListing(h, k); }
  }
}
