/** Whole runs of the billing gate: what was released, and in which phases.

    The world adds three histories to the store: the validations under way with the phase each of
    them has read, every message ever accepted, and every frame ever let through. One validation
    per node may be under way; anything else can happen meanwhile. That the phase it has read is
    still the phase of the connection when it rules is the heart of the invariant. */
module HoldbackRuns {
  import opened Sequences
  import opened Bytes
  import opened FrameCodec
  import opened FrameAssembly
  import opened Assembler
  import opened HoldbackRules
  import opened HoldbackTally
  import opened Holdback
  import opened HoldbackSteps
  import opened HoldbackApproval
  import M = MessageCodec

  // ---- The world ---------------------------------------------------------------------------

  /** A validation in progress: the message and the phase it was read in. One per node at a time. */
  datatype Check = Check(key: Key, uid: nat, phase: Phase)

  /** A message that was approved, with all its frames. */
  datatype Admission = Admission(key: Key, total: uint32, frames: map<uint32, Frame>)

  datatype Release = Release(uid: nat, frame: Frame)

  datatype World = World(store: Store, checking: map<Name, Check>, accepted: map<nat, Admission>,
      released: seq<Release>)

  datatype Config = Config(hash: seq<byte> -> Digest, limits: Limits, gate: Gate)

  datatype Event =
    | Arrive(node: Name, f: Frame, due: bool)
    | Lock(node: Name, k: Key)
    | Settle(node: Name, answer: Answer)
    | TakeDeferred(node: Name, session: Digest, k: Key)
    | Expire(k: Key)
    | Acknowledge(k: Key)
    | Forget(p: Place, order: seq<Key>)
    | Reset(p: Place, order: seq<Key>)
    | ExpireConnection(p: Place)

  predicate IsDeferred(h: Store, node: Name, session: Digest, k: Key) {
    && k in h.entries && h.entries[k].stage == Deferred && k.place.node == node
    && Whole(h.entries[k].frames, h.entries[k].total).Some?
    && Whole(h.entries[k].frames, h.entries[k].total).value.header.billingSession == session
  }

  function BillingSequence(h: Store, k: Key): (n: nat)
    requires k in h.entries && Whole(h.entries[k].frames, h.entries[k].total).Some?
  {
    Whole(h.entries[k].frames, h.entries[k].total).value.header.billingSequence
  }

  predicate Before(h: Store, j: Key, k: Key)
    requires j in h.entries && Whole(h.entries[j].frames, h.entries[j].total).Some?
    requires k in h.entries && Whole(h.entries[k].frames, h.entries[k].total).Some?
  {
    BillingSequence(h, j) < BillingSequence(h, k)
        || (BillingSequence(h, j) == BillingSequence(h, k) && j.message < k.message)
  }

  /** A message that was put off and that no other of its session and node comes before. */
  ghost predicate IsNext(h: Store, node: Name, session: Digest, k: Key) {
    && IsDeferred(h, node, session, k)
    && forall j :: IsDeferred(h, node, session, j) ==> !Before(h, j, k)
  }

  ghost predicate Enumerates(order: seq<Key>, h: Store, p: Place) {
    DistinctKeys(order) && forall k :: k in order <==> k in h.entries && k.place == p
  }

  ghost predicate Enabled(w: World, e: Event) {
    match e
    case Arrive(_, f, _) => f.kind == DATA || f.kind == RETRANSMIT
    case Lock(node, k) =>
      node !in w.checking && k in w.store.entries && k.place.node == node && w.store.entries[k].stage == Validating
      && k.place in w.store.connections
    case Settle(node, _) => node in w.checking
    case TakeDeferred(node, session, k) => IsNext(w.store, node, session, k)
    case Forget(p, order) => Enumerates(order, w.store, p)
    case Reset(p, order) => Enumerates(order, w.store, p)
    case _ => true
  }

  function RemoveMany(h: Store, order: seq<Key>): (r: Store) {
    if order == [] then h else Remove(RemoveMany(h, order[..|order| - 1]), order[|order| - 1])
  }

  function DropPlace(h: Store, p: Place): (r: Store) { h.(connections := h.connections - {p}) }

  /** All frames of an approved message, in order. */
  function ReleaseAll(uid: nat, frames: seq<Frame>): (r: seq<Release>)
    ensures |r| == |frames| && forall i :: 0 <= i < |r| ==> r[i] == Release(uid, frames[i])
  {
    seq(|frames|, i requires 0 <= i < |frames| => Release(uid, frames[i]))
  }

  function Arrived(c: Config, w: World, node: Name, f: Frame, due: bool): (x: World) {
    var (s, receipt) := AddData(c.hash, c.limits, w.store, node, f, due);
    var k := KeyOf(node, f);
    var more := if receipt == Repeat && k in w.store.entries then [Release(w.store.entries[k].uid, f)] else [];
    w.(store := s, released := w.released + more)
  }

  function Releasing(e: Entry): (r: seq<Release>) {
    if Full(e.frames, e.total) then ReleaseAll(e.uid, InOrder(e.frames, e.total)) else []
  }

  /** The message is ruled on with the phase read when the check began. */
  function Settled(c: Config, w: World, node: Name, answer: Answer): (x: World)
    requires node in w.checking
  {
    var check := w.checking[node];
    var done := w.(checking := w.checking - {node});
    var k := check.key;
    if k !in w.store.entries || w.store.entries[k].uid != check.uid || w.store.entries[k].stage != Validating then done
    else
      var e := w.store.entries[k];
      match Whole(e.frames, e.total)
      case None => done
      case Some(m) =>
        match Validate(c.gate, m, k.place.connection, check.phase, answer)
        case Refuse => done.(store := Remove(w.store, k))
        case Postpone => done.(store := Restaged(w.store, k, Deferred))
        case Approve(a) =>
          var (s, ok) := ApproveEntry(c.limits, w.store, k, a);
          if !ok then done
          else done.(store := s, accepted := w.accepted[e.uid := Admission(k, e.total, e.frames)],
                     released := w.released + Releasing(e))
  }

  function Cleared(h: Store, p: Place, order: seq<Key>): (r: Store) {
    var s := RemoveMany(h, order);
    if p in s.connections && !HasPhase(s.connections[p].phase) then DropPlace(s, p) else s
  }

  ghost function Step(c: Config, w: World, e: Event): (x: World)
    requires Enabled(w, e)
  {
    match e
    case Arrive(node, f, due) => Arrived(c, w, node, f, due)
    case Lock(node, k) =>
      w.(checking := w.checking[node := Check(k, w.store.entries[k].uid, w.store.connections[k.place].phase)])
    case Settle(node, answer) => Settled(c, w, node, answer)
    case TakeDeferred(_, _, k) => w.(store := Restaged(w.store, k, Validating))
    case Expire(k) => w.(store := Remove(w.store, k))
    case Acknowledge(k) =>
      if k in w.store.entries && w.store.entries[k].stage == Approved then w.(store := Remove(w.store, k)) else w
    case Forget(p, order) => w.(store := DropPlace(RemoveMany(w.store, order), p))
    case Reset(p, order) => w.(store := Cleared(w.store, p, order))
    case ExpireConnection(p) =>
      if p in w.store.connections && w.store.connections[p].tally.pendingMessages == 0
          && w.store.connections[p].tally.approvedMessages == 0
      then w.(store := DropPlace(w.store, p)) else w
  }

  // ---- How the store may change ------------------------------------------------------------

  /** Entries keep their identity, approved ones their content, and connections their past, except
      possibly the entry and the connection of one key. */
  ghost predicate Evolves(h: Store, r: Store) {
    && h.nextUid <= r.nextUid
    && (forall k :: k in r.entries ==>
        (k in h.entries && h.entries[k].uid == r.entries[k].uid) || r.entries[k].uid >= h.nextUid)
    && (forall k :: k in r.entries && r.entries[k].stage == Approved ==> k in h.entries && h.entries[k] == r.entries[k])
    && (forall k :: k in r.entries && k in h.entries && h.entries[k].stage == Approved ==> r.entries[k] == h.entries[k])
    && (forall p :: p in r.connections && p in h.connections ==>
          r.connections[p].phase == h.connections[p].phase && r.connections[p].passed == h.connections[p].passed)
  }

  /** A connection that was let anything through keeps its record. */
  ghost predicate Remembers(h: Store, r: Store) {
    forall p :: p in h.connections && HasPhase(h.connections[p].phase) ==> p in r.connections
  }

  lemma EvolvesTwice(h: Store, r: Store, s: Store)
    requires Evolves(h, r) && Evolves(r, s) && Remembers(h, r)
    requires forall p :: p in s.connections && p in h.connections ==> p in r.connections
    requires forall k :: k in s.entries && k in h.entries ==> k in r.entries
    ensures Evolves(h, s)
    ensures Remembers(r, s) ==> Remembers(h, s)
  {
    hide HasPhase;
  }

  lemma RemoveEvolves(h: Store, k: Key)
    ensures Evolves(h, Remove(h, k)) && Remembers(h, Remove(h, k))
    ensures forall p :: p in Remove(h, k).connections ==> p in h.connections
    ensures forall j :: j in Remove(h, k).entries ==> j in h.entries
  {
    hide Of, Sub, Unlisted;
  }

  lemma {:induction false} RemoveManyEvolves(h: Store, order: seq<Key>)
    ensures Evolves(h, RemoveMany(h, order)) && Remembers(h, RemoveMany(h, order))
    ensures forall p :: p in RemoveMany(h, order).connections ==> p in h.connections
    ensures forall k :: k in RemoveMany(h, order).entries ==> k in h.entries && k !in order
  {
    if order != [] {
      var n := |order| - 1;
      RemoveManyEvolves(h, order[..n]);
      var m := RemoveMany(h, order[..n]);
      RemoveEvolves(m, order[n]);
      RemoveEntries(m, order[n]);
      hide Remove;
      EvolvesTwice(h, m, Remove(m, order[n]));
      MemberAppend(order[..n], order[n]);
      assert order == order[..n] + [order[n]];
    }
  }

  lemma RemoveEntries(h: Store, k: Key)
    ensures forall j :: j in Remove(h, k).entries <==> j in h.entries && j != k
    ensures forall j :: j in Remove(h, k).entries ==> Remove(h, k).entries[j] == h.entries[j]
  {
    hide Of, Sub, Unlisted;
  }

  lemma RestageEvolves(h: Store, k: Key, stage: Stage)
    requires k in h.entries && stage != Approved && h.entries[k].stage != Approved
    ensures Evolves(h, Restaged(h, k, stage)) && Remembers(h, Restaged(h, k, stage))
  {
  }

  lemma IdleEvolves(h: Store, p: Place)
    ensures Evolves(h, RemoveIdle(h, p)) && Remembers(h, RemoveIdle(h, p))
  {
    hide HasPhase;
  }

  lemma StoredParts(hash: seq<byte> -> Digest, h: Store, k: Key, f: Frame)
    ensures var r := Stored(hash, h, k, f);
            && r.entries == h.entries[k := Extended(hash, EntryFor(h, k, f.total), f)]
            && r.nextUid == (if k in h.entries then h.nextUid else h.nextUid + 1)
            && forall p :: p in h.connections ==>
                 p in r.connections && r.connections[p].phase == h.connections[p].phase
                     && r.connections[p].passed == h.connections[p].passed
  {
    hide Extended, Of;
  }

  lemma StoredEvolves(hash: seq<byte> -> Digest, h: Store, k: Key, f: Frame)
    requires k in h.entries ==> h.entries[k].stage == Collecting
    ensures var r := Stored(hash, h, k, f);
            && Evolves(h, r) && Remembers(h, r)
            && (forall p :: p in h.connections ==> p in r.connections) && forall j :: j in h.entries ==> j in r.entries
  {
    hide Extended, Stored, HasPhase;
    ExtendedUid(hash, EntryFor(h, k, f.total), f);
    StoredParts(hash, h, k, f);
  }

  lemma AddEvolves(hash: seq<byte> -> Digest, l: Limits, h: Store, node: Name, f: Frame, due: bool)
    ensures var r := AddData(hash, l, h, node, f, due).0; Evolves(h, r) && Remembers(h, r)
  {
    hide Evolves, Remembers, Stored, Remove, RemoveIdle, Restaged, RoomFor, Extended, Whole;
    var k := KeyOf(node, f);
    EvolvesSelf(h);
    IdleEvolves(h, k.place);
    if k in h.entries && h.entries[k].stage != Approved {
      RestageEvolves(h, k, Validating);
    }
    if k in h.entries ==> h.entries[k].stage == Collecting {
      StoredEvolves(hash, h, k, f);
      var s := Stored(hash, h, k, f);
      RemoveEvolves(s, k);
      EvolvesTwice(h, s, Remove(s, k));
    }
  }

  lemma EvolvesSelf(h: Store)
    ensures Evolves(h, h) && Remembers(h, h)
  {
  }

  lemma {:induction false} EvictOldestEvolves(l: Limits, h: Store)
    ensures var r := EvictOldest(l, h);
            && Evolves(h, r) && Remembers(h, r)
            && (forall p :: p in r.connections ==> p in h.connections) && forall k :: k in r.entries ==> k in h.entries
    decreases |h.approved|
  {
    hide Evolves, Remembers, Remove, ListedAt;
    EvolvesSelf(h);
    if !ApprovedWithin(h.tally, l.approvedBytes, l.approvedMessages) && ListedAt(h, 0) {
      RemoveShortens(h, 0);
      var m := Remove(h, h.approved[0]);
      RemoveEvolves(h, h.approved[0]);
      EvictOldestEvolves(l, m);
      EvolvesTwice(h, m, EvictOldest(l, m));
    }
  }

  lemma {:induction false} EvictAtEvolves(l: Limits, h: Store, p: Place)
    ensures var r := EvictAt(l, h, p);
            && Evolves(h, r) && Remembers(h, r)
            && (forall q :: q in r.connections ==> q in h.connections) && forall k :: k in r.entries ==> k in h.entries
    decreases |h.approved|
  {
    hide Evolves, Remembers, Remove;
    EvolvesSelf(h);
    var i := OldestAt(h.approved, p, 0);
    if p in h.connections
        && !ApprovedWithin(h.connections[p].tally, l.connectionApprovedBytes, l.connectionApprovedMessages)
           && ListedAt(h, i) {
      RemoveShortens(h, i);
      var m := Remove(h, h.approved[i]);
      RemoveEvolves(h, h.approved[i]);
      EvictAtEvolves(l, m, p);
      EvolvesTwice(h, m, EvictAt(l, m, p));
    }
  }

  /** An approval changes the store as if the message had been stamped, and then only forgets. */
  lemma ApproveEvolves(l: Limits, h: Store, k: Key, a: Approval)
    requires ApproveEntry(l, h, k, a).1
    ensures k in h.entries && k.place in h.connections
    ensures Evolves(Admit(h, k, a), ApproveEntry(l, h, k, a).0) && Remembers(Admit(h, k, a), ApproveEntry(l, h, k, a).0)
  {
    hide Evolves, Remembers, EvictAt, EvictOldest, Admit;
    var s := Admit(h, k, a);
    EvictOldestEvolves(l, s);
    EvictAtEvolves(l, EvictOldest(l, s), k.place);
    EvolvesTwice(s, EvictOldest(l, s), EvictAt(l, EvictOldest(l, s), k.place));
  }

  // ---- The invariant -----------------------------------------------------------------------

  /** A message that is still being checked is still in the phase it was read in. */
  ghost predicate Checks(w: World) {
    forall n :: n in w.checking ==>
      var c := w.checking[n];
      && c.key.place.node == n && c.uid < w.store.nextUid
      && (c.key in w.store.entries && w.store.entries[c.key].uid == c.uid ==>
            c.key.place in w.store.connections && w.store.connections[c.key.place].phase == c.phase)
  }

  /** An admitted message was whole and could be read. */
  predicate Admissible(a: Admission) {
    && Fits(a.key.message, a.total, a.frames)
    && Whole(a.frames, a.total).Some?
    && forall s :: s in a.frames ==> a.frames[s].connectionId == a.key.place.connection
  }

  /** The digests of an entry are those of the frames that were admitted under it. */
  ghost predicate Prints(hash: seq<byte> -> Digest, e: Entry, a: Admission) {
    && a.total == e.total
    && forall s :: s in e.digests ==> s in a.frames && e.digests[s] == hash(a.frames[s].payload)
  }

  ghost predicate Admissions(c: Config, w: World) {
    && (forall u :: u in w.accepted ==> u < w.store.nextUid && Admissible(w.accepted[u]))
    && (forall k :: k in w.store.entries ==>
          if w.store.entries[k].stage == Approved then
            && w.store.entries[k].uid in w.accepted && w.accepted[w.store.entries[k].uid].key == k
            && Prints(c.hash, w.store.entries[k], w.accepted[w.store.entries[k].uid])
          else w.store.entries[k].uid !in w.accepted)
  }

  /** The frame is one of the admitted message, or carries the same digest in the same place. */
  predicate Matches(hash: seq<byte> -> Digest, a: Admission, f: Frame) {
    && f.messageId == a.key.message && f.connectionId == a.key.place.connection && f.total == a.total
    && f.seqId in a.frames && hash(f.payload) == hash(a.frames[f.seqId].payload)
  }

  ghost predicate Releases(c: Config, w: World) {
    forall i :: 0 <= i < |w.released| ==>
        w.released[i].uid in w.accepted && Matches(c.hash, w.accepted[w.released[i].uid], w.released[i].frame)
  }

  ghost predicate Inv(c: Config, w: World) {
    Consistent(c.hash, c.limits, w.store) && Checks(w) && Admissions(c, w) && Releases(c, w)
  }

  lemma EvolvesChecks(w: World, r: Store)
    requires Checks(w) && Evolves(w.store, r) && Sums(w.store) && Sums(r)
    ensures Checks(w.(store := r))
  {
    hide SumOf;
  }

  lemma EvolvesAdmissions(c: Config, w: World, r: Store)
    requires Admissions(c, w) && Evolves(w.store, r)
    ensures Admissions(c, w.(store := r))
  {
    hide Admissible, Prints;
  }

  // ---- Every step --------------------------------------------------------------------------

  lemma SumsOf(c: Config, h: Store)
    requires Consistent(c.hash, c.limits, h)
    ensures Sums(h)
  {
  }

  /** A step that only moves the store on. */
  lemma EvolvesKeeps(c: Config, w: World, r: Store)
    requires Inv(c, w) && Evolves(w.store, r) && Consistent(c.hash, c.limits, r)
    ensures Inv(c, w.(store := r))
  {
    hide Consistent, Checks, Admissions, Evolves, Matches;
    SumsOf(c, w.store);
    SumsOf(c, r);
    EvolvesChecks(w, r);
    EvolvesAdmissions(c, w, r);
  }

  lemma RepeatMatches(c: Config, w: World, node: Name, f: Frame, due: bool)
    requires Inv(c, w) && AddData(c.hash, c.limits, w.store, node, f, due).1 == Repeat
    ensures var k := KeyOf(node, f);
            && k in w.store.entries && w.store.entries[k].uid in w.accepted
            && Matches(c.hash, w.accepted[w.store.entries[k].uid], f)
  {
    hide Consistent, Checks, Releases, AddNew, Admissible;
    var k := KeyOf(node, f);
    AddNewNeverRepeats(c.hash, c.limits, w.store, k, f);
    assert k in w.store.entries && w.store.entries[k].stage == Approved;
  }

  lemma AddNewNeverRepeats(hash: seq<byte> -> Digest, l: Limits, h: Store, k: Key, f: Frame)
    ensures AddNew(hash, l, h, k, f).1 != Repeat
  {
    hide Stored, Remove, RemoveIdle, RoomFor, Extended, Whole;
  }

  lemma ReleaseOne(c: Config, w: World, r: Release)
    requires Releases(c, w) && r.uid in w.accepted && Matches(c.hash, w.accepted[r.uid], r.frame)
    ensures Releases(c, w.(released := w.released + [r]))
  {
    hide Matches;
  }

  lemma ArriveKeeps(c: Config, w: World, node: Name, f: Frame, due: bool)
    requires Inv(c, w) && Sensible(c.limits) && (f.kind == DATA || f.kind == RETRANSMIT)
    ensures Inv(c, Arrived(c, w, node, f, due))
  {
    hide Consistent, Checks, Admissions, AddData, Matches, Evolves, Remembers, Releases;
    var (s, receipt) := AddData(c.hash, c.limits, w.store, node, f, due);
    AddDataValid(c.hash, c.limits, w.store, node, f, due);
    AddEvolves(c.hash, c.limits, w.store, node, f, due);
    EvolvesKeeps(c, w, s);
    var k := KeyOf(node, f);
    assert w.released + [] == w.released;
    if receipt == Repeat {
      RepeatMatches(c, w, node, f, due);
      var r := Release(w.store.entries[k].uid, f);
      ReleaseOne(c, w.(store := s), r);
      OnlyReleases(c, w.(store := s), w.released + [r]);
    }
  }

  lemma OnlyReleases(c: Config, w: World, released: seq<Release>)
    requires Inv(c, w) && Releases(c, w.(released := released))
    ensures Inv(c, w.(released := released))
  {
    hide Consistent, Releases, Admissible, Prints;
  }

  lemma UidIsOld(c: Config, h: Store, k: Key)
    requires Consistent(c.hash, c.limits, h) && k in h.entries
    ensures h.entries[k].uid < h.nextUid && EntryValid(c.hash, k, h.entries[k])
    ensures forall j :: j in h.entries && h.entries[j].uid == h.entries[k].uid ==> j == k
  {
    hide Sums, Nodes, Listing, Phases, PendingLimits, ApprovedLimits, Readable, EntryValid;
  }

  lemma LockKeeps(c: Config, w: World, node: Name, k: Key)
    requires Inv(c, w) && Enabled(w, Lock(node, k))
    ensures Inv(c, Step(c, w, Lock(node, k)))
  {
    hide Consistent, Releases, Admissions, EntryValid;
    UidIsOld(c, w.store, k);
    OnlyChecking(c, w, Step(c, w, Lock(node, k)).checking);
  }

  lemma UnlockKeeps(c: Config, w: World, node: Name)
    requires Inv(c, w)
    ensures Inv(c, w.(checking := w.checking - {node}))
  {
    hide Consistent, Releases, Admissible, Prints;
    var x := w.(checking := w.checking - {node});
    assert Admissions(c, x) && Releases(c, x) by { OnlyChecking(c, w, x.checking); }
  }

  lemma OnlyChecking(c: Config, w: World, checking: map<Name, Check>)
    ensures Admissions(c, w) ==> Admissions(c, w.(checking := checking))
    ensures Releases(c, w) ==> Releases(c, w.(checking := checking))
  {
    hide Matches, Admissible, Prints;
  }

  // ---- Approval ----------------------------------------------------------------------------

  /** A message that is being ruled on. */
  ghost predicate Ruled(c: Config, w: World, node: Name, k: Key, m: M.Message) {
    && node in w.checking && w.checking[node].key == k
    && k in w.store.entries && w.store.entries[k].uid == w.checking[node].uid && w.store.entries[k].stage == Validating
    && Whole(w.store.entries[k].frames, w.store.entries[k].total) == Some(m)
  }

  function Admitting(w: World, node: Name, k: Key, a: Approval): (x: World)
    requires k in w.store.entries && k.place in w.store.connections
             && Full(w.store.entries[k].frames, w.store.entries[k].total)
  {
    var e := w.store.entries[k];
    World(Admit(w.store, k, a), w.checking - {node}, w.accepted[e.uid := Admission(k, e.total, e.frames)],
          w.released + ReleaseAll(e.uid, InOrder(e.frames, e.total)))
  }

  lemma AdmitConnections(h: Store, k: Key, a: Approval)
    requires k in h.entries && k.place in h.connections
    ensures var s := Admit(h, k, a);
            && s.connections.Keys == h.connections.Keys
            && (forall p :: p in h.connections && p != k.place ==> s.connections[p] == h.connections[p])
            && s.connections[k.place].phase == Advance(h.connections[k.place].phase, a)
            && s.connections[k.place].passed == h.connections[k.place].passed + [a]
  {
    hide Of, Advance;
  }

  lemma AdmitChecks(w: World, node: Name, k: Key, a: Approval)
    requires Checks(w) && k in w.store.entries && k.place in w.store.connections && k.place.node == node
    requires Full(w.store.entries[k].frames, w.store.entries[k].total)
    ensures Checks(Admitting(w, node, k, a))
  {
    AdmitConnections(w.store, k, a);
    AdmitParts(w.store, k, a);
    hide Admit, InOrder, Full;
  }

  lemma AdmissionIsValid(c: Config, k: Key, e: Entry)
    requires EntryValid(c.hash, k, e) && e.stage == Validating && Whole(e.frames, e.total).Some?
    ensures Admissible(Admission(k, e.total, e.frames))
            && Prints(c.hash, Fingerprint(e), Admission(k, e.total, e.frames))
  {
    hide Whole, HeldBytes;
  }

  lemma AdmissionsGrow(c: Config, w: World, x: World, k: Key, e: Entry, adm: Admission)
    requires Admissions(c, w) && k in w.store.entries && w.store.entries[k].uid == e.uid < w.store.nextUid
             && x.store.nextUid == w.store.nextUid
    requires x.store.entries == w.store.entries[k := e] && x.accepted == w.accepted[e.uid := adm]
    requires e.stage == Approved && adm.key == k && Admissible(adm) && Prints(c.hash, e, adm)
    requires forall j :: j in w.store.entries && w.store.entries[j].uid == e.uid ==> j == k
    ensures Admissions(c, x)
  {
    hide Admissible, Prints;
  }

  lemma AdmitAdmissions(c: Config, w: World, node: Name, k: Key, a: Approval)
    requires Admissions(c, w) && k in w.store.entries && k.place in w.store.connections
    requires EntryValid(c.hash, k, w.store.entries[k]) && w.store.entries[k].stage == Validating
             && w.store.entries[k].uid < w.store.nextUid
    requires Whole(w.store.entries[k].frames, w.store.entries[k].total).Some?
    requires forall j :: j in w.store.entries && w.store.entries[j].uid == w.store.entries[k].uid ==> j == k
    ensures Full(w.store.entries[k].frames, w.store.entries[k].total) && Admissions(c, Admitting(w, node, k, a))
  {
    var e := w.store.entries[k];
    assert Full(e.frames, e.total);
    hide Admit, InOrder, Full, EntryValid, Admissible, Prints, Fingerprint, Whole, Admissions;
    AdmissionIsValid(c, k, e);
    AdmitParts(w.store, k, a);
    AdmissionsGrow(c, w, Admitting(w, node, k, a), k, Fingerprint(e), Admission(k, e.total, e.frames));
  }

  lemma FramesMatch(c: Config, k: Key, e: Entry, i: nat)
    requires EntryValid(c.hash, k, e) && e.stage == Validating && i < e.total
    ensures Full(e.frames, e.total) && Matches(c.hash, Admission(k, e.total, e.frames), InOrder(e.frames, e.total)[i])
  {
    hide HeldBytes;
    assert Fitting(e.frames[i], k.message, e.total, i);
  }

  lemma AdmitReleases(c: Config, w: World, node: Name, k: Key, a: Approval)
    requires Releases(c, w) && k in w.store.entries && k.place in w.store.connections
             && w.store.entries[k].uid !in w.accepted
    requires EntryValid(c.hash, k, w.store.entries[k]) && w.store.entries[k].stage == Validating
    ensures Full(w.store.entries[k].frames, w.store.entries[k].total) && Releases(c, Admitting(w, node, k, a))
  {
    var e := w.store.entries[k];
    hide Admit, EntryValid, Matches, Full, InOrder, Releases;
    AllMatch(c, k, e);
    ReleasesGrow(c, w, Admitting(w, node, k, a), e.uid, Admission(k, e.total, e.frames), InOrder(e.frames, e.total));
  }

  lemma AllMatch(c: Config, k: Key, e: Entry)
    requires EntryValid(c.hash, k, e) && e.stage == Validating
    ensures Full(e.frames, e.total)
    ensures var ordered := InOrder(e.frames, e.total);
            forall i :: 0 <= i < |ordered| ==> Matches(c.hash, Admission(k, e.total, e.frames), ordered[i])
  {
    assert Full(e.frames, e.total);
    hide EntryValid, Matches;
    forall i | 0 <= i < |InOrder(e.frames, e.total)|
      ensures Matches(c.hash, Admission(k, e.total, e.frames), InOrder(e.frames, e.total)[i])
    {
      FramesMatch(c, k, e, i);
    }
  }

  lemma ReleasesGrow(c: Config, w: World, x: World, uid: nat, adm: Admission, frames: seq<Frame>)
    requires Releases(c, w) && uid !in w.accepted && x.accepted == w.accepted[uid := adm]
    requires x.released == w.released + ReleaseAll(uid, frames)
    requires forall i :: 0 <= i < |frames| ==> Matches(c.hash, adm, frames[i])
    ensures Releases(c, x)
  {
    hide Matches;
  }

  /** The ruling was made in the phase the connection is still in. */
  lemma StillPermitted(c: Config, w: World, node: Name, k: Key, m: M.Message, answer: Answer, a: Approval)
    requires Checks(w) && Ruled(c, w, node, k, m)
    requires Validate(c.gate, m, k.place.connection, w.checking[node].phase, answer) == Approve(a)
    ensures k.place in w.store.connections && Permitted(w.store.connections[k.place].phase, a) && k.place.node == node
  {
    hide Validate, Permitted, Whole;
    ValidatePermits(c.gate, m, k.place.connection, w.checking[node].phase, answer);
  }

  lemma AdmittedChecks(c: Config, w: World, node: Name, k: Key, a: Approval)
    requires Consistent(c.hash, c.limits, w.store) && Sensible(c.limits) && Checks(w)
    requires k in w.store.entries && k.place in w.store.connections && k.place.node == node
             && w.store.entries[k].stage == Validating
    requires Permitted(w.store.connections[k.place].phase, a)
             && Full(w.store.entries[k].frames, w.store.entries[k].total)
    requires ApproveEntry(c.limits, w.store, k, a).1
    ensures Checks(Admitting(w, node, k, a).(store := ApproveEntry(c.limits, w.store, k, a).0))
  {
    hide Checks, Admit, Full, ApproveEntry, Permitted, Sums, Nodes, Listing, Shapes, Uids, Phases, PendingLimits,
        ApprovedLimits, Readable, Evolves, Remembers;
    AdmitChecks(w, node, k, a);
    AdmitSound(c.hash, c.limits, w.store, k, a);
    ApproveValid(c.hash, c.limits, w.store, k, a);
    ApproveEvolves(c.limits, w.store, k, a);
    EvolvesChecks(Admitting(w, node, k, a), ApproveEntry(c.limits, w.store, k, a).0);
  }

  lemma ApproveKeeps(c: Config, w: World, node: Name, k: Key, m: M.Message, answer: Answer, a: Approval)
    requires Inv(c, w) && Sensible(c.limits) && Ruled(c, w, node, k, m)
    requires Validate(c.gate, m, k.place.connection, w.checking[node].phase, answer) == Approve(a)
    requires ApproveEntry(c.limits, w.store, k, a).1
    ensures Inv(c, Settled(c, w, node, answer))
  {
    hide Consistent, Checks, Admit, ApproveEntry, Validate, Whole, EntryValid, Permitted, Evolves, Remembers, Matches;
    StillPermitted(c, w, node, k, m, answer, a);
    UidIsOld(c, w.store, k);
    AdmitAdmissions(c, w, node, k, a);
    AdmitReleases(c, w, node, k, a);
    hide Admissions, Releases, InOrder, Full;
    ApproveValid(c.hash, c.limits, w.store, k, a);
    ApproveEvolves(c.limits, w.store, k, a);
    AdmittedChecks(c, w, node, k, a);
    var x := Admitting(w, node, k, a);
    var s := ApproveEntry(c.limits, w.store, k, a).0;
    EvolvesAdmissions(c, x, s);
    OnlyStore(c, x, s);
    assert Settled(c, w, node, answer) == x.(store := s);
  }

  lemma OnlyStore(c: Config, w: World, s: Store)
    ensures Releases(c, w) ==> Releases(c, w.(store := s))
  {
    hide Matches;
  }

  // ---- All steps together ------------------------------------------------------------------

  lemma SettleKeeps(c: Config, w: World, node: Name, answer: Answer)
    requires Inv(c, w) && Sensible(c.limits) && node in w.checking
    ensures Inv(c, Settled(c, w, node, answer))
  {
    hide Inv, ApproveEntry, Validate, Whole, Remove, Evolves, Remembers;
    UnlockKeeps(c, w, node);
    var check := w.checking[node];
    var k := check.key;
    var done := w.(checking := w.checking - {node});
    if k in w.store.entries && w.store.entries[k].uid == check.uid && w.store.entries[k].stage == Validating
       && Whole(w.store.entries[k].frames, w.store.entries[k].total).Some? {
      var m := Whole(w.store.entries[k].frames, w.store.entries[k].total).value;
      match Validate(c.gate, m, k.place.connection, check.phase, answer)
      case Refuse =>
        RemoveStep(c, done, k);
      case Postpone =>
        RestageStep(c, done, k, Deferred);
      case Approve(a) =>
        if ApproveEntry(c.limits, w.store, k, a).1 {
          ApproveKeeps(c, w, node, k, m, answer, a);
        }
    }
  }

  lemma RemoveStep(c: Config, w: World, k: Key)
    requires Inv(c, w)
    ensures Inv(c, w.(store := Remove(w.store, k)))
  {
    hide Consistent, Remove, Evolves, Remembers, Checks, Admissions, Releases;
    RemoveValid(c.hash, c.limits, w.store, k);
    RemoveEvolves(w.store, k);
    EvolvesKeeps(c, w, Remove(w.store, k));
  }

  lemma RestageStep(c: Config, w: World, k: Key, stage: Stage)
    requires k in w.store.entries && (w.store.entries[k].stage == Validating || w.store.entries[k].stage == Deferred)
    requires Inv(c, w) && (stage == Validating || stage == Deferred)
    ensures Inv(c, w.(store := Restaged(w.store, k, stage)))
  {
    hide Sound, ApprovedLimits, Evolves, Remembers, Checks, Admissions, Releases, Whole;
    RestageSound(c.hash, c.limits, w.store, k, stage);
    RestageEvolves(w.store, k, stage);
    assert Readable(Restaged(w.store, k, stage));
    hide Readable;
    EvolvesKeeps(c, w, Restaged(w.store, k, stage));
  }

  lemma {:induction false} RemoveManyValid(c: Config, h: Store, order: seq<Key>)
    requires Consistent(c.hash, c.limits, h)
    ensures Consistent(c.hash, c.limits, RemoveMany(h, order))
  {
    hide Consistent, Remove;
    if order != [] {
      RemoveManyValid(c, h, order[..|order| - 1]);
      RemoveValid(c.hash, c.limits, RemoveMany(h, order[..|order| - 1]), order[|order| - 1]);
    }
  }

  lemma DropValid(c: Config, h: Store, p: Place)
    requires Consistent(c.hash, c.limits, h)
    requires p in h.connections ==>
               h.connections[p].tally.pendingMessages == 0 && h.connections[p].tally.approvedMessages == 0
    ensures Consistent(c.hash, c.limits, DropPlace(h, p)) && Evolves(h, DropPlace(h, p))
  {
    hide Sound, ApprovedLimits, Whole;
    if p in h.connections {
      DropConnection(c.hash, c.limits, h, p);
    } else {
      assert h.connections - {p} == h.connections;
    }
  }

  lemma NothingLeft(c: Config, h: Store, p: Place, order: seq<Key>)
    requires Consistent(c.hash, c.limits, h) && Enumerates(order, h, p)
    ensures var r := RemoveMany(h, order);
            && (forall k :: k in r.entries ==> k.place != p)
            && (p in r.connections ==> r.connections[p].tally == ZERO)
  {
    hide Consistent, RemoveMany, Evolves, Remembers, SumOf;
    RemoveManyEvolves(h, order);
    RemoveManyValid(c, h, order);
    var r := RemoveMany(h, order);
    SumsOf(c, r);
    EmptyPlace(r.entries, p);
  }

  lemma ForgetKeeps(c: Config, w: World, p: Place, order: seq<Key>)
    requires Inv(c, w) && Enumerates(order, w.store, p)
    ensures Inv(c, w.(store := DropPlace(RemoveMany(w.store, order), p)))
    ensures Inv(c, w.(store := Cleared(w.store, p, order)))
    ensures Remembers(w.store, Cleared(w.store, p, order))
  {
    hide Consistent, RemoveMany, Evolves, Checks, Admissions, Releases, HasPhase, DropPlace, Enumerates;
    RemoveManyEvolves(w.store, order);
    RemoveManyValid(c, w.store, order);
    NothingLeft(c, w.store, p, order);
    var r := RemoveMany(w.store, order);
    EvolvesKeeps(c, w, r);
    DropValid(c, r, p);
    EvolvesKeeps(c, w.(store := r), DropPlace(r, p));
    ClearedRemembers(w.store, p, order);
  }

  lemma ClearedRemembers(h: Store, p: Place, order: seq<Key>)
    ensures Remembers(h, Cleared(h, p, order))
  {
    RemoveManyEvolves(h, order);
    hide RemoveMany, HasPhase;
  }

  lemma ExpireConnectionKeeps(c: Config, w: World, p: Place)
    requires Inv(c, w) && p in w.store.connections
    requires w.store.connections[p].tally.pendingMessages == 0 && w.store.connections[p].tally.approvedMessages == 0
    ensures Inv(c, w.(store := DropPlace(w.store, p)))
  {
    hide Consistent, Evolves, Checks, Admissions, Releases, DropPlace;
    DropValid(c, w.store, p);
    EvolvesKeeps(c, w, DropPlace(w.store, p));
  }

  /** Every step keeps the invariant. */
  lemma StepKeeps(c: Config, w: World, e: Event)
    requires Enabled(w, e) && Inv(c, w) && Sensible(c.limits)
    ensures Inv(c, Step(c, w, e))
  {
    hide Inv, Arrived, Settled, Remove, RemoveMany, Cleared, Before, Whole;
    match e
    case Arrive(node, f, due) => ArriveKeeps(c, w, node, f, due);
    case Lock(node, k) => LockKeeps(c, w, node, k);
    case Settle(node, answer) => SettleKeeps(c, w, node, answer);
    case TakeDeferred(_, _, k) => RestageStep(c, w, k, Validating);
    case Expire(k) => RemoveStep(c, w, k);
    case Acknowledge(k) => RemoveStep(c, w, k);
    case Forget(p, order) => ForgetKeeps(c, w, p, order);
    case Reset(p, order) => ForgetKeeps(c, w, p, order);
    case ExpireConnection(p) =>
      if p in w.store.connections && w.store.connections[p].tally.pendingMessages == 0
          && w.store.connections[p].tally.approvedMessages == 0 {
        ExpireConnectionKeeps(c, w, p);
      }
  }

  // ---- Whole runs --------------------------------------------------------------------------

  const START := World(EMPTY, map[], map[], [])

  ghost predicate Steps(c: Config, w: World, e: Event, x: World) { Enabled(w, e) && x == Step(c, w, e) }

  ghost predicate Run(c: Config, ws: seq<World>, es: seq<Event>) {
    && Sensible(c.limits)
    && |ws| == |es| + 1
    && ws[0] == START
    && forall i, j :: 0 <= i && j == i + 1 < |ws| ==> Steps(c, ws[i], es[i], ws[j])
  }

  lemma StartIsInv(c: Config)
    requires Sensible(c.limits)
    ensures Inv(c, START)
  {
    assert SumOf(map[], Everywhere) == ZERO by { assert Shares(map[], Everywhere) == map[]; }
  }

  lemma {:induction false} RunKeeps(c: Config, ws: seq<World>, es: seq<Event>, n: nat)
    requires Run(c, ws, es) && n < |ws|
    ensures Inv(c, ws[n])
  {
    hide Inv, Step, Enabled;
    if n == 0 {
      StartIsInv(c);
    } else {
      var m := n - 1;
      RunKeeps(c, ws, es, m);
      assert Steps(c, ws[m], es[m], ws[n]);
      StepKeeps(c, ws[m], es[m]);
    }
  }

  /** Every frame that was let through belongs to a message that had been assembled whole and approved,
      and is a frame of that message or carries the same digest in its place. */
  lemma ReleasedWasApproved(c: Config, ws: seq<World>, es: seq<Event>, n: nat, i: nat)
    requires Run(c, ws, es) && n < |ws| && i < |ws[n].released|
    ensures var r := ws[n].released[i];
            && r.uid in ws[n].accepted
            && Whole(ws[n].accepted[r.uid].frames, ws[n].accepted[r.uid].total).Some?
            && Matches(c.hash, ws[n].accepted[r.uid], r.frame)
  {
    RunKeeps(c, ws, es, n);
    hide Run, Consistent, Checks, Matches, Whole;
  }

  lemma SettledAccepts(c: Config, w: World, node: Name, answer: Answer, u: nat) returns (m: M.Message, a: Approval)
    requires node in w.checking && u in Settled(c, w, node, answer).accepted && u !in w.accepted
    ensures var k := w.checking[node].key;
            && Ruled(c, w, node, k, m)
            && Validate(c.gate, m, k.place.connection, w.checking[node].phase, answer) == Approve(a)
            && ApproveEntry(c.limits, w.store, k, a).1
            && Settled(c, w, node, answer).store == ApproveEntry(c.limits, w.store, k, a).0
            && Settled(c, w, node, answer).accepted[u] ==
               Admission(k, w.store.entries[k].total, w.store.entries[k].frames)
  {
    hide ApproveEntry, Validate, Whole, Remove, Full, InOrder;
    var k := w.checking[node].key;
    m := Whole(w.store.entries[k].frames, w.store.entries[k].total).value;
    a := Validate(c.gate, m, k.place.connection, w.checking[node].phase, answer).approval;
  }

  lemma OnlySettleAccepts(c: Config, w: World, e: Event, u: nat)
    requires Enabled(w, e) && u in Step(c, w, e).accepted && u !in w.accepted
    ensures e.Settle? && e.node in w.checking && Step(c, w, e) == Settled(c, w, e.node, e.answer)
  {
    hide Settled, AddData, Remove, RemoveMany, Cleared, Whole, Before;
  }

  lemma StillThatPhase(w: World, node: Name)
    requires Checks(w) && node in w.checking
    ensures var c := w.checking[node];
            c.key in w.store.entries && w.store.entries[c.key].uid == c.uid ==>
              c.key.place in w.store.connections && w.store.connections[c.key.place].phase == c.phase
  {
  }

  /** A message counts as approved only by a ruling on the whole message in the phase its connection is
      in at that moment. */
  lemma ApprovedByRuling(c: Config, ws: seq<World>, es: seq<Event>, n: nat, u: nat) returns (m: M.Message, a: Approval)
    requires Run(c, ws, es) && n < |es| && u in ws[n + 1].accepted && u !in ws[n].accepted
    ensures es[n].Settle?
    ensures var adm := ws[n + 1].accepted[u];
            && Whole(adm.frames, adm.total) == Some(m)
            && adm.key.place in ws[n].store.connections
            && Validate(c.gate, m, adm.key.place.connection, ws[n].store.connections[adm.key.place].phase,
                es[n].answer) == Approve(a)
  {
    hide Consistent, Checks, Admissions, Releases, Settled, ApproveEntry, Validate, Whole, Step, Enabled;
    RunKeeps(c, ws, es, n);
    var next := n + 1;
    assert Steps(c, ws[n], es[n], ws[next]);
    OnlySettleAccepts(c, ws[n], es[n], u);
    m, a := SettledAccepts(c, ws[n], es[n].node, es[n].answer, u);
    StillThatPhase(ws[n], es[n].node);
  }

  lemma PermittedFits(p: Phase, a: Approval)
    requires Permitted(p, a)
    ensures !Clash(p, a)
  {
  }

  lemma ApprovalTakesEffect(c: Config, w: World, node: Name, answer: Answer, m: M.Message, a: Approval)
    requires Checks(w) && node in w.checking && Ruled(c, w, node, w.checking[node].key, m)
    requires Validate(c.gate, m, w.checking[node].key.place.connection, w.checking[node].phase, answer) == Approve(a)
    ensures var k := w.checking[node].key;
            var x := Settled(c, w, node, answer);
            && ApproveEntry(c.limits, w.store, k, a).1
            && x.store == ApproveEntry(c.limits, w.store, k, a).0
            && w.store.entries[k].uid in x.accepted
            && x.accepted[w.store.entries[k].uid] == Admission(k, w.store.entries[k].total, w.store.entries[k].frames)
  {
    hide Checks, Validate, Whole, EvictAt, EvictOldest, Admit, Clash, Full, InOrder;
    var k := w.checking[node].key;
    StillThatPhase(w, node);
    ValidatePermits(c.gate, m, k.place.connection, w.checking[node].phase, answer);
    PermittedFits(w.checking[node].phase, a);
  }

  /** A ruling that approves a message that is still there always takes effect: the phase it has read is
      the phase of the connection, so the approval cannot clash with it. */
  lemma RulingTakesEffect(c: Config, ws: seq<World>, es: seq<Event>, n: nat, m: M.Message, a: Approval)
    requires Run(c, ws, es) && n < |es| && es[n].Settle? && es[n].node in ws[n].checking
    requires Ruled(c, ws[n], es[n].node, ws[n].checking[es[n].node].key, m)
    requires var check := ws[n].checking[es[n].node];
             Validate(c.gate, m, check.key.place.connection, check.phase, es[n].answer) == Approve(a)
    ensures var k := ws[n].checking[es[n].node].key;
            var e := ws[n].store.entries[k];
            && ws[n + 1].store == ApproveEntry(c.limits, ws[n].store, k, a).0
               && ApproveEntry(c.limits, ws[n].store, k, a).1
            && e.uid in ws[n + 1].accepted && ws[n + 1].accepted[e.uid] == Admission(k, e.total, e.frames)
  {
    hide Consistent, Checks, Admissions, Releases, Settled, ApproveEntry, Validate, Ruled, Enabled;
    RunKeeps(c, ws, es, n);
    var next := n + 1;
    assert Steps(c, ws[n], es[n], ws[next]);
    ApprovalTakesEffect(c, ws[n], es[n].node, es[n].answer, m, a);
  }

  /** In every reachable state the counters are sums, the list is exact and all limits hold. */
  lemma CountersAreSums(c: Config, ws: seq<World>, es: seq<Event>, n: nat)
    requires Run(c, ws, es) && n < |ws|
    ensures var h := ws[n].store;
            && Sums(h) && Nodes(h) && Listing(h) && PendingLimits(c.limits, h) && ApprovedLimits(c.limits, h)
            && NonNegative(h.tally)
  {
    RunKeeps(c, ws, es, n);
    hide Run, Checks, Admissions, Releases, Shapes, Uids, Phases, SumOf;
    SumIsNonNegative(ws[n].store.entries, Everywhere);
  }

  /** What each connection was let through obeys the rules from the first message on. */
  lemma PhasesAreLegal(c: Config, ws: seq<World>, es: seq<Event>, n: nat, p: Place)
    requires Run(c, ws, es) && n < |ws| && p in ws[n].store.connections
    ensures Legal(ws[n].store.connections[p].passed)
    ensures ws[n].store.connections[p].phase == After(ws[n].store.connections[p].passed)
  {
    RunKeeps(c, ws, es, n);
    hide Run, Checks, Admissions, Releases, Shapes, Uids, Sums, Nodes, Listing, Legal, After;
  }

  /** The record of a connection goes on: it is there afterwards and lists what it did, and perhaps more. */
  ghost predicate GoesOn(h: Store, r: Store, p: Place)
    requires p in h.connections
  {
    p in r.connections && h.connections[p].passed <= r.connections[p].passed
  }

  lemma EvolvesGoesOn(h: Store, r: Store, p: Place)
    requires Evolves(h, r) && Remembers(h, r) && p in h.connections && HasPhase(h.connections[p].phase)
    ensures GoesOn(h, r, p)
  {
    hide HasPhase;
  }

  lemma AdmitGoesOn(h: Store, k: Key, a: Approval, p: Place)
    requires k in h.entries && k.place in h.connections && p in h.connections && HasPhase(h.connections[p].phase)
    ensures var s := Admit(h, k, a);
            && p in s.connections && HasPhase(s.connections[p].phase)
            && h.connections[p].passed <= s.connections[p].passed
  {
    AdmitConnections(h, k, a);
    hide Admit;
  }

  lemma ApproveGoesOn(l: Limits, h: Store, k: Key, a: Approval, p: Place)
    requires ApproveEntry(l, h, k, a).1 && p in h.connections && HasPhase(h.connections[p].phase)
    ensures GoesOn(h, ApproveEntry(l, h, k, a).0, p)
  {
    hide ApproveEntry, Evolves, Remembers, Admit, HasPhase;
    ApproveEvolves(l, h, k, a);
    AdmitGoesOn(h, k, a, p);
    EvolvesGoesOn(Admit(h, k, a), ApproveEntry(l, h, k, a).0, p);
  }

  lemma SettleGoesOn(c: Config, w: World, node: Name, answer: Answer, p: Place)
    requires node in w.checking && p in w.store.connections && HasPhase(w.store.connections[p].phase)
    ensures GoesOn(w.store, Settled(c, w, node, answer).store, p)
  {
    hide ApproveEntry, Validate, Whole, Remove, Evolves, Remembers, HasPhase, Full, InOrder;
    var k := w.checking[node].key;
    EvolvesSelf(w.store);
    EvolvesGoesOn(w.store, w.store, p);
    RemoveEvolves(w.store, k);
    EvolvesGoesOn(w.store, Remove(w.store, k), p);
    if k in w.store.entries && w.store.entries[k].stage == Validating {
      RestageEvolves(w.store, k, Deferred);
      EvolvesGoesOn(w.store, Restaged(w.store, k, Deferred), p);
      match Whole(w.store.entries[k].frames, w.store.entries[k].total)
      case None =>
      case Some(m) =>
        match Validate(c.gate, m, k.place.connection, w.checking[node].phase, answer)
        case Approve(a) => if ApproveEntry(c.limits, w.store, k, a).1 { ApproveGoesOn(c.limits, w.store, k, a, p); }
        case _ =>
    }
  }

  lemma PastGrows(c: Config, ws: seq<World>, es: seq<Event>, n: nat, p: Place)
    requires Run(c, ws, es) && n < |es| && p in ws[n].store.connections && ws[n].store.connections[p].passed != []
    requires !(es[n].Forget? && es[n].p == p) && es[n] != ExpireConnection(p)
    ensures GoesOn(ws[n].store, ws[n + 1].store, p)
  {
    PhasesAreLegal(c, ws, es, n, p);
    PhaseRemembers(ws[n].store.connections[p].passed);
    var next := n + 1;
    assert Steps(c, ws[n], es[n], ws[next]);
    hide Run;
    StepGoesOn(c, ws[n], es[n], p);
  }

  /** Until a connection is forgotten or expires, its past only grows, through resets, evictions and
      removals of all its messages. */
  lemma {:induction false} PastOnlyGrows(c: Config, ws: seq<World>, es: seq<Event>, m: nat, n: nat, p: Place)
    requires Run(c, ws, es) && m <= n < |ws| && p in ws[m].store.connections && ws[m].store.connections[p].passed != []
    requires forall k :: m <= k < n ==> !(es[k].Forget? && es[k].p == p) && es[k] != ExpireConnection(p)
    ensures GoesOn(ws[m].store, ws[n].store, p)
  {
    hide Steps;
    if m < n {
      PastOnlyGrows(c, ws, es, m, n - 1, p);
      PastGrows(c, ws, es, n - 1, p);
    }
  }

  /** What a connection is let through, from one moment to any later one before it is forgotten or expires:
      what it was let through earlier still counts, and with everything since it obeys the one-way order
      of preludes, handshake information and billing in one session. */
  lemma LetThrough(c: Config, ws: seq<World>, es: seq<Event>, m: nat, n: nat, p: Place, i: nat, j: nat)
    requires Run(c, ws, es) && m <= n < |ws| && p in ws[m].store.connections && ws[m].store.connections[p].passed != []
    requires forall k :: m <= k < n ==> !(es[k].Forget? && es[k].p == p) && es[k] != ExpireConnection(p)
    requires i < |ws[m].store.connections[p].passed| && i < j
    ensures p in ws[n].store.connections
    ensures var before, now := ws[m].store.connections[p].passed, ws[n].store.connections[p].passed;
            && before <= now && Preludes(now) <= MAX_PRELUDES
            && (j < |now| ==>
                  && (now[j].Prelude? ==> before[i] != now[j] && !before[i].HandshakeInfo? && !before[i].Billing?)
                  && (now[j].HandshakeInfo? ==> !before[i].HandshakeInfo? && !before[i].Billing?)
                  && ((before[i].HandshakeInfo? || before[i].Billing?) && (now[j].HandshakeInfo? || now[j].Billing?) ==>
                        before[i].session == now[j].session))
  {
    hide Run, Preludes, Legal, After;
    PastOnlyGrows(c, ws, es, m, n, p);
    PhasesAreLegal(c, ws, es, n, p);
    var now := ws[n].store.connections[p].passed;
    PhaseTells(now);
    if j < |now| { OneWay(now, i, j); }
  }

  lemma StepGoesOn(c: Config, w: World, e: Event, p: Place)
    requires Enabled(w, e) && p in w.store.connections && HasPhase(w.store.connections[p].phase)
    requires !(e.Forget? && e.p == p) && e != ExpireConnection(p)
    ensures GoesOn(w.store, Step(c, w, e).store, p)
  {
    hide HasPhase, AddData, Settled, Evolves, Remembers, Remove, RemoveMany, Whole, Before;
    EvolvesSelf(w.store);
    EvolvesGoesOn(w.store, w.store, p);
    match e
    case Arrive(node, f, due) =>
      AddEvolves(c.hash, c.limits, w.store, node, f, due);
      EvolvesGoesOn(w.store, AddData(c.hash, c.limits, w.store, node, f, due).0, p);
    case Lock(_, _) =>
    case Settle(node, answer) => SettleGoesOn(c, w, node, answer, p);
    case TakeDeferred(_, _, k) =>
      RestageEvolves(w.store, k, Validating);
      EvolvesGoesOn(w.store, Restaged(w.store, k, Validating), p);
    case Expire(k) =>
      RemoveEvolves(w.store, k);
      EvolvesGoesOn(w.store, Remove(w.store, k), p);
    case Acknowledge(k) =>
      RemoveEvolves(w.store, k);
      EvolvesGoesOn(w.store, Remove(w.store, k), p);
    case Forget(q, order) =>
      RemoveManyEvolves(w.store, order);
      EvolvesGoesOn(w.store, RemoveMany(w.store, order), p);
    case Reset(q, order) =>
      RemoveManyEvolves(w.store, order);
      EvolvesGoesOn(w.store, RemoveMany(w.store, order), p);
      ClearedRemembers(w.store, q, order);
      ClearedEvolves(w.store, q, order);
      EvolvesGoesOn(w.store, Cleared(w.store, q, order), p);
    case ExpireConnection(q) =>
  }

  lemma ClearedEvolves(h: Store, p: Place, order: seq<Key>)
    ensures Evolves(h, Cleared(h, p, order))
  {
    RemoveManyEvolves(h, order);
    hide RemoveMany, HasPhase;
  }
}
