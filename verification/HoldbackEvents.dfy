/** What every event does to the entries and records of the billing gate, and what that adds up to: nothing is dropped
    but by its own event or by an eviction that is needed, oldest first, and no record outlives its use. */
module HoldbackEvents {
  import opened Bytes
  import opened FrameCodec
  import opened HoldbackRules
  import opened HoldbackTally
  import opened Holdback
  import opened HoldbackSteps
  import opened HoldbackApproval
  import opened HoldbackRuns

  // ---- Counters ----------------------------------------------------------------------------

  predicate InScope(s: Scope, k: Key) { s == Everywhere || s.place == k.place }

  function PendingIn(entries: map<Key, Entry>, s: Scope): (r: set<Key>) {
    set k | k in entries && InScope(s, k) && entries[k].stage != Approved
  }

  function ApprovedIn(entries: map<Key, Entry>, s: Scope): (r: set<Key>) {
    set k | k in entries && InScope(s, k) && entries[k].stage == Approved
  }

  lemma CountedKey(entries: map<Key, Entry>, k: Key, s: Scope)
    requires k in entries
    ensures var rest := entries - {k};
            && |PendingIn(entries, s)| ==
               |PendingIn(rest, s)| + (if InScope(s, k) && entries[k].stage != Approved then 1 else 0)
            && |ApprovedIn(entries, s)| ==
               |ApprovedIn(rest, s)| + (if InScope(s, k) && entries[k].stage == Approved then 1 else 0)
  {
    var rest := entries - {k};
    if InScope(s, k) && entries[k].stage != Approved {
      assert PendingIn(entries, s) == PendingIn(rest, s) + {k};
    } else {
      assert PendingIn(entries, s) == PendingIn(rest, s);
    }
    if InScope(s, k) && entries[k].stage == Approved {
      assert ApprovedIn(entries, s) == ApprovedIn(rest, s) + {k};
    } else {
      assert ApprovedIn(entries, s) == ApprovedIn(rest, s);
    }
  }

  /** The message counters are the numbers of messages: those that wait, and those that are approved. */
  lemma {:induction false} CountersCount(entries: map<Key, Entry>, s: Scope)
    ensures SumOf(entries, s).pendingMessages == |PendingIn(entries, s)|
    ensures SumOf(entries, s).approvedMessages == |ApprovedIn(entries, s)|
    decreases |entries|
  {
    hide SumOf, PendingIn, ApprovedIn;
    if entries == map[] {
      NothingCounted(s);
    } else {
      var k :| k in entries;
      Fewer(entries, k);
      CountersCount(entries - {k}, s);
      CountedKey(entries, k, s);
      SharesWithout(entries, k, s);
    }
  }

  lemma NothingCounted(s: Scope)
    ensures SumOf(map[], s) == ZERO && PendingIn(map[], s) == {} && ApprovedIn(map[], s) == {}
  {
    assert Shares(map[], s) == map[];
  }

  /** The limits for a scope: of the whole gate or of one connection. */
  function WaitingMessages(l: Limits, s: Scope): (n: int) {
    if s == Everywhere then l.globalMessages else l.connectionMessages
  }

  function ApprovedMessages(l: Limits, s: Scope): (n: int) {
    if s == Everywhere then l.approvedMessages else l.connectionApprovedMessages
  }

  /** In every run, of the whole gate and of each connection: the numbers of waiting and of approved messages, counted
      over the entries, and the frames and bytes of each kind keep their limits; so do each message and the number
      of connections on record. */
  lemma LimitsHold(c: Config, ws: seq<World>, es: seq<Event>, n: nat, s: Scope)
    requires Run(c, ws, es) && n < |ws| && (s.At? ==> s.place in ws[n].store.connections)
    ensures var h, l := ws[n].store, c.limits;
            var t := SumOf(h.entries, s);
            && |PendingIn(h.entries, s)| <= WaitingMessages(l, s)
            && |ApprovedIn(h.entries, s)| <= ApprovedMessages(l, s)
            && t.pendingFrames <= (if s == Everywhere then l.globalFrames else l.connectionFrames)
            && t.pendingBytes <= (if s == Everywhere then l.globalBytes else l.connectionBytes)
            && t.approvedBytes <= (if s == Everywhere then l.approvedBytes else l.connectionApprovedBytes)
            && |h.connections| <= l.connections
            && forall k :: k in h.entries ==>
                 h.entries[k].bytes <= l.messageBytes && h.entries[k].total <= l.messageFrames
  {
    hide Run, SumOf, Nodes, Listing, PendingIn, ApprovedIn;
    CountersAreSums(c, ws, es, n);
    CountersCount(ws[n].store.entries, s);
  }

  // ---- Eviction ----------------------------------------------------------------------------

  lemma {:induction false} RemoveFirst(h: Store, k: Key, order: seq<Key>)
    ensures RemoveMany(Remove(h, k), order) == RemoveMany(h, [k] + order)
    decreases |order|
  {
    hide Remove;
    var all := [k] + order;
    if order == [] {
      assert all[..0] == [] && RemoveMany(h, all[..0]) == h;
    } else {
      var n := |order| - 1;
      RemoveFirst(h, k, order[..n]);
      assert all[..n + 1] == [k] + order[..n];
    }
  }

  lemma RemoveHead(h: Store)
    requires ListedAt(h, 0)
    ensures Remove(h, h.approved[0]).approved == h.approved[1..]
  {
    hide Of, Sub;
  }

  predicate Within(l: Limits, h: Store) {
    h.tally.approvedBytes <= l.approvedBytes && h.tally.approvedMessages <= l.approvedMessages
  }

  /** To keep within the limits of the gate the oldest approved messages are dropped, and no more of them than
      needed. */
  lemma {:induction false} OldestAreEvicted(l: Limits, h: Store) returns (n: nat)
    requires Listing(h)
    ensures n <= |h.approved| && EvictOldest(l, h) == RemoveMany(h, h.approved[..n])
    ensures forall m :: 0 <= m < n ==> !Within(l, RemoveMany(h, h.approved[..m]))
    ensures n < |h.approved| ==> Within(l, EvictOldest(l, h))
    decreases |h.approved|
  {
    hide Remove, Listing;
    assert h.approved[..0] == [] && RemoveMany(h, []) == h;
    if Within(l, h) || h.approved == [] {
      n := 0;
    } else {
      ListingAt(h, 0);
      RemoveShortens(h, 0);
      RemoveHead(h);
      var k, r := h.approved[0], Remove(h, h.approved[0]);
      RemoveListing(h, k);
      var i := OldestAreEvicted(l, r);
      n := i + 1;
      forall m | 0 <= m <= i ensures RemoveMany(r, r.approved[..m]) == RemoveMany(h, h.approved[..m + 1]) {
        RemoveFirst(h, k, r.approved[..m]);
        assert [k] + h.approved[1..][..m] == h.approved[..m + 1];
      }
      forall m | 0 <= m < n ensures !Within(l, RemoveMany(h, h.approved[..m])) {
        if m > 0 { assert !Within(l, RemoveMany(r, r.approved[..m - 1])); }
      }
    }
  }

  /** The approved messages of one connection, oldest first. */
  function OfPlace(s: seq<Key>, p: Place): (r: seq<Key>) {
    if s == [] then [] else (if s[0].place == p then [s[0]] else []) + OfPlace(s[1..], p)
  }

  lemma {:induction false} FirstOfPlace(s: seq<Key>, p: Place)
    ensures var i := OldestAt(s, p, 0);
            && (i == |s| <==> OfPlace(s, p) == [])
            && (i < |s| ==> OfPlace(s, p)[0] == s[i] && OfPlace(Unlisted(s, s[i]), p) == OfPlace(s, p)[1..])
  {
    if s != [] {
      FirstOfPlace(s[1..], p);
      OldestBehind(s, p, 0);
      if s[0].place != p && OldestAt(s, p, 0) < |s| {
        var k := s[OldestAt(s, p, 0)];
        assert Unlisted(s, k) == [s[0]] + Unlisted(s[1..], k);
        assert ([s[0]] + Unlisted(s[1..], k))[1..] == Unlisted(s[1..], k);
      }
    }
  }

  lemma {:induction false} OldestBehind(s: seq<Key>, p: Place, i: nat)
    requires s != [] && i < |s|
    ensures OldestAt(s, p, i + 1) == OldestAt(s[1..], p, i) + 1
    decreases |s| - i
  {
    if i + 1 < |s| && s[i + 1].place != p {
      OldestBehind(s, p, i + 1);
    }
  }

  predicate WithinAt(l: Limits, h: Store, p: Place) {
    p in h.connections ==>
      && h.connections[p].tally.approvedBytes <= l.connectionApprovedBytes
      && h.connections[p].tally.approvedMessages <= l.connectionApprovedMessages
  }

  lemma RemoveAtPlace(h: Store, p: Place)
    requires Listing(h) && OldestAt(h.approved, p, 0) < |h.approved|
    ensures var i := OldestAt(h.approved, p, 0);
            && ListedAt(h, i) && OfPlace(h.approved, p) != [] && OfPlace(h.approved, p)[0] == h.approved[i]
            && OfPlace(Remove(h, h.approved[i]).approved, p) == OfPlace(h.approved, p)[1..]
  {
    var i := OldestAt(h.approved, p, 0);
    ListingAt(h, i);
    FirstOfPlace(h.approved, p);
    hide Of, Sub, OldestAt, OfPlace, Unlisted, Listing;
  }

  /** To keep within the limits of a connection its oldest approved messages are dropped, and no more than needed. */
  lemma {:induction false} OldestAtAreEvicted(l: Limits, h: Store, p: Place) returns (n: nat)
    requires Listing(h)
    ensures var mine := OfPlace(h.approved, p);
            && n <= |mine| && EvictAt(l, h, p) == RemoveMany(h, mine[..n])
            && (forall m :: 0 <= m < n ==> !WithinAt(l, RemoveMany(h, mine[..m]), p))
            && (n < |mine| ==> WithinAt(l, EvictAt(l, h, p), p))
    decreases |h.approved|
  {
    hide Remove, Listing, OfPlace;
    var mine := OfPlace(h.approved, p);
    assert mine[..0] == [] && RemoveMany(h, []) == h;
    FirstOfPlace(h.approved, p);
    var i := OldestAt(h.approved, p, 0);
    if WithinAt(l, h, p) || i == |h.approved| {
      n := 0;
      hide OldestAt;
    } else {
      RemoveAtPlace(h, p);
      RemoveShortens(h, i);
      var k, r := h.approved[i], Remove(h, h.approved[i]);
      RemoveListing(h, k);
      var j := OldestAtAreEvicted(l, r, p);
      n := j + 1;
      var rest := OfPlace(r.approved, p);
      hide OldestAt;
      forall m | 0 <= m <= j ensures RemoveMany(r, rest[..m]) == RemoveMany(h, mine[..m + 1]) {
        RemoveFirst(h, k, rest[..m]);
        assert [k] + mine[1..][..m] == mine[..m + 1];
      }
      forall m | 0 <= m < n ensures !WithinAt(l, RemoveMany(h, mine[..m]), p) {
        if m > 0 { assert !WithinAt(l, RemoveMany(r, rest[..m - 1]), p); }
      }
    }
  }

  // ---- Records in use ----------------------------------------------------------------------

  ghost predicate HasEntry(h: Store, p: Place) { exists k :: k in h.entries && k.place == p }

  /** Every record of a connection is there for a message, or for what the connection was let through. */
  ghost predicate InUse(h: Store) {
    forall p :: p in h.connections ==> HasEntry(h, p) || HasPhase(h.connections[p].phase)
  }

  lemma NoEntryIsZero(h: Store, p: Place)
    requires Sums(h) && p in h.connections && !HasEntry(h, p)
    ensures h.connections[p].tally == ZERO
  {
    EmptyPlace(h.entries, p);
    hide SumOf;
  }

  lemma TakeOutUse(h: Store, k: Key)
    requires k in h.entries
    ensures var r := TakeOut(h, k);
            && r.connections.Keys == h.connections.Keys
            && (forall p :: p in h.connections ==> r.connections[p].phase == h.connections[p].phase)
            && (forall p :: p != k.place && HasEntry(h, p) ==> HasEntry(r, p))
  {
    hide Of, Sub, Unlisted;
    var r := TakeOut(h, k);
    forall p | p != k.place && HasEntry(h, p) ensures HasEntry(r, p) {
      var j :| j in h.entries && j.place == p;
      assert j in r.entries;
    }
  }

  lemma SameUse(h: Store, r: Store)
    requires r.entries == h.entries
    ensures forall p :: HasEntry(r, p) == HasEntry(h, p)
  {
  }

  lemma RemoveIdleInUse(h: Store, p: Place)
    requires forall q :: q in h.connections && q != p ==> HasEntry(h, q) || HasPhase(h.connections[q].phase)
    requires p in h.connections && !HasEntry(h, p) ==> h.connections[p].tally == ZERO
    ensures InUse(RemoveIdle(h, p))
  {
    SameUse(h, RemoveIdle(h, p));
    hide HasEntry, HasPhase;
  }

  lemma RemoveInUse(c: Config, h: Store, k: Key)
    requires Sound(c.hash, c.limits, h) && InUse(h)
    ensures InUse(Remove(h, k)) && Sound(c.hash, c.limits, Remove(h, k))
  {
    hide TakeOut, Sums, HasPhase, Sound, RemoveIdle, HasEntry;
    RemoveKeeps(c.hash, c.limits, h, k);
    if k in h.entries {
      SoundSums(c, h);
      TakeOutSums(h, k);
      TakeOutUse(h, k);
      var t := TakeOut(h, k);
      if k.place in t.connections && !HasEntry(t, k.place) { NoEntryIsZero(t, k.place); }
      RemoveIdleInUse(t, k.place);
    }
  }

  lemma SoundSums(c: Config, h: Store)
    requires Sound(c.hash, c.limits, h)
    ensures Sums(h) && Listing(h)
  {
  }

  lemma ConsistentIsSound(c: Config, h: Store)
    requires Consistent(c.hash, c.limits, h)
    ensures Sound(c.hash, c.limits, h)
  {
    hide Sound, ApprovedLimits, Readable;
  }

  lemma {:induction false} RemoveManyInUse(c: Config, h: Store, order: seq<Key>)
    requires Sound(c.hash, c.limits, h) && InUse(h)
    ensures InUse(RemoveMany(h, order)) && Sound(c.hash, c.limits, RemoveMany(h, order))
  {
    hide Sound, Remove, InUse;
    if order != [] {
      RemoveManyInUse(c, h, order[..|order| - 1]);
      RemoveInUse(c, RemoveMany(h, order[..|order| - 1]), order[|order| - 1]);
    }
  }

  lemma StoredInUse(hash: seq<byte> -> Digest, h: Store, k: Key, f: Frame)
    requires InUse(h)
    ensures InUse(Stored(hash, h, k, f))
  {
    var r := Stored(hash, h, k, f);
    StoredParts(hash, h, k, f);
    StoredPlaces(hash, h, k, f);
    hide Stored, Extended, HasPhase;
    assert k in r.entries;
    forall p | p in r.connections ensures HasEntry(r, p) || HasPhase(r.connections[p].phase) {
      if p != k.place && HasEntry(h, p) {
        var j :| j in h.entries && j.place == p;
        assert j in r.entries;
      }
    }
  }

  lemma StoredPlaces(hash: seq<byte> -> Digest, h: Store, k: Key, f: Frame)
    ensures forall p :: p in Stored(hash, h, k, f).connections ==> p in h.connections || p == k.place
  {
    hide Extended, Of;
  }

  lemma SparedInUse(h: Store, p: Place)
    requires InUse(h)
    ensures InUse(RemoveIdle(h, p)) && InUse(DropPlace(h, p))
  {
    SameUse(h, RemoveIdle(h, p));
    SameUse(h, DropPlace(h, p));
    hide HasEntry, HasPhase, Idle;
  }

  lemma RestagedInUse(h: Store, k: Key, stage: Stage)
    requires InUse(h) && k in h.entries
    ensures InUse(Restaged(h, k, stage))
  {
    var r := Restaged(h, k, stage);
    forall p | HasEntry(h, p) ensures HasEntry(r, p) {
      var j :| j in h.entries && j.place == p;
      assert j in r.entries;
    }
    hide HasEntry, HasPhase;
  }

  lemma AddNewInUse(c: Config, h: Store, k: Key, f: Frame)
    requires Consistent(c.hash, c.limits, h) && InUse(h) && Sensible(c.limits)
    requires f.total <= c.limits.messageFrames && Missing(h, k, f)
    ensures InUse(AddNew(c.hash, c.limits, h, k, f).0)
  {
    hide Consistent, Sound, InUse, Stored, Remove, RemoveIdle, Whole, RoomFor, Extended, Missing;
    StoredInUse(c.hash, h, k, f);
    SparedInUse(h, k.place);
    if (k.place in h.connections || |h.connections| < c.limits.connections)
        && RoomFor(c.limits, h, k, EntryFor(h, k, f.total), |f.payload|) {
      ConsistentIsSound(c, h);
      WithConnSound(c.hash, c.limits, h, k.place);
      SameRoom(c.hash, c.limits, h, k, f);
      StoredSound(c.hash, c.limits, WithConn(h, k.place), k, f);
      RemoveInUse(c, Stored(c.hash, h, k, f), k);
    }
  }

  lemma AddInUse(c: Config, h: Store, node: Name, f: Frame, due: bool)
    requires Consistent(c.hash, c.limits, h) && InUse(h) && Sensible(c.limits)
    ensures InUse(AddData(c.hash, c.limits, h, node, f, due).0)
  {
    hide Consistent, InUse, AddNew, Restaged;
    var k := KeyOf(node, f);
    if k in h.entries { RestagedInUse(h, k, Validating); }
    if Coordinates(c.limits, f) && Missing(h, k, f) { AddNewInUse(c, h, k, f); }
  }

  lemma AdmitInUse(h: Store, k: Key, a: Approval)
    requires InUse(h) && k in h.entries && k.place in h.connections
    ensures InUse(Admit(h, k, a))
  {
    var r := Admit(h, k, a);
    AdmitParts(h, k, a);
    AdmitPlaces(h, k, a);
    hide Admit, Fingerprint, HasPhase;
    assert k in r.entries;
    forall p | p in r.connections ensures HasEntry(r, p) || HasPhase(r.connections[p].phase) {
      if p != k.place && HasEntry(h, p) {
        var j :| j in h.entries && j.place == p;
        assert j in r.entries;
      }
    }
  }

  lemma AdmitPlaces(h: Store, k: Key, a: Approval)
    requires k in h.entries && k.place in h.connections
    ensures var r := Admit(h, k, a);
            && r.connections.Keys == h.connections.Keys
            && forall p :: p in h.connections && p != k.place ==> r.connections[p] == h.connections[p]
  {
    hide Of, Advance, Fingerprint;
  }

  lemma {:induction false} RemoveManyListing(h: Store, order: seq<Key>)
    requires Listing(h)
    ensures Listing(RemoveMany(h, order))
  {
    hide Remove, Listing;
    if order != [] {
      RemoveManyListing(h, order[..|order| - 1]);
      RemoveListing(RemoveMany(h, order[..|order| - 1]), order[|order| - 1]);
    }
  }

  /** What an approval drops: first the oldest approved messages of the gate, then the oldest of the connection. */
  lemma ApprovalEvicts(c: Config, h: Store, k: Key, a: Approval) returns (m: nat, n: nat)
    requires Consistent(c.hash, c.limits, h) && ApproveEntry(c.limits, h, k, a).1
    requires Permitted(h.connections[k.place].phase, a) && Sensible(c.limits)
    ensures k in h.entries && k.place in h.connections && m <= |Admit(h, k, a).approved|
    ensures var s := Admit(h, k, a);
            var t := RemoveMany(s, s.approved[..m]);
            var mine := OfPlace(t.approved, k.place);
            && n <= |mine| && ApproveEntry(c.limits, h, k, a).0 == RemoveMany(t, mine[..n])
            && (forall i :: 0 <= i < m ==> !Within(c.limits, RemoveMany(s, s.approved[..i])))
            && (m < |s.approved| ==> Within(c.limits, t))
            && (forall i :: 0 <= i < n ==> !WithinAt(c.limits, RemoveMany(t, mine[..i]), k.place))
            && (n < |mine| ==> WithinAt(c.limits, RemoveMany(t, mine[..n]), k.place))
  {
    hide Consistent, Sound, Admit, EvictAt, EvictOldest, Listing, RemoveMany, OfPlace, Permitted, Within, WithinAt,
        Clash;
    var s := Admit(h, k, a);
    ConsistentIsSound(c, h);
    AdmitSound(c.hash, c.limits, h, k, a);
    SoundSums(c, s);
    m := OldestAreEvicted(c.limits, s);
    var t := EvictOldest(c.limits, s);
    RemoveManyListing(s, s.approved[..m]);
    n := OldestAtAreEvicted(c.limits, t, k.place);
  }

  lemma ApproveInUse(c: Config, h: Store, k: Key, a: Approval)
    requires Consistent(c.hash, c.limits, h) && InUse(h) && Sensible(c.limits)
    requires ApproveEntry(c.limits, h, k, a).1 ==> Permitted(h.connections[k.place].phase, a)
    ensures InUse(ApproveEntry(c.limits, h, k, a).0)
  {
    hide Consistent, Sound, Admit, EvictAt, EvictOldest, RemoveMany, OfPlace, Permitted, Within, WithinAt, Clash, InUse;
    if ApproveEntry(c.limits, h, k, a).1 {
      var m, n := ApprovalEvicts(c, h, k, a);
      var s := Admit(h, k, a);
      ConsistentIsSound(c, h);
      AdmitSound(c.hash, c.limits, h, k, a);
      AdmitInUse(h, k, a);
      RemoveManyInUse(c, s, s.approved[..m]);
      var t := RemoveMany(s, s.approved[..m]);
      RemoveManyInUse(c, t, OfPlace(t.approved, k.place)[..n]);
    }
  }

  lemma SettleInUse(c: Config, w: World, node: Name, answer: Answer)
    requires Inv(c, w) && InUse(w.store) && Sensible(c.limits) && node in w.checking
    ensures InUse(Settled(c, w, node, answer).store)
  {
    hide Consistent, Checks, Admissions, Releases, ApproveEntry, Validate, Whole, Remove, InUse, Restaged, Sound,
        Sensible;
    var check := w.checking[node];
    var k := check.key;
    if k in w.store.entries && w.store.entries[k].uid == check.uid && w.store.entries[k].stage == Validating {
      var e := w.store.entries[k];
      ConsistentIsSound(c, w.store);
      RemoveInUse(c, w.store, k);
      RestagedInUse(w.store, k, Deferred);
      if Whole(e.frames, e.total).Some? {
        var m := Whole(e.frames, e.total).value;
        match Validate(c.gate, m, k.place.connection, check.phase, answer)
        case Approve(a) =>
          StillPermitted(c, w, node, k, m, answer, a);
          ApproveInUse(c, w.store, k, a);
        case _ =>
      }
    }
  }

  lemma StepInUse(c: Config, w: World, e: Event)
    requires Enabled(w, e) && Inv(c, w) && Sensible(c.limits) && InUse(w.store)
    ensures InUse(Step(c, w, e).store)
  {
    hide Consistent, Sound, Checks, Admissions, Releases, Settled, Remove, RemoveMany, Restaged, DropPlace, InUse,
        Before, Whole, AddData, Enumerates, Sensible;
    ConsistentIsSound(c, w.store);
    match e
    case Arrive(node, f, due) => AddInUse(c, w.store, node, f, due);
    case Settle(node, answer) => SettleInUse(c, w, node, answer);
    case TakeDeferred(_, _, k) => RestagedInUse(w.store, k, Validating);
    case Expire(k) => RemoveInUse(c, w.store, k);
    case Acknowledge(k) => RemoveInUse(c, w.store, k);
    case Forget(p, order) =>
      RemoveManyInUse(c, w.store, order);
      SparedInUse(RemoveMany(w.store, order), p);
    case Reset(p, order) =>
      RemoveManyInUse(c, w.store, order);
      SparedInUse(RemoveMany(w.store, order), p);
    case ExpireConnection(p) => SparedInUse(w.store, p);
    case Lock(_, _) =>
  }

  /** In every run no record outlives its use: a connection is on record only while it has a message in the gate or was
      let something through. */
  lemma {:induction false} RecordsInUse(c: Config, ws: seq<World>, es: seq<Event>, n: nat)
    requires Run(c, ws, es) && n < |ws|
    ensures InUse(ws[n].store)
  {
    hide InUse, Inv, Step, Enabled;
    if n == 0 {
      NothingInUse();
    } else {
      var i := n - 1;
      RecordsInUse(c, ws, es, i);
      RunKeeps(c, ws, es, i);
      assert Steps(c, ws[i], es[i], ws[n]);
      StepInUse(c, ws[i], es[i]);
    }
  }

  lemma NothingInUse()
    ensures InUse(START.store)
  {
  }

  // ---- Entries -----------------------------------------------------------------------------

  /** Nothing is left out but keys of the list, and nothing is changed. */
  ghost predicate LeavesOut(entries: map<Key, Entry>, r: map<Key, Entry>, order: seq<Key>) {
    && (forall k :: k in r <==> k in entries && k !in order)
    && forall k :: k in r ==> r[k] == entries[k]
  }

  lemma {:induction false} RemoveManyEntries(h: Store, order: seq<Key>)
    ensures LeavesOut(h.entries, RemoveMany(h, order).entries, order)
  {
    hide Remove;
    if order != [] {
      var n := |order| - 1;
      RemoveManyEntries(h, order[..n]);
      RemoveEntries(RemoveMany(h, order[..n]), order[n]);
      assert order == order[..n] + [order[n]];
    }
  }

  /** What is left when approved messages were dropped. */
  ghost predicate DropsApproved(entries: map<Key, Entry>, r: map<Key, Entry>) {
    && (forall k :: k in r ==> k in entries && r[k] == entries[k])
    && forall k :: k in entries && entries[k].stage != Approved ==> k in r
  }

  lemma RemoveListed(h: Store, order: seq<Key>)
    requires Listing(h) && forall k :: k in order ==> k in h.approved
    ensures DropsApproved(h.entries, RemoveMany(h, order).entries)
  {
    RemoveManyEntries(h, order);
    hide RemoveMany, DistinctKeys;
  }

  lemma {:induction false} OfPlaceListed(s: seq<Key>, p: Place)
    ensures forall k :: k in OfPlace(s, p) <==> k in s && k.place == p
  {
    if s != [] {
      OfPlaceListed(s[1..], p);
      assert s == [s[0]] + s[1..];
    }
  }

  lemma DropsTwice(a: map<Key, Entry>, b: map<Key, Entry>, c: map<Key, Entry>)
    requires DropsApproved(a, b) && DropsApproved(b, c)
    ensures DropsApproved(a, c)
  {
  }

  lemma ApprovalEntries(c: Config, h: Store, k: Key, a: Approval)
    requires Consistent(c.hash, c.limits, h) && Sensible(c.limits) && ApproveEntry(c.limits, h, k, a).1
    requires Permitted(h.connections[k.place].phase, a)
    ensures k in h.entries
            && DropsApproved(h.entries[k := Fingerprint(h.entries[k])], ApproveEntry(c.limits, h, k, a).0.entries)
  {
    hide Consistent, Sound, Admit, EvictAt, EvictOldest, RemoveMany, OfPlace, Permitted, Within, WithinAt, Clash,
        Listing, Fingerprint, DropsApproved;
    var m, n := ApprovalEvicts(c, h, k, a);
    var s := Admit(h, k, a);
    ConsistentIsSound(c, h);
    AdmitSound(c.hash, c.limits, h, k, a);
    SoundSums(c, s);
    AdmitParts(h, k, a);
    RemoveListed(s, s.approved[..m]);
    RemoveManyListing(s, s.approved[..m]);
    var t := RemoveMany(s, s.approved[..m]);
    OfPlaceListed(t.approved, k.place);
    RemoveListed(t, OfPlace(t.approved, k.place)[..n]);
    DropsTwice(s.entries, t.entries, RemoveMany(t, OfPlace(t.approved, k.place)[..n]).entries);
  }

  /** A ruling on a message that is still the one under check removes it, puts it off, or replaces it by its digests,
      and then it may drop approved messages; every other message stays as it is. */
  ghost predicate RuledOn(c: Config, w: World, node: Name, answer: Answer, r: map<Key, Entry>)
    requires node in w.checking
  {
    var check, h := w.checking[node], w.store.entries;
    var k := check.key;
    if k !in h || h[k].uid != check.uid || h[k].stage != Validating || Whole(h[k].frames, h[k].total).None? then r == h
    else
      match Validate(c.gate, Whole(h[k].frames, h[k].total).value, k.place.connection, check.phase, answer)
      case Refuse => r == h - {k}
      case Postpone => r == h[k := h[k].(stage := Deferred)]
      case Approve(_) => DropsApproved(h[k := Fingerprint(h[k])], r)
  }

  lemma SettledRulesOn(c: Config, w: World, node: Name, answer: Answer)
    requires Inv(c, w) && Sensible(c.limits) && node in w.checking
    ensures RuledOn(c, w, node, answer, Settled(c, w, node, answer).store.entries)
  {
    hide Consistent, Checks, Admissions, Releases, ApproveEntry, Validate, Whole, Remove, Sensible, DropsApproved,
        Fingerprint;
    var check := w.checking[node];
    var k := check.key;
    RemoveEntries(w.store, k);
    if k in w.store.entries && w.store.entries[k].uid == check.uid && w.store.entries[k].stage == Validating {
      var e := w.store.entries[k];
      if Whole(e.frames, e.total).Some? {
        var m := Whole(e.frames, e.total).value;
        match Validate(c.gate, m, k.place.connection, check.phase, answer)
        case Approve(a) =>
          StillPermitted(c, w, node, k, m, answer, a);
          AlwaysApproved(c, w.store, k, a);
          ApprovalEntries(c, w.store, k, a);
        case _ =>
      }
    }
  }

  lemma AlwaysApproved(c: Config, h: Store, k: Key, a: Approval)
    requires k in h.entries && h.entries[k].stage == Validating && k.place in h.connections
    requires Permitted(h.connections[k.place].phase, a)
    ensures ApproveEntry(c.limits, h, k, a).1
  {
    PermittedFits(h.connections[k.place].phase, a);
    hide Admit, EvictAt, EvictOldest;
  }

  /** What every event other than an arrival does to the messages: each touches exactly its own. */
  lemma EntriesExactly(c: Config, w: World, e: Event)
    requires Enabled(w, e) && Inv(c, w) && Sensible(c.limits) && !e.Arrive?
    ensures var h, r := w.store.entries, Step(c, w, e).store.entries;
            match e
            case Settle(node, answer) => RuledOn(c, w, node, answer, r)
            case TakeDeferred(_, _, k) => k in h && r == h[k := h[k].(stage := Validating)]
            case Expire(k) => r == h - {k}
            case Acknowledge(k) => r == if k in h && h[k].stage == Approved then h - {k} else h
            case Forget(p, _) => r == map k | k in h && k.place != p :: h[k]
            case Reset(p, _) => r == map k | k in h && k.place != p :: h[k]
            case _ => r == h
  {
    hide Inv, Settled, Remove, RemoveMany, Before, Whole, RuledOn, DistinctKeys;
    match e
    case Settle(node, answer) => SettledRulesOn(c, w, node, answer);
    case Expire(k) => RemoveEntries(w.store, k);
    case Acknowledge(k) => RemoveEntries(w.store, k);
    case Forget(_, order) => RemoveManyEntries(w.store, order);
    case Reset(_, order) => RemoveManyEntries(w.store, order);
    case _ =>
  }

  /** The message was put off and is of this node and session. */
  predicate PutOff(h: Store, node: Name, session: Digest, k: Key) {
    && k in h.entries && h.entries[k].stage == Deferred && k.place.node == node
    && match Whole(h.entries[k].frames, h.entries[k].total)
       case None => false
       case Some(m) => m.header.billingSession == session
  }

  /** Of the messages that were put off for a node and session, the next to be tried is the one with the least billing
      sequence, and among those the least ID. */
  lemma NextExactly(h: Store, node: Name, session: Digest, k: Key)
    ensures IsNext(h, node, session, k) <==>
            && PutOff(h, node, session, k)
            && forall j :: PutOff(h, node, session, j) ==>
                 var m, o := Whole(h.entries[k].frames, h.entries[k].total).value.header,
                             Whole(h.entries[j].frames, h.entries[j].total).value.header;
                 || m.billingSequence < o.billingSequence
                 || (m.billingSequence == o.billingSequence && k.message <= j.message)
  {
    hide Whole;
    forall j ensures PutOff(h, node, session, j) <==> IsDeferred(h, node, session, j) {
    }
  }
}
