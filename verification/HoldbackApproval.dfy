/** Approving a withheld message, and keeping the memory of approved ones within its limits.

    An approval first turns the entry into digests and notes it on the connection, which may break
    the limits on approved messages; eviction, oldest first, for the gate and then for the
    connection, restores them and touches nothing else. */
module HoldbackApproval {
  import opened Bytes
  import opened Assembler
  import opened HoldbackRules
  import opened HoldbackTally
  import opened Holdback
  import opened HoldbackSteps

  // ---- Eviction ----------------------------------------------------------------------------

  predicate ListedAt(h: Store, i: nat) {
    i < |h.approved| && h.approved[i] in h.entries && h.entries[h.approved[i]].stage == Approved
  }

  lemma {:induction false} UnlistedShorter(s: seq<Key>, k: Key)
    requires k in s
    ensures |Unlisted(s, k)| < |s|
  {
    if s[0] != k {
      assert s == [s[0]] + s[1..];
      UnlistedShorter(s[1..], k);
    }
  }

  lemma RemoveShortens(h: Store, i: nat)
    requires ListedAt(h, i)
    ensures |Remove(h, h.approved[i]).approved| < |h.approved|
  {
    UnlistedShorter(h.approved, h.approved[i]);
    hide Unlisted;
  }

  /** Drops the oldest approved messages while there are too many in all. */
  function EvictOldest(l: Limits, h: Store): (r: Store)
    decreases |h.approved|
  {
    if ApprovedWithin(h.tally, l.approvedBytes, l.approvedMessages) || !ListedAt(h, 0) then h
    else
      RemoveShortens(h, 0);
      EvictOldest(l, Remove(h, h.approved[0]))
  }

  /** The oldest approved message of a connection. */
  function OldestAt(s: seq<Key>, p: Place, i: nat): (n: nat)
    requires i <= |s|
    ensures i <= n <= |s|
    ensures n < |s| ==> s[n].place == p
    ensures forall j :: i <= j < n ==> s[j].place != p
    decreases |s| - i
  {
    if i == |s| || s[i].place == p then i else OldestAt(s, p, i + 1)
  }

  /** Drops the oldest approved messages of a connection while it has too many. */
  function EvictAt(l: Limits, h: Store, p: Place): (r: Store)
    decreases |h.approved|
  {
    var i := OldestAt(h.approved, p, 0);
    if p !in h.connections
        || ApprovedWithin(h.connections[p].tally, l.connectionApprovedBytes, l.connectionApprovedMessages)
       || !ListedAt(h, i) then h
    else
      RemoveShortens(h, i);
      EvictAt(l, Remove(h, h.approved[i]), p)
  }

  lemma ListingAt(h: Store, i: nat)
    requires Listing(h) && i < |h.approved|
    ensures ListedAt(h, i)
  {
    assert h.approved[i] in h.approved;
  }

  /** A connection other than the given one keeps within its limit on approved messages. */
  ghost predicate OthersWithin(l: Limits, h: Store, p: Place) {
    forall q :: q in h.connections && q != p ==>
      ApprovedWithin(h.connections[q].tally, l.connectionApprovedBytes, l.connectionApprovedMessages)
  }

  lemma RemoveShrinks(h: Store, k: Key)
    ensures Shrinks(h, Remove(h, k))
  {
    hide TakeOut;
    if k in h.entries {
      TakeOutShrinks(h, k);
      var t := TakeOut(h, k);
      if k.place in t.connections && Idle(t.connections[k.place]) {
        Fewer(t.connections, k.place);
      }
    } else {
      assert forall p :: p in h.connections ==> Sub(h.connections[p].tally, h.connections[p].tally) == ZERO;
    }
  }

  lemma ShrinkOthers(l: Limits, h: Store, r: Store, p: Place)
    requires Shrinks(h, r) && OthersWithin(l, h, p)
    ensures OthersWithin(l, r, p)
    ensures ApprovedWithin(h.tally, l.approvedBytes, l.approvedMessages) ==>
              ApprovedWithin(r.tally, l.approvedBytes, l.approvedMessages)
  {
  }

  lemma NoneListed(h: Store, s: Scope)
    requires Sums(h) && Listing(h) && forall k :: k in h.approved ==> s != Everywhere && s.place != k.place
    ensures SumOf(h.entries, s).approvedBytes == 0 && SumOf(h.entries, s).approvedMessages == 0
  {
    hide SumOf;
    NothingApproved(h.entries, s);
  }

  lemma {:induction false} EvictOldestKeeps(hash: seq<byte> -> Digest, l: Limits, h: Store, p: Place)
    requires Sound(hash, l, h) && Readable(h) && Sensible(l) && OthersWithin(l, h, p)
    ensures var r := EvictOldest(l, h);
            && Sound(hash, l, r) && Readable(r) && OthersWithin(l, r, p) && Shrinks(h, r)
            && ApprovedWithin(r.tally, l.approvedBytes, l.approvedMessages)
    decreases |h.approved|
  {
    hide Shrinks, OthersWithin, Shapes, Uids, Nodes, Phases, PendingLimits, Remove, Readable, SumOf;
    ShrinksSelf(h);
    if ApprovedWithin(h.tally, l.approvedBytes, l.approvedMessages) {
    } else if h.approved == [] {
      NoneListed(h, Everywhere);
    } else {
      ListingAt(h, 0);
      var k := h.approved[0];
      RemoveShortens(h, 0);
      RemoveKeeps(hash, l, h, k);
      ReadableRemove(h, k);
      RemoveShrinks(h, k);
      ShrinkOthers(l, h, Remove(h, k), p);
      hide Sound, ListedAt;
      EvictOldestKeeps(hash, l, Remove(h, k), p);
      ShrinksTwice(h, Remove(h, k), EvictOldest(l, Remove(h, k)));
    }
  }

  lemma ReadableRemove(h: Store, k: Key)
    requires Readable(h)
    ensures Readable(Remove(h, k))
  {
    hide Whole, Remove;
    RemoveReadable(h, k);
    RemoveNothing(h, k);
  }

  lemma ShrinksSelf(h: Store)
    ensures Shrinks(h, h)
  {
    assert forall p :: p in h.connections ==> Sub(h.connections[p].tally, h.connections[p].tally) == ZERO;
  }

  lemma ShrinksTwice(h: Store, r: Store, s: Store)
    requires Shrinks(h, r) && Shrinks(r, s)
    ensures Shrinks(h, s)
  {
  }

  lemma {:induction false} EvictAtKeeps(hash: seq<byte> -> Digest, l: Limits, h: Store, p: Place)
    requires Sound(hash, l, h) && Readable(h) && Sensible(l) && OthersWithin(l, h, p)
    requires ApprovedWithin(h.tally, l.approvedBytes, l.approvedMessages)
    ensures var r := EvictAt(l, h, p); Consistent(hash, l, r) && Shrinks(h, r)
    decreases |h.approved|
  {
    hide Shrinks, Shapes, Uids, Nodes, Phases, PendingLimits, Remove, Readable, SumOf;
    ShrinksSelf(h);
    var i := OldestAt(h.approved, p, 0);
    if p !in h.connections
        || ApprovedWithin(h.connections[p].tally, l.connectionApprovedBytes, l.connectionApprovedMessages) {
    } else if i == |h.approved| {
      NoneListed(h, At(p));
    } else {
      hide OthersWithin;
      ListingAt(h, i);
      var k := h.approved[i];
      RemoveShortens(h, i);
      RemoveKeeps(hash, l, h, k);
      ReadableRemove(h, k);
      RemoveShrinks(h, k);
      ShrinkOthers(l, h, Remove(h, k), p);
      hide Sound, ListedAt;
      EvictAtKeeps(hash, l, Remove(h, k), p);
      ShrinksTwice(h, Remove(h, k), EvictAt(l, Remove(h, k), p));
    }
  }

  // ---- Approval ----------------------------------------------------------------------------

  function Fingerprint(e: Entry): (r: Entry) { e.(frames := map[], bytes := 0, stage := Approved) }

  predicate Clash(p: Phase, a: Approval) {
    (a.HandshakeInfo? || a.Billing?) && !SessionFits(p, a.session)
  }

  function Noted(h: Store, p: Place, a: Approval): (r: Store)
    requires p in h.connections
  {
    var c := h.connections[p];
    h.(connections := h.connections[p := c.(phase := Advance(c.phase, a), passed := c.passed + [a])])
  }

  function Admit(h: Store, k: Key, a: Approval): (r: Store)
    requires k in h.entries && k.place in h.connections
  {
    Put(Noted(h, k.place, a), k, Fingerprint(h.entries[k])).(approved := h.approved + [k])
  }

  /** Approves a message that is being validated: its frames are let go, its digests are kept. */
  function ApproveEntry(l: Limits, h: Store, k: Key, a: Approval): (r: (Store, bool)) {
    if k !in h.entries || !(h.entries[k].stage == Validating || h.entries[k].stage == Deferred) then (h, false)
    else if k.place !in h.connections || Clash(h.connections[k.place].phase, a) then (h, false)
    else (EvictAt(l, EvictOldest(l, Admit(h, k, a)), k.place), true)
  }

  lemma FingerprintValid(hash: seq<byte> -> Digest, k: Key, e: Entry)
    requires EntryValid(hash, k, e) && (e.stage == Validating || e.stage == Deferred)
    ensures EntryValid(hash, k, Fingerprint(e))
  {
    hide Fits, Full, HeldBytes;
    assert |e.digests| == |e.digests.Keys| && |e.frames| == |e.frames.Keys|;
  }

  lemma NotedPhases(h: Store, p: Place, a: Approval)
    requires Phases(h) && p in h.connections && Permitted(h.connections[p].phase, a)
    ensures Phases(Noted(h, p, a))
  {
    hide Legal, After, Permitted, Advance;
    LegalGrows(h.connections[p].passed, a);
  }

  lemma NotedSums(h: Store, p: Place, a: Approval)
    requires p in h.connections
    ensures Sums(h) ==> Sums(Noted(h, p, a))
    ensures Nodes(h) ==> Nodes(Noted(h, p, a))
  {
    hide SumOf, KeysAt, Advance;
  }

  lemma AdmitParts(h: Store, k: Key, a: Approval)
    requires k in h.entries && k.place in h.connections
    ensures var r := Admit(h, k, a);
            && r.entries == h.entries[k := Fingerprint(h.entries[k])] && r.approved == h.approved + [k]
               && r.nextUid == h.nextUid
            && Fingerprint(h.entries[k]).uid == h.entries[k].uid && Fingerprint(h.entries[k]).stage == Approved
  {
    hide Of, Advance;
  }

  lemma ListEntry(hash: seq<byte> -> Digest, h: Store, r: Store, k: Key, e: Entry)
    requires r.entries == h.entries[k := e] && r.approved == h.approved + [k] && r.nextUid == h.nextUid
    requires k in h.entries && h.entries[k].stage != Approved && e.stage == Approved && e.uid == h.entries[k].uid
             && EntryValid(hash, k, e)
    ensures Shapes(hash, h) ==> Shapes(hash, r)
    ensures Uids(h) ==> Uids(r)
    ensures Listing(h) ==> Listing(r)
  {
    hide EntryValid, DistinctKeys;
    if Listing(h) {
      AppendDistinct(h.approved, k);
    }
  }

  lemma AdmitEntries(hash: seq<byte> -> Digest, h: Store, k: Key, a: Approval)
    requires Shapes(hash, h) && Uids(h) && Listing(h) && k in h.entries && k.place in h.connections
    requires h.entries[k].stage == Validating || h.entries[k].stage == Deferred
    ensures var r := Admit(h, k, a); Shapes(hash, r) && Uids(r) && Listing(r)
  {
    hide EntryValid, Admit, Uids, Listing, Fingerprint;
    AdmitParts(h, k, a);
    FingerprintValid(hash, k, h.entries[k]);
    hide Shapes;
    ListEntry(hash, h, Admit(h, k, a), k, Fingerprint(h.entries[k]));
  }

  lemma AppendDistinct(s: seq<Key>, k: Key)
    requires DistinctKeys(s) && k !in s
    ensures DistinctKeys(s + [k]) && forall j :: j in s + [k] <==> j in s || j == k
  {
  }

  lemma AdmitLimits(l: Limits, h: Store, k: Key, a: Approval)
    requires PendingLimits(l, h) && Sensible(l) && k in h.entries && k.place in h.connections
             && h.entries[k].stage != Approved
    ensures PendingLimits(l, Admit(h, k, a))
    ensures ApprovedLimits(l, h) ==> OthersWithin(l, Admit(h, k, a), k.place)
  {
    hide Advance;
    var r := Admit(h, k, a);
    assert r.connections.Keys == h.connections.Keys;
    assert |r.connections| == |r.connections.Keys| && |h.connections| == |h.connections.Keys|;
    assert forall p :: p in h.connections && p != k.place ==> r.connections[p] == h.connections[p];
  }

  lemma AdmitSound(hash: seq<byte> -> Digest, l: Limits, h: Store, k: Key, a: Approval)
    requires Sound(hash, l, h) && Sensible(l) && k in h.entries && k.place in h.connections
    requires h.entries[k].stage == Validating || h.entries[k].stage == Deferred
    requires Permitted(h.connections[k.place].phase, a)
    ensures Sound(hash, l, Admit(h, k, a))
  {
    hide Sums, Nodes, Shapes, Uids, Listing, Phases, PendingLimits, Permitted, Of, Advance, Fingerprint;
    AdmitEntries(hash, h, k, a);
    AdmitLimits(l, h, k, a);
    NotedSums(h, k.place, a);
    NotedPhases(h, k.place, a);
    var n := Noted(h, k.place, a);
    var e := Fingerprint(h.entries[k]);
    PutSums(n, k, e);
    PutNodes(n, k, e);
    SamePhases(n, Put(n, k, e));
    OnlyList(Put(n, k, e), h.approved + [k]);
  }

  lemma OnlyList(h: Store, list: seq<Key>)
    ensures Sums(h) ==> Sums(h.(approved := list))
    ensures Nodes(h) ==> Nodes(h.(approved := list))
    ensures Phases(h) ==> Phases(h.(approved := list))
  {
    hide SumOf, KeysAt, Legal, After;
  }

  lemma AdmitReadable(h: Store, k: Key, a: Approval)
    requires Readable(h) && k in h.entries && k.place in h.connections
    ensures Readable(Admit(h, k, a))
  {
    hide Whole, Of, Advance;
  }

  /** An approval that the phase permits keeps the invariant, limits included. */
  lemma ApproveValid(hash: seq<byte> -> Digest, l: Limits, h: Store, k: Key, a: Approval)
    requires Consistent(hash, l, h) && Sensible(l)
    requires k.place in h.connections ==> Permitted(h.connections[k.place].phase, a)
    ensures Consistent(hash, l, ApproveEntry(l, h, k, a).0)
  {
    hide Sound, ApprovedLimits, Readable, Admit, Permitted, EvictAt, EvictOldest, OthersWithin, Shrinks;
    if ApproveEntry(l, h, k, a).1 {
      AdmitSound(hash, l, h, k, a);
      SoundLimits(hash, l, h);
      AdmitLimits(l, h, k, a);
      AdmitReadable(h, k, a);
      var s := Admit(h, k, a);
      EvictOldestKeeps(hash, l, s, k.place);
      EvictAtKeeps(hash, l, EvictOldest(l, s), k.place);
    }
  }

  lemma SoundLimits(hash: seq<byte> -> Digest, l: Limits, h: Store)
    requires Sound(hash, l, h)
    ensures PendingLimits(l, h)
  {
  }
}
