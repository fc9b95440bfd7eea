/** When a record is sealed, told by the histories of a run: which IDs were issued, and what was sealed under them. */
module RecordSealing {
  import opened Sequences
  import opened Bytes
  import opened RecordIds

  /** The ID is one of the latest 65536. */
  ghost predicate Recent(w: World, id: Id) {
    exists i :: 0 <= i < |w.issued| && w.issued[i] == id && |w.issued| - i <= 65536
  }

  ghost predicate IsSealed(w: World, id: Id) { exists j :: 0 <= j < |w.records| && w.records[j].id == id }

  /** Everything sealed under the ID so far has this content, as far as the digest tells. */
  ghost predicate Agrees(hash: seq<byte> -> Digest, w: World, id: Id, payload: seq<byte>, aad: seq<byte>) {
    forall j :: 0 <= j < |w.records| && w.records[j].id == id ==>
      hash(Contents(w.records[j].payload, w.records[j].aad)) == hash(Contents(payload, aad))
  }

  /** A binding with a digest stems from a record. */
  ghost predicate Witnessed(w: World) {
    forall id :: id in w.sender.bindings && w.sender.bindings[id].Some? ==> IsSealed(w, id)
  }

  // ---- Bindings and histories --------------------------------------------------------------

  lemma LatestIsRecent(issued: seq<Id>, n: nat, id: Id)
    requires n == Smaller(65536, |issued|)
    ensures id in LastOf(issued, n) <==> exists i :: 0 <= i < |issued| && issued[i] == id && |issued| - i <= 65536
  {
    var kept, from := LastOf(issued, n), |issued| - n;
    if id in kept {
      var k :| 0 <= k < n && kept[k] == id;
      assert issued[from + k] == id;
    }
    if i :| 0 <= i < |issued| && issued[i] == id && |issued| - i <= 65536 {
      assert kept[i - from] == id;
    }
  }

  lemma BoundIsRecent(w: World, id: Id)
    requires Numbered(w)
    ensures id in w.sender.bindings <==> Recent(w, id)
    ensures id in w.sender.bindings ==>
              |id| == ID_SIZE && id[..32] == w.sender.session && Epoch(id) != 0 && 0 < Sequence(id) <= MAX_NONCE
  {
    hide RingValid, Queue, LastOf, Sequence, Epoch;
    LatestIsRecent(w.issued, |w.sender.ring|, id);
    if Recent(w, id) {
      var i :| 0 <= i < |w.issued| && w.issued[i] == id && |w.issued| - i <= 65536;
      assert IsNth(w.issued[i], w.sender.session, i + 1);
    }
  }

  lemma BindingAgrees(hash: seq<byte> -> Digest, w: World, id: Id, payload: seq<byte>, aad: seq<byte>)
    requires Bound(hash, w) && Witnessed(w) && id in w.sender.bindings
    ensures w.sender.bindings[id].Some? <==> IsSealed(w, id)
    ensures Agrees(hash, w, id, payload, aad) <==>
              (w.sender.bindings[id].Some? ==> w.sender.bindings[id].value == hash(Contents(payload, aad)))
  {
    hide Contents;
    if w.sender.bindings[id].Some? {
      var j :| 0 <= j < |w.records| && w.records[j].id == id;
      assert w.sender.bindings[id] == Some(DigestOf(hash, w.records[j]));
    }
  }

  lemma RotatedBindings(s: Sender, now: int, interval: int)
    ensures Rotated(s, now, interval).0.bindings == s.bindings
  {
  }

  lemma IssueWitnessed(w: World, now: int, interval: int)
    requires RingValid(w.sender.ring, w.sender.next, CACHE_LIMIT) && Witnessed(w)
    ensures Witnessed(Issuing(w, now, interval))
  {
    hide IdOf;
    RotatedBindings(w.sender, now, interval);
  }

  lemma SealedWitnessed(hash: seq<byte> -> Digest, w: World, payload: seq<byte>, aad: seq<byte>, id: Id, keyed: bool)
    requires Witnessed(w) && |id| == ID_SIZE
    ensures var (s, outcome) := SealUnder(hash, w.sender, payload, aad, id, keyed);
            var records := if outcome.Sealed? then w.records + [Record(outcome.id, payload, aad)] else w.records;
            Witnessed(World(s, w.issued, records))
  {
    hide Contents, Epoch, Sequence;
    var (s, outcome) := SealUnder(hash, w.sender, payload, aad, id, keyed);
    if outcome.Sealed? {
      var records := w.records + [Record(outcome.id, payload, aad)];
      var x := World(s, w.issued, records);
      assert records[|w.records|].id == id;
      forall k | k in s.bindings && s.bindings[k].Some? ensures IsSealed(x, k) {
        if k != id {
          var j :| 0 <= j < |w.records| && w.records[j].id == k;
          assert records[j].id == k;
        }
      }
    }
  }

  lemma StepWitnessed(hash: seq<byte> -> Digest, interval: int, w: World, op: Op)
    requires RingValid(w.sender.ring, w.sender.next, CACHE_LIMIT) && Inv(hash, w) && Witnessed(w)
    ensures Witnessed(Step(hash, interval, w, op))
  {
    hide Inv, SealUnder, Issue, Witnessed;
    match op
    case NewId(now) => IssueWitnessed(w, now, interval);
    case Encrypt(payload, aad, id, now, keyed) =>
      if id == [] {
        IssueKeeps(hash, w, now, interval);
        IssueWitnessed(w, now, interval);
        var y := Issuing(w, now, interval);
        var issued := Issue(w.sender, now, interval).1;
        if issued.Some? {
          SealedWitnessed(hash, y, payload, aad, issued.value, keyed);
        }
      } else if |id| == ID_SIZE {
        SealedWitnessed(hash, w, payload, aad, id, keyed);
      }
  }

  lemma {:induction false} RunWitnessed(hash: seq<byte> -> Digest, interval: int, session: Digest, ws: seq<World>,
                                        ops: seq<Op>, n: nat)
    requires Run(hash, interval, session, ws, ops) && n < |ws|
    ensures Inv(hash, ws[n]) && Witnessed(ws[n]) && ws[n].sender.session == session
  {
    hide Inv, Witnessed, Step;
    RunKeeps(hash, interval, session, ws, ops, n, n);
    if n > 0 {
      var k := n - 1;
      RunWitnessed(hash, interval, session, ws, ops, k);
      assert Steps(hash, interval, ws[k], ops[k], ws[n]);
      StepWitnessed(hash, interval, ws[k], ops[k]);
      SameSession(hash, interval, ws[k], ops[k]);
    } else {
      FreshIsWitnessed(session);
    }
  }

  lemma FreshIsWitnessed(session: Digest)
    ensures Witnessed(Fresh(session))
  {
  }

  lemma IssueSession(s: Sender, now: int, interval: int)
    requires RingValid(s.ring, s.next, CACHE_LIMIT)
    ensures Issue(s, now, interval).0.session == s.session
  {
    hide IdOf;
  }

  lemma SealSession(hash: seq<byte> -> Digest, s: Sender, payload: seq<byte>, aad: seq<byte>, id: Id, keyed: bool)
    requires |id| == ID_SIZE
    ensures SealUnder(hash, s, payload, aad, id, keyed).0.session == s.session
  {
    hide Contents, Epoch, Sequence;
  }

  lemma SameSession(hash: seq<byte> -> Digest, interval: int, w: World, op: Op)
    requires RingValid(w.sender.ring, w.sender.next, CACHE_LIMIT) && Inv(hash, w)
    ensures Step(hash, interval, w, op).sender.session == w.sender.session
  {
    hide Issue, SealUnder, Inv;
    IssueSession(w.sender, op.now, interval);
    if op.Encrypt? {
      if op.id == [] {
        IssueKeeps(hash, w, op.now, interval);
        var (t, issued) := Issue(w.sender, op.now, interval);
        if issued.Some? { SealSession(hash, t, op.payload, op.aad, issued.value, op.keyed); }
      } else if |op.id| == ID_SIZE {
        SealSession(hash, w.sender, op.payload, op.aad, op.id, op.keyed);
      }
    }
  }

  // ---- The results -------------------------------------------------------------------------

  /** The answer to a sealing under a given ID: the ID must have the right length, name the session and have numbers,
      must be recent, and must not have been used for another content; and a key is needed. */
  ghost function Answer(hash: seq<byte> -> Digest, w: World, session: Digest, payload: seq<byte>, aad: seq<byte>,
                        id: Id, keyed: bool): (r: Outcome) {
    if |id| != 44 then BadLength
    else if id[..32] != session then OtherSession
    else if FromBigEndian(id[32..36]) == 0 || !(0 < FromBigEndian(id[36..44]) < 0xFFFF_FFFF_FFFF_FFFF) then BadNumbers
    else if !Recent(w, id) then Unknown
    else if !Agrees(hash, w, id, payload, aad) then Rebound
    else if !keyed then KeyFailure
    else Sealed(id)
  }

  lemma SealedExactly(hash: seq<byte> -> Digest, w: World, payload: seq<byte>, aad: seq<byte>, id: Id, keyed: bool)
    requires Inv(hash, w) && Witnessed(w) && |id| == ID_SIZE
    ensures var (s, r) := SealUnder(hash, w.sender, payload, aad, id, keyed);
            && r == Answer(hash, w, w.sender.session, payload, aad, id, keyed)
            && s.epochBytes == w.sender.epochBytes + (if r.Sealed? && !IsSealed(w, id) then |payload| else 0)
            && s.sequence == w.sender.sequence && s.epoch == w.sender.epoch && s.started == w.sender.started
  {
    hide Numbered, Bound, Contents, Recent, Agrees, IsSealed, Witnessed, FromBigEndian;
    BoundIsRecent(w, id);
    if id in w.sender.bindings { BindingAgrees(hash, w, id, payload, aad); }
  }

  /** In every run a call with an ID adds a record, of exactly this ID, payload and associated data, if and only if
      there is a key, the ID is one of the latest 65536 issued, and everything sealed under it so far has the same
      content digest; so the same content can be sealed again as long as the ID is known. The bytes of the epoch grow
      only with the first record of an ID. */
  lemma EncryptExactly(hash: seq<byte> -> Digest, interval: int, session: Digest, ws: seq<World>, ops: seq<Op>, n: nat)
    requires Run(hash, interval, session, ws, ops) && n < |ops| && ops[n].Encrypt? && ops[n].id != []
    ensures var w, x, op := ws[n], ws[n + 1], ops[n];
            var taken := op.keyed && Recent(w, op.id) && Agrees(hash, w, op.id, op.payload, op.aad);
            && x.issued == w.issued
            && x.records == w.records + (if taken then [Record(op.id, op.payload, op.aad)] else [])
            && x.sender.epochBytes ==
               w.sender.epochBytes + (if taken && !IsSealed(w, op.id) then |op.payload| else 0)
            && Seal(hash, w.sender, op.payload, op.aad, op.id, op.now, interval, op.keyed).1 ==
               Answer(hash, w, session, op.payload, op.aad, op.id, op.keyed)
  {
    hide Inv, Witnessed, Recent, Agrees, IsSealed, SealUnder, FromBigEndian, Bound, Contents;
    RunWitnessed(hash, interval, session, ws, ops, n);
    var w, op, next := ws[n], ops[n], n + 1;
    assert Steps(hash, interval, w, op, ws[next]);
    hide Run;
    RecentIsWellformed(hash, w, op.id);
    if |op.id| == ID_SIZE { SealedExactly(hash, w, op.payload, op.aad, op.id, op.keyed); }
  }

  lemma RecentIsWellformed(hash: seq<byte> -> Digest, w: World, id: Id)
    requires Inv(hash, w)
    ensures Recent(w, id) ==>
              |id| == ID_SIZE && id[..32] == w.sender.session && FromBigEndian(id[32..36]) != 0
              && 0 < FromBigEndian(id[36..44]) < 0xFFFF_FFFF_FFFF_FFFF
  {
    hide Numbered, Recent, FromBigEndian;
    BoundIsRecent(w, id);
  }

  // ---- Issuing -----------------------------------------------------------------------------

  /** Until the first ID there is no epoch. */
  ghost predicate Begun(w: World) { w.sender.epoch == 0 ==> w.issued == [] && w.sender.epochBytes == 0 }

  /** The epoch has used up its bytes or its time. */
  predicate Over(s: Sender, now: int, interval: int) {
    s.epoch != 0 && (s.epochBytes >= 1024 * 1024 * 1024 || now - s.started >= interval)
  }

  predicate Stuck(s: Sender, now: int, interval: int) { Over(s, now, interval) && s.epoch == 0xFFFF_FFFF }

  /** The ID that comes next. */
  function NextId(s: Sender, sequence: nat, now: int, interval: int): (id: Id) {
    s.session
    + BigEndian(if s.epoch == 0 then 1 else if Over(s, now, interval) then s.epoch + 1 else s.epoch, 4)
    + BigEndian(sequence, 8)
  }

  /** An ID is issued exactly as long as there are numbers and epochs left; it is the next in order, and an epoch
      that is over is replaced by a new one that has counted nothing. */
  lemma IssueExactly(hash: seq<byte> -> Digest, w: World, now: int, interval: int)
    requires RingValid(w.sender.ring, w.sender.next, CACHE_LIMIT) && Inv(hash, w) && Begun(w) && interval > 0
    ensures var x, s := Issuing(w, now, interval), w.sender;
            var id := NextId(s, |w.issued| + 1, now, interval);
            var ok := |w.issued| < 0xFFFF_FFFF_FFFF_FFFE && !Stuck(s, now, interval);
            && Issue(s, now, interval).1 == (if ok then Some(id) else None)
            && x.issued == w.issued + (if ok then [id] else [])
            && x.records == w.records && x.sender.session == s.session
            && x.sender.epochBytes == (if Over(s, now, interval) && !Stuck(s, now, interval) then 0 else s.epochBytes)
            && Begun(x)
  {
    assert w.sender.sequence == |w.issued| && w.sender.epoch <= MAX_UINT32;
    hide Inv, BigEndian;
  }

  lemma SealBegun(hash: seq<byte> -> Digest, w: World, payload: seq<byte>, aad: seq<byte>, id: Id, keyed: bool,
                  x: World)
    requires Inv(hash, w) && Begun(w) && |id| == ID_SIZE && x.issued == w.issued
    requires x.sender == SealUnder(hash, w.sender, payload, aad, id, keyed).0
    ensures Begun(x)
  {
    BoundIsRecent(w, id);
    hide Inv, Contents, Epoch, Sequence;
  }

  lemma StepBegun(hash: seq<byte> -> Digest, interval: int, w: World, op: Op)
    requires RingValid(w.sender.ring, w.sender.next, CACHE_LIMIT) && Inv(hash, w) && Begun(w) && interval > 0
    ensures Begun(Step(hash, interval, w, op))
  {
    hide Inv, SealUnder, Issue, Begun;
    match op
    case NewId(now) => IssueExactly(hash, w, now, interval);
    case Encrypt(payload, aad, id, now, keyed) =>
      if id == [] {
        IssueExactly(hash, w, now, interval);
        IssueKeeps(hash, w, now, interval);
        var y := Issuing(w, now, interval);
        var issued := Issue(w.sender, now, interval).1;
        if issued.Some? {
          SealBegun(hash, y, payload, aad, issued.value, keyed, Step(hash, interval, w, op));
        } else {
          SameBegun(y, Step(hash, interval, w, op));
        }
      } else if |id| == ID_SIZE {
        SealBegun(hash, w, payload, aad, id, keyed, Step(hash, interval, w, op));
      } else {
        SameBegun(w, Step(hash, interval, w, op));
      }
  }

  lemma SameBegun(w: World, x: World)
    requires Begun(w) && x.sender == w.sender && x.issued == w.issued
    ensures Begun(x)
  {
  }

  lemma {:induction false} RunBegun(hash: seq<byte> -> Digest, interval: int, session: Digest, ws: seq<World>,
                                    ops: seq<Op>, n: nat)
    requires Run(hash, interval, session, ws, ops) && n < |ws| && interval > 0
    ensures Begun(ws[n])
  {
    hide Inv, Step;
    if n > 0 {
      var k := n - 1;
      RunKeeps(hash, interval, session, ws, ops, k, k);
      RunBegun(hash, interval, session, ws, ops, k);
      assert Steps(hash, interval, ws[k], ops[k], ws[n]);
      hide Begun;
      StepBegun(hash, interval, ws[k], ops[k]);
    }
  }

  /** In every run a call without an ID, and likewise the call that only asks for one, issues the next ID exactly as
      long as there are numbers and epochs left, and, given a key, seals under it: the record is of that ID, payload
      and associated data, and its bytes count in the epoch. */
  lemma NewExactly(hash: seq<byte> -> Digest, interval: int, session: Digest, ws: seq<World>, ops: seq<Op>, n: nat)
    requires Run(hash, interval, session, ws, ops) && n < |ops| && interval > 0
    requires ops[n].NewId? || ops[n].id == []
    ensures var w, x, op := ws[n], ws[n + 1], ops[n];
            var id := NextId(w.sender, |w.issued| + 1, op.now, interval);
            var ok := |w.issued| < 0xFFFF_FFFF_FFFF_FFFE && !Stuck(w.sender, op.now, interval);
            var counted := if Over(w.sender, op.now, interval) && !Stuck(w.sender, op.now, interval) then 0
                           else w.sender.epochBytes;
            var sealed := ok && op.Encrypt? && op.keyed;
            && x.issued == w.issued + (if ok then [id] else [])
            && x.records == w.records + (if sealed then [Record(id, op.payload, op.aad)] else [])
            && x.sender.epochBytes == counted + (if sealed then |op.payload| else 0)
            && (op.Encrypt? ==> Seal(hash, w.sender, op.payload, op.aad, [], op.now, interval, op.keyed).1 ==
                                  if !ok then Exhausted else if op.keyed then Sealed(id) else KeyFailure)
  {
    hide Inv, Witnessed, Begun, SealUnder, Issue, NextId, Over, Stuck;
    RunWitnessed(hash, interval, session, ws, ops, n);
    RunBegun(hash, interval, session, ws, ops, n);
    var w, op, next := ws[n], ops[n], n + 1;
    assert Steps(hash, interval, w, op, ws[next]);
    hide Run;
    IssueExactly(hash, w, op.now, interval);
    if op.Encrypt? {
      IssueKeeps(hash, w, op.now, interval);
      IssueWitnessed(w, op.now, interval);
      var y := Issuing(w, op.now, interval);
      var issued := Issue(w.sender, op.now, interval).1;
      if issued.Some? { SealNew(hash, y, op.payload, op.aad, issued.value, op.keyed); }
    }
  }

  lemma SealNew(hash: seq<byte> -> Digest, w: World, payload: seq<byte>, aad: seq<byte>, id: Id, keyed: bool)
    requires Inv(hash, w) && Witnessed(w) && id in w.sender.bindings && w.sender.bindings[id] == None && |id| == ID_SIZE
    ensures var (s, r) := SealUnder(hash, w.sender, payload, aad, id, keyed);
            && r == (if keyed then Sealed(id) else KeyFailure)
            && s.epochBytes == w.sender.epochBytes + (if keyed then |payload| else 0)
  {
    hide Numbered, Bound, Contents, Witnessed, FromBigEndian;
    BoundIsRecent(w, id);
  }
}
