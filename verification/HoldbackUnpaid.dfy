/** What passes a connection unpaid, over whole runs of the billing gate: from the moment its record is made
    until it is forgotten or expires, the messages let through are validated one after the other, each in the
    phase the earlier ones left, whatever arrives, is removed, evicted or reset in between. So the bound on
    validated messages is a bound on the connection. */
module HoldbackUnpaid {
  import opened Sequences
  import opened Bytes
  import opened FrameCodec
  import opened HoldbackRules
  import opened HoldbackTally
  import opened Holdback
  import opened HoldbackSteps
  import opened HoldbackApproval
  import opened HoldbackRuns
  import M = MessageCodec

  /** A message that was let through, with the answer of the billing hook. */
  datatype Passing = Passing(message: M.Message, answer: Answer, approval: Approval)

  /** The message a step lets through on this connection, if any: one that is still there and whole, and that
      the ruling approves. */
  ghost function PassesAt(c: Config, w: World, e: Event, p: Place): (s: seq<Passing>) {
    if !e.Settle? || e.node !in w.checking then []
    else
      var check := w.checking[e.node];
      var k := check.key;
      if k.place != p || k !in w.store.entries || w.store.entries[k].uid != check.uid
         || w.store.entries[k].stage != Validating then []
      else
        match Whole(w.store.entries[k].frames, w.store.entries[k].total)
        case None => []
        case Some(m) =>
          var ruling := Validate(c.gate, m, p.connection, check.phase, e.answer);
          if ruling.Approve? then [Passing(m, e.answer, ruling.approval)] else []
  }

  /** Everything let through on this connection from one moment to a later one. */
  ghost function Passings(c: Config, ws: seq<World>, es: seq<Event>, p: Place, m: nat, n: nat): (s: seq<Passing>)
    requires m <= n < |ws| == |es| + 1
  {
    if m == n then [] else Passings(c, ws, es, p, m, n - 1) + PassesAt(c, ws[n - 1], es[n - 1], p)
  }

  function Messages(s: seq<Passing>): (r: seq<M.Message>)
    ensures |r| == |s| && forall i :: 0 <= i < |s| ==> r[i] == s[i].message
  {
    seq(|s|, i requires 0 <= i < |s| => s[i].message)
  }

  function Answers(s: seq<Passing>): (r: seq<Answer>)
    ensures |r| == |s| && forall i :: 0 <= i < |s| ==> r[i] == s[i].answer
  {
    seq(|s|, i requires 0 <= i < |s| => s[i].answer)
  }

  function Approvals(s: seq<Passing>): (r: seq<Approval>)
    ensures |r| == |s| && forall i :: 0 <= i < |s| ==> r[i] == s[i].approval
  {
    seq(|s|, i requires 0 <= i < |s| => s[i].approval)
  }

  lemma ApprovalsAppend(s: seq<Passing>, t: seq<Passing>)
    ensures Approvals(s + t) == Approvals(s) + Approvals(t)
  {
  }

  // ---- The record of a connection ----------------------------------------------------------

  /** What the record of a connection lists; a connection without a record was let nothing through. */
  function Record(h: Store, p: Place): (s: seq<Approval>) {
    if p in h.connections then h.connections[p].passed else []
  }

  /** A record that lists something has a phase. */
  ghost predicate Phased(h: Store, p: Place) {
    p in h.connections && h.connections[p].passed != [] ==> HasPhase(h.connections[p].phase)
  }

  lemma ConsistentIsPhased(c: Config, h: Store, p: Place)
    requires Consistent(c.hash, c.limits, h)
    ensures Phased(h, p)
    ensures p in h.connections ==> h.connections[p].phase == After(h.connections[p].passed)
  {
    hide Shapes, Uids, Sums, Nodes, Listing, Legal, After, Readable, PendingLimits, ApprovedLimits, HasPhase;
    if p in h.connections { PhaseRemembers(h.connections[p].passed); }
  }

  /** A record that is made anew lists nothing. */
  ghost predicate StartsEmpty(h: Store, r: Store, p: Place) {
    p in r.connections && p !in h.connections ==> r.connections[p].passed == []
  }

  lemma EvolvesRecord(h: Store, r: Store, p: Place)
    requires Evolves(h, r) && Remembers(h, r) && StartsEmpty(h, r, p) && Phased(h, p)
    ensures Record(r, p) == Record(h, p)
  {
    hide HasPhase;
  }

  lemma StoredStartsEmpty(hash: seq<byte> -> Digest, h: Store, k: Key, f: Frame, p: Place)
    ensures StartsEmpty(h, Stored(hash, h, k, f), p)
  {
    hide Extended, Of, Worth;
  }

  lemma AddStartsEmpty(hash: seq<byte> -> Digest, l: Limits, h: Store, node: Name, f: Frame, due: bool, p: Place)
    ensures StartsEmpty(h, AddData(hash, l, h, node, f, due).0, p)
  {
    hide Stored, Remove, RoomFor, Extended, Whole;
    var k := KeyOf(node, f);
    StoredStartsEmpty(hash, h, k, f, p);
    var s := Stored(hash, h, k, f);
    RemoveEvolves(s, k);
    RemoveEvolves(h, k);
  }

  lemma AdvanceHasPhase(p: Phase, a: Approval)
    requires Permitted(p, a)
    ensures HasPhase(Advance(p, a))
  {
  }

  /** An approval adds itself to the record of its connection, and the evictions it causes change no record. */
  lemma ApproveRecord(c: Config, h: Store, k: Key, a: Approval, p: Place)
    requires ApproveEntry(c.limits, h, k, a).1 && Phased(h, p)
    requires k.place in h.connections && Permitted(h.connections[k.place].phase, a)
    ensures Record(ApproveEntry(c.limits, h, k, a).0, p) == Record(h, p) + if k.place == p then [a] else []
  {
    hide Evolves, Remembers, EvictAt, EvictOldest, Admit, HasPhase, Permitted, Advance;
    var s := Admit(h, k, a);
    AdmitConnections(h, k, a);
    AdvanceHasPhase(h.connections[k.place].phase, a);
    EvictOldestEvolves(c.limits, s);
    var t := EvictOldest(c.limits, s);
    EvictAtEvolves(c.limits, t, k.place);
    var r := EvictAt(c.limits, t, k.place);
    EvolvesTwice(s, t, r);
    EvolvesRecord(s, r, p);
  }

  lemma PassesNothing(c: Config, w: World, e: Event, p: Place)
    requires !e.Settle?
    ensures PassesAt(c, w, e, p) == [] && Approvals(PassesAt(c, w, e, p)) == []
  {
  }

  lemma SettleRecord(c: Config, w: World, node: Name, answer: Answer, p: Place)
    requires Checks(w) && node in w.checking && Phased(w.store, p)
    ensures Record(Settled(c, w, node, answer).store, p) ==
              Record(w.store, p) + Approvals(PassesAt(c, w, Settle(node, answer), p))
  {
    hide Checks, ApproveEntry, Validate, Whole, Remove, Evolves, Remembers, HasPhase, Releasing, Record, Phased;
    var check := w.checking[node];
    var k := check.key;
    var h := w.store;
    RemoveEvolves(h, k);
    EvolvesRecord(h, Remove(h, k), p);
    assert Record(h, p) + [] == Record(h, p);
    if k in h.entries && h.entries[k].uid == check.uid && h.entries[k].stage == Validating {
      RestageEvolves(h, k, Deferred);
      EvolvesRecord(h, Restaged(h, k, Deferred), p);
      match Whole(h.entries[k].frames, h.entries[k].total)
      case None =>
      case Some(m) =>
        match Validate(c.gate, m, k.place.connection, check.phase, answer)
        case Approve(a) =>
          StillPermitted(c, w, node, k, m, answer, a);
          ApprovalTakesEffect(c, w, node, answer, m, a);
          ApproveRecord(c, h, k, a, p);
        case _ =>
    }
  }

  lemma DropRecord(h: Store, q: Place, p: Place)
    requires p != q
    ensures Record(DropPlace(h, q), p) == Record(h, p)
  {
  }

  /** Every step but its own end adds to the record of a connection exactly what it lets through. */
  lemma StepRecord(c: Config, w: World, e: Event, p: Place)
    requires Enabled(w, e) && Checks(w) && Phased(w.store, p)
    requires !(e.Forget? && e.p == p) && e != ExpireConnection(p)
    ensures Record(Step(c, w, e).store, p) == Record(w.store, p) + Approvals(PassesAt(c, w, e, p))
  {
    hide HasPhase, AddData, Settled, Evolves, Remembers, Remove, RemoveMany, Whole, Before, Checks, Record, Phased,
        DropPlace, PassesAt;
    var h := w.store;
    if !e.Settle? { PassesNothing(c, w, e, p); }
    assert Record(h, p) + [] == Record(h, p);
    match e
    case Arrive(node, f, due) =>
      AddEvolves(c.hash, c.limits, h, node, f, due);
      AddStartsEmpty(c.hash, c.limits, h, node, f, due, p);
      EvolvesRecord(h, AddData(c.hash, c.limits, h, node, f, due).0, p);
    case Lock(_, _) =>
    case Settle(node, answer) => SettleRecord(c, w, node, answer, p);
    case TakeDeferred(_, _, k) =>
      RestageEvolves(h, k, Validating);
      EvolvesRecord(h, Restaged(h, k, Validating), p);
    case Expire(k) =>
      RemoveEvolves(h, k);
      EvolvesRecord(h, Remove(h, k), p);
    case Acknowledge(k) =>
      RemoveEvolves(h, k);
      EvolvesRecord(h, Remove(h, k), p);
    case Forget(q, order) =>
      RemoveManyEvolves(h, order);
      EvolvesRecord(h, RemoveMany(h, order), p);
      DropRecord(RemoveMany(h, order), q, p);
    case Reset(q, order) =>
      RemoveManyEvolves(h, order);
      ClearedRemembers(h, q, order);
      ClearedEvolves(h, q, order);
      ClearedStartsEmpty(h, q, order, p);
      EvolvesRecord(h, Cleared(h, q, order), p);
    case ExpireConnection(q) => DropRecord(h, q, p);
  }

  lemma ClearedStartsEmpty(h: Store, q: Place, order: seq<Key>, p: Place)
    ensures StartsEmpty(h, Cleared(h, q, order), p)
  {
    RemoveManyEvolves(h, order);
    hide RemoveMany, HasPhase, Evolves, Remembers;
  }

  // ---- Whole runs --------------------------------------------------------------------------

  /** The connection is neither forgotten nor does it expire. */
  ghost predicate Lasts(es: seq<Event>, p: Place, m: nat, n: nat)
    requires m <= n <= |es|
  {
    forall k :: m <= k < n ==> !(es[k].Forget? && es[k].p == p) && es[k] != ExpireConnection(p)
  }

  /** What a step lets through was validated in the phase the record stands for. */
  lemma PassesInPhase(c: Config, w: World, e: Event, p: Place)
    requires Inv(c, w)
    ensures var s := PassesAt(c, w, e, p);
            && |s| <= 1
            && (s != [] ==>
                Validate(c.gate, s[0].message, p.connection, After(Record(w.store, p)), s[0].answer) ==
                  Approve(s[0].approval))
  {
    hide Consistent, Checks, Admissions, Releases, Validate, Whole, After, Phased;
    if e.Settle? && e.node in w.checking {
      StillThatPhase(w, e.node);
      ConsistentIsPhased(c, w.store, p);
    }
  }

  lemma PassedGrows(g: Gate, connection: seq<byte>, s: seq<Passing>, x: Passing)
    requires Passed(g, connection, Messages(s), Answers(s), Approvals(s))
    requires Validate(g, x.message, connection, After(Approvals(s)), x.answer) == Approve(x.approval)
    ensures Passed(g, connection, Messages(s + [x]), Answers(s + [x]), Approvals(s + [x]))
  {
    hide Validate, After;
    var t := s + [x];
    forall i | 0 <= i < |t|
      ensures Validate(g, Messages(t)[i], connection, After(Approvals(t)[..i]), Answers(t)[i]) ==
                Approve(Approvals(t)[i])
    {
      assert Approvals(t)[..i] == Approvals(s)[..i];
      if i < |s| {
        assert Validate(g, Messages(s)[i], connection, After(Approvals(s)[..i]), Answers(s)[i]) ==
                 Approve(Approvals(s)[i]);
      } else {
        assert Approvals(s)[..i] == Approvals(s);
      }
    }
  }

  /** From a moment at which nothing is on record, until the connection is forgotten or expires: the record lists
      what was let through, and each message was validated in the phase the earlier ones left. */
  lemma {:induction false} PassedInRun(c: Config, ws: seq<World>, es: seq<Event>, p: Place, m: nat, n: nat)
    requires Run(c, ws, es) && m <= n < |ws| && Lasts(es, p, m, n) && Record(ws[m].store, p) == []
    ensures var s := Passings(c, ws, es, p, m, n);
            && Record(ws[n].store, p) == Approvals(s)
            && Passed(c.gate, p.connection, Messages(s), Answers(s), Approvals(s))
  {
    hide Step, Enabled, PassesAt, Record, Validate, After;
    if m < n {
      var k := n - 1;
      PassedInRun(c, ws, es, p, m, k);
      assert Steps(c, ws[k], es[k], ws[n]);
      RunKeeps(c, ws, es, k);
      PassesInPhase(c, ws[k], es[k], p);
      InvIsPhased(c, ws[k], p);
      hide Run, Inv;
      StepRecord(c, ws[k], es[k], p);
      var s, t := Passings(c, ws, es, p, m, k), PassesAt(c, ws[k], es[k], p);
      ApprovalsAppend(s, t);
      if t == [] {
        assert s + t == s;
      } else {
        assert t == [t[0]];
        PassedGrows(c.gate, p.connection, s, t[0]);
      }
    }
  }

  lemma InvIsPhased(c: Config, w: World, p: Place)
    requires Inv(c, w)
    ensures Checks(w) && Phased(w.store, p)
  {
    hide Consistent, Checks, Admissions, Releases, Phased;
    ConsistentIsPhased(c, w.store, p);
  }

  /** In every run, what a connection is let through unpaid from the making of its record until it is forgotten
      or expires is at most 128 KiB, besides keep-alives whose plaintext is empty; and every billed record
      was accepted by the hook. */
  lemma UnpaidInRun(c: Config, ws: seq<World>, es: seq<Event>, p: Place, m: nat, n: nat)
    requires Run(c, ws, es) && m <= n < |ws| && Lasts(es, p, m, n) && Record(ws[m].store, p) == []
    ensures var s := Passings(c, ws, es, p, m, n);
            && UnpaidBytes(Messages(s), Approvals(s)) <= 128 * 1024
            && forall i :: 0 <= i < |s| ==>
                 && (s[i].approval.KeepAlive? ==>
                     c.gate.inspect(s[i].message.payload).Some?
                     && c.gate.inspect(s[i].message.payload).value.plaintext == 0)
                 && (s[i].approval.Billing? ==> s[i].answer == Accepted)
  {
    hide Steps, Passings, Passed, UnpaidBytes;
    PassedInRun(c, ws, es, p, m, n);
    var s := Passings(c, ws, es, p, m, n);
    UnpaidIsBounded(c.gate, p.connection, Messages(s), Answers(s), Approvals(s));
  }

  /** Nothing is on record at first, and nothing once the connection was forgotten. */
  lemma NothingOnRecord(c: Config, w: World, p: Place, order: seq<Key>)
    requires Enabled(w, Forget(p, order))
    ensures Record(START.store, p) == [] && Record(Step(c, w, Forget(p, order)).store, p) == []
  {
    hide RemoveMany, Enumerates;
  }

  /** What a step lets through is what it admits: a message of this connection is admitted exactly then, and it
      is that message. */
  lemma PassingIsAdmission(c: Config, ws: seq<World>, es: seq<Event>, n: nat, p: Place, u: nat)
    requires Run(c, ws, es) && n < |es|
    ensures u in ws[n + 1].accepted && u !in ws[n].accepted && ws[n + 1].accepted[u].key.place == p ==>
              var s := PassesAt(c, ws[n], es[n], p);
              && s != []
              && Whole(ws[n + 1].accepted[u].frames, ws[n + 1].accepted[u].total) == Some(s[0].message)
    ensures PassesAt(c, ws[n], es[n], p) != [] ==>
              var check := ws[n].checking[es[n].node];
              check.uid in ws[n + 1].accepted && ws[n + 1].accepted[check.uid].key == check.key
  {
    hide Settled, ApproveEntry, Validate, Whole, Enabled, Consistent, Checks, Admissions, Releases;
    RunKeeps(c, ws, es, n);
    var w, e, next := ws[n], es[n], n + 1;
    assert Steps(c, w, e, ws[next]);
    hide Run;
    if u in ws[next].accepted && u !in w.accepted && ws[next].accepted[u].key.place == p {
      OnlySettleAccepts(c, w, e, u);
      var m, a := SettledAccepts(c, w, e.node, e.answer, u);
    }
    var s := PassesAt(c, w, e, p);
    if s != [] {
      ApprovalTakesEffect(c, w, e.node, e.answer, s[0].message, s[0].approval);
    }
  }
}
