/** What the billing gate lets through, step by step: all frames of a message when it is admitted, a repeated frame
    of an approved message when it arrives, and nothing else. */
module HoldbackReleases {
  import opened Sequences
  import opened Bytes
  import opened Sorting
  import opened FrameCodec
  import opened FrameAssembly
  import opened Assembler
  import opened HoldbackRules
  import opened HoldbackTally
  import opened Holdback
  import opened HoldbackSteps
  import opened HoldbackApproval
  import opened HoldbackRuns
  import M = MessageCodec

  /** The list goes on with the frames of a message, one for each number, in ascending order. */
  ghost predicate GoesOnWith(before: seq<Release>, after: seq<Release>, u: nat, adm: Admission) {
    && |after| == |before| + adm.total && before <= after
    && forall i :: 0 <= i < adm.total ==> i in adm.frames && after[|before| + i] == Release(u, adm.frames[i])
  }

  lemma SettledReleases(c: Config, w: World, node: Name, answer: Answer, u: nat)
    requires node in w.checking && u in Settled(c, w, node, answer).accepted && u !in w.accepted
    ensures var x := Settled(c, w, node, answer);
            var k := w.checking[node].key;
            && k in w.store.entries && w.store.entries[k].uid == u && w.store.entries[k].frames == x.accepted[u].frames
            && x.accepted[u].key == k && x.accepted == w.accepted[u := x.accepted[u]]
            && GoesOnWith(w.released, x.released, u, x.accepted[u])
  {
    hide ApproveEntry, Validate, Remove;
    var k := w.checking[node].key;
    var e := w.store.entries[k];
    assert Whole(e.frames, e.total).Some?;
    assert Full(e.frames, e.total);
    hide Whole;
  }

  /** When a message is admitted, all its frames are let through at once: exactly one for each number from zero on, in
      ascending order, as they were held; what was admitted before stays as it is. */
  lemma AdmissionReleases(c: Config, ws: seq<World>, es: seq<Event>, n: nat, u: nat)
    requires Run(c, ws, es) && n < |es| && u in ws[n + 1].accepted && u !in ws[n].accepted
    ensures var adm := ws[n + 1].accepted[u];
            && adm.key in ws[n].store.entries && ws[n].store.entries[adm.key].uid == u
            && ws[n].store.entries[adm.key].frames == adm.frames
            && GoesOnWith(ws[n].released, ws[n + 1].released, u, adm)
            && ws[n + 1].accepted == ws[n].accepted[u := adm]
  {
    hide Settled, Enabled, GoesOnWith;
    var next := n + 1;
    assert Steps(c, ws[n], es[n], ws[next]);
    OnlySettleAccepts(c, ws[n], es[n], u);
    SettledReleases(c, ws[n], es[n].node, es[n].answer, u);
  }

  // ---- Repeated frames ---------------------------------------------------------------------

  /** The frame belongs to a message that is approved at the moment, and has the content of the frame that was
      admitted in its place, as far as the digest tells. */
  ghost predicate RepeatsApproved(c: Config, w: World, node: Name, f: Frame) {
    var k := Key(Place(node, f.connectionId), f.messageId);
    && f.connectionId != [] && f.messageId != 0 && f.total <= c.limits.messageFrames
    && k in w.store.entries && w.store.entries[k].stage == Approved
    && var u := w.store.entries[k].uid;
       && u in w.accepted && w.accepted[u].total == f.total && f.seqId in w.accepted[u].frames
       && c.hash(w.accepted[u].frames[f.seqId].payload) == c.hash(f.payload)
  }

  /** The entry has the digest of every frame that was admitted, and of no other. */
  ghost predicate PrintsAll(hash: seq<byte> -> Digest, e: Entry, a: Admission) {
    && a.total == e.total > 0
    && (forall s: uint32 :: s in e.digests <==> s < e.total)
    && (forall s: uint32 :: s in a.frames <==> s < e.total)
    && forall s: uint32 :: s < e.total ==> e.digests[s] == hash(a.frames[s].payload)
  }

  lemma PrintsAreAll(hash: seq<byte> -> Digest, k: Key, e: Entry, a: Admission)
    requires EntryValid(hash, k, e) && e.stage == Approved && Admissible(a) && Prints(hash, e, a)
    ensures PrintsAll(hash, e, a)
  {
    var keys: set<int> := e.digests.Keys;
    assert |keys| == |e.digests|;
    FullRange(keys, e.total);
    assert Whole(a.frames, a.total).Some?;
  }

  /** An approved message keeps the digest of every frame. */
  lemma DigestsAreAll(c: Config, w: World, k: Key)
    requires Inv(c, w) && k in w.store.entries && w.store.entries[k].stage == Approved
    ensures var u := w.store.entries[k].uid;
            u in w.accepted && PrintsAll(c.hash, w.store.entries[k], w.accepted[u])
  {
    hide Checks, Releases, Consistent, Admissible, Prints, PrintsAll;
    UidIsOld(c, w.store, k);
    hide EntryValid;
    var e := w.store.entries[k];
    assert Admissible(w.accepted[e.uid]) && Prints(c.hash, e, w.accepted[e.uid]);
    PrintsAreAll(c.hash, k, e, w.accepted[e.uid]);
    hide Admissions;
  }

  lemma RepeatExactly(c: Config, w: World, node: Name, f: Frame, due: bool)
    requires Inv(c, w) && (f.kind == DATA || f.kind == RETRANSMIT)
    ensures AddData(c.hash, c.limits, w.store, node, f, due).1 == Repeat <==> RepeatsApproved(c, w, node, f)
  {
    hide Inv, AddNew, Whole;
    var k := KeyOf(node, f);
    AddNewNeverRepeats(c.hash, c.limits, w.store, k, f);
    if k in w.store.entries && w.store.entries[k].stage == Approved {
      DigestsAreAll(c, w, k);
    }
  }

  lemma ArrivalReleases(c: Config, w: World, node: Name, f: Frame, due: bool)
    requires Inv(c, w) && (f.kind == DATA || f.kind == RETRANSMIT)
    ensures var x := Arrived(c, w, node, f, due);
            && x.accepted == w.accepted
            && x.released == w.released +
               if RepeatsApproved(c, w, node, f)
               then [Release(w.store.entries[Key(Place(node, f.connectionId), f.messageId)].uid, f)] else []
  {
    hide Inv, AddData;
    RepeatExactly(c, w, node, f, due);
  }

  /** A frame that arrives is let through at once exactly when it repeats one of a message that is approved at that
      moment. Every other step that admits no message lets nothing through, and forgets nothing it let through. */
  lemma ReleasedExactly(c: Config, ws: seq<World>, es: seq<Event>, n: nat)
    requires Run(c, ws, es) && n < |es|
    ensures match es[n]
            case Arrive(node, f, due) =>
              && ws[n + 1].accepted == ws[n].accepted
              && ws[n + 1].released == ws[n].released +
                 if RepeatsApproved(c, ws[n], node, f)
                 then [Release(ws[n].store.entries[Key(Place(node, f.connectionId), f.messageId)].uid, f)] else []
            case _ =>
              (forall u :: u in ws[n + 1].accepted ==> u in ws[n].accepted) ==>
                ws[n + 1].released == ws[n].released && ws[n + 1].accepted == ws[n].accepted
  {
    hide Inv, Arrived, Settled, RemoveMany, Remove, Cleared, Whole, Before;
    RunKeeps(c, ws, es, n);
    var next := n + 1;
    assert Steps(c, ws[n], es[n], ws[next]);
    hide Run;
    match es[n]
    case Arrive(node, f, due) => ArrivalReleases(c, ws[n], node, f, due);
    case Settle(node, answer) => SettledElse(c, ws[n], node, answer);
    case _ =>
  }

  lemma SettledElse(c: Config, w: World, node: Name, answer: Answer)
    requires Inv(c, w) && node in w.checking
    ensures var x := Settled(c, w, node, answer);
            (forall u :: u in x.accepted ==> u in w.accepted) ==> x.released == w.released && x.accepted == w.accepted
  {
    hide Consistent, Checks, Releases, ApproveEntry, Validate, Whole, Remove, Releasing;
    var k := w.checking[node].key;
    if k in w.store.entries && w.store.entries[k].stage == Validating {
      assert w.store.entries[k].uid !in w.accepted;
    }
  }

  // ---- When a message is whole ---------------------------------------------------------------

  /** The payloads of the first n frames, by number. */
  function Content(frames: map<uint32, Frame>, n: nat): (b: seq<byte>)
    requires Full(frames, n)
  {
    if n == 0 then [] else Content(frames, n - 1) + frames[n - 1].payload
  }

  lemma {:induction false} ContentIsPayloads(frames: map<uint32, Frame>, n: nat)
    requires Full(frames, n)
    ensures Content(frames, n) == Payloads(InOrder(frames, n))
  {
    if n > 0 {
      ContentIsPayloads(frames, n - 1);
      assert InOrder(frames, n)[..n - 1] == InOrder(frames, n - 1);
    }
  }

  /** Frames are a message exactly when every number is there and their payloads, by number, are one. */
  lemma WholeExactly(frames: map<uint32, Frame>, total: uint32, m: M.Message)
    ensures Whole(frames, total) == Some(m) <==>
            && (forall s: uint32 :: s < total ==> s in frames) && |Content(frames, total)| >= 254
            && M.ParseMessage(Content(frames, total)) == Some(m)
  {
    if Full(frames, total) { ContentIsPayloads(frames, total); }
    hide M.ParseMessage, Payloads, Content;
  }

  lemma {:induction false} SameContent(frames: map<uint32, Frame>, sent: seq<Frame>, n: nat)
    requires n <= |sent| && Full(frames, n) && forall i :: 0 <= i < n ==> frames[i].payload == sent[i].payload
    ensures Content(frames, n) == Payloads(sent[..n])
  {
    if n > 0 {
      SameContent(frames, sent, n - 1);
      assert sent[..n][..n - 1] == sent[..n - 1];
    }
  }

  /** Every message that was sent in frames is whole once all of them are held, whatever the frames say besides. */
  lemma SentIsWhole(m: M.Message, id: uint64, size: nat, sent: seq<Frame>, frames: map<uint32, Frame>)
    requires |m.payload| <= MAX_UINT64 && M.EncodeMessage(m).Some? && |sent| <= MAX_UINT32
    requires IsSplit(sent, id, M.EncodeMessage(m).value, size)
    requires Full(frames, |sent|) && forall i :: 0 <= i < |sent| ==> frames[i].payload == sent[i].payload
    ensures Whole(frames, |sent|) == Some(M.Message(M.Arrives(M.Filled(m)), m.payload))
  {
    SplitAssembles(m, id, size, sent);
    SameContent(frames, sent, |sent|);
    ContentIsPayloads(frames, |sent|);
    assert sent[..|sent|] == sent;
    hide M.ParseMessage, Payloads, Content, M.EncodeMessage, M.Arrives, IsSplit;
  }

  // ---- Which frames are taken in -----------------------------------------------------------

  function FramesOf(h: Store, k: Key): (frames: map<uint32, Frame>) {
    if k in h.entries then h.entries[k].frames else map[]
  }

  /** Within the limits for n more bytes in one more frame, counted over the live entries. */
  ghost predicate Fitting(l: Limits, h: Store, k: Key, n: nat) {
    var all, here := SumOf(h.entries, Everywhere), SumOf(h.entries, At(k.place));
    && (k !in h.entries ==>
          here.pendingMessages + 1 <= l.connectionMessages && all.pendingMessages + 1 <= l.globalMessages)
    && here.pendingFrames + 1 <= l.connectionFrames && all.pendingFrames + 1 <= l.globalFrames
    && here.pendingBytes + n <= l.connectionBytes && all.pendingBytes + n <= l.globalBytes
    && (if k in h.entries then h.entries[k].bytes else 0) + n <= l.messageBytes
  }

  /** The frame is a new one, of a message that is not complete or not known yet, and there is room for it. */
  ghost predicate TakesIn(l: Limits, h: Store, k: Key, f: Frame) {
    && f.connectionId != [] && f.messageId != 0 && f.seqId < f.total <= l.messageFrames
    && (k in h.entries ==>
          h.entries[k].total == f.total && h.entries[k].stage == Collecting && f.seqId !in h.entries[k].frames)
    && (k.place in h.connections || |h.connections| < l.connections)
    && Fitting(l, h, k, |f.payload|)
  }

  /** The last frame of a message that was put off comes again, unchanged and late enough. */
  ghost predicate Recalls(c: Config, h: Store, k: Key, f: Frame, due: bool) {
    && f.connectionId != [] && f.messageId != 0 && f.seqId + 1 == f.total <= c.limits.messageFrames && due
    && k in h.entries && h.entries[k].stage == Deferred && h.entries[k].total == f.total
    && f.seqId in h.entries[k].frames && c.hash(h.entries[k].frames[f.seqId].payload) == c.hash(f.payload)
  }

  /** The entry of a message with one frame more. */
  ghost predicate Joined(c: Config, h: Store, k: Key, f: Frame, e: Entry) {
    var frames := FramesOf(h, k)[f.seqId := f];
    && e.frames == frames && e.total == f.total && e.stage == (if |frames| == f.total then Validating else Collecting)
    && e.uid == (if k in h.entries then h.entries[k].uid else h.nextUid)
    && e.bytes == (if k in h.entries then h.entries[k].bytes else 0) + |f.payload|
    && e.digests.Keys == frames.Keys && forall s :: s in frames ==> e.digests[s] == c.hash(frames[s].payload)
  }

  lemma RoomIsFitting(c: Config, h: Store, k: Key, f: Frame)
    requires Consistent(c.hash, c.limits, h) && Sensible(c.limits)
    ensures RoomFor(c.limits, h, k, EntryFor(h, k, f.total), |f.payload|) <==> Fitting(c.limits, h, k, |f.payload|)
  {
    SumsOf(c, h);
    if k.place !in h.connections {
      EmptyPlace(h.entries, k.place);
    }
    hide Consistent, SumOf, Sensible;
  }

  lemma CollectingDigests(c: Config, h: Store, k: Key)
    requires Consistent(c.hash, c.limits, h) && k in h.entries && h.entries[k].stage != Approved
    ensures var e := h.entries[k];
            e.digests.Keys == e.frames.Keys && forall s :: s in e.frames ==> e.digests[s] == c.hash(e.frames[s].payload)
  {
    UidIsOld(c, h, k);
    hide Consistent;
  }

  lemma StoredIsJoined(c: Config, h: Store, k: Key, f: Frame)
    requires Consistent(c.hash, c.limits, h)
    requires k in h.entries ==> h.entries[k].total == f.total && h.entries[k].stage == Collecting
    ensures var r := Stored(c.hash, h, k, f);
            k in r.entries && r.entries == h.entries[k := r.entries[k]] && Joined(c, h, k, f, r.entries[k])
            && r.entries[k] == Extended(c.hash, EntryFor(h, k, f.total), f)
  {
    hide Consistent, Stored;
    StoredParts(c.hash, h, k, f);
    if k in h.entries { CollectingDigests(c, h, k); }
  }

  /** The frame has joined its message; one that is complete and cannot be read is dropped. */
  ghost predicate TakenIn(c: Config, h: Store, r: Store, k: Key, f: Frame) {
    var frames := FramesOf(h, k)[f.seqId := f];
    if |frames| == f.total && Whole(frames, f.total).None? then r.entries == h.entries - {k}
    else k in r.entries && r.entries == h.entries[k := r.entries[k]] && Joined(c, h, k, f, r.entries[k])
  }

  lemma IdleEntries(h: Store, p: Place)
    ensures RemoveIdle(h, p).entries == h.entries
  {
  }

  lemma RemoveAgain(h: Store, s: Store, k: Key)
    requires k in s.entries && s.entries == h.entries[k := s.entries[k]]
    ensures Remove(s, k).entries == h.entries - {k}
  {
    RemoveEntries(s, k);
    hide Remove;
  }

  lemma NewIsTakenIn(c: Config, h: Store, k: Key, f: Frame)
    requires Consistent(c.hash, c.limits, h) && Sensible(c.limits)
    requires k in h.entries ==> h.entries[k].total == f.total && h.entries[k].stage == Collecting
    ensures var r := AddNew(c.hash, c.limits, h, k, f).0;
            if (k.place in h.connections || |h.connections| < c.limits.connections)
                && Fitting(c.limits, h, k, |f.payload|)
            then TakenIn(c, h, r, k, f) else r.entries == h.entries
  {
    hide Consistent, Whole, Stored, Remove, RoomFor, Fitting, RemoveIdle, Extended, Sensible;
    RoomIsFitting(c, h, k, f);
    StoredIsJoined(c, h, k, f);
    IdleEntries(h, k.place);
    RemoveAgain(h, Stored(c.hash, h, k, f), k);
  }

  /** A frame is taken in exactly when it is new and within every limit, counted over the live entries. Besides, the
      last frame of a message that was put off may recall it. Otherwise every entry stays as it is. */
  lemma TakenInExactly(c: Config, w: World, node: Name, f: Frame, due: bool)
    requires Inv(c, w) && Sensible(c.limits) && (f.kind == DATA || f.kind == RETRANSMIT)
    ensures var h, r := w.store, Arrived(c, w, node, f, due).store;
            var k := Key(Place(node, f.connectionId), f.messageId);
            if TakesIn(c.limits, h, k, f) then TakenIn(c, h, r, k, f)
            else if Recalls(c, h, k, f, due) then r.entries == h.entries[k := h.entries[k].(stage := Validating)]
            else r.entries == h.entries
  {
    hide Consistent, Checks, Admissions, Releases, Whole, AddNew, Fitting, TakenIn, Sensible;
    var k, h := KeyOf(node, f), w.store;
    if k in h.entries && h.entries[k].stage != Approved { CollectingDigests(c, h, k); }
    if k in h.entries ==> h.entries[k].total == f.total && h.entries[k].stage == Collecting {
      NewIsTakenIn(c, h, k, f);
    }
  }
}
