/** Whatever the network does, a send that reports success was received exactly, and once, and then
    handed over or dropped as a repetition.

    The invariant has four parts. History: what is on the wire is a copy of what was sent. Buffered:
    what the receiver holds of a message are frames of that message, and not all of them. Settled:
    what was handed over is what was sent, each once. Honest: whatever was ever acknowledged is known
    to the receiver, so that all frames are acknowledged only once the message is handled. */
module ArqSafety {
  import opened Sequences
  import opened Bytes
  import opened FrameCodec
  import opened FrameAssembly
  import opened Assembler
  import opened AckRanges
  import opened AckTracking
  import opened Arq
  import M = MessageCodec
  import W = ReplayWindow

  // ---- The invariant -----------------------------------------------------------------------

  /** A frame of the message, sent first or again. */
  predicate Genuine(f: Frame, frames: seq<Frame>) {
    f.seqId < |frames| && (f == frames[f.seqId] || f == Again(frames[f.seqId]))
  }

  predicate SentWell(id: uint64, frames: seq<Frame>, m: M.Message) {
    && Sendable(m)
    && 0 < |frames| <= MAX_UINT32
    && Complete(frames, id, |frames|)
    && Meaning(frames) == Some(Arrival(m))
  }

  ghost predicate History(w: World) {
    && w.sent.Keys == w.messages.Keys
    && (forall id :: id in w.sent ==> id <= w.last && SentWell(id, w.sent[id], w.messages[id]))
    && (forall f :: f in w.wire ==> f.messageId in w.sent && Genuine(f, w.sent[f.messageId]))
  }

  /** A buffer of an undelivered message holds some of its frames, not all. */
  predicate BufferOf(id: uint64, b: Buffer, sent: map<uint64, seq<Frame>>, delivered: set<uint64>) {
    && id in sent && id !in delivered
    && b.total == |sent[id]|
    && |b.frames| < b.total
    && Fits(id, b.total, b.frames)
    && forall k :: k in b.frames ==> Genuine(b.frames[k], sent[id])
  }

  ghost predicate Buffered(r: Receiver, sent: map<uint64, seq<Frame>>) {
    && Valid(r.buffers)
    && forall id :: id in r.buffers ==> BufferOf(id, r.buffers[id], sent, r.delivered)
  }

  function Ids(inbox: seq<Entry>): (s: set<uint64>) {
    set i | 0 <= i < |inbox| :: inbox[i].id
  }

  /** Handed over, or recognised as a repetition. */
  function Handled(r: Receiver): (s: set<uint64>) { Ids(r.inbox) + r.repeated }

  /** No ID is in the inbox twice. */
  predicate Once(inbox: seq<Entry>) {
    forall i, j :: 0 <= i < j < |inbox| ==> inbox[i].id != inbox[j].id
  }

  /** The message with what the suite makes of its payload. */
  function Plaintext(open: M.Message -> Opened, m: M.Message): (r: M.Message) {
    match open(m) case Failed => m case Plain(p) => m.(payload := p) case Record(_, p) => m.(payload := p)
  }

  /** The entry is the message as it arrived or, if there was a suite, opened. */
  predicate IsArrival(open: M.Message -> Opened, e: Entry, m: M.Message) {
    Sendable(m) && e.message == if e.raw then Arrival(m) else Plaintext(open, Arrival(m))
  }

  /** Everything in the inbox is the message that was sent under its ID. */
  predicate Exact(open: M.Message -> Opened, inbox: seq<Entry>, messages: map<uint64, M.Message>) {
    forall i :: 0 <= i < |inbox| ==> inbox[i].id in messages && IsArrival(open, inbox[i], messages[inbox[i].id])
  }

  ghost predicate Settled(w: World) {
    && w.receiver.delivered == Handled(w.receiver) + w.rejected.Keys
    && (forall id :: id in w.receiver.delivered ==> id in w.sent)
    && Ids(w.receiver.inbox) !! w.receiver.repeated
    && Once(w.receiver.inbox)
    && Exact(w.receiver.open, w.receiver.inbox, w.messages)
    && (forall id :: id in w.rejected ==>
        w.receiver.closed && id !in Handled(w.receiver) && w.rejected[id] < |w.sent[id]|)
  }

  /** The frames of a message that may ever have been acknowledged: all of them only once the
      message is handled. */
  ghost function Known(r: Receiver, rejected: map<uint64, uint32>, id: uint64, total: nat): (s: set<int>) {
    if id in Handled(r) then Interval(0, total)
    else if id in rejected then Interval(0, total) - {rejected[id]}
    else Held(r.buffers, id).Keys
  }

  ghost function KnownOf(w: World, id: uint64): (s: set<int>)
    requires id in w.sent
  {
    Known(w.receiver, w.rejected, id, |w.sent[id]|)
  }

  ghost predicate Honest(w: World) {
    && (forall a :: a in w.acks ==> a.id in w.sent && |w.sent[a.id]| <= MAX_UINT32 && Below(a.ranges, |w.sent[a.id]|)
                                    && Covered(a.ranges) <= KnownOf(w, a.id))
    && (forall id :: id in w.pending ==> id in w.sent && w.pending[id] <= KnownOf(w, id))
    && w.succeeded <= Handled(w.receiver)
  }

  ghost predicate Inv(w: World) {
    History(w) && Buffered(w.receiver, w.sent) && Settled(w) && Honest(w)
  }

  // ---- Sending -----------------------------------------------------------------------------

  lemma {:induction false} PayloadsAgree(a: seq<Frame>, b: seq<Frame>)
    requires |a| == |b| && forall i :: 0 <= i < |a| ==> a[i].payload == b[i].payload
    ensures Payloads(a) == Payloads(b)
  {
    if a != [] {
      PayloadsAgree(a[..|a| - 1], b[..|b| - 1]);
    }
  }

  lemma StampedIsSent(id: uint64, m: M.Message, size: nat, frames: seq<Frame>, connection: seq<byte>)
    requires Sendable(m) && |frames| <= MAX_UINT32 && IsSplit(frames, id, M.EncodeMessage(m).value, size)
    ensures SentWell(id, Stamp(frames, connection), m)
  {
    SplitAssembles(m, id, size, frames);
    PayloadsAgree(frames, Stamp(frames, connection));
    hide M.EncodeMessage, M.ParseMessage, M.Arrives, Payloads;
  }

  // ---- Receiving ---------------------------------------------------------------------------

  /** Genuine frames that fill a buffer mean the message that was sent. */
  lemma FullMeansSent(id: uint64, frames: map<uint32, Frame>, sent: seq<Frame>)
    requires 0 < |sent| <= MAX_UINT32 && Fits(id, |sent|, frames) && Full(frames, |sent|)
    requires forall k :: k in frames ==> Genuine(frames[k], sent)
    ensures Meaning(InOrder(frames, |sent|)) == Meaning(sent)
  {
    var ordered := InOrder(frames, |sent|);
    forall i | 0 <= i < |sent| ensures ordered[i].payload == sent[i].payload {
      assert Genuine(frames[i], sent) && Fitting(frames[i], id, |sent|, i);
    }
    PayloadsAgree(ordered, sent);
  }

  lemma HeldIsGenuine(r: Receiver, sent: map<uint64, seq<Frame>>, id: uint64)
    requires Buffered(r, sent) && id in sent && |sent[id]| <= MAX_UINT32
    ensures Fits(id, |sent[id]|, Held(r.buffers, id))
    ensures forall k :: k in Held(r.buffers, id) ==> Genuine(Held(r.buffers, id)[k], sent[id])
  {
  }

  lemma GenuineIsWellformed(r: Receiver, f: Frame, sent: map<uint64, seq<Frame>>)
    requires Buffered(r, sent) && f.messageId in sent
    requires |sent[f.messageId]| <= MAX_UINT32 && Complete(sent[f.messageId], f.messageId, |sent[f.messageId]|)
    requires Genuine(f, sent[f.messageId])
    ensures Wellformed(r.buffers, f) && f.total == |sent[f.messageId]| && (f.kind == DATA || f.kind == RETRANSMIT)
    ensures Fitting(f, f.messageId, f.total, f.seqId)
  {
    assert Fitting(sent[f.messageId][f.seqId], f.messageId, |sent[f.messageId]|, f.seqId);
  }

  predicate AlreadyKnown(r: Receiver, f: Frame, s: (Buffers, Reception)) {
    s == (r.buffers, Waiting) && f.messageId in r.buffers
  }

  predicate Stored(r: Receiver, f: Frame, s: (Buffers, Reception)) {
    var more := Held(r.buffers, f.messageId)[f.seqId := f];
    s == (r.buffers[f.messageId := Buffer(f.total, more)], Waiting) && |more| < f.total
  }

  predicate Completed(r: Receiver, f: Frame, s: (Buffers, Reception), m: M.Message) {
    var held := Held(r.buffers, f.messageId);
    Sendable(m) && s == (r.buffers - {f.messageId}, Done(Some(Arrival(m)))) && f.seqId !in held
        && Full(held[f.seqId := f], f.total)
  }

  lemma CompletedIsSent(r: Receiver, f: Frame, sent: map<uint64, seq<Frame>>, m: M.Message)
    requires Buffered(r, sent) && f.messageId in sent && SentWell(f.messageId, sent[f.messageId], m)
    requires Genuine(f, sent[f.messageId]) && f.seqId !in Held(r.buffers, f.messageId)
    requires f.total == |sent[f.messageId]| && Full(Held(r.buffers, f.messageId)[f.seqId := f], f.total)
    ensures Meaning(InOrder(Held(r.buffers, f.messageId)[f.seqId := f], f.total)) == Some(Arrival(m))
  {
    hide AddFrame, InOrder, Arrival, Meaning, Sendable, Payloads;
    HeldIsGenuine(r, sent, f.messageId);
    GenuineIsWellformed(r, f, sent);
    hide Buffered, Valid;
    FullMeansSent(f.messageId, Held(r.buffers, f.messageId)[f.seqId := f], sent[f.messageId]);
  }

  /** A genuine frame is never refused: it is known or stored, or it completes exactly the sent
      message. */
  lemma GenuineIsAccepted(r: Receiver, f: Frame, sent: map<uint64, seq<Frame>>, m: M.Message)
    requires Buffered(r, sent) && f.messageId in sent && f.messageId !in r.delivered
    requires SentWell(f.messageId, sent[f.messageId], m) && Genuine(f, sent[f.messageId])
    ensures var s := AddFrame(r.buffers, f); AlreadyKnown(r, f, s) || Stored(r, f, s) || Completed(r, f, s, m)
  {
    hide AddFrame, InOrder, Arrival, Meaning, Sendable, Payloads, Complete, Full;
    GenuineIsWellformed(r, f, sent);
    AddFrameCases(r.buffers, f);
    var held := Held(r.buffers, f.messageId);
    if f.seqId !in held && |held[f.seqId := f]| >= f.total {
      CompletedIsSent(r, f, sent, m);
    }
  }

  // ---- What carries over -------------------------------------------------------------------

  /** More may be acknowledged, of the same messages. */
  ghost predicate Learns(w: World, x: World) {
    && x.sent == w.sent && x.acks == w.acks && x.pending == w.pending && x.succeeded == w.succeeded
    && Handled(w.receiver) <= Handled(x.receiver)
    && forall id :: id in w.sent ==> KnownOf(w, id) <= KnownOf(x, id)
  }

  lemma HonestCarries(w: World, x: World)
    requires Honest(w) && Learns(w, x)
    ensures Honest(x)
  {
    hide Known, KnownOf, Covered, Handled, Below;
  }

  lemma FullAckIsExact(total: uint32)
    requires total > 0
    ensures Below(FullAck(total), total) && Covered(FullAck(total)) == Interval(0, total)
  {
    var ranges := FullAck(total);
    forall s ensures s in Covered(ranges) <==> Within(0, total, s) {
      if Within(0, total, s) {
        assert ranges[0].start <= s <= ranges[0].end;
      }
    }
  }

  lemma SnapshotIsKnown(id: uint64, b: Buffer)
    requires Fits(id, b.total, b.frames)
    ensures Below(SnapshotRanges(b), b.total) && Covered(SnapshotRanges(b)) <= b.frames.Keys
  {
    SnapshotIsExact(id, b);
    var ranges := SnapshotRanges(b);
    hide SnapshotRanges;
    forall i | 0 <= i < |ranges| ensures ranges[i].end < b.total {
      assert ranges[i].start <= ranges[i].end <= ranges[i].end;
      assert Covers(ranges, ranges[i].end);
    }
  }

  ghost function Answered(w: World, id: uint64, ranges: seq<AckRange>): (x: World) {
    var (r, a) := SendAck(w.receiver, id, ranges);
    w.(receiver := r, acks := w.acks + Answers(a))
  }

  /** Sending ranges that are known keeps the invariant. */
  lemma AnswerKeeps(w: World, id: uint64, ranges: seq<AckRange>)
    requires Inv(w) && id in w.sent && |w.sent[id]| <= MAX_UINT32
    requires Below(ranges, |w.sent[id]|) && Covered(ranges) <= KnownOf(w, id)
    ensures Inv(Answered(w, id, ranges))
  {
    hide Covered, Below, EncodeAckRanges, SentWell, Genuine, BufferOf, Valid, Exact, Once;
    var x := Answered(w, id, ranges);
    assert Handled(x.receiver) == Handled(w.receiver) && x.receiver.buffers == w.receiver.buffers;
    assert x.sent == w.sent && x.rejected == w.rejected;
    assert forall id :: id in w.sent ==> KnownOf(x, id) == KnownOf(w, id);
    hide Known, KnownOf;
  }

  lemma InboxGrows(inbox: seq<Entry>, e: Entry)
    ensures Ids(inbox + [e]) == Ids(inbox) + {e.id}
    ensures Once(inbox) && e.id !in Ids(inbox) ==> Once(inbox + [e])
  {
    var more := inbox + [e];
    forall id ensures id in Ids(more) <==> id in Ids(inbox) || id == e.id {
      if id in Ids(inbox) {
        var i :| 0 <= i < |inbox| && inbox[i].id == id;
        assert more[i].id == id;
      }
      assert more[|inbox|] == e;
    }
  }

  // ---- A frame arrives ---------------------------------------------------------------------

  ghost predicate Arriving(w: World, f: Frame) {
    Inv(w) && f in w.wire && f.messageId !in w.receiver.delivered
  }

  /** What the invariant says about an arriving frame. */
  lemma ArrivingIsGenuine(w: World, f: Frame)
    requires Inv(w) && f in w.wire
    ensures f.messageId in w.sent && f.messageId in w.messages
    ensures SentWell(f.messageId, w.sent[f.messageId], w.messages[f.messageId]) && Genuine(f, w.sent[f.messageId])
    ensures f.total == |w.sent[f.messageId]| && Fitting(f, f.messageId, f.total, f.seqId)
    ensures f.seqId < |w.sent[f.messageId]|
  {
    hide Meaning, Sendable, Arrival;
    GenuineIsWellformed(w.receiver, f, w.sent);
  }

  function Filed(r: Receiver, f: Frame): (x: Receiver) {
    r.(buffers := r.buffers[f.messageId := Buffer(f.total, Held(r.buffers, f.messageId)[f.seqId := f])])
  }

  lemma MoreIsBuffer(held: map<uint32, Frame>, f: Frame, sent: map<uint64, seq<Frame>>, delivered: set<uint64>)
    requires f.messageId in sent && f.messageId !in delivered && f.total == |sent[f.messageId]|
    requires Genuine(f, sent[f.messageId]) && Fitting(f, f.messageId, f.total, f.seqId) && f.seqId < f.total
    requires Fits(f.messageId, f.total, held) && forall k :: k in held ==> Genuine(held[k], sent[f.messageId])
    requires |held[f.seqId := f]| < f.total
    ensures BufferOf(f.messageId, Buffer(f.total, held[f.seqId := f]), sent, delivered)
  {
    hide Genuine, Fitting;
  }

  lemma StoreBuffered(r: Receiver, f: Frame, sent: map<uint64, seq<Frame>>)
    requires Buffered(r, sent) && f.messageId in sent && f.messageId !in r.delivered && f.seqId < f.total
    requires Genuine(f, sent[f.messageId]) && f.total == |sent[f.messageId]|
             && Fitting(f, f.messageId, f.total, f.seqId)
    requires |Held(r.buffers, f.messageId)[f.seqId := f]| < f.total
    ensures Buffered(Filed(r, f), sent)
  {
    hide BufferOf, Fits, Genuine, Fitting, Held;
    HeldIsGenuine(r, sent, f.messageId);
    var more := Held(r.buffers, f.messageId)[f.seqId := f];
    MoreIsBuffer(Held(r.buffers, f.messageId), f, sent, r.delivered);
    var x := Filed(r, f);
    assert x.buffers == r.buffers[f.messageId := Buffer(f.total, more)] && x.delivered == r.delivered;
    AllBuffersFine(x, sent);
  }

  lemma AllBuffersFine(r: Receiver, sent: map<uint64, seq<Frame>>)
    requires forall id :: id in r.buffers ==> BufferOf(id, r.buffers[id], sent, r.delivered)
    ensures Buffered(r, sent)
  {
    hide Fits, Genuine;
  }

  lemma StoreLearns(w: World, f: Frame)
    requires f.messageId in w.sent
    ensures Learns(w, w.(receiver := Filed(w.receiver, f)))
  {
    hide Handled;
    var x := w.(receiver := Filed(w.receiver, f));
    assert Handled(x.receiver) == Handled(w.receiver) by { HandledFrom(w.receiver, x.receiver); }
    forall id | id in w.sent ensures KnownOf(w, id) <= KnownOf(x, id) {
      assert id == f.messageId || Held(x.receiver.buffers, id) == Held(w.receiver.buffers, id);
    }
  }

  lemma HandledFrom(r: Receiver, x: Receiver)
    requires r.inbox == x.inbox && r.repeated == x.repeated
    ensures Handled(r) == Handled(x)
  {
  }

  lemma StoreKeeps(w: World, f: Frame)
    requires Arriving(w, f) && |Held(w.receiver.buffers, f.messageId)[f.seqId := f]| < f.total
    ensures Inv(w.(receiver := Filed(w.receiver, f)))
  {
    hide Exact, Once, SentWell, Buffered, Honest, Learns, Held, Genuine, Fitting;
    ArrivingIsGenuine(w, f);
    StoreBuffered(w.receiver, f, w.sent);
    StoreLearns(w, f);
    HonestCarries(w, w.(receiver := Filed(w.receiver, f)));
  }

  /** The receiver after a message is complete, before it answers. */
  function Closing(r: Receiver, f: Frame, m: M.Message, cut: bool): (x: Receiver) {
    Resolve(r.(buffers := r.buffers - {f.messageId}), f.messageId, Judge(r, m, cut))
  }

  ghost function Delivered(w: World, f: Frame, m: M.Message, cut: bool): (x: World) {
    Noted(w, w.(receiver := Closing(w.receiver, f, m, cut)), f, Judge(w.receiver, m, cut).verdict)
  }

  lemma ClosingParts(r: Receiver, f: Frame, m: M.Message, cut: bool)
    ensures var x := Closing(r, f, m, cut);
            && x.buffers == r.buffers - {f.messageId} && x.delivered == r.delivered + {f.messageId}
            && x.open == r.open && x.secured == r.secured && x.read == r.read && x.taken == r.taken
            && x.window == Judge(r, m, cut).window
  {
    hide Judge;
  }

  lemma DeliverBuffered(r: Receiver, f: Frame, sent: map<uint64, seq<Frame>>, m: M.Message, cut: bool)
    requires Buffered(r, sent)
    ensures Buffered(Closing(r, f, m, cut), sent)
  {
    hide Fits, Genuine, Closing;
    var x := Closing(r, f, m, cut);
    ClosingParts(r, f, m, cut);
    forall id | id in x.buffers ensures BufferOf(id, x.buffers[id], sent, x.delivered) {
      assert BufferOf(id, r.buffers[id], sent, r.delivered);
    }
  }

  lemma FreshIsPlaintext(r: Receiver, m: M.Message, cut: bool)
    requires Judge(r, m, cut).verdict == Fresh
    ensures Judge(r, m, cut).message == if r.secured then Plaintext(r.open, m) else m
  {
    hide W.Observe;
  }

  lemma Resolved(r: Receiver, id: uint64, j: Judgement)
    requires id !in Handled(r) && Once(r.inbox)
    ensures var x := Resolve(r, id, j);
            && Ids(x.inbox) == Ids(r.inbox) + (if j.verdict == Fresh then {id} else {})
            && x.repeated == r.repeated + (if j.verdict == Repeated then {id} else {})
            && Once(x.inbox) && x.open == r.open && x.delivered == r.delivered + {id}
            && x.closed == (r.closed || j.verdict == Rejected)
            && x.inbox == if j.verdict == Fresh then r.inbox + [Entry(id, j.message, !r.secured)] else r.inbox
  {
    hide Once, Ids;
    InboxGrows(r.inbox, Entry(id, j.message, !r.secured));
    assert Ids(r.inbox) + {} == Ids(r.inbox);
  }

  lemma DeliverExact(w: World, f: Frame, cut: bool)
    requires Exact(w.receiver.open, w.receiver.inbox, w.messages) && f.messageId in w.messages
    requires Sendable(w.messages[f.messageId])
    ensures var j := Judge(w.receiver, Arrival(w.messages[f.messageId]), cut);
            j.verdict == Fresh ==>
              Exact(w.receiver.open, w.receiver.inbox + [Entry(f.messageId, j.message, !w.receiver.secured)],
                  w.messages)
  {
    hide Sendable, Arrival, Judge, Plaintext, Exact, IsArrival;
    var m := Arrival(w.messages[f.messageId]);
    var j := Judge(w.receiver, m, cut);
    if j.verdict == Fresh {
      FreshIsPlaintext(w.receiver, m, cut);
      var e := Entry(f.messageId, j.message, !w.receiver.secured);
      ArrivesAs(w.receiver.open, e, w.messages[f.messageId]);
      InboxExact(w.receiver.open, w.receiver.inbox, w.messages, e);
    }
  }

  lemma DeliverSettled(w: World, f: Frame, cut: bool)
    requires Settled(w) && !w.receiver.closed && f.messageId in w.messages && Sendable(w.messages[f.messageId])
    requires f.messageId !in w.receiver.delivered && f.messageId in w.sent && f.seqId < |w.sent[f.messageId]|
    ensures var m := Arrival(w.messages[f.messageId]);
            var x := Delivered(w, f, m, cut);
            && Settled(x)
            && Handled(x.receiver) == Handled(w.receiver) + Taking(w.receiver, f, m, cut)
  {
    hide Sendable, Arrival, Once, Ids, Judge, Brought, Exact, Resolve;
    var m := Arrival(w.messages[f.messageId]);
    var r := w.receiver.(buffers := w.receiver.buffers - {f.messageId});
    HandledFrom(w.receiver, r);
    Resolved(r, f.messageId, Judge(w.receiver, m, cut));
    DeliverExact(w, f, cut);
  }

  lemma ArrivesAs(open: M.Message -> Opened, e: Entry, m: M.Message)
    requires Sendable(m) && e.message == if e.raw then Arrival(m) else Plaintext(open, Arrival(m))
    ensures IsArrival(open, e, m)
  {
  }

  lemma InboxExact(open: M.Message -> Opened, inbox: seq<Entry>, messages: map<uint64, M.Message>, e: Entry)
    requires Exact(open, inbox, messages) && e.id in messages && IsArrival(open, e, messages[e.id])
    ensures Exact(open, inbox + [e], messages)
  {
    hide IsArrival;
  }

  /** The message is handled unless it is rejected. */
  function Taking(r: Receiver, f: Frame, m: M.Message, cut: bool): (s: set<uint64>) {
    if Judge(r, m, cut).verdict == Rejected then {} else {f.messageId}
  }

  lemma DeliverLearns(w: World, f: Frame, cut: bool, m: M.Message)
    requires f.messageId in w.sent && f.seqId !in Held(w.receiver.buffers, f.messageId)
    requires forall k :: k in Held(w.receiver.buffers, f.messageId) ==> k < |w.sent[f.messageId]|
    requires f.messageId !in Handled(w.receiver) && f.messageId !in w.rejected
    requires Handled(Closing(w.receiver, f, m, cut)) == Handled(w.receiver) + Taking(w.receiver, f, m, cut)
    ensures Learns(w, Delivered(w, f, m, cut))
  {
    ClosingParts(w.receiver, f, m, cut);
    hide Handled, Judge, Closing, Brought;
    var x := Delivered(w, f, m, cut);
    forall id | id in w.sent ensures KnownOf(w, id) <= KnownOf(x, id) {
      if id != f.messageId {
        assert Held(x.receiver.buffers, id) == Held(w.receiver.buffers, id);
      } else {
        assert forall k :: k in Held(w.receiver.buffers, id) ==> Within(0, |w.sent[id]|, k);
      }
    }
  }

  /** Completing a message keeps the invariant, whatever opening it gives. */
  lemma DeliverKeeps(w: World, f: Frame, cut: bool)
    requires Arriving(w, f) && !w.receiver.closed && f.seqId !in Held(w.receiver.buffers, f.messageId)
    ensures f.messageId in w.messages && Sendable(w.messages[f.messageId])
    ensures Inv(Delivered(w, f, Arrival(w.messages[f.messageId]), cut))
  {
    hide Honest, Arrival, Sendable, Learns, Genuine, Buffered, Meaning, Complete, Held, Judge, Closing, Brought;
    ArrivingIsGenuine(w, f);
    var m := Arrival(w.messages[f.messageId]);
    HeldIsGenuine(w.receiver, w.sent, f.messageId);
    DeliverBuffered(w.receiver, f, w.sent, m, cut);
    DeliverSettled(w, f, cut);
    assert f.messageId !in Handled(w.receiver) && f.messageId !in w.rejected;
    hide Handled, Settled, Fitting;
    DeliverLearns(w, f, cut, m);
    HonestCarries(w, Delivered(w, f, m, cut));
  }

  // ---- Every step --------------------------------------------------------------------------

  ghost function Recounted(w: World, unacked: map<uint64, nat>): (x: World) {
    w.(receiver := w.receiver.(unacked := unacked))
  }

  lemma RecountKeeps(w: World, unacked: map<uint64, nat>)
    requires Inv(w)
    ensures Inv(Recounted(w, unacked))
  {
    hide Exact, Once, SentWell, BufferOf, Covered, Below;
    var x := Recounted(w, unacked);
    HandledFrom(w.receiver, x.receiver);
    hide Handled;
    assert forall id :: id in w.sent ==> KnownOf(x, id) == KnownOf(w, id);
    hide Known, KnownOf;
  }

  lemma ReportKeeps(w: World, id: uint64)
    requires Inv(w) && id in w.receiver.buffers
    ensures Inv(Answered(w, id, SnapshotRanges(w.receiver.buffers[id])))
  {
    hide Exact, Once, SentWell, Covered, Below, Genuine, Honest, SnapshotRanges;
    assert BufferOf(id, w.receiver.buffers[id], w.sent, w.receiver.delivered);
    SnapshotIsKnown(id, w.receiver.buffers[id]);
    assert KnownOf(w, id) == w.receiver.buffers[id].frames.Keys;
    AnswerKeeps(w, id, SnapshotRanges(w.receiver.buffers[id]));
  }

  lemma CountKeeps(w: World, id: uint64)
    requires Inv(w) && id in w.receiver.buffers
    ensures var (r, a) := Count(w.receiver, id); Inv(w.(receiver := r, acks := w.acks + Answers(a)))
  {
    hide Inv, SnapshotRanges, SendAck;
    var n := (if id in w.receiver.unacked then w.receiver.unacked[id] else 0) + 1;
    var u := w.receiver.unacked[id := if n >= ACK_BATCH then 0 else n];
    RecountKeeps(w, u);
    var x := Recounted(w, u);
    if n >= ACK_BATCH {
      ReportKeeps(x, id);
    } else {
      assert w.acks + Answers(None) == w.acks;
    }
  }

  lemma FullAnswerKeeps(w: World, f: Frame)
    requires Inv(w) && f.messageId in w.sent && f.total == |w.sent[f.messageId]| > 0
             && f.messageId in Handled(w.receiver)
    ensures Inv(Answered(w, f.messageId, FullAck(f.total)))
  {
    hide Inv, Handled;
    FullAckIsExact(f.total);
    assert KnownOf(w, f.messageId) == Interval(0, |w.sent[f.messageId]|);
    AnswerKeeps(w, f.messageId, FullAck(f.total));
  }

  ghost predicate Listening(w: World, f: Frame) {
    Valid(w.receiver.buffers) && f in w.wire && !w.receiver.closed
  }

  lemma RepeatStep(w: World, f: Frame, cut: bool)
    requires Listening(w, f) && f.messageId in w.receiver.delivered
    ensures Step(w, Data(f, cut)) == Answered(w, f.messageId, FullAck(f.total))
  {
    hide AddFrame, FullAck, EncodeAckRanges;
  }

  lemma WaitStep(w: World, f: Frame, cut: bool)
    requires Listening(w, f) && f.messageId !in w.receiver.delivered && AddFrame(w.receiver.buffers, f).1 == Waiting
    ensures var y := w.(receiver := w.receiver.(buffers := AddFrame(w.receiver.buffers, f).0));
            var (r, a) := Count(y.receiver, f.messageId);
            Step(w, Data(f, cut)) == y.(receiver := r, acks := y.acks + Answers(a))
  {
    hide AddFrame, Count;
  }

  lemma DoneStep(w: World, f: Frame, cut: bool, m: M.Message)
    requires Listening(w, f) && f.messageId !in w.receiver.delivered
    requires AddFrame(w.receiver.buffers, f) == (w.receiver.buffers - {f.messageId}, Done(Some(m)))
    ensures var y := Delivered(w, f, m, cut);
            Step(w, Data(f, cut)) ==
            if Judge(w.receiver, m, cut).verdict == Rejected then y else Answered(y, f.messageId, FullAck(f.total))
  {
    hide AddFrame, FullAck, Judge, Brought, Receive, SendAck, Closing, Finishes, Finished;
    DoneReceives(w.receiver, f, cut, m);
    DoneFinishes(w.receiver, f, m);
    AckIsAside(Closing(w.receiver, f, m, cut), f.messageId, FullAck(f.total));
    assert w.acks + Answers(None) == w.acks;
  }

  lemma DoneFinishes(r: Receiver, f: Frame, m: M.Message)
    requires Valid(r.buffers) && !r.closed && f.messageId !in r.delivered
    requires AddFrame(r.buffers, f) == (r.buffers - {f.messageId}, Done(Some(m)))
    ensures Finishes(r, f) && Finished(r, f) == m
  {
    hide AddFrame;
  }

  lemma AckIsAside(r: Receiver, id: uint64, ranges: seq<AckRange>)
    ensures var x := SendAck(r, id, ranges).0; x.window == r.window && x.secured == r.secured && SameFrames(r, x)
  {
    hide EncodeAckRanges;
  }

  lemma DoneReceives(r: Receiver, f: Frame, cut: bool, m: M.Message)
    requires Valid(r.buffers) && !r.closed && f.messageId !in r.delivered
    requires AddFrame(r.buffers, f) == (r.buffers - {f.messageId}, Done(Some(m)))
    ensures var x := Closing(r, f, m, cut);
            Receive(r, f, cut) == if Judge(r, m, cut).verdict == Rejected then (x, None)
                else SendAck(x, f.messageId, FullAck(f.total))
  {
    hide AddFrame, FullAck, Judge, SendAck, Resolve, Receive;
    JudgeFrom(r, r.(buffers := r.buffers - {f.messageId}), m, cut);
    DoneIsDelivered(r, f, cut, m);
  }

  lemma DoneIsDelivered(r: Receiver, f: Frame, cut: bool, m: M.Message)
    requires Valid(r.buffers) && !r.closed && f.messageId !in r.delivered
    requires AddFrame(r.buffers, f) == (r.buffers - {f.messageId}, Done(Some(m)))
    ensures Receive(r, f, cut) == Deliver(r.(buffers := r.buffers - {f.messageId}), f, m, cut)
  {
    hide AddFrame, Deliver, SendAck, Count, FullAck;
  }

  lemma JudgeFrom(r: Receiver, s: Receiver, m: M.Message, cut: bool)
    requires s.open == r.open && s.secured == r.secured && s.window == r.window
    ensures Judge(s, m, cut) == Judge(r, m, cut)
  {
  }

  lemma ClosedStep(w: World, f: Frame, cut: bool)
    requires Valid(w.receiver.buffers) && f in w.wire && w.receiver.closed
    ensures Step(w, Data(f, cut)) == w
  {
    hide AddFrame;
    assert w.acks + Answers(None) == w.acks;
  }

  lemma DoneKeeps(w: World, f: Frame, cut: bool, m: M.Message)
    requires Arriving(w, f) && Listening(w, f) && f.messageId in w.messages && m == w.messages[f.messageId]
    requires Completed(w.receiver, f, AddFrame(w.receiver.buffers, f), m)
    ensures Inv(Step(w, Data(f, cut)))
  {
    hide AddFrame, Honest, History, Buffered, Meaning, Arrival, Sendable, FullAck, Held, Full, SentWell, Genuine;
    ArrivingIsGenuine(w, f);
    DeliverKeeps(w, f, cut);
    DeliverSettled(w, f, cut);
    DoneStep(w, f, cut, Arrival(m));
    hide Inv, Step, Settled, Completed, Judge, Closing, Brought;
    var y := Delivered(w, f, Arrival(m), cut);
    if Judge(w.receiver, Arrival(m), cut).verdict != Rejected {
      assert y.sent == w.sent;
      FullAnswerKeeps(y, f);
    }
  }

  /** The frame changes no more than the buffer of its message. */
  predicate Waits(r: Receiver, f: Frame)
    requires Valid(r.buffers)
  {
    var s := AddFrame(r.buffers, f);
    AlreadyKnown(r, f, s) || Stored(r, f, s)
  }

  lemma WaitKeeps(w: World, f: Frame, cut: bool)
    requires Listening(w, f) && Waits(w.receiver, f) && Arriving(w, f)
    ensures Inv(Step(w, Data(f, cut)))
  {
    WaitStep(w, f, cut);
    var s := AddFrame(w.receiver.buffers, f);
    hide AddFrame, Count, Step, History, Buffered, Settled, Honest;
    var y := w.(receiver := w.receiver.(buffers := s.0));
    if Stored(w.receiver, f, s) {
      StoreKeeps(w, f);
      assert y == w.(receiver := Filed(w.receiver, f));
    } else {
      assert y == w;
    }
    CountKeeps(y, f.messageId);
  }

  lemma DataKeeps(w: World, f: Frame, cut: bool)
    requires Inv(w) && f in w.wire
    ensures Inv(Step(w, Data(f, cut)))
  {
    hide AddFrame, Step, History, Buffered, Honest, SentWell, Genuine, Fitting;
    assert Valid(w.receiver.buffers) by { BufferedIsValid(w.receiver, w.sent); }
    ArrivingIsGenuine(w, f);
    if w.receiver.closed {
      ClosedStep(w, f, cut);
    } else if f.messageId in w.receiver.delivered {
      RepeatStep(w, f, cut);
      assert f.messageId !in w.rejected;
      FullAnswerKeeps(w, f);
    } else {
      hide Settled;
      GenuineIsAccepted(w.receiver, f, w.sent, w.messages[f.messageId]);
      if Completed(w.receiver, f, AddFrame(w.receiver.buffers, f), w.messages[f.messageId]) {
        DoneKeeps(w, f, cut, w.messages[f.messageId]);
      } else {
        WaitKeeps(w, f, cut);
      }
    }
  }

  lemma BufferedIsValid(r: Receiver, sent: map<uint64, seq<Frame>>)
    requires Buffered(r, sent)
    ensures Valid(r.buffers)
  {
  }

  ghost function Posted(w: World, m: M.Message, frames: seq<Frame>): (x: World)
    requires w.last < MAX_UINT64
  {
    var id: uint64 := w.last + 1;
    w.(last := id, sent := w.sent[id := frames], messages := w.messages[id := m], pending := w.pending[id := {}],
       wire := w.wire + set f | f in frames)
  }

  lemma PostHistory(w: World, m: M.Message, frames: seq<Frame>)
    requires History(w) && w.last < MAX_UINT64 && SentWell(w.last + 1, frames, m)
    ensures w.last + 1 !in w.sent && History(Posted(w, m, frames))
  {
    hide SentWell, Genuine;
    var id: uint64 := w.last + 1;
    forall f | f in frames ensures f.messageId == id && Genuine(f, frames) {
      StampedIsGenuine(id, frames, m, f);
    }
    assert id !in w.sent;
  }

  lemma PostHonest(w: World, m: M.Message, frames: seq<Frame>)
    requires Honest(w) && w.last < MAX_UINT64 && w.last + 1 !in w.sent
    ensures Honest(Posted(w, m, frames))
  {
    hide Handled, Covered, Below;
    var x := Posted(w, m, frames);
    assert forall k :: k in w.sent ==> KnownOf(x, k) == KnownOf(w, k);
    hide Known, KnownOf;
  }

  lemma PostSettled(w: World, m: M.Message, frames: seq<Frame>)
    requires Settled(w) && w.last < MAX_UINT64 && w.last + 1 !in w.sent && w.messages.Keys == w.sent.Keys
    ensures Settled(Posted(w, m, frames))
  {
    hide Handled, Ids, Once, Sendable, Arrival;
  }

  lemma PostKeeps(w: World, m: M.Message, frames: seq<Frame>)
    requires Inv(w) && w.last < MAX_UINT64 && SentWell(w.last + 1, frames, m)
    ensures Inv(Posted(w, m, frames))
  {
    hide Buffered, Settled, Honest, SentWell, Genuine;
    PostHistory(w, m, frames);
    PostHonest(w, m, frames);
    PostSettled(w, m, frames);
    SendBuffered(w, w.last + 1, frames);
  }

  lemma StampedIsGenuine(id: uint64, frames: seq<Frame>, m: M.Message, f: Frame)
    requires SentWell(id, frames, m) && f in frames
    ensures f.messageId == id && Genuine(f, frames)
  {
    hide Meaning, Sendable, Arrival;
    var i :| 0 <= i < |frames| && frames[i] == f;
    assert Fitting(frames[i], id, |frames|, i);
  }

  lemma SendBuffered(w: World, id: uint64, frames: seq<Frame>)
    requires Buffered(w.receiver, w.sent) && id !in w.sent
    ensures Buffered(w.receiver, w.sent[id := frames])
  {
    hide Fits, Genuine;
    forall k | k in w.receiver.buffers
      ensures BufferOf(k, w.receiver.buffers[k], w.sent[id := frames], w.receiver.delivered) {
      assert BufferOf(k, w.receiver.buffers[k], w.sent, w.receiver.delivered);
    }
  }

  lemma AckedKeeps(w: World, a: Ack)
    requires Inv(w) && a in w.acks && a.id in w.pending
    ensures Inv(w.(pending := w.pending[a.id := w.pending[a.id] + Covered(a.ranges)]))
  {
    hide History, Buffered, Settled, Covered, Below, Handled, Known;
    var x := w.(pending := w.pending[a.id := w.pending[a.id] + Covered(a.ranges)]);
    SameHistory(w, x);
    SameSettled(w, x);
  }

  lemma SameHistory(w: World, x: World)
    requires History(w) && x.sent == w.sent && x.messages == w.messages && x.last == w.last && x.wire == w.wire
    ensures History(x)
  {
    hide SentWell, Genuine;
  }

  lemma SameSettled(w: World, x: World)
    requires Settled(w) && x.sent == w.sent && x.messages == w.messages && x.receiver == w.receiver
             && x.rejected == w.rejected
    ensures Settled(x)
  {
    hide Once, Exact, Handled, Ids;
  }

  lemma CopiesAreGenuine(id: uint64, frames: seq<Frame>, acked: set<int>, m: M.Message)
    requires SentWell(id, frames, m)
    ensures forall f :: f in Copies(frames, acked) ==> f.messageId == id && Genuine(f, frames)
  {
    hide Meaning, Sendable, Arrival;
    forall i | 0 <= i < |frames| ensures Again(frames[i]).messageId == id && Genuine(Again(frames[i]), frames) {
      assert Fitting(frames[i], id, |frames|, i);
    }
  }

  lemma RetransmitKeeps(w: World, id: uint64)
    requires Inv(w) && id in w.pending && id in w.sent
    ensures Inv(w.(wire := w.wire + Copies(w.sent[id], w.pending[id])))
  {
    hide Buffered, Settled, Covered, Below, Handled, Known, SentWell, Copies, Genuine;
    var x := w.(wire := w.wire + Copies(w.sent[id], w.pending[id]));
    SameSettled(w, x);
    CopiesAreGenuine(id, w.sent[id], w.pending[id], w.messages[id]);
    hide Honest;
    assert Honest(x) by { SameHonest(w, x); }
  }

  lemma SameHonest(w: World, x: World)
    requires Honest(w) && x.sent == w.sent && x.acks == w.acks && x.receiver == w.receiver && x.rejected == w.rejected
    requires x.pending == w.pending && x.succeeded == w.succeeded
    ensures Honest(x)
  {
    hide Covered, Below, Handled, Known;
  }

  /** Only a handled message is wholly acknowledged. */
  lemma UnhandledIsNotWhole(w: World, id: uint64)
    requires Buffered(w.receiver, w.sent) && Settled(w) && id in w.sent && 0 < |w.sent[id]| <= MAX_UINT32
    requires id !in Handled(w.receiver)
    ensures !Whole(KnownOf(w, id), |w.sent[id]|)
  {
    hide Handled, Exact, Once, Ids, Fits, Genuine;
    var total := |w.sent[id]|;
    if id in w.rejected {
      assert w.rejected[id] !in KnownOf(w, id);
    } else {
      var keys: set<int> := Held(w.receiver.buffers, id).Keys;
      if Whole(keys, total) {
        AllMarked(keys, total);
      }
      assert id in w.receiver.buffers ==> BufferOf(id, w.receiver.buffers[id], w.sent, w.receiver.delivered);
      assert |keys| == |Held(w.receiver.buffers, id)| < total;
    }
  }

  /** Only frames of the message are ever acknowledged. */
  lemma KnownIsInside(w: World, id: uint64)
    requires Buffered(w.receiver, w.sent) && id in w.sent && |w.sent[id]| <= MAX_UINT32
    ensures Inside(KnownOf(w, id), |w.sent[id]|)
  {
    hide Handled, Genuine;
    if id in w.receiver.buffers {
      assert BufferOf(id, w.receiver.buffers[id], w.sent, w.receiver.delivered);
    }
  }

  /** As many marks as frames on what is a part of the known frames: all of them are known. */
  lemma CountedIsKnown(acked: set<int>, known: set<int>, total: uint32)
    requires acked <= known && Inside(known, total) && Counted(acked, total)
    ensures Whole(known, total)
  {
    CountedIsWhole(acked, total);
  }

  /** A pending message leaves, and if it counts as a success it is handled. */
  lemma LeaveKeeps(w: World, id: uint64, succeeded: set<uint64>)
    requires Inv(w) && w.succeeded <= succeeded <= w.succeeded + {id}
    requires id in succeeded ==> id in Handled(w.receiver)
    ensures Inv(w.(pending := w.pending - {id}, succeeded := succeeded))
  {
    hide Buffered, Settled, Covered, Below, Handled, Known, History;
    var x := w.(pending := w.pending - {id}, succeeded := succeeded);
    SameSettled(w, x);
    SameHistory(w, x);
  }

  lemma SucceedKeeps(w: World, id: uint64)
    requires Inv(w) && id in w.pending && id in w.sent && |w.sent[id]| <= MAX_UINT32
             && Counted(w.pending[id], |w.sent[id]|)
    ensures Inv(w.(pending := w.pending - {id}, succeeded := w.succeeded + {id}))
  {
    assert w.sent[id] != [] by { assert SentWell(id, w.sent[id], w.messages[id]); }
    hide Buffered, Settled, Covered, Below, Handled, KnownOf, History;
    KnownIsInside(w, id);
    CountedIsKnown(w.pending[id], KnownOf(w, id), |w.sent[id]|);
    if id !in Handled(w.receiver) { UnhandledIsNotWhole(w, id); }
    LeaveKeeps(w, id, w.succeeded + {id});
  }

  lemma SucceededIsHandled(w: World)
    requires Inv(w)
    ensures w.succeeded <= Handled(w.receiver)
  {
    hide Handled;
  }

  /** Every step keeps the invariant. */
  lemma StepKeeps(w: World, e: Event)
    requires Inv(w) && Valid(w.receiver.buffers) && Enabled(w, e)
    ensures Inv(Step(w, e))
  {
    hide Inv, IsSplit, Sendable, Brought, Take, Secure, Receive, SendAck, Noted, SnapshotRanges;
    match e
    case Send(m, size, connection, frames) =>
      StampedIsSent(w.last + 1, m, size, frames, connection);
      hide SentWell;
      PostKeeps(w, m, Stamp(frames, connection));
    case Data(f, cut) => DataKeeps(w, f, cut);
    case Acked(a) => if a.id in w.pending { AckedKeeps(w, a); }
    case Retransmit(id) => RetransmitKeeps(w, id);
    case Succeed(id) => SucceedKeeps(w, id);
    case GiveUp(id) =>
      SucceededIsHandled(w);
      LeaveKeeps(w, id, w.succeeded);
    case Idle(id) => RecountKeeps(w, w.receiver.unacked[id := 0]);
    case Report(id) => ReportKeeps(w, id);
    case Read => ReadKeeps(w);
    case Install => InstallKeeps(w);
    case Shut => AsideKeeps(w, w.receiver.(closed := true), w.origins);
  }

  lemma ReadKeeps(w: World)
    requires Inv(w)
    ensures Inv(w.(receiver := Take(w.receiver),
                   origins := Brought(w.origins, w.receiver.window, Take(w.receiver).window, Front(w.receiver))))
  {
    TakeIsAside(w.receiver);
    hide Inv, Take, Brought;
    AsideKeeps(w, Take(w.receiver), Brought(w.origins, w.receiver.window, Take(w.receiver).window, Front(w.receiver)));
  }

  lemma TakeIsAside(r: Receiver)
    ensures SameFrames(r, Take(r))
  {
    hide Screen;
  }

  lemma InstallKeeps(w: World)
    requires Inv(w)
    ensures Inv(w.(receiver := Secure(w.receiver)))
  {
    hide Inv;
    AsideKeeps(w, Secure(w.receiver), w.origins);
  }

  /** Only the suite, the window and what was read may differ, and the stream may be closed. */
  ghost predicate SameFrames(r: Receiver, s: Receiver) {
    && s.open == r.open && s.buffers == r.buffers && s.delivered == r.delivered && s.unacked == r.unacked
    && s.inbox == r.inbox && s.repeated == r.repeated && (r.closed ==> s.closed)
  }

  lemma AsideKeeps(w: World, r: Receiver, origins: map<int, uint64>)
    requires Inv(w) && SameFrames(w.receiver, r)
    ensures Inv(w.(receiver := r, origins := origins))
  {
    hide Exact, Once, SentWell, BufferOf, Covered, Below, Valid;
    var x := w.(receiver := r, origins := origins);
    HandledFrom(w.receiver, r);
    hide Handled;
    assert forall id :: id in w.sent ==> KnownOf(x, id) == KnownOf(w, id);
    hide Known, KnownOf;
  }

  lemma StartIsInv(open: M.Message -> Opened)
    ensures Inv(Beginning(open))
  {
  }

  lemma {:induction false} RunKeeps(ws: seq<World>, es: seq<Event>, n: nat)
    requires Run(ws, es) && n < |ws|
    ensures Inv(ws[n])
  {
    hide Inv, Step, Enabled, Valid;
    if n == 0 {
      StartIsInv(ws[0].receiver.open);
    } else {
      RunKeeps(ws, es, n - 1);
      var m := n - 1;
      assert Steps(ws[m], es[m], ws[n]);
      StepKeeps(ws[m], es[m]);
    }
  }

  // ---- The results -------------------------------------------------------------------------

  /** In every run: whatever succeeded was handed over or judged a repetition, and never rejected;
      nothing is handed over twice, and everything handed over is the message sent under its ID. */
  lemma SuccessIsHandled(ws: seq<World>, es: seq<Event>, n: nat)
    requires Run(ws, es) && n < |ws|
    ensures ws[n].succeeded <= Ids(ws[n].receiver.inbox) + ws[n].receiver.repeated
    ensures ws[n].succeeded !! ws[n].rejected.Keys
    ensures Once(ws[n].receiver.inbox)
    ensures Exact(ws[n].receiver.open, ws[n].receiver.inbox, ws[n].messages)
  {
    RunKeeps(ws, es, n);
    hide History, Buffered, Once, Exact, Ids;
  }
}
