/** No reachable state is a dead end: one retransmission that is not lost completes a message.

    The frames that are still missing are delivered one after the other. Each of them leaves the
    receiver open and either confirms the message or adds one frame to what is held; since the
    receiver never holds all of a message, the last one must confirm it. */
module ArqProgress {
  import opened Sequences
  import opened Bytes
  import opened FrameCodec
  import opened FrameAssembly
  import opened Assembler
  import opened AckRanges
  import opened AckTracking
  import opened Arq
  import opened ArqSafety
  import M = MessageCodec

  // ---- What closes a stream ----------------------------------------------------------------

  /** The largest frame count for which an ACK always fits: every other frame is a range of its own. */
  const ACKABLE := 2 * MAX_UINT16

  lemma {:induction false} GapsAdvance(ranges: seq<AckRange>, i: nat)
    requires Maximal(ranges) && i < |ranges|
    ensures ranges[i].end >= 2 * i
  {
    if i > 0 {
      GapsAdvance(ranges, i - 1);
      assert ranges[i - 1].end + 1 < ranges[i].start;
    }
  }

  /** Ranges with gaps between them, of frames below n, are at most half of n, rounded up. */
  lemma SnapshotIsHalf(b: Buffer)
    ensures 2 * |SnapshotRanges(b)| <= b.total + 1
  {
    var seqs := Present(b.frames, b.total);
    RunsAreMaximal(seqs);
    if seqs != [] {
      assert seqs[|seqs| - 1] in seqs;
      GapsAdvance(Runs(seqs), |Runs(seqs)| - 1);
    }
  }

  lemma SnapshotFits(b: Buffer)
    requires b.total <= ACKABLE
    ensures EncodeAckRanges(SnapshotRanges(b)).Some?
  {
    SnapshotIsHalf(b);
    hide SnapshotRanges;
  }

  /** Every second frame below 2k is there, and no other. */
  ghost predicate Evens(frames: map<uint32, Frame>, k: nat) {
    forall j: uint32 :: j in frames <==> j < 2 * k && j % 2 == 0
  }

  lemma AddApart(seqs: seq<uint32>, s: uint32)
    requires Ascending(seqs) && (seqs == [] || seqs[|seqs| - 1] + 1 < s)
    ensures |Runs(seqs + [s])| == |Runs(seqs)| + 1
  {
    RunsAreMaximal(seqs);
    assert (seqs + [s])[..|seqs|] == seqs;
  }

  lemma LastIsEven(frames: map<uint32, Frame>, k: nat, n: nat)
    requires Evens(frames, k) && n <= MAX_UINT32
    ensures var seqs := Present(frames, n); seqs != [] ==> seqs[|seqs| - 1] < n && seqs[|seqs| - 1] % 2 == 0
  {
    var seqs := Present(frames, n);
    if seqs != [] {
      assert seqs[|seqs| - 1] in seqs;
    }
  }

  lemma PresentStep(frames: map<uint32, Frame>, n: nat)
    requires 0 < n <= MAX_UINT32
    ensures Present(frames, n) == Present(frames, n - 1) + if n - 1 in frames then [n - 1] else []
  {
  }

  function CountRuns(frames: map<uint32, Frame>, n: nat): (k: nat)
    requires n <= MAX_UINT32
  {
    |Runs(Present(frames, n))|
  }

  lemma EvenStep(frames: map<uint32, Frame>, k: nat, n: nat)
    requires Evens(frames, k) && 0 < n <= MAX_UINT32
    ensures CountRuns(frames, n) == CountRuns(frames, n - 1) + if n <= 2 * k && n % 2 == 1 then 1 else 0
  {
    hide Present, Runs;
    var before := Present(frames, n - 1);
    PresentStep(frames, n);
    LastIsEven(frames, k, n - 1);
    assert n - 1 in frames <==> n <= 2 * k && n % 2 == 1;
    hide Evens;
    if n - 1 in frames {
      AddApart(before, n - 1);
    } else {
      assert before + [] == before;
    }
  }

  lemma {:induction false} EvensAreApart(frames: map<uint32, Frame>, k: nat, n: nat)
    requires Evens(frames, k) && n <= MAX_UINT32
    ensures CountRuns(frames, n) == if n <= 2 * k then (n + 1) / 2 else k
  {
    if n > 0 {
      EvensAreApart(frames, k, n - 1);
      hide CountRuns;
      EvenStep(frames, k, n);
    }
  }

  /** They are reported one by one. */
  lemma EvenSnapshot(b: Buffer, k: nat)
    requires Evens(b.frames, k) && 2 * k <= b.total + 1
    ensures |SnapshotRanges(b)| == k
  {
    EvensAreApart(b.frames, k, b.total);
    hide Runs, Present;
  }

  function EvenFrames(id: uint64, total: uint32): (frames: map<uint32, Frame>) {
    map k: uint32 | 0 <= k < total && k % 2 == 0 :: Frame(id, k, total, 0, DATA, [], [])
  }

  lemma {:induction false} EvensAreHalf(id: uint64, total: uint32, n: nat)
    requires 1 < total && n <= total
    ensures |set k | k in EvenFrames(id, total) && k < n| <= (n + 1) / 2
  {
    var frames := EvenFrames(id, total);
    var s := set k | k in frames && k < n;
    if n == 0 {
      assert s == {};
    } else {
      EvensAreHalf(id, total, n - 1);
      var less := set k | k in frames && k < n - 1;
      assert s == if n - 1 in frames then less + {n - 1} else less;
    }
  }

  /** A buffer the assembler may hold. */
  ghost predicate Holdable(id: uint64, b: Buffer) { Fits(id, b.total, b.frames) && |b.frames| < b.total }

  lemma EvensAreHeld(id: uint64, total: uint32)
    requires 1 < total
    ensures Holdable(id, Buffer(total, EvenFrames(id, total)))
  {
    var frames := EvenFrames(id, total);
    EvensAreHalf(id, total, total);
    assert frames.Keys == set k | k in frames && k < total;
  }

  /** Reporting on a message never closes the stream exactly when it has at most 131070 frames: of a
      longer one every second frame may be there, and then the ranges do not fit an ACK. */
  lemma ReportsFitExactly(r: Receiver, id: uint64, total: uint32)
    requires !r.closed
    ensures total <= ACKABLE <==>
            forall b: Buffer :: b.total == total && Holdable(id, b) ==> !SendAck(r, id, SnapshotRanges(b)).0.closed
  {
    if total <= ACKABLE {
      forall b: Buffer | b.total == total ensures !SendAck(r, id, SnapshotRanges(b)).0.closed {
        SnapshotFits(b);
      }
    } else {
      var b := Buffer(total, EvenFrames(id, total));
      EvensAreHeld(id, total);
      EvenSnapshot(b, (total + 1) / 2);
      assert SendAck(r, id, SnapshotRanges(b)).0.closed;
    }
  }

  ghost predicate Continues(w: World, x: World) {
    && !x.receiver.closed
    && x.sent == w.sent && x.messages == w.messages && x.pending == w.pending && x.wire == w.wire
    && w.acks <= x.acks
  }

  /** Opening a message would give the same. */
  ghost predicate SameGate(r: Receiver, s: Receiver) {
    s.open == r.open && s.secured == r.secured && s.window == r.window
  }

  /** Opening the message would not close the stream: it has been judged before, or it would be handed
      over or dropped as a repetition. */
  ghost predicate Welcome(w: World, id: uint64) {
    || id in w.receiver.delivered
    || (id in w.messages && Sendable(w.messages[id])
        && Judge(w.receiver, Arrival(w.messages[id]), false).verdict != Rejected)
  }

  ghost predicate Confirmed(w: World, id: uint64)
    requires id in w.sent
  {
    |w.sent[id]| <= MAX_UINT32 && Ack(id, FullAck(|w.sent[id]|)) in w.acks
  }

  ghost predicate Holds(w: World, id: uint64, keys: set<int>) {
    id !in Handled(w.receiver) && keys <= Held(w.receiver.buffers, id).Keys
  }

  lemma CountContinues(w: World, id: uint64)
    requires id in w.receiver.buffers && w.receiver.buffers[id].total <= ACKABLE && !w.receiver.closed
    ensures var (r, a) := Count(w.receiver, id);
            && Continues(w, w.(receiver := r, acks := w.acks + Answers(a)))
            && r.buffers == w.receiver.buffers && Handled(r) == Handled(w.receiver)
            && SameGate(w.receiver, r) && r.delivered == w.receiver.delivered
  {
    SnapshotFits(w.receiver.buffers[id]);
    hide SnapshotRanges, EncodeAckRanges;
  }

  lemma FullAnswerContinues(w: World, f: Frame)
    requires !w.receiver.closed && f.messageId in w.sent && f.total == |w.sent[f.messageId]|
    ensures var x := Answered(w, f.messageId, FullAck(f.total)); Continues(w, x) && Confirmed(x, f.messageId)
  {
  }

  lemma WaitContinues(w: World, f: Frame, cut: bool)
    requires Listening(w, f) && Waits(w.receiver, f) && f.total <= ACKABLE && f.messageId !in Handled(w.receiver)
    requires f.messageId in w.receiver.buffers ==> w.receiver.buffers[f.messageId].total == f.total
    requires f.messageId !in w.receiver.delivered
    requires AlreadyKnown(w.receiver, f, AddFrame(w.receiver.buffers, f)) ==>
               f.seqId in Held(w.receiver.buffers, f.messageId)
    ensures var x := Step(w, Data(f, cut));
            && Continues(w, x) && Holds(x, f.messageId, Held(w.receiver.buffers, f.messageId).Keys + {f.seqId})
            && SameGate(w.receiver, x.receiver) && x.receiver.delivered == w.receiver.delivered
  {
    WaitStep(w, f, cut);
    var s := AddFrame(w.receiver.buffers, f);
    hide AddFrame, Count, Step, Handled, Valid;
    var y := w.(receiver := w.receiver.(buffers := s.0));
    HandledFrom(w.receiver, y.receiver);
    CountContinues(y, f.messageId);
  }

  lemma KnownIsHeld(r: Receiver, f: Frame)
    requires Valid(r.buffers) && Wellformed(r.buffers, f) && (f.kind == DATA || f.kind == RETRANSMIT)
    requires AlreadyKnown(r, f, AddFrame(r.buffers, f))
    ensures f.seqId in Held(r.buffers, f.messageId)
  {
    AddFrameCases(r.buffers, f);
    hide AddFrame, Meaning, InOrder, Full;
  }

  lemma DoneContinues(w: World, f: Frame, m: M.Message)
    requires Listening(w, f) && f.messageId !in w.receiver.delivered && Judge(w.receiver, m, false).verdict != Rejected
    requires f.messageId in w.sent && f.total == |w.sent[f.messageId]|
    requires AddFrame(w.receiver.buffers, f) == (w.receiver.buffers - {f.messageId}, Done(Some(m)))
    ensures var x := Step(w, Data(f, false));
            Continues(w, x) && Confirmed(x, f.messageId) && f.messageId in x.receiver.delivered
  {
    hide AddFrame, Step, FullAck, Answered, Judge, Closing, Brought, Confirmed;
    DoneStep(w, f, false, m);
    ClosingParts(w.receiver, f, m, false);
    ClosingStaysOpen(w.receiver, f, m, false);
    var y := Delivered(w, f, m, false);
    FullAnswerContinues(y, f);
    AnsweredDelivers(y, f.messageId, FullAck(f.total));
  }

  lemma AnsweredDelivers(w: World, id: uint64, ranges: seq<AckRange>)
    ensures Answered(w, id, ranges).receiver.delivered == w.receiver.delivered
  {
    hide EncodeAckRanges;
  }

  lemma ClosingStaysOpen(r: Receiver, f: Frame, m: M.Message, cut: bool)
    requires !r.closed && Judge(r, m, cut).verdict != Rejected
    ensures !Closing(r, f, m, cut).closed
  {
    hide Judge;
  }

  lemma NewContinues(w: World, f: Frame, m: M.Message)
    requires Listening(w, f) && Buffered(w.receiver, w.sent) && f.messageId !in w.receiver.delivered
    requires f.messageId in w.sent && |w.sent[f.messageId]| <= ACKABLE && f.messageId !in Handled(w.receiver)
    requires SentWell(f.messageId, w.sent[f.messageId], m) && Genuine(f, w.sent[f.messageId])
    requires Sendable(m) && Judge(w.receiver, Arrival(m), false).verdict != Rejected
    ensures Outcome(w, f, Step(w, Data(f, false)))
  {
    hide AddFrame, Step, Buffered, Fitting, Confirmed, Holds, Continues, Handled, Wellformed, Meaning, Arrival,
        Complete, Judge;
    GenuineIsWellformed(w.receiver, f, w.sent);
    GenuineIsAccepted(w.receiver, f, w.sent, m);
    hide SentWell;
    if Completed(w.receiver, f, AddFrame(w.receiver.buffers, f), m) {
      DoneContinues(w, f, Arrival(m));
    } else {
      if AlreadyKnown(w.receiver, f, AddFrame(w.receiver.buffers, f)) { KnownIsHeld(w.receiver, f); }
      WellformedTotal(w.receiver.buffers, f);
      WaitContinues(w, f, false);
    }
  }

  /** A frame of a message of at most 131070 frames whose opening is no error leaves the stream open;
      the message is then confirmed, or the receiver holds one frame more. */
  lemma DataContinues(w: World, f: Frame)
    requires Valid(w.receiver.buffers) && f in w.wire && Inv(w) && !w.receiver.closed && Welcome(w, f.messageId)
    requires f.messageId in w.sent && |w.sent[f.messageId]| <= ACKABLE
    ensures Outcome(w, f, Step(w, Data(f, false)))
  {
    hide AddFrame, Step, Buffered, Honest, SentWell, Fitting, Confirmed, Holds, Continues, Genuine, FullAck, Answered,
        Judge;
    ArrivingIsGenuine(w, f);
    if f.messageId in w.receiver.delivered {
      RepeatStep(w, f, false);
      FullAnswerContinues(w, f);
      AnsweredDelivers(w, f.messageId, FullAck(f.total));
    } else {
      NewContinues(w, f, w.messages[f.messageId]);
    }
  }

  lemma WellformedTotal(buffers: Buffers, f: Frame)
    requires Wellformed(buffers, f)
    ensures f.messageId in buffers ==> buffers[f.messageId].total == f.total
  {
  }

  ghost predicate Outcome(w: World, f: Frame, x: World)
    requires f.messageId in w.sent
  {
    && Continues(w, x)
    && (f.messageId in w.receiver.delivered ==> Confirmed(x, f.messageId) && f.messageId in x.receiver.delivered)
    && (|| (Confirmed(x, f.messageId) && f.messageId in x.receiver.delivered)
        || (&& Holds(x, f.messageId, Held(w.receiver.buffers, f.messageId).Keys + {f.seqId})
            && SameGate(w.receiver, x.receiver)))
  }

  // ---- Recovery ----------------------------------------------------------------------------

  ghost predicate Path(ws: seq<World>, es: seq<Event>) {
    |ws| == |es| + 1 && forall i, j :: 0 <= i && j == i + 1 < |ws| ==> Steps(ws[i], es[i], ws[j])
  }

  lemma PathGrows(ws: seq<World>, es: seq<Event>, e: Event, x: World)
    requires Path(ws, es) && Steps(ws[|es|], e, x)
    ensures Path(ws + [x], es + [e])
  {
    hide Steps;
  }

  /** The first k missing frames of a message were delivered again. */
  ghost predicate Underway(x: World, id: uint64, k: nat, acked: set<int>) {
    && Inv(x) && !x.receiver.closed && Welcome(x, id)
    && id in x.sent && id in x.pending && x.pending[id] == acked && Copies(x.sent[id], acked) <= x.wire
    && (Confirmed(x, id) || Holds(x, id, acked + Interval(0, k))
        || (id in x.receiver.delivered && Interval(0, k) <= acked))
  }

  lemma CopyIsThere(x: World, id: uint64, k: nat, acked: set<int>)
    requires id in x.sent && k < |x.sent[id]| && k !in acked && Copies(x.sent[id], acked) <= x.wire
    requires |x.sent[id]| <= MAX_UINT32 && Complete(x.sent[id], id, |x.sent[id]|)
    ensures var f := Again(x.sent[id][k]); f in x.wire && f.messageId == id && f.seqId == k
  {
    assert Again(x.sent[id][k]) in Copies(x.sent[id], acked);
    assert Fitting(x.sent[id][k], id, |x.sent[id]|, k);
  }

  lemma IntervalGrows(k: nat)
    ensures Interval(0, k + 1) == Interval(0, k) + {k}
  {
    forall i: int ensures i in Interval(0, k + 1) <==> i in Interval(0, k) || i == k {
      assert Within(0, k + 1, i) <==> (Within(0, k, i) || i == k);
    }
  }

  lemma SkipAcked(x: World, id: uint64, k: nat, acked: set<int>)
    requires Underway(x, id, k, acked) && k in acked
    ensures Underway(x, id, k + 1, acked)
  {
    hide Inv, Copies, Interval, Confirmed, Welcome;
    IntervalGrows(k);
  }

  lemma AgainGrows(x: World, y: World, id: uint64, k: nat, acked: set<int>, f: Frame)
    requires Underway(x, id, k, acked) && f.messageId == id && f.seqId == k && Outcome(x, f, y) && Inv(y) && k !in acked
    ensures Underway(y, id, k + 1, acked)
  {
    hide Inv, Copies, Interval, Handled, Welcome;
    IntervalGrows(k);
    WelcomeStays(x, y, id);
  }

  lemma WelcomeStays(x: World, y: World, id: uint64)
    requires Welcome(x, id) && y.messages == x.messages
    requires id in x.receiver.delivered ==> id in y.receiver.delivered
    requires id in y.receiver.delivered || SameGate(x.receiver, y.receiver)
    ensures Welcome(y, id)
  {
    hide Screen, Sendable, Arrival;
  }

  lemma NextAgain(x: World, id: uint64, k: nat, acked: set<int>) returns (y: World)
    requires Underway(x, id, k, acked) && |x.sent[id]| <= ACKABLE && k < |x.sent[id]| && k !in acked
    ensures Steps(x, Data(Again(x.sent[id][k]), false), y) && Underway(y, id, k + 1, acked) && y.sent == x.sent
  {
    hide Copies, Interval, Step, Holds, Confirmed, Settled, Honest, Meaning, Sendable, Arrival, Valid;
    assert Complete(x.sent[id], id, |x.sent[id]|) by { assert SentWell(id, x.sent[id], x.messages[id]); }
    BufferedIsValid(x.receiver, x.sent);
    hide Inv, Complete;
    CopyIsThere(x, id, k, acked);
    var f := Again(x.sent[id][k]);
    y := Step(x, Data(f, false));
    StepKeeps(x, Data(f, false));
    DataContinues(x, f);
    AgainGrows(x, y, id, k, acked, f);
  }

  predicate Redelivery(e: Event, frames: seq<Frame>, acked: set<int>) {
    e.Data? && !e.cut && exists i :: 0 <= i < |frames| && i !in acked && e.f == Again(frames[i])
  }

  lemma {:induction false} Redeliver(x: World, id: uint64, k: nat, acked: set<int>)
    returns (ws: seq<World>, es: seq<Event>)
    requires Underway(x, id, 0, acked) && |x.sent[id]| <= ACKABLE && k <= |x.sent[id]|
    ensures Path(ws, es) && ws[0] == x && Underway(ws[|es|], id, k, acked) && ws[|es|].sent == x.sent
    ensures forall i :: 0 <= i < |es| ==> Redelivery(es[i], x.sent[id], acked)
    decreases k
  {
    hide Steps, Inv;
    if k == 0 {
      return [x], [];
    }
    ws, es := Redeliver(x, id, k - 1, acked);
    var last := ws[|es|];
    hide Underway;
    if k - 1 in acked {
      SkipAcked(last, id, k - 1, acked);
    } else {
      var next := NextAgain(last, id, k - 1, acked);
      var e := Data(Again(last.sent[id][k - 1]), false);
      PathGrows(ws, es, e, next);
      assert Redelivery(e, x.sent[id], acked);
      hide Redelivery;
      ws, es := ws + [next], es + [e];
    }
  }

  lemma SentIsSome(w: World, id: uint64)
    requires Inv(w) && id in w.sent
    ensures 0 < |w.sent[id]| <= MAX_UINT32
  {
    hide Buffered, Settled, Honest, Meaning, Sendable, Arrival, Complete, Genuine;
    assert SentWell(id, w.sent[id], w.messages[id]);
  }

  /** An open receiver that has not handled a message does not hold all of it. */
  lemma HeldIsNotWhole(x: World, id: uint64, keys: set<int>)
    requires Inv(x) && id in x.sent && Holds(x, id, keys) && id !in x.rejected
    ensures !Whole(keys, |x.sent[id]|)
  {
    SentIsSome(x, id);
    hide History, Honest, Handled;
    assert keys <= KnownOf(x, id);
    hide Known, KnownOf, Holds;
    UnhandledIsNotWhole(x, id);
    hide Buffered, Settled;
  }

  lemma IntervalIsWhole(total: uint32)
    ensures Whole(Interval(0, total), total)
  {
    assert forall k :: 0 <= k < total ==> Within(0, total, k);
  }

  /** All missing frames were delivered: everything is acknowledged, or will be by the final ACK. */
  lemma AllAgain(x: World, id: uint64, acked: set<int>)
    requires id in x.sent && Underway(x, id, |x.sent[id]|, acked)
    ensures |x.sent[id]| <= MAX_UINT32 && (Confirmed(x, id) || Whole(acked, |x.sent[id]|))
  {
    SentIsSome(x, id);
    IntervalIsWhole(|x.sent[id]|);
    hide Copies, Honest, History, Buffered, Confirmed, Interval, Exact, Once;
    if Holds(x, id, acked + Interval(0, |x.sent[id]|)) {
      assert id !in x.rejected;
      hide Settled, Holds;
      HeldIsNotWhole(x, id, acked + Interval(0, |x.sent[id]|));
    }
  }

  lemma Retransmitted(w: World, id: uint64) returns (x: World)
    requires Inv(w) && id in w.pending && !w.receiver.closed && Welcome(w, id)
    ensures Steps(w, Retransmit(id), x) && Underway(x, id, 0, w.pending[id]) && x.sent == w.sent
  {
    hide History, Settled, Handled, Interval, Known, Copies, Covered, Below;
    BufferedIsValid(w.receiver, w.sent);
    x := Step(w, Retransmit(id));
    StepKeeps(w, Retransmit(id));
    InitiallyHeld(w, id);
    hide Buffered;
  }

  lemma InitiallyHeld(w: World, id: uint64)
    requires Inv(w) && id in w.pending && !w.receiver.closed
    ensures id in w.receiver.delivered || Holds(w, id, w.pending[id] + Interval(0, 0))
    ensures Interval(0, 0) <= w.pending[id]
  {
    hide History, Buffered, Exact, Once, Ids, Covered, Below;
    assert Interval(0, 0) == {};
    assert w.pending[id] <= KnownOf(w, id);
  }

  lemma SucceedStep(x: World, id: uint64)
    requires Valid(x.receiver.buffers) && id in x.pending && id in x.sent && |x.sent[id]| <= MAX_UINT32
    requires Whole(x.pending[id], |x.sent[id]|)
    ensures Steps(x, Succeed(id), x.(pending := x.pending - {id}, succeeded := x.succeeded + {id}))
  {
    WholeIsCounted(x.pending[id], |x.sent[id]|);
  }

  lemma AckedStep(x: World, a: Ack)
    requires Valid(x.receiver.buffers) && a in x.acks && a.id in x.pending
    ensures Steps(x, Acked(a), x.(pending := x.pending[a.id := x.pending[a.id] + Covered(a.ranges)]))
  {
  }

  lemma Conclude(x: World, id: uint64, acked: set<int>) returns (ws: seq<World>, es: seq<Event>)
    requires id in x.sent && Underway(x, id, |x.sent[id]|, acked) && |x.sent[id]| <= ACKABLE
    ensures Path(ws, es) && ws[0] == x && id in ws[|es|].succeeded
    ensures forall i :: 0 <= i < |es| ==> es[i] == Acked(Ack(id, FullAck(|x.sent[id]|))) || es[i] == Succeed(id)
  {
    hide History, Settled, Honest, Copies, Holds, Valid, FullAck, Steps, Whole, Covered, Interval;
    AllAgain(x, id, acked);
    SentIsSome(x, id);
    BufferedIsValid(x.receiver, x.sent);
    hide Inv, Buffered;
    var total := |x.sent[id]|;
    var y := x;
    ws, es := [x], [];
    if !Whole(acked, total) {
      var a := Ack(id, FullAck(total));
      AckedStep(x, a);
      y := x.(pending := x.pending[id := x.pending[id] + Covered(a.ranges)]);
      FullAckIsExact(total);
      IntervalIsWhole(total);
      WholeGrows(Interval(0, total), y.pending[id], total);
      ws, es := [x, y], [Acked(a)];
    }
    SucceedStep(y, id);
    var z := y.(pending := y.pending - {id}, succeeded := y.succeeded + {id});
    PathGrows(ws, es, Succeed(id), z);
    ws, es := ws + [z], es + [Succeed(id)];
  }

  lemma WholeGrows(s: set<int>, t: set<int>, total: uint32)
    requires Whole(s, total) && s <= t
    ensures Whole(t, total)
  {
  }

  lemma PathJoins(ws: seq<World>, es: seq<Event>, vs: seq<World>, fs: seq<Event>)
    requires Path(ws, es) && Path(vs, fs) && ws[|es|] == vs[0]
    ensures Path(ws + vs[1..], es + fs) && (ws + vs[1..])[|es| + |fs|] == vs[|fs|]
  {
    hide Steps;
    var all, events := ws + vs[1..], es + fs;
    forall i, j | 0 <= i && j == i + 1 < |all| ensures Steps(all[i], events[i], all[j]) {
      if i < |es| {
        assert Steps(ws[i], es[i], ws[j]);
      } else {
        var m, n := i - |es|, j - |es|;
        assert Steps(vs[m], fs[m], vs[n]);
        assert all[i] == vs[m] && all[j] == vs[n];
      }
    }
  }

  /** From every reachable state with an open receiver, a pending message of at most 131070 frames whose
      opening is no error succeeds after one retransmission whose frames all arrive, and at most one
      ACK. */
  lemma Recovery(w: World, id: uint64) returns (ws: seq<World>, es: seq<Event>)
    requires Inv(w) && id in w.pending && id in w.sent && |w.sent[id]| <= ACKABLE && !w.receiver.closed
             && Welcome(w, id)
    ensures Path(ws, es) && ws[0] == w && id in ws[|es|].succeeded
    ensures forall i :: 0 <= i < |es| ==>
              || es[i] == Retransmit(id)
              || Redelivery(es[i], w.sent[id], w.pending[id])
              || es[i] == Acked(Ack(id, FullAck(|w.sent[id]|)))
              || es[i] == Succeed(id)
  {
    hide Inv, Underway, Steps, Redelivery, FullAck, Welcome;
    var x := Retransmitted(w, id);
    var acked := w.pending[id];
    assert Path([w], []) by { }
    PathGrows([w], [], Retransmit(id), x);
    assert [w] + [x] == [w, x] && [] + [Retransmit(id)] == [Retransmit(id)];
    var us, ds := Redeliver(x, id, |x.sent[id]|, acked);
    var vs, fs := Conclude(us[|ds|], id, acked);
    PathJoins(us, ds, vs, fs);
    PathJoins([w, x], [Retransmit(id)], us + vs[1..], ds + fs);
    ws, es := [w, x] + (us + vs[1..])[1..], [Retransmit(id)] + (ds + fs);
  }
}
