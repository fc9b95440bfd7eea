/** What the receiver answers to each frame: everything, once the message is complete; what it holds, to every
    hundredth frame that waits; and nothing otherwise. */
module ArqAnswers {
  import opened Sequences
  import opened Bytes
  import opened FrameCodec
  import opened FrameAssembly
  import opened Assembler
  import opened AckRanges
  import opened Arq
  import opened ArqSafety
  import M = MessageCodec
  import W = ReplayWindow

  /** Only messages of which some frame is held are counted, and never to a hundred. */
  ghost predicate Counting(r: Receiver) {
    forall id :: id in r.unacked ==> id in r.buffers && r.unacked[id] < 100
  }

  /** The answer to a frame of a message that is complete. */
  function Everything(f: Frame): (a: Ack)
    requires f.total > 0
  {
    Ack(f.messageId, [AckRange(0, f.total - 1)])
  }

  /** A frame is counted; the hundredth is answered with exactly what is held, unless that does not fit, which closes
      the stream. */
  ghost predicate Tallied(unacked: map<uint64, nat>, id: uint64, frames: map<uint32, Frame>, x: Receiver,
                          a: Option<Ack>)
  {
    var n := if id in unacked then unacked[id] else 0;
    if n < 99 then a == None && !x.closed && x.unacked == unacked[id := n + 1]
    else
      && x.unacked == unacked[id := 0] && (a.None? <==> x.closed)
      && (a.Some? ==>
            && a.value.id == id && Maximal(a.value.ranges)
            && forall s :: Covers(a.value.ranges, s) <==> s in frames)
  }

  /** A frame that waits is added to what is held and counted. */
  ghost predicate Waited(r: Receiver, f: Frame, x: Receiver, a: Option<Ack>) {
    var id := f.messageId;
    && id in x.buffers && x.buffers == r.buffers[id := x.buffers[id]] && x.buffers[id].total == f.total
    && x.buffers[id].frames.Keys == Held(r.buffers, id).Keys + {f.seqId}
    && x.delivered == r.delivered && x.inbox == r.inbox
    && Tallied(r.unacked, id, x.buffers[id].frames, x, a)
  }

  lemma CountTallies(r: Receiver, id: uint64)
    requires id in r.buffers && Fits(id, r.buffers[id].total, r.buffers[id].frames) && Counting(r) && !r.closed
    ensures var (x, a) := Count(r, id);
            && x.buffers == r.buffers && x.delivered == r.delivered && x.inbox == r.inbox && Counting(x)
            && Tallied(r.unacked, id, r.buffers[id].frames, x, a)
  {
    SnapshotIsExact(id, r.buffers[id]);
    hide SnapshotRanges, EncodeAckRanges, Maximal, Covers, Fits;
  }

  lemma BufferFits(buffers: Buffers, id: uint64)
    requires Valid(buffers) && id in buffers
    ensures Fits(id, buffers[id].total, buffers[id].frames)
  {
  }

  lemma WaitsAdds(r: Receiver, f: Frame)
    requires Valid(r.buffers) && Waits(r, f) && Wellformed(r.buffers, f) && (f.kind == DATA || f.kind == RETRANSMIT)
    ensures var (b, reception) := AddFrame(r.buffers, f);
            && reception == Waiting && f.messageId in b && b == r.buffers[f.messageId := b[f.messageId]]
            && b[f.messageId].total == f.total
            && b[f.messageId].frames.Keys == Held(r.buffers, f.messageId).Keys + {f.seqId}
            && Fits(f.messageId, f.total, b[f.messageId].frames)
  {
    hide AddFrame, Meaning, InOrder, Valid, Fits, Full;
    AddFrameCases(r.buffers, f);
    BufferFits(AddFrame(r.buffers, f).0, f.messageId);
  }

  lemma ReceiveCounts(r: Receiver, f: Frame, cut: bool)
    requires Valid(r.buffers) && !r.closed && f.messageId !in r.delivered && AddFrame(r.buffers, f).1 == Waiting
    ensures Receive(r, f, cut) == Count(r.(buffers := AddFrame(r.buffers, f).0), f.messageId)
  {
    hide AddFrame, Count;
  }

  lemma CountingGrows(r: Receiver, buffers: Buffers)
    requires Counting(r) && forall id :: id in r.buffers ==> id in buffers
    ensures Counting(r.(buffers := buffers))
  {
  }

  lemma WaitIsWaited(r: Receiver, f: Frame, cut: bool)
    requires Valid(r.buffers) && Waits(r, f) && !r.closed && Counting(r) && f.messageId !in r.delivered
    requires Wellformed(r.buffers, f) && (f.kind == DATA || f.kind == RETRANSMIT)
    ensures var (x, a) := Receive(r, f, cut); Waited(r, f, x, a) && Counting(x)
  {
    hide Receive, AddFrame, Count, Fits, Wellformed, Counting, Tallied, Valid, Waits;
    WaitsAdds(r, f);
    ReceiveCounts(r, f, cut);
    CountingGrows(r, AddFrame(r.buffers, f).0);
    CountTallies(r.(buffers := AddFrame(r.buffers, f).0), f.messageId);
  }

  lemma FullFits(r: Receiver, f: Frame)
    requires f.total > 0
    ensures SendAck(r, f.messageId, FullAck(f.total)) == (r, Some(Everything(f)))
  {
  }

  /** Every frame of a sent message that arrives at an open receiver: one of a message that was delivered, or that it
      completes, is answered with everything, unless opening the message closes the stream; any other waits. */
  lemma AnswersExactly(w: World, f: Frame, cut: bool)
    requires Valid(w.receiver.buffers) && Inv(w) && Counting(w.receiver) && f in w.wire && !w.receiver.closed
    ensures f.total > 0
    ensures var r := w.receiver;
            var (x, a) := Receive(r, f, cut);
            && Counting(x)
            && if f.messageId in r.delivered then x == r && a == Some(Everything(f))
               else if Finishes(r, f) then
                 && x.buffers == r.buffers - {f.messageId} && x.unacked == r.unacked - {f.messageId}
                 && x.delivered == r.delivered + {f.messageId}
                 && if Judge(r, Finished(r, f), cut).verdict == Rejected then a == None && x.closed
                    else a == Some(Everything(f)) && !x.closed
               else Waited(r, f, x, a)
  {
    hide AddFrame, Buffered, Honest, Settled, Meaning, Sendable, Arrival, Judge, Waited, Fitting;
    ArrivingIsGenuine(w, f);
    hide SentWell;
    if f.messageId !in w.receiver.delivered {
      GenuineIsWellformed(w.receiver, f, w.sent);
      GenuineIsAccepted(w.receiver, f, w.sent, w.messages[f.messageId]);
      hide Inv, Genuine;
      if Completed(w.receiver, f, AddFrame(w.receiver.buffers, f), w.messages[f.messageId]) {
        FinishAnswers(w.receiver, f, cut, Arrival(w.messages[f.messageId]));
      } else {
        WaitIsWaited(w.receiver, f, cut);
      }
    } else {
      FullFits(w.receiver, f);
      hide SendAck, FullAck;
    }
  }

  lemma ClosingLeaves(r: Receiver, f: Frame, m: M.Message, cut: bool)
    requires !r.closed
    ensures var x := Closing(r, f, m, cut);
            && x.buffers == r.buffers - {f.messageId} && x.unacked == r.unacked - {f.messageId}
            && x.delivered == r.delivered + {f.messageId} && x.closed == (Judge(r, m, cut).verdict == Rejected)
  {
    hide Judge;
  }

  lemma FinishAnswers(r: Receiver, f: Frame, cut: bool, m: M.Message)
    requires Valid(r.buffers) && !r.closed && f.messageId !in r.delivered && f.total > 0 && Counting(r)
    requires AddFrame(r.buffers, f) == (r.buffers - {f.messageId}, Done(Some(m)))
    ensures Finishes(r, f) && Finished(r, f) == m
    ensures var (x, a) := Receive(r, f, cut);
            && Counting(x)
            && x.buffers == r.buffers - {f.messageId} && x.unacked == r.unacked - {f.messageId}
            && x.delivered == r.delivered + {f.messageId}
            && if Judge(r, m, cut).verdict == Rejected then a == None && x.closed
               else a == Some(Everything(f)) && !x.closed
  {
    hide AddFrame, Judge, SendAck, FullAck, Receive, Closing, Finishes, Finished;
    DoneFinishes(r, f, m);
    DoneReceives(r, f, cut, m);
    ClosingLeaves(r, f, m, cut);
    FullFits(Closing(r, f, m, cut), f);
  }

  // ---- Judging a message -------------------------------------------------------------------

  /** The sequence was never accepted and is less than 65536 behind every accepted one. */
  ghost predicate IsNew(w: W.Window, s: nat) { s !in w.accepted && forall a :: a in w.accepted ==> a < s + 65536 }

  lemma NewIsFresh(w: W.Window, s: nat)
    requires W.Sound(w)
    ensures IsNew(w, s) <==> W.IsFresh(w, s)
  {
  }

  /** What becomes of every completed message. Without a suite it is handed over as it is. One that cannot be opened, or
      whose record has no usable ID of the session, closes the stream; one whose sequence is not new is dropped as a
      repetition; any other is handed over with what was opened, unless the stream closes before. */
  lemma JudgedExactly(r: Receiver, m: M.Message, cut: bool)
    requires W.Sound(r.window)
    ensures var j, w := Judge(r, m, cut), r.window;
            var admitted := if cut then Rejected else Fresh;
            if !r.secured then j == Judgement(w, admitted, m)
            else
              match r.open(m)
              case Failed => j.verdict == Rejected && j.window == w
              case Plain(p) => j == Judgement(w, admitted, m.(payload := p))
              case Record(e, p) =>
                if !W.Usable(e) || (w.session.Some? && w.session.value != e[..32]) then
                  j.verdict == Rejected && j.window == w
                else
                  var s := FromBigEndian(e[36..44]);
                  && j.window.session == Some(e[..32])
                  && if IsNew(w, s) then
                       j.window.accepted == w.accepted + {s} && j.verdict == admitted && j.message == m.(payload := p)
                     else j.window.accepted == w.accepted && j.verdict == Repeated
  {
    hide IsNew, W.IsFresh, W.Sound, FromBigEndian;
    if r.secured && r.open(m).Record? && W.Usable(r.open(m).e2e) {
      NewIsFresh(r.window, FromBigEndian(r.open(m).e2e[36..44]));
    }
  }

  // ---- Whole runs --------------------------------------------------------------------------

  lemma AsideCounts(r: Receiver, x: Receiver)
    requires Counting(r) && SameFrames(r, x)
    ensures Counting(x)
  {
  }

  lemma IdleCounts(r: Receiver, id: uint64)
    requires Counting(r) && id in r.unacked
    ensures Counting(r.(unacked := r.unacked[id := 0]))
  {
  }

  lemma DataStep(w: World, f: Frame, cut: bool)
    requires Valid(w.receiver.buffers) && f in w.wire
    ensures var (x, a) := Receive(w.receiver, f, cut);
            Step(w, Data(f, cut)).receiver == x && Step(w, Data(f, cut)).acks == w.acks + Answers(a)
  {
    hide Receive, Finishes, Finished, Judge, Brought;
  }

  lemma ClosedReceives(r: Receiver, f: Frame, cut: bool)
    requires Valid(r.buffers) && r.closed
    ensures Receive(r, f, cut) == (r, None)
  {
    hide AddFrame;
  }

  lemma StepCounts(w: World, e: Event)
    requires Inv(w) && Valid(w.receiver.buffers) && Enabled(w, e) && Counting(w.receiver)
    ensures Counting(Step(w, e).receiver)
  {
    hide Inv, IsSplit, Sendable, Brought, Take, Receive, SendAck, Noted, SnapshotRanges, Counting, Valid, Waited,
        Finishes, Finished, Judge, SameFrames;
    match e
    case Data(f, cut) =>
      DataStep(w, f, cut);
      if w.receiver.closed { ClosedReceives(w.receiver, f, cut); } else { AnswersExactly(w, f, cut); }
    case Idle(id) => IdleCounts(w.receiver, id);
    case Report(id) =>
      AckIsAside(w.receiver, id, SnapshotRanges(w.receiver.buffers[id]));
      AsideCounts(w.receiver, Step(w, e).receiver);
    case Read =>
      TakeIsAside(w.receiver);
      AsideCounts(w.receiver, Take(w.receiver));
    case Install => SecureCounts(w.receiver);
    case Shut => SecureCounts(w.receiver);
    case _ =>
  }

  lemma SecureCounts(r: Receiver)
    requires Counting(r)
    ensures Counting(Secure(r)) && Counting(r.(closed := true))
  {
  }

  lemma {:induction false} RunCounts(ws: seq<World>, es: seq<Event>, n: nat)
    requires Run(ws, es) && n < |ws|
    ensures Inv(ws[n]) && Valid(ws[n].receiver.buffers) && Counting(ws[n].receiver)
  {
    hide Inv, Step, Enabled, Valid, Counting;
    RunKeeps(ws, es, n);
    InvIsValid(ws[n]);
    if n == 0 {
      StartCounts(ws[0].receiver.open);
    } else {
      var m := n - 1;
      RunCounts(ws, es, m);
      assert Steps(ws[m], es[m], ws[n]);
      StepCounts(ws[m], es[m]);
    }
  }

  lemma StartCounts(open: M.Message -> Opened)
    ensures Counting(NewReceiver(open))
  {
  }

  lemma InvIsValid(w: World)
    requires Inv(w)
    ensures Valid(w.receiver.buffers)
  {
    hide History, Settled, Honest, BufferOf;
  }

  /** In every run each frame that arrives at an open receiver has exactly the answer it should have: everything if its
      message was delivered or is completed by it, and is not rejected; otherwise what is held, if it is the
      hundredth that waits since the last answer; otherwise nothing. */
  lemma AnswersInRun(ws: seq<World>, es: seq<Event>, n: nat) returns (a: Option<Ack>)
    requires Run(ws, es) && n < |es| && es[n].Data? && !ws[n].receiver.closed
    ensures ws[n + 1].acks == ws[n].acks + Answers(a)
    ensures var r, x, f, cut := ws[n].receiver, ws[n + 1].receiver, es[n].f, es[n].cut;
            && Valid(r.buffers) && f.total > 0
            && if f.messageId in r.delivered then x == r && a == Some(Everything(f))
               else if Finishes(r, f) then
                 && x.delivered == r.delivered + {f.messageId}
                 && if Judge(r, Finished(r, f), cut).verdict == Rejected then a == None && x.closed
                    else a == Some(Everything(f)) && !x.closed
               else Waited(r, f, x, a)
  {
    hide Inv, Receive, Finishes, Finished, Judge, Waited, Counting;
    RunCounts(ws, es, n);
    var next := n + 1;
    assert Steps(ws[n], es[n], ws[next]);
    hide Run, Step;
    DataStep(ws[n], es[n].f, es[n].cut);
    AnswersExactly(ws[n], es[n].f, es[n].cut);
    a := Receive(ws[n].receiver, es[n].f, es[n].cut).1;
  }

  // ---- Closing -----------------------------------------------------------------------------

  /** Once closed, a receiver takes in nothing more. */
  ghost predicate Final(r: Receiver, x: Receiver) {
    x.closed && x.buffers == r.buffers && x.delivered == r.delivered && x.inbox == r.inbox && x.repeated == r.repeated
  }

  lemma AsideIsFinal(r: Receiver, x: Receiver)
    requires r.closed && SameFrames(r, x)
    ensures Final(r, x)
  {
  }

  lemma ClosedIsFinal(w: World, e: Event)
    requires Valid(w.receiver.buffers) && Enabled(w, e) && w.receiver.closed
    ensures Final(w.receiver, Step(w, e).receiver) && Step(w, e).acks == w.acks
  {
    hide IsSplit, Sendable, Brought, Take, Receive, SendAck, Noted, SnapshotRanges, Valid, Finishes, Finished, Judge;
    match e
    case Data(f, cut) =>
      DataStep(w, f, cut);
      ClosedReceives(w.receiver, f, cut);
    case Read =>
      TakeIsAside(w.receiver);
      AsideIsFinal(w.receiver, Take(w.receiver));
    case _ =>
  }

  /** From the moment a receiver closes, it hands over, stores and answers nothing any more. */
  lemma {:induction false} ClosedStays(ws: seq<World>, es: seq<Event>, m: nat, n: nat)
    requires Run(ws, es) && m <= n < |ws| && ws[m].receiver.closed
    ensures Final(ws[m].receiver, ws[n].receiver) && ws[n].acks == ws[m].acks
    decreases n
  {
    hide Step, Enabled, Valid;
    if m < n {
      var k := n - 1;
      ClosedStays(ws, es, m, k);
      assert Steps(ws[k], es[k], ws[n]);
      ClosedIsFinal(ws[k], es[k]);
    }
  }

  lemma SendSecured(r: Receiver, id: uint64, ranges: seq<AckRange>)
    ensures SendAck(r, id, ranges).0.secured == r.secured
  {
    hide EncodeAckRanges;
  }

  lemma CountSecured(r: Receiver, id: uint64)
    ensures Count(r, id).0.secured == r.secured
  {
    hide EncodeAckRanges, SnapshotRanges;
  }

  lemma DeliverSecured(r: Receiver, f: Frame, m: M.Message, cut: bool)
    ensures Deliver(r, f, m, cut).0.secured == r.secured
  {
    hide EncodeAckRanges, Judge, FullAck;
  }

  lemma ReceiveSecured(r: Receiver, f: Frame, cut: bool)
    requires Valid(r.buffers)
    ensures Receive(r, f, cut).0.secured == r.secured
  {
    hide AddFrame, Count, Deliver, SendAck, FullAck;
    SendSecured(r, f.messageId, FullAck(f.total));
    var (b, reception) := AddFrame(r.buffers, f);
    var next := r.(buffers := b);
    CountSecured(next, f.messageId);
    if reception.Done? && reception.message.Some? { DeliverSecured(next, f, reception.message.value, cut); }
  }

  lemma TakeSecured(r: Receiver)
    ensures Take(r).secured == r.secured
  {
    hide Screen;
  }

  lemma SecuredSteps(w: World, e: Event)
    requires Valid(w.receiver.buffers) && Enabled(w, e)
    ensures Step(w, e).receiver.secured == (w.receiver.secured || e == Install)
    ensures e == Install && w.receiver.secured ==> Step(w, e).receiver.closed
  {
    hide IsSplit, Sendable, Brought, Noted, SnapshotRanges, Valid, Finishes, Finished, Receive, Take, SendAck;
    match e
    case Data(f, cut) =>
      DataStep(w, f, cut);
      ReceiveSecured(w.receiver, f, cut);
    case Report(id) => SendSecured(w.receiver, id, SnapshotRanges(w.receiver.buffers[id]));
    case Read => TakeSecured(w.receiver);
    case _ =>
  }

  lemma {:induction false} SecuredExactly(ws: seq<World>, es: seq<Event>, n: nat)
    requires Run(ws, es) && n < |ws|
    ensures ws[n].receiver.secured <==> exists k :: 0 <= k < n && es[k] == Install
  {
    hide Step, Enabled, Valid;
    if n > 0 {
      var m := n - 1;
      SecuredExactly(ws, es, m);
      assert Steps(ws[m], es[m], ws[n]);
      SecuredSteps(ws[m], es[m]);
    }
  }

  /** A suite can be installed once: a second one closes the stream. */
  lemma SecondSuiteCloses(ws: seq<World>, es: seq<Event>, i: nat, j: nat)
    requires Run(ws, es) && i < j < |es| && es[i] == Install && es[j] == Install
    ensures ws[i + 1].receiver.secured && ws[j + 1].receiver.closed
  {
    hide Step, Enabled, Valid;
    SecuredExactly(ws, es, j);
    SecuredExactly(ws, es, i + 1);
    var next := j + 1;
    assert Steps(ws[j], es[j], ws[next]);
    SecuredSteps(ws[j], es[j]);
  }
}
