/** What a successful send means once the replay window has its say.

    A completed message is opened, and an authenticated record goes through the window before the
    message is handed over. The invariant remembers the state each message was judged in and which
    message brought each accepted sequence. It follows that a send that reports success was handed
    over exactly when it was new on arrival, and that what was dropped instead is a repetition of a
    message that was handed over, or too old for the window to tell. */
module ArqReplay {
  import opened Sequences
  import opened Bytes
  import opened FrameCodec
  import opened FrameAssembly
  import opened Assembler
  import opened AckRanges
  import opened AckTracking
  import opened Arq
  import opened ArqSafety
  import M = MessageCodec
  import W = ReplayWindow

  // ---- The invariant -----------------------------------------------------------------------

  type Opener = M.Message -> Opened

  /** The message carries the record with this sequence, of the session of the window. */
  predicate IsSource(open: Opener, messages: map<uint64, M.Message>, session: Option<Digest>, s: int, id: uint64) {
    && id in messages && Sendable(messages[id])
    && var o := open(Arrival(messages[id]));
       o.Record? && W.Wellformed(o.e2e) && W.Sequence(o.e2e) == s && session == Some(o.e2e[..32])
  }

  /** Every accepted sequence was brought by a message that carries it. */
  ghost predicate Sourced(open: Opener, messages: map<uint64, M.Message>, w: W.Window, origins: map<int, uint64>) {
    && W.Sound(w)
    && origins.Keys == w.accepted
    && forall s :: s in origins ==> IsSource(open, messages, w.session, s, origins[s])
  }

  /** What a message arriving at this gate is judged, if there is room for it. */
  function VerdictAt(open: Opener, g: Gate, m: M.Message): (v: Verdict) {
    if g.secured then Screen(g.window, open(m), m, false).verdict else Fresh
  }

  /** The window did not forget since, and at the time every source was in the inbox. */
  ghost predicate Recalls(g: Gate, w: W.Window, origins: map<int, uint64>, inbox: set<uint64>, id: uint64) {
    && g.window.accepted <= w.accepted && g.window.highest <= w.highest
    && (g.window.session.Some? ==> w.session == g.window.session)
    && forall s :: s in g.window.accepted ==> s in origins && origins[s] in inbox && origins[s] != id
  }

  /** The fate of a completed message is its verdict on arrival. */
  ghost predicate Traced(w: World, id: uint64)
    requires id in w.judged
  {
    && id in w.messages && Sendable(w.messages[id])
    && Recalls(w.judged[id], w.receiver.window, w.origins, Ids(w.receiver.inbox), id)
    && var v := VerdictAt(w.receiver.open, w.judged[id], Arrival(w.messages[id]));
       && (id in Ids(w.receiver.inbox) <==> v == Fresh && id !in w.rejected)
       && (id in w.receiver.repeated <==> v == Repeated)
       && (v == Repeated ==> InSession(w, id))
  }

  /** The message is an authenticated record of the session of the window. */
  predicate InSession(w: World, id: uint64)
    requires id in w.messages && Sendable(w.messages[id])
  {
    var o := w.receiver.open(Arrival(w.messages[id]));
    o.Record? && W.Wellformed(o.e2e) && w.receiver.window.session == Some(o.e2e[..32])
  }

  ghost predicate Screened(w: World) {
    && Sourced(w.receiver.open, w.messages, w.receiver.window, w.origins)
    && w.judged.Keys == w.receiver.delivered
    && (forall id :: id in w.judged ==> Traced(w, id))
    && (!w.receiver.closed ==> forall s :: s in w.origins ==> w.origins[s] in Ids(w.receiver.inbox))
  }

  // ---- One message through the window ------------------------------------------------------

  lemma ObserveAdds(w: W.Window, e: seq<byte>, origins: map<int, uint64>, id: uint64)
    requires W.Sound(w) && origins.Keys == w.accepted
    ensures var (x, seen) := W.Observe(w, e);
            var o := Brought(origins, w, x, id);
            && W.Sound(x) && o.Keys == x.accepted && w.accepted <= x.accepted && w.highest <= x.highest
            && (w.session.Some? ==> x.session == w.session)
            && (seen == W.Fresh ==>
                W.Wellformed(e) && o == origins[W.Sequence(e) := id] && W.Sequence(e) !in w.accepted)
            && (seen != W.Fresh ==> o == origins)
            && (seen == W.Fresh || seen == W.Seen ==> W.Wellformed(e) && x.session == Some(e[..32]))
            && (seen == W.Invalid || seen == W.Foreign ==> x == w)
  {
    var (x, seen) := W.Observe(w, e);
    if seen == W.Fresh {
      assert x.accepted - w.accepted == {W.Sequence(e)};
    } else {
      assert x.accepted - w.accepted == {};
    }
  }

  lemma NothingBrought(origins: map<int, uint64>, w: W.Window, id: uint64)
    ensures Brought(origins, w, w, id) == origins
  {
  }

  /** Judging a message keeps the sources, and adds the message itself if its record is new. */
  ghost predicate Advances(open: Opener, messages: map<uint64, M.Message>, w: W.Window, x: W.Window,
                           origins: map<int, uint64>, o: map<int, uint64>, id: uint64)
  {
    && Sourced(open, messages, x, o)
    && w.accepted <= x.accepted && w.highest <= x.highest && (w.session.Some? ==> x.session == w.session)
    && (forall s :: s in origins ==> s in o && o[s] == origins[s])
    && (forall s :: s in o ==> s in origins || o[s] == id)
  }

  lemma SourcesAdvance(open: Opener, messages: map<uint64, M.Message>, w: W.Window, e: seq<byte>,
                       origins: map<int, uint64>, id: uint64)
    requires Sourced(open, messages, w, origins) && id in messages && Sendable(messages[id])
    requires open(Arrival(messages[id])).Record? && open(Arrival(messages[id])).e2e == e
    ensures var x := W.Observe(w, e).0; Advances(open, messages, w, x, origins, Brought(origins, w, x, id), id)
  {
    hide W.Observe, W.Sound, Brought, W.Sequence, W.Wellformed, Sendable, Arrival, IsSource;
    ObserveAdds(w, e, origins, id);
    var (x, seen) := W.Observe(w, e);
    var o := Brought(origins, w, x, id);
    forall s | s in o ensures IsSource(open, messages, x.session, s, o[s]) {
      if s in origins && o[s] == origins[s] {
        SourceStays(open, messages, w.session, x.session, s, origins[s]);
      } else {
        NewSource(open, messages, x.session, e, id);
      }
    }
  }

  lemma SourceStays(open: Opener, messages: map<uint64, M.Message>, before: Option<Digest>, now: Option<Digest>,
                    s: int, id: uint64)
    requires IsSource(open, messages, before, s, id) && (before.Some? ==> now == before)
    ensures IsSource(open, messages, now, s, id)
  {
    hide W.Sequence, W.Wellformed, Sendable, Arrival;
  }

  lemma NewSource(open: Opener, messages: map<uint64, M.Message>, session: Option<Digest>, e: seq<byte>, id: uint64)
    requires id in messages && Sendable(messages[id]) && open(Arrival(messages[id])).Record?
    requires open(Arrival(messages[id])).e2e == e && W.Wellformed(e) && session == Some(e[..32])
    ensures IsSource(open, messages, session, W.Sequence(e), id)
  {
    hide W.Sequence, Sendable, Arrival;
  }

  lemma ScreenAdvances(open: Opener, messages: map<uint64, M.Message>, w: W.Window, origins: map<int, uint64>,
                       id: uint64, cut: bool)
    requires Sourced(open, messages, w, origins) && id in messages && Sendable(messages[id])
    ensures var m := Arrival(messages[id]);
            var x := Screen(w, open(m), m, cut).window;
            Advances(open, messages, w, x, origins, Brought(origins, w, x, id), id)
  {
    hide W.Observe, Brought, Arrival, Sendable, IsSource, W.Sound, Advances, Sourced;
    var m := Arrival(messages[id]);
    if open(m).Record? {
      SourcesAdvance(open, messages, w, open(m).e2e, origins, id);
    } else {
      NothingBrought(origins, w, id);
      SameWindow(open, messages, w, origins, id);
    }
  }

  lemma SameWindow(open: Opener, messages: map<uint64, M.Message>, w: W.Window, origins: map<int, uint64>, id: uint64)
    requires Sourced(open, messages, w, origins)
    ensures Advances(open, messages, w, w, origins, origins, id)
  {
    hide IsSource, W.Sound;
  }

  /** What is handed over as a record was new, and is the source of its sequence from then on. */
  lemma ScreenAdmits(open: Opener, m: M.Message, w: W.Window, origins: map<int, uint64>, id: uint64, cut: bool)
    requires W.Sound(w) && origins.Keys == w.accepted
    ensures var j := Screen(w, open(m), m, cut);
            && (j.verdict == Fresh && open(m).Record? ==>
                  var e := open(m).e2e;
                  && W.Wellformed(e) && W.IsFresh(w, W.Sequence(e))
                  && Brought(origins, w, j.window, id) == origins[W.Sequence(e) := id])
            && (j.verdict == Repeated ==>
                  && open(m).Record? && W.Wellformed(open(m).e2e) && !W.IsFresh(w, W.Sequence(open(m).e2e))
                  && j.window.session == Some(open(m).e2e[..32]) && j.window.accepted == w.accepted)
  {
    if open(m).Record? { ObserveAdds(w, open(m).e2e, origins, id); }
    hide Brought, W.Sequence, W.Epoch, W.Sound;
  }

  lemma CutVerdict(w: W.Window, o: Opened, m: M.Message, cut: bool)
    ensures var v, c := Screen(w, o, m, false).verdict, Screen(w, o, m, cut).verdict;
            && Screen(w, o, m, cut).window == Screen(w, o, m, false).window
            && (c == Repeated <==> v == Repeated) && (c == Fresh ==> v == Fresh)
               && (c == Rejected && v == Fresh ==> cut)
  {
    hide W.Observe;
  }

  // ---- Steps that judge nothing ------------------------------------------------------------

  /** Nothing is judged; more messages may have been sent, and the stream may be closed. */
  ghost predicate Quiet(w: World, x: World) {
    && x.receiver.open == w.receiver.open && x.receiver.window == w.receiver.window
    && x.receiver.delivered == w.receiver.delivered && x.receiver.inbox == w.receiver.inbox
    && x.receiver.repeated == w.receiver.repeated && (w.receiver.closed ==> x.receiver.closed)
    && x.judged == w.judged && x.origins == w.origins && x.rejected == w.rejected
    && forall id :: id in w.messages ==> id in x.messages && x.messages[id] == w.messages[id]
  }

  lemma QuietKeeps(w: World, x: World)
    requires Screened(w) && Quiet(w, x)
    ensures Screened(x)
  {
    hide Ids, Arrival, Sendable, Screen, W.Sound, W.Wellformed, W.Sequence, Recalls;
    forall s | s in x.origins
      ensures IsSource(x.receiver.open, x.messages, x.receiver.window.session, s, x.origins[s]) {
      assert IsSource(w.receiver.open, w.messages, w.receiver.window.session, s, w.origins[s]);
    }
    forall id | id in x.judged ensures Traced(x, id) {
      assert Traced(w, id);
    }
  }

  // ---- A message is judged -----------------------------------------------------------------

  lemma NothingAdvances(open: Opener, messages: map<uint64, M.Message>, w: W.Window, origins: map<int, uint64>,
                        id: uint64)
    requires Sourced(open, messages, w, origins)
    ensures Advances(open, messages, w, w, origins, Brought(origins, w, w, id), id)
  {
    NothingBrought(origins, w, id);
    hide IsSource, W.Sound, Brought;
  }

  lemma JudgeAdvances(w: World, id: uint64, cut: bool)
    requires Screened(w) && id in w.messages && Sendable(w.messages[id])
    ensures var x := Judge(w.receiver, Arrival(w.messages[id]), cut).window;
            Advances(w.receiver.open, w.messages, w.receiver.window, x, w.origins,
                     Brought(w.origins, w.receiver.window, x, id), id)
  {
    hide Sourced, Traced, Advances, Brought, Arrival, Sendable, Screen;
    if w.receiver.secured {
      ScreenAdvances(w.receiver.open, w.messages, w.receiver.window, w.origins, id, cut);
    } else {
      NothingAdvances(w.receiver.open, w.messages, w.receiver.window, w.origins, id);
    }
  }

  /** How the verdict with and without room are related, and what a repetition leaves alone. */
  lemma JudgeVerdict(w: World, m: M.Message, cut: bool)
    requires W.Sound(w.receiver.window)
    ensures var j := Judge(w.receiver, m, cut);
            var v := VerdictAt(w.receiver.open, Gate(w.receiver.secured, w.receiver.window), m);
            && (j.verdict == Repeated <==> v == Repeated) && (j.verdict == Fresh ==> v == Fresh)
            && (j.verdict == Repeated ==>
                  && j.window.accepted == w.receiver.window.accepted
                  && var o := w.receiver.open(m);
                     o.Record? && W.Wellformed(o.e2e) && j.window.session == Some(o.e2e[..32]))
  {
    if w.receiver.secured {
      CutVerdict(w.receiver.window, w.receiver.open(m), m, cut);
      var origins := map s | s in w.receiver.window.accepted :: 0 as uint64;
      ScreenAdmits(w.receiver.open, m, w.receiver.window, origins, 0, cut);
    }
    hide Screen, W.Wellformed, W.Sound;
  }

  /** What judging a message does to the receiver and the histories. */
  ghost predicate Judged(w: World, x: World, id: uint64, v: Verdict) {
    && x.receiver.open == w.receiver.open && x.messages == w.messages && !w.receiver.closed
    && x.receiver.delivered == w.receiver.delivered + {id} && id !in w.receiver.delivered
    && Ids(x.receiver.inbox) == Ids(w.receiver.inbox) + (if v == Fresh then {id} else {})
    && x.receiver.repeated == w.receiver.repeated + (if v == Repeated then {id} else {})
    && x.receiver.closed == (v == Rejected)
    && x.judged == w.judged[id := Gate(w.receiver.secured, w.receiver.window)]
    && x.origins == Brought(w.origins, w.receiver.window, x.receiver.window, id)
    && x.rejected.Keys == w.rejected.Keys + (if v == Rejected then {id} else {})
  }

  lemma DeliveredIsJudged(w: World, f: Frame, m: M.Message, cut: bool)
    requires Settled(w) && !w.receiver.closed && f.messageId !in w.receiver.delivered
    ensures Judged(w, Delivered(w, f, m, cut), f.messageId, Judge(w.receiver, m, cut).verdict)
    ensures Delivered(w, f, m, cut).receiver.window == Judge(w.receiver, m, cut).window
  {
    hide Judge, Brought, Ids, Once, Exact, Resolve;
    var r := w.receiver.(buffers := w.receiver.buffers - {f.messageId});
    HandledFrom(w.receiver, r);
    Resolved(r, f.messageId, Judge(w.receiver, m, cut));
    ClosingParts(w.receiver, f, m, cut);
  }

  lemma OthersStayTraced(w: World, x: World, id: uint64, v: Verdict, k: uint64)
    requires Judged(w, x, id, v) && k != id && k in w.judged && Traced(w, k)
    requires Advances(w.receiver.open, w.messages, w.receiver.window, x.receiver.window, w.origins, x.origins, id)
    ensures Traced(x, k)
  {
    hide Sourced, Brought, Arrival, Sendable, Screen, Ids, W.Wellformed;
  }

  lemma NewIsTraced(w: World, x: World, id: uint64, cut: bool)
    requires Screened(w) && Settled(w) && id in w.messages && Sendable(w.messages[id])
    requires Judged(w, x, id, Judge(w.receiver, Arrival(w.messages[id]), cut).verdict)
    requires x.receiver.window == Judge(w.receiver, Arrival(w.messages[id]), cut).window
    requires Advances(w.receiver.open, w.messages, w.receiver.window, x.receiver.window, w.origins, x.origins, id)
    ensures Traced(x, id)
  {
    JudgeVerdict(w, Arrival(w.messages[id]), cut);
    hide Brought, Arrival, Sendable, VerdictAt, Judge, Ids, W.Wellformed, IsSource, W.Sound, Once, Exact, Traced;
    var g := Gate(w.receiver.secured, w.receiver.window);
    assert id !in Ids(w.receiver.inbox) && id !in w.receiver.repeated && id !in w.rejected;
    assert Recalls(g, x.receiver.window, x.origins, Ids(x.receiver.inbox), id);
    hide Settled, Sourced, Advances, Recalls;
    TracedBy(x, id, g);
  }

  lemma TracedBy(x: World, id: uint64, g: Gate)
    requires id in x.judged && x.judged[id] == g && id in x.messages && Sendable(x.messages[id])
    requires Recalls(g, x.receiver.window, x.origins, Ids(x.receiver.inbox), id)
    requires var v := VerdictAt(x.receiver.open, g, Arrival(x.messages[id]));
             && (id in Ids(x.receiver.inbox) <==> v == Fresh && id !in x.rejected)
             && (id in x.receiver.repeated <==> v == Repeated)
             && (v == Repeated ==> InSession(x, id))
    ensures Traced(x, id)
  {
    hide Recalls, Arrival, Sendable, VerdictAt, InSession, Ids;
  }

  /** Completing a message keeps the invariant. */
  lemma DeliverScreens(w: World, f: Frame, cut: bool)
    requires Screened(w) && Settled(w) && !w.receiver.closed && f.messageId !in w.receiver.delivered
    requires f.messageId in w.messages && Sendable(w.messages[f.messageId])
    ensures Screened(Delivered(w, f, Arrival(w.messages[f.messageId]), cut))
  {
    hide Brought, Arrival, Sendable, Judge, Traced, Delivered, IsSource, W.Sound, Ids;
    var id, m := f.messageId, Arrival(w.messages[f.messageId]);
    var x := Delivered(w, f, m, cut);
    DeliveredIsJudged(w, f, m, cut);
    JudgeAdvances(w, id, cut);
    JudgeVerdict(w, m, cut);
    NewIsTraced(w, x, id, cut);
    hide Settled;
    forall k | k in x.judged ensures Traced(x, k) {
      if k != id { OthersStayTraced(w, x, id, Judge(w.receiver, m, cut).verdict, k); }
    }
  }

  // ---- A message is read -------------------------------------------------------------------

  /** Reading a raw message can only add its own sequence. */
  ghost predicate Opens(w: World, x: World, id: uint64) {
    && x.receiver.open == w.receiver.open && x.messages == w.messages
    && x.receiver.delivered == w.receiver.delivered && x.receiver.inbox == w.receiver.inbox
    && x.receiver.repeated == w.receiver.repeated && (w.receiver.closed ==> x.receiver.closed)
    && x.judged == w.judged && x.rejected == w.rejected
    && id in Ids(w.receiver.inbox)
    && Advances(w.receiver.open, w.messages, w.receiver.window, x.receiver.window, w.origins, x.origins, id)
  }

  lemma OpensKeeps(w: World, x: World, id: uint64)
    requires Screened(w) && Opens(w, x, id)
    ensures Screened(x)
  {
    hide Sourced, Ids, Arrival, Sendable, Screen, W.Wellformed;
    forall k | k in x.judged ensures Traced(x, k) {
      assert Traced(w, k);
    }
  }

  lemma FrontIsArrival(w: World)
    requires Settled(w) && w.receiver.read < |w.receiver.inbox|
    ensures var e := w.receiver.inbox[w.receiver.read];
            e.id in w.messages && IsArrival(w.receiver.open, e, w.messages[e.id]) && e.id in Ids(w.receiver.inbox)
  {
    hide Once, Handled, IsArrival;
  }

  /** The world after a read. */
  ghost function AfterRead(w: World): (x: World) {
    var r := Take(w.receiver);
    w.(receiver := r, origins := Brought(w.origins, w.receiver.window, r.window, Front(w.receiver)))
  }

  lemma TakeWindow(r: Receiver)
    ensures var x := Take(r);
            x.window == if r.read < |r.inbox| && r.inbox[r.read].raw && r.secured
                        then Screen(r.window, r.open(r.inbox[r.read].message), r.inbox[r.read].message, false).window
                        else r.window
  {
    hide Screen;
  }

  lemma ReadScreens(w: World)
    requires Screened(w) && Settled(w)
    ensures Screened(AfterRead(w))
  {
    hide Take, Brought, Arrival, Sendable, Screen, Traced, Sourced, Advances, Once, Exact, Ids, Plaintext;
    TakeIsAside(w.receiver);
    TakeWindow(w.receiver);
    var x, id := AfterRead(w), Front(w.receiver);
    if w.receiver.read < |w.receiver.inbox| {
      FrontIsArrival(w);
      hide Settled;
      if w.receiver.inbox[w.receiver.read].raw && w.receiver.secured {
        ScreenAdvances(w.receiver.open, w.messages, w.receiver.window, w.origins, id, false);
      } else {
        NothingAdvances(w.receiver.open, w.messages, w.receiver.window, w.origins, id);
      }
      OpensKeeps(w, x, id);
    } else {
      NothingBrought(w.origins, w.receiver.window, id);
      QuietKeeps(w, x);
    }
  }

  // ---- Every step --------------------------------------------------------------------------

  lemma AnswerIsQuiet(w: World, id: uint64, ranges: seq<AckRange>)
    ensures Quiet(w, Answered(w, id, ranges))
  {
    hide EncodeAckRanges;
  }

  lemma CountIsQuiet(w: World, id: uint64)
    ensures var (r, a) := Count(w.receiver, id); Quiet(w, w.(receiver := r, acks := w.acks + Answers(a)))
  {
    hide EncodeAckRanges, SnapshotRanges;
  }

  lemma WaitScreens(w: World, f: Frame, cut: bool)
    requires Screened(w) && Listening(w, f) && f.messageId !in w.receiver.delivered
    requires AddFrame(w.receiver.buffers, f).1 == Waiting
    ensures Screened(Step(w, Data(f, cut)))
  {
    hide AddFrame, Count, Step, Screened;
    WaitStep(w, f, cut);
    var y := w.(receiver := w.receiver.(buffers := AddFrame(w.receiver.buffers, f).0));
    QuietKeeps(w, y);
    CountIsQuiet(y, f.messageId);
    QuietKeeps(y, Step(w, Data(f, cut)));
  }

  lemma DoneScreens(w: World, f: Frame, cut: bool, m: M.Message)
    requires Screened(w) && Settled(w) && Listening(w, f) && f.messageId !in w.receiver.delivered
    requires f.messageId in w.messages && m == w.messages[f.messageId] && Sendable(m)
    requires AddFrame(w.receiver.buffers, f) == (w.receiver.buffers - {f.messageId}, Done(Some(Arrival(m))))
    ensures Screened(Step(w, Data(f, cut)))
  {
    hide AddFrame, Step, Screened, Settled, Arrival, Sendable, Judge, Delivered, FullAck, Quiet, Answered;
    DoneStep(w, f, cut, Arrival(m));
    DeliverScreens(w, f, cut);
    var y := Delivered(w, f, Arrival(m), cut);
    AnswerIsQuiet(y, f.messageId, FullAck(f.total));
    if Judge(w.receiver, Arrival(m), cut).verdict != Rejected {
      QuietKeeps(y, Answered(y, f.messageId, FullAck(f.total)));
    }
  }

  lemma DataScreens(w: World, f: Frame, cut: bool)
    requires Inv(w) && Screened(w) && f in w.wire && Valid(w.receiver.buffers)
    ensures Screened(Step(w, Data(f, cut)))
  {
    hide AddFrame, Step, Screened, Buffered, Settled, Honest, SentWell, Genuine, Fitting, FullAck, Answered, Quiet,
        Full, Held;
    ArrivingIsGenuine(w, f);
    if w.receiver.closed {
      ClosedStep(w, f, cut);
    } else if f.messageId in w.receiver.delivered {
      RepeatStep(w, f, cut);
      AnswerIsQuiet(w, f.messageId, FullAck(f.total));
      QuietKeeps(w, Answered(w, f.messageId, FullAck(f.total)));
    } else {
      var m := w.messages[f.messageId];
      GenuineIsAccepted(w.receiver, f, w.sent, m);
      if Completed(w.receiver, f, AddFrame(w.receiver.buffers, f), m) {
        DoneScreens(w, f, cut, m);
      } else {
        WaitScreens(w, f, cut);
      }
    }
  }

  lemma SendIsQuiet(w: World, m: M.Message, frames: seq<Frame>)
    requires w.last < MAX_UINT64 && w.last + 1 !in w.messages
    ensures Quiet(w, Posted(w, m, frames))
  {
  }

  lemma LastIsNew(w: World)
    requires History(w)
    ensures w.last + 1 !in w.messages
  {
    hide SentWell, Genuine;
  }

  /** Every step keeps the invariant. */
  lemma StepScreens(w: World, e: Event)
    requires Inv(w) && Screened(w) && Valid(w.receiver.buffers) && Enabled(w, e)
    ensures Screened(Step(w, e))
  {
    hide Screened, Buffered, Settled, Honest, IsSplit, Sendable, Brought, Take, Receive, Noted, SnapshotRanges, SendAck,
         Quiet, SentWell, Genuine;
    match e
    case Data(f, cut) => DataScreens(w, f, cut);
    case Read => ReadScreens(w);
    case Send(m, size, connection, frames) =>
      LastIsNew(w);
      SendIsQuiet(w, m, Stamp(frames, connection));
      QuietKeeps(w, Posted(w, m, Stamp(frames, connection)));
    case Report(id) =>
      AnswerIsQuiet(w, id, SnapshotRanges(w.receiver.buffers[id]));
      QuietKeeps(w, Step(w, e));
    case _ =>
      AsideIsQuiet(w, e);
      QuietKeeps(w, Step(w, e));
  }

  lemma AsideIsQuiet(w: World, e: Event)
    requires Valid(w.receiver.buffers) && Enabled(w, e)
    requires !e.Data? && !e.Read? && !e.Send? && !e.Report?
    ensures Quiet(w, Step(w, e))
  {
    hide Receive, Noted, SnapshotRanges, SendAck, Covered, Copies;
  }

  lemma StartIsScreened(open: Opener)
    ensures Screened(Beginning(open))
  {
  }

  lemma {:induction false} RunScreens(ws: seq<World>, es: seq<Event>, n: nat)
    requires Run(ws, es) && n < |ws|
    ensures Screened(ws[n]) && Inv(ws[n])
  {
    hide Inv, Step, Enabled, Valid, Screened;
    RunKeeps(ws, es, n);
    if n == 0 {
      StartIsScreened(ws[0].receiver.open);
    } else {
      RunScreens(ws, es, n - 1);
      var m := n - 1;
      assert Steps(ws[m], es[m], ws[n]);
      StepScreens(ws[m], es[m]);
    }
  }

  // ---- What success means ------------------------------------------------------------------

  lemma JudgingStep(w: World, e: Event, id: uint64)
    requires Valid(w.receiver.buffers) && Enabled(w, e) && id in Step(w, e).judged
    ensures var g := Step(w, e).judged[id];
            || (id in w.judged && g == w.judged[id])
            || (e.Data? && e.f.messageId == id && Finishes(w.receiver, e.f)
                && g == Gate(w.receiver.secured, w.receiver.window))
  {
    hide Receive, Finished, Finishes, Judge, Brought, SendAck, Take, Copies, Covered, SnapshotRanges, IsSplit, Sendable;
  }

  /** The step at which a message was completed is the one whose state it was judged in. */
  lemma {:induction false} JudgedOnArrival(ws: seq<World>, es: seq<Event>, n: nat, id: uint64) returns (k: nat)
    requires Run(ws, es) && n < |ws| && id in ws[n].judged
    ensures k < n && es[k].Data? && es[k].f.messageId == id && Valid(ws[k].receiver.buffers)
    ensures Finishes(ws[k].receiver, es[k].f)
    ensures ws[n].judged[id] == Gate(ws[k].receiver.secured, ws[k].receiver.window)
  {
    assert n > 0;
    var m := n - 1;
    assert Steps(ws[m], es[m], ws[n]);
    hide Step, Enabled, Valid, Finishes;
    JudgingStep(ws[m], es[m], id);
    if id in ws[m].judged && ws[m].judged[id] == ws[n].judged[id] {
      k := JudgedOnArrival(ws, es, m, id);
    } else {
      k := m;
    }
  }

  /** The message is new to a gate: there is no suite yet, or it carries no identity, or the window has
      not accepted its sequence and is not too far ahead of it. */
  predicate IsNew(open: Opener, g: Gate, m: M.Message) {
    || !g.secured
    || match open(m)
       case Failed => false
       case Plain(_) => true
       case Record(e, _) => W.Wellformed(e) && W.SameSession(g.window, e) && W.IsFresh(g.window, W.Sequence(e))
  }

  /** Another message with a record of the same session and sequence was handed over. */
  ghost predicate RepeatsAnother(w: World, id: uint64, e: seq<byte>, k: uint64)
    requires W.Wellformed(e)
  {
    && k != id && k in Ids(w.receiver.inbox)
    && IsSource(w.receiver.open, w.messages, Some(e[..32]), W.Sequence(e), k)
  }

  lemma VerdictIsNew(open: Opener, g: Gate, m: M.Message)
    ensures VerdictAt(open, g, m) == Fresh <==> IsNew(open, g, m)
    ensures VerdictAt(open, g, m) == Repeated ==>
              && open(m).Record? && W.Wellformed(open(m).e2e)
              && var s := W.Sequence(open(m).e2e); s in g.window.accepted || g.window.highest >= s + W.WINDOW
  {
    hide W.Sequence, W.Epoch;
  }

  lemma RepetitionHasSource(w: World, id: uint64, e: seq<byte>)
    requires Screened(w) && id in w.judged && Traced(w, id) && InSession(w, id)
    requires w.receiver.open(Arrival(w.messages[id])).Record? && w.receiver.open(Arrival(w.messages[id])).e2e == e
    requires W.Wellformed(e) && W.Sequence(e) in w.judged[id].window.accepted
    ensures W.Sequence(e) in w.origins && RepeatsAnother(w, id, e, w.origins[W.Sequence(e)])
  {
    hide VerdictAt, Ids, Arrival, Sendable, W.Wellformed, W.Sequence, W.Sound, IsSource;
  }

  /** In every run: a send that reports success was handed over exactly when it was new on arrival. One
      that was not handed over carries a record whose sequence another message that was handed over
      carries too, or one that was at least 65536 behind the highest accepted. Nothing is handed over
      twice, and everything handed over is the message sent under its ID. */
  lemma Reliable(ws: seq<World>, es: seq<Event>, n: nat, id: uint64)
    requires Run(ws, es) && n < |ws| && id in ws[n].succeeded
    ensures var w := ws[n];
            && id in w.judged && id in w.messages && Sendable(w.messages[id])
            && (id in Ids(w.receiver.inbox) <==> IsNew(w.receiver.open, w.judged[id], Arrival(w.messages[id])))
            && (id !in Ids(w.receiver.inbox) ==>
                  var o := w.receiver.open(Arrival(w.messages[id]));
                  && o.Record? && W.Wellformed(o.e2e)
                  && (|| (exists k :: RepeatsAnother(w, id, o.e2e, k))
                      || w.judged[id].window.highest >= W.Sequence(o.e2e) + W.WINDOW))
            && Once(w.receiver.inbox) && Exact(w.receiver.open, w.receiver.inbox, w.messages)
  {
    hide Inv, Run, Arrival, Sendable, Ids, W.Epoch, W.Sequence, IsNew, VerdictAt, Once, Exact, RepeatsAnother, Sourced;
    RunScreens(ws, es, n);
    SuccessIsHandled(ws, es, n);
    var w := ws[n];
    assert id in w.judged by { HandledIsDelivered(w); }
    assert Traced(w, id);
    var m := Arrival(w.messages[id]);
    VerdictIsNew(w.receiver.open, w.judged[id], m);
    if id !in Ids(w.receiver.inbox) {
      var e := w.receiver.open(m).e2e;
      if W.Sequence(e) in w.judged[id].window.accepted {
        RepetitionHasSource(w, id, e);
      }
    }
  }

  lemma HandledIsDelivered(w: World)
    requires Inv(w)
    ensures Handled(w.receiver) <= w.receiver.delivered
  {
    hide History, Buffered, Honest, Once, Exact, Ids;
  }

  // ---- Success without delivery ------------------------------------------------------------

  /** The steps from the last frame of a repetition to the success of its sender. */
  function DropEvents(f: Frame): (es: seq<Event>) {
    [Data(f, false), Acked(Ack(f.messageId, FullAck(f.total))), Succeed(f.messageId)]
  }

  /** A message that is judged a repetition when its last frame arrives is confirmed and dropped. */
  lemma RepetitionIsConfirmed(w: World, f: Frame, m: M.Message)
    requires Listening(w, f) && f.messageId !in w.receiver.delivered && f.messageId in w.pending
             && f.messageId in w.sent
    requires f.total == |w.sent[f.messageId]| > 0
    requires AddFrame(w.receiver.buffers, f) == (w.receiver.buffers - {f.messageId}, Done(Some(m)))
    requires Judge(w.receiver, m, false).verdict == Repeated
    ensures var x := Step(w, Data(f, false));
            && Valid(x.receiver.buffers) && Ack(f.messageId, FullAck(f.total)) in x.acks
            && x.pending == w.pending && x.sent == w.sent && x.receiver.inbox == w.receiver.inbox
            && x.receiver.window == Judge(w.receiver, m, false).window && !x.receiver.closed
            && x.receiver.open == w.receiver.open && x.messages == w.messages
  {
    hide AddFrame, Step, Judge, Brought;
    DoneStep(w, f, false, m);
    ClosingParts(w.receiver, f, m, false);
  }

  /** Whenever the last frame of a pending message arrives and its record is judged a repetition, the
      send can succeed although the message is not handed over. */
  lemma DroppedSucceeds(w: World, f: Frame, m: M.Message) returns (x: World, y: World, z: World)
    requires Listening(w, f) && f.messageId !in w.receiver.delivered && f.messageId in w.pending
             && f.messageId in w.sent
    requires f.total == |w.sent[f.messageId]| > 0
    requires AddFrame(w.receiver.buffers, f) == (w.receiver.buffers - {f.messageId}, Done(Some(m)))
    requires Judge(w.receiver, m, false).verdict == Repeated
    ensures Steps(w, DropEvents(f)[0], x) && Steps(x, DropEvents(f)[1], y) && Steps(y, DropEvents(f)[2], z)
    ensures f.messageId in z.succeeded && z.receiver.inbox == w.receiver.inbox
    ensures z.receiver.window == Judge(w.receiver, m, false).window && !z.receiver.closed
    ensures z.receiver.open == w.receiver.open && z.messages == w.messages
  {
    hide AddFrame, Judge, FullAck, Covered, Valid;
    var id := f.messageId;
    x := Step(w, Data(f, false));
    assert Enabled(w, Data(f, false));
    RepetitionIsConfirmed(w, f, m);
    var a := Ack(id, FullAck(f.total));
    y := x.(pending := x.pending[id := x.pending[id] + Covered(a.ranges)]);
    hide Receive, Noted;
    assert Steps(x, Acked(a), y);
    FullAckIsExact(f.total);
    AllCounted(y.pending[id], f.total);
    z := y.(pending := y.pending - {id}, succeeded := y.succeeded + {id});
    assert Steps(y, Succeed(id), z);
  }

  lemma AllCounted(acked: set<int>, total: uint32)
    requires Interval(0, total) <= acked
    ensures Counted(acked, total)
  {
    forall s | 0 <= s < total ensures s in acked {
      assert Within(0, total, s) && s in Interval(0, total);
    }
    WholeIsCounted(acked, total);
  }

  // ---- A run in which a record is overtaken ------------------------------------------------

  /** The end-to-end ID of the first epoch with this sequence. */
  function Numbered(sequence: nat): (e: seq<byte>) { ZERO_DIGEST + BigEndian(1, 4) + BigEndian(sequence, 8) }

  lemma NumberedReads(sequence: nat)
    requires 0 < sequence <= MAX_UINT64
    ensures W.Wellformed(Numbered(sequence)) && W.Sequence(Numbered(sequence)) == sequence
    ensures Numbered(sequence)[..32] == ZERO_DIGEST
  {
    var e := Numbered(sequence);
    Capacities();
    BigEndianReadsBack(1, 4);
    BigEndianReadsBack(sequence, 8);
    assert e[32..36] == BigEndian(1, 4) && e[36..44] == BigEndian(sequence, 8) && e[..32] == ZERO_DIGEST;
  }

  function Sample(b: byte): (m: M.Message) {
    M.Message(M.Header([], [], 1, 0, [], 0, [], ZERO_DIGEST, 0, 0), [b])
  }

  lemma SampleIsSendable(b: byte)
    ensures Sendable(Sample(b)) && Arrival(Sample(b)).payload == [b] && |M.EncodeMessage(Sample(b)).value| > 0
  {
    var h := M.Filled(Sample(b));
    M.HeaderArrives(h);
    hide M.EncodeHeader, M.Arrives;
  }

  function LoneFrame(id: uint64, m: M.Message): (f: Frame)
    requires Sendable(m)
  {
    Frame(id, 0, 1, 0, DATA, [], M.EncodeMessage(m).value)
  }

  lemma LoneIsSplit(id: uint64, m: M.Message)
    requires Sendable(m) && |M.EncodeMessage(m).value| > 0
    ensures IsSplit([LoneFrame(id, m)], id, M.EncodeMessage(m).value, |M.EncodeMessage(m).value|)
    ensures Stamp([LoneFrame(id, m)], []) == [LoneFrame(id, m)]
  {
    hide M.EncodeMessage;
    var f := LoneFrame(id, m);
    assert Payloads([f]) == f.payload by { PayloadsAppend([], f); }
  }

  /** The one frame of a message completes it. */
  lemma LoneFinishes(w: World, f: Frame)
    requires Inv(w) && Listening(w, f) && f.messageId !in w.receiver.delivered && f.total == 1
    ensures f.messageId in w.sent && f.messageId in w.messages && Sendable(w.messages[f.messageId])
    ensures f.total == |w.sent[f.messageId]|
    ensures AddFrame(w.receiver.buffers, f) ==
              (w.receiver.buffers - {f.messageId}, Done(Some(Arrival(w.messages[f.messageId]))))
  {
    hide AddFrame, Arrival, Sendable, Settled, Honest, Genuine, Meaning, Complete, InOrder, Full;
    ArrivingIsGenuine(w, f);
    var m := w.messages[f.messageId];
    GenuineIsAccepted(w.receiver, f, w.sent, m);
    GenuineIsWellformed(w.receiver, f, w.sent);
    assert |Held(w.receiver.buffers, f.messageId)| == 0 by { LoneIsUnheld(w, f); }
    AddFrameCases(w.receiver.buffers, f);
    hide Inv, Buffered, SentWell, Wellformed;
    var held := Held(w.receiver.buffers, f.messageId);
    assert held == map[];
    assert |held[f.seqId := f]| == 1;
  }

  lemma LoneIsUnheld(w: World, f: Frame)
    requires Buffered(w.receiver, w.sent) && f.messageId in w.sent && |w.sent[f.messageId]| == 1
    ensures |Held(w.receiver.buffers, f.messageId)| == 0
  {
    hide Fits, Genuine;
    if f.messageId in w.receiver.buffers {
      assert BufferOf(f.messageId, w.receiver.buffers[f.messageId], w.sent, w.receiver.delivered);
    }
  }

  /** A suite under which the first message carries record 65537 and every other one record 1. */
  function OvertakingSuite(): (open: Opener) {
    (m: M.Message) => if m.payload == [1] then Record(Numbered(65537), []) else Record(Numbered(1), [])
  }

  lemma SendStep(w: World, m: M.Message, size: nat, frames: seq<Frame>)
    requires Valid(w.receiver.buffers) && w.last < MAX_UINT64 && Sendable(m) && |frames| <= MAX_UINT32
    requires IsSplit(frames, w.last + 1, M.EncodeMessage(m).value, size) && Stamp(frames, []) == frames
    ensures Steps(w, Send(m, size, [], frames), Posted(w, m, frames))
  {
    hide M.EncodeMessage, IsSplit, Stamp, Valid, Sendable;
  }

  ghost function SampleSent(w: World, b: byte): (x: World)
    requires w.last < MAX_UINT64 && Sendable(Sample(b))
  {
    Posted(w, Sample(b), [LoneFrame(w.last + 1, Sample(b))])
  }

  lemma SampleStep(w: World, b: byte) returns (e: Event)
    requires Valid(w.receiver.buffers) && w.last < MAX_UINT64 && Sendable(Sample(b))
    ensures Steps(w, e, SampleSent(w, b))
  {
    hide M.EncodeMessage, IsSplit, Stamp, Valid, Sample, Steps, LoneFrame, Posted;
    SampleIsSendable(b);
    var m := Sample(b);
    LoneIsSplit(w.last + 1, m);
    var frames := [LoneFrame(w.last + 1, m)];
    SendStep(w, m, |M.EncodeMessage(m).value|, frames);
    e := Send(m, |M.EncodeMessage(m).value|, [], frames);
  }

  lemma PostedParts(w: World, m: M.Message, f: Frame)
    requires w.last < MAX_UINT64
    ensures var x, id: uint64 := Posted(w, m, [f]), w.last + 1;
            && x.last == id && x.receiver == w.receiver && x.messages == w.messages[id := m] && id in x.pending
            && w.wire <= x.wire && f in x.wire
  {
    assert f in [f];
  }

  lemma RunGrows(ws: seq<World>, es: seq<Event>, e: Event, x: World)
    requires Run(ws, es) && Steps(ws[|es|], e, x)
    ensures Run(ws + [x], es + [e])
  {
    hide Steps, Beginning;
    assert (ws + [x])[0] == ws[0];
  }

  lemma BeginningRuns(open: Opener)
    ensures Run([Beginning(open)], [])
  {
  }

  /** The suite is installed and two messages are under way. */
  lemma TwoUnderWay() returns (ws: seq<World>, es: seq<Event>)
    ensures |es| == 3 && |ws| == 4 && Run(ws, es)
    ensures Sendable(Sample(1)) && Sendable(Sample(2))
    ensures var w := ws[3];
            && w.receiver == NewReceiver(OvertakingSuite()).(secured := true)
            && w.messages == map[1 := Sample(1), 2 := Sample(2)] && 2 in w.pending
            && LoneFrame(1, Sample(1)) in w.wire && LoneFrame(2, Sample(2)) in w.wire
  {
    hide Sample, M.EncodeMessage, Sendable, OvertakingSuite, Run, LoneFrame, Posted;
    SampleIsSendable(1);
    SampleIsSendable(2);
    var w0 := Beginning(OvertakingSuite());
    var w1 := w0.(receiver := w0.receiver.(secured := true));
    assert Steps(w0, Install, w1);
    var w2 := SampleSent(w1, 1);
    var e2 := SampleStep(w1, 1);
    PostedParts(w1, Sample(1), LoneFrame(1, Sample(1)));
    var w3 := SampleSent(w2, 2);
    var e3 := SampleStep(w2, 2);
    PostedParts(w2, Sample(2), LoneFrame(2, Sample(2)));
    hide Steps;
    BeginningRuns(OvertakingSuite());
    RunGrows([w0], [], Install, w1);
    RunGrows([w0] + [w1], [] + [Install], e2, w2);
    RunGrows([w0] + [w1] + [w2], [] + [Install] + [e2], e3, w3);
    ws, es := [w0] + [w1] + [w2] + [w3], [] + [Install] + [e2] + [e3];
  }

  lemma WindowOvertaken(late: seq<byte>, early: seq<byte>)
    requires W.Wellformed(late) && W.Sequence(late) == 65537 && late[..32] == ZERO_DIGEST
    requires W.Wellformed(early) && W.Sequence(early) == 1 && early[..32] == ZERO_DIGEST
    ensures var w := W.Window(Some(ZERO_DIGEST), 65537, {65537});
            W.Observe(W.EMPTY, late) == (w, W.Fresh) && W.Observe(w, early) == (w, W.Seen)
  {
    hide W.Sequence, W.Epoch;
    assert {} + {65537} == {65537};
  }

  const OVERTAKEN := W.Window(Some(ZERO_DIGEST), 65537, {65537})

  lemma LateIsFresh(r: Receiver)
    requires r.open == OvertakingSuite() && r.secured && r.window == W.EMPTY && Sendable(Sample(1))
    ensures var j := Judge(r, Arrival(Sample(1)), false); j.verdict == Fresh && j.window == OVERTAKEN
  {
    hide Sample, Sendable, Arrival, Numbered, W.Sequence, W.Epoch, W.Observe;
    SampleIsSendable(1);
    NumberedReads(65537);
    NumberedReads(1);
    WindowOvertaken(Numbered(65537), Numbered(1));
  }

  lemma EarlyIsRepeated(r: Receiver)
    requires r.open == OvertakingSuite() && r.secured && r.window == OVERTAKEN && Sendable(Sample(2))
    ensures var j := Judge(r, Arrival(Sample(2)), false); j.verdict == Repeated && j.window == OVERTAKEN
  {
    hide Sample, Sendable, Arrival, Numbered, W.Sequence, W.Epoch, W.Observe;
    SampleIsSendable(2);
    NumberedReads(65537);
    NumberedReads(1);
    WindowOvertaken(Numbered(65537), Numbered(1));
  }

  /** The overtaking message is handed over. */
  lemma LateArrives(w: World) returns (x: World)
    requires Inv(w) && w.receiver == NewReceiver(OvertakingSuite()).(secured := true)
    requires Sendable(Sample(1)) && LoneFrame(1, Sample(1)) in w.wire && 1 in w.messages && w.messages[1] == Sample(1)
    ensures Steps(w, Data(LoneFrame(1, Sample(1)), false), x)
    ensures x.receiver.delivered == {1} && Ids(x.receiver.inbox) == {1} && !x.receiver.closed
    ensures x.receiver.open == OvertakingSuite() && x.receiver.secured && x.receiver.window == OVERTAKEN
    ensures x.messages == w.messages && x.wire == w.wire && x.pending == w.pending && x.sent == w.sent
  {
    hide Inv, Sample, Sendable, OvertakingSuite, M.EncodeMessage, Judge, Brought, AddFrame, Arrival;
    var f := LoneFrame(1, Sample(1));
    LoneFinishes(w, f);
    LateIsFresh(w.receiver);
    x := Step(w, Data(f, false));
    assert Steps(w, Data(f, false), x);
    hide Step, Receive;
    DoneStep(w, f, false, Arrival(Sample(1)));
    InboxGrows([], Entry(1, Judge(w.receiver, Arrival(Sample(1)), false).message, false));
  }

  /** Record 65537 is handed over, and record 1 is still under way. */
  lemma OvertakingRun() returns (ws: seq<World>, es: seq<Event>)
    ensures |es| == 4 && |ws| == 5 && Run(ws, es) && Inv(ws[4]) && Sendable(Sample(2))
    ensures var x := ws[4];
            && x.receiver.open == OvertakingSuite() && x.receiver.secured && x.receiver.window == OVERTAKEN
            && x.receiver.delivered == {1} && Ids(x.receiver.inbox) == {1} && !x.receiver.closed
            && 2 in x.messages && x.messages[2] == Sample(2) && 2 in x.pending && LoneFrame(2, Sample(2)) in x.wire
  {
    hide Inv, Run, Steps, Sample, Sendable, M.EncodeMessage, LoneFrame, Ids, NewReceiver, OvertakingSuite;
    ws, es := TwoUnderWay();
    RunKeeps(ws, es, 3);
    var x := LateArrives(ws[3]);
    var late := Data(LoneFrame(1, Sample(1)), false);
    RunGrows(ws, es, late, x);
    ws, es := ws + [x], es + [late];
    RunKeeps(ws, es, 4);
  }

  /** A run in which a message succeeds that nobody received: its record, the first of the session, is
      overtaken by record 65537 and then taken for a repetition, although it was never accepted. */
  lemma OvertakenSucceeds() returns (ws: seq<World>, es: seq<Event>)
    ensures |es| == 7 && |ws| == 8 && Run(ws, es)
    ensures var w := ws[7];
            && 2 in w.succeeded && 2 !in Ids(w.receiver.inbox) && !w.receiver.closed
            && 2 in w.messages && Sendable(w.messages[2])
            && var o := w.receiver.open(Arrival(w.messages[2]));
               o.Record? && W.Wellformed(o.e2e) && W.Sequence(o.e2e) == 1 && 1 !in w.receiver.window.accepted
  {
    hide Inv, Run, Steps, Sample, Sendable, M.EncodeMessage, Judge, AddFrame, Arrival, LoneFrame, Ids, W.Sequence,
         Listening, FullAck;
    SampleIsSendable(2);
    NumberedReads(1);
    ws, es := OvertakingRun();
    var x := ws[4];
    var f := LoneFrame(2, Sample(2));
    LoneListens(x, f);
    LoneFinishes(x, f);
    EarlyIsRepeated(x.receiver);
    var u, v, z := DroppedSucceeds(x, f, Arrival(Sample(2)));
    var drops := DropEvents(f);
    RunGrows(ws, es, drops[0], u);
    RunGrows(ws + [u], es + [drops[0]], drops[1], v);
    RunGrows(ws + [u] + [v], es + [drops[0]] + [drops[1]], drops[2], z);
    ws, es := ws + [u] + [v] + [z], es + [drops[0]] + [drops[1]] + [drops[2]];
  }

  lemma LoneListens(x: World, f: Frame)
    requires Inv(x) && Sendable(Sample(2)) && f == LoneFrame(2, Sample(2)) && f in x.wire && !x.receiver.closed
    ensures f.messageId == 2 && f.total == 1 && Listening(x, f)
  {
    hide M.EncodeMessage, Sample, History, Settled, Honest, BufferOf;
  }
}
