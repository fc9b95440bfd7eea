/** What the application reads: every message once, as it was sent, and no record twice.

    A message that arrived before there was a suite waits in the inbox as it is, and goes through the
    replay window only when it is read. Whichever way it went, an opened record that is handed to the
    application is the source of its sequence, and a sequence has one source. */
module ArqReading {
  import opened Sequences
  import opened Bytes
  import opened FrameCodec
  import opened FrameAssembly
  import opened Assembler
  import opened AckRanges
  import opened AckTracking
  import opened Arq
  import opened ArqSafety
  import opened ArqReplay
  import M = MessageCodec
  import W = ReplayWindow

  // ---- The invariant -----------------------------------------------------------------------

  /** An opened record is the source of its sequence. */
  predicate IsAdmitted(open: Opener, messages: map<uint64, M.Message>, origins: map<int, uint64>, e: Entry) {
    && e.id in messages && Sendable(messages[e.id])
    && var o := open(Arrival(messages[e.id]));
       !e.raw && o.Record? ==>
         W.Wellformed(o.e2e) && W.Sequence(o.e2e) in origins && origins[W.Sequence(o.e2e)] == e.id
  }

  predicate Admitted(open: Opener, messages: map<uint64, M.Message>, origins: map<int, uint64>, entries: seq<Entry>) {
    forall i :: 0 <= i < |entries| ==> IsAdmitted(open, messages, origins, entries[i])
  }

  ghost predicate Handing(w: World) {
    var r := w.receiver;
    && r.read <= |r.inbox|
    && (forall i :: 0 <= i < |r.taken| ==> r.taken[i].id in Ids(r.inbox[..r.read]))
    && Once(r.taken) && Exact(r.open, r.taken, w.messages)
    && Admitted(r.open, w.messages, w.origins, r.inbox) && Admitted(r.open, w.messages, w.origins, r.taken)
  }

  // ---- What carries over -------------------------------------------------------------------

  ghost predicate Kept(messages: map<uint64, M.Message>, more: map<uint64, M.Message>) {
    forall id :: id in messages ==> id in more && more[id] == messages[id]
  }

  ghost predicate Sources(origins: map<int, uint64>, more: map<int, uint64>) {
    forall s :: s in origins ==> s in more && more[s] == origins[s]
  }

  lemma AdmittedCarries(open: Opener, messages: map<uint64, M.Message>, more: map<uint64, M.Message>,
                        origins: map<int, uint64>, o: map<int, uint64>, entries: seq<Entry>)
    requires Admitted(open, messages, origins, entries) && Kept(messages, more) && Sources(origins, o)
    ensures Admitted(open, more, o, entries)
  {
    hide Sendable, Arrival, W.Wellformed, W.Sequence;
    forall i | 0 <= i < |entries| ensures IsAdmitted(open, more, o, entries[i]) {
      assert IsAdmitted(open, messages, origins, entries[i]);
    }
  }

  lemma ExactCarries(open: Opener, messages: map<uint64, M.Message>, more: map<uint64, M.Message>, entries: seq<Entry>)
    requires Exact(open, entries, messages) && Kept(messages, more)
    ensures Exact(open, entries, more)
  {
    hide IsArrival;
  }

  /** Nothing is put in or read; more messages may have been sent. */
  ghost predicate Still(w: World, x: World) {
    && x.receiver.open == w.receiver.open && x.receiver.inbox == w.receiver.inbox && x.receiver.read == w.receiver.read
    && x.receiver.taken == w.receiver.taken && x.origins == w.origins && Kept(w.messages, x.messages)
  }

  lemma StillKeeps(w: World, x: World)
    requires Handing(w) && Still(w, x)
    ensures Handing(x)
  {
    hide Ids, Once, Exact, Admitted, Kept;
    var r := w.receiver;
    AdmittedCarries(r.open, w.messages, x.messages, w.origins, x.origins, r.inbox);
    AdmittedCarries(r.open, w.messages, x.messages, w.origins, x.origins, r.taken);
    ExactCarries(r.open, w.messages, x.messages, r.taken);
  }

  // ---- A message is put in -----------------------------------------------------------------

  lemma JudgedIsAdmitted(w: World, id: uint64, cut: bool)
    requires Screened(w) && id in w.messages && Sendable(w.messages[id])
    ensures var j := Judge(w.receiver, Arrival(w.messages[id]), cut);
            j.verdict == Fresh ==>
              IsAdmitted(w.receiver.open, w.messages, Brought(w.origins, w.receiver.window, j.window, id),
                         Entry(id, j.message, !w.receiver.secured))
  {
    var m := Arrival(w.messages[id]);
    if w.receiver.secured {
      ScreenAdmits(w.receiver.open, m, w.receiver.window, w.origins, id, cut);
    }
    hide Screen, Sendable, Arrival, Brought, Traced, W.Sequence, W.Epoch, IsSource;
  }

  /** What completing a message does to the inbox. */
  ghost predicate Fills(w: World, x: World, id: uint64, j: Judgement) {
    && x.receiver.open == w.receiver.open && x.receiver.read == w.receiver.read && x.receiver.taken == w.receiver.taken
    && x.receiver.window == j.window && x.messages == w.messages
    && x.origins == Brought(w.origins, w.receiver.window, j.window, id)
    && x.receiver.inbox == if j.verdict == Fresh then w.receiver.inbox + [Entry(id, j.message, !w.receiver.secured)]
                           else w.receiver.inbox
  }

  lemma DeliveredFills(w: World, f: Frame, m: M.Message, cut: bool)
    ensures Fills(w, Delivered(w, f, m, cut), f.messageId, Judge(w.receiver, m, cut))
  {
    ClosingParts(w.receiver, f, m, cut);
    hide Judge, Brought;
  }

  lemma PrefixStays(inbox: seq<Entry>, e: Entry, n: nat)
    requires n <= |inbox|
    ensures (inbox + [e])[..n] == inbox[..n]
  {
  }

  lemma FillKeeps(w: World, x: World, id: uint64, cut: bool)
    requires Handing(w) && Screened(w) && id in w.messages && Sendable(w.messages[id])
    requires Fills(w, x, id, Judge(w.receiver, Arrival(w.messages[id]), cut))
    ensures Handing(x)
  {
    hide Ids, Once, Exact, Brought, Arrival, Sendable, Judge, Screened, IsAdmitted, Sourced;
    var r, j := w.receiver, Judge(w.receiver, Arrival(w.messages[id]), cut);
    JudgeAdvances(w, id, cut);
    assert Sources(w.origins, x.origins);
    assert Kept(w.messages, x.messages);
    AdmittedCarries(r.open, w.messages, x.messages, w.origins, x.origins, r.inbox);
    AdmittedCarries(r.open, w.messages, x.messages, w.origins, x.origins, r.taken);
    JudgedIsAdmitted(w, id, cut);
    PrefixStays(r.inbox, Entry(id, j.message, !r.secured), r.read);
  }

  // ---- A message is read -------------------------------------------------------------------

  /** Reading moves on by one entry, and may hand over the message. */
  ghost predicate Moves(w: World, x: World, given: seq<Entry>) {
    && x.receiver.open == w.receiver.open && x.receiver.inbox == w.receiver.inbox && x.messages == w.messages
    && x.receiver.read == w.receiver.read + 1 <= |w.receiver.inbox|
    && x.receiver.taken == w.receiver.taken + given && |given| <= 1
    && Sources(w.origins, x.origins)
    && forall e :: e in given ==>
         && e.id == w.receiver.inbox[w.receiver.read].id && e.id in w.messages
         && IsArrival(w.receiver.open, e, w.messages[e.id]) && IsAdmitted(w.receiver.open, w.messages, x.origins, e)
  }

  lemma TakenGrows(inbox: seq<Entry>, taken: seq<Entry>, n: nat, given: seq<Entry>)
    requires n < |inbox| && Once(inbox) && Once(taken) && |given| <= 1
    requires forall i :: 0 <= i < |taken| ==> taken[i].id in Ids(inbox[..n])
    requires forall e :: e in given ==> e.id == inbox[n].id
    ensures Once(taken + given)
    ensures forall i :: 0 <= i < |taken + given| ==> (taken + given)[i].id in Ids(inbox[..n + 1])
  {
    InboxGrows(inbox[..n], inbox[n]);
    assert inbox[..n] + [inbox[n]] == inbox[..n + 1];
    assert inbox[n].id !in Ids(inbox[..n]);
    hide Ids;
    if given != [] {
      assert given[0] in given;
      forall i | 0 <= i < |taken| ensures taken[i].id != given[0].id { }
    }
  }

  lemma GivenCarries(open: Opener, messages: map<uint64, M.Message>, origins: map<int, uint64>, taken: seq<Entry>,
                     given: seq<Entry>)
    requires Exact(open, taken, messages) && Admitted(open, messages, origins, taken)
    requires forall e :: e in given ==>
               e.id in messages && IsArrival(open, e, messages[e.id]) && IsAdmitted(open, messages, origins, e)
    ensures Exact(open, taken + given, messages) && Admitted(open, messages, origins, taken + given)
  {
    hide IsArrival, IsAdmitted;
    var all := taken + given;
    forall i | 0 <= i < |all|
      ensures all[i].id in messages && IsArrival(open, all[i], messages[all[i].id])
              && IsAdmitted(open, messages, origins, all[i])
    {
      if i >= |taken| { assert all[i] == given[i - |taken|] && given[i - |taken|] in given; }
    }
  }

  lemma MoveKeeps(w: World, x: World, given: seq<Entry>)
    requires Handing(w) && Once(w.receiver.inbox) && Moves(w, x, given)
    ensures Handing(x)
  {
    hide Ids, Once, Exact, IsArrival, IsAdmitted, Admitted, Sources;
    var r := w.receiver;
    assert Kept(w.messages, x.messages);
    AdmittedCarries(r.open, w.messages, x.messages, w.origins, x.origins, r.inbox);
    AdmittedCarries(r.open, w.messages, x.messages, w.origins, x.origins, r.taken);
    TakenGrows(r.inbox, r.taken, r.read, given);
    GivenCarries(r.open, w.messages, x.origins, r.taken, given);
  }

  /** An entry read as it is. */
  lemma PlainReadMoves(w: World)
    requires Handing(w) && Settled(w) && w.receiver.read < |w.receiver.inbox|
    requires !w.receiver.inbox[w.receiver.read].raw || !w.receiver.secured
    ensures Moves(w, AfterRead(w), [w.receiver.inbox[w.receiver.read]])
  {
    hide Ids, Once, IsArrival, IsAdmitted, Screen, Handled;
    NothingBrought(w.origins, w.receiver.window, Front(w.receiver));
    var e := w.receiver.inbox[w.receiver.read];
    assert IsArrival(w.receiver.open, e, w.messages[e.id]);
  }

  lemma OpenedIsArrival(open: Opener, w: W.Window, m: M.Message, id: uint64)
    requires Sendable(m) && Screen(w, open(Arrival(m)), Arrival(m), false).verdict == Fresh
    ensures IsArrival(open, Entry(id, Screen(w, open(Arrival(m)), Arrival(m), false).message, false), m)
  {
    hide W.Observe, Sendable, Arrival;
  }

  ghost function Given(w: World): (given: seq<Entry>)
    requires w.receiver.read < |w.receiver.inbox|
  {
    var e := w.receiver.inbox[w.receiver.read];
    var j := Screen(w.receiver.window, w.receiver.open(e.message), e.message, false);
    if j.verdict == Fresh then [Entry(e.id, j.message, false)] else []
  }

  lemma TakeRaw(w: World)
    requires w.receiver.read < |w.receiver.inbox| && w.receiver.inbox[w.receiver.read].raw && w.receiver.secured
    ensures var x := AfterRead(w);
            && x.receiver.open == w.receiver.open && x.receiver.inbox == w.receiver.inbox && x.messages == w.messages
            && x.receiver.read == w.receiver.read + 1 && x.receiver.taken == w.receiver.taken + Given(w)
  {
    hide Screen, Brought;
    assert w.receiver.taken + [] == w.receiver.taken;
  }

  /** A raw entry is opened and screened when it is read. */
  lemma RawReadMoves(w: World)
    requires Handing(w) && Screened(w) && Settled(w) && w.receiver.read < |w.receiver.inbox|
    requires w.receiver.inbox[w.receiver.read].raw && w.receiver.secured
    ensures Moves(w, AfterRead(w), Given(w))
  {
    hide Ids, Once, Take, Brought, W.Observe, Handled, Traced, Advances, W.Sequence, W.Wellformed, Sendable, Arrival,
        Exact;
    var r := w.receiver;
    FrontIsArrival(w);
    TakeRaw(w);
    TakeWindow(r);
    var id, m := Front(r), w.messages[Front(r)];
    var x := AfterRead(w);
    ScreenAdvances(r.open, w.messages, r.window, w.origins, id, false);
    assert Sources(w.origins, x.origins)
        by { AdvancesSources(r.open, w.messages, r.window, x.receiver.window, w.origins, x.origins, id); }
    ScreenAdmits(r.open, Arrival(m), r.window, w.origins, id, false);
    if Given(w) != [] {
      OpenedIsArrival(r.open, r.window, m, id);
    }
  }

  lemma AdvancesSources(open: Opener, messages: map<uint64, M.Message>, w: W.Window, x: W.Window,
                        origins: map<int, uint64>, o: map<int, uint64>, id: uint64)
    requires Advances(open, messages, w, x, origins, o, id)
    ensures Sources(origins, o)
  {
    hide Sourced;
  }

  lemma ReadHands(w: World)
    requires Handing(w) && Screened(w) && Settled(w)
    ensures Handing(AfterRead(w))
  {
    hide Handing, Screened, Moves, Handled, Ids, Exact, Brought, Screen;
    var r := w.receiver;
    if r.read >= |r.inbox| {
      NothingBrought(w.origins, r.window, Front(r));
      StillKeeps(w, AfterRead(w));
    } else if r.inbox[r.read].raw && r.secured {
      RawReadMoves(w);
      MoveKeeps(w, AfterRead(w), Given(w));
    } else {
      PlainReadMoves(w);
      MoveKeeps(w, AfterRead(w), [r.inbox[r.read]]);
    }
  }

  // ---- Every step --------------------------------------------------------------------------

  lemma AnswerIsStill(w: World, id: uint64, ranges: seq<AckRange>)
    ensures Still(w, Answered(w, id, ranges))
  {
    hide EncodeAckRanges;
  }

  lemma CountIsStill(w: World, id: uint64)
    ensures var (r, a) := Count(w.receiver, id); Still(w, w.(receiver := r, acks := w.acks + Answers(a)))
  {
    hide EncodeAckRanges, SnapshotRanges;
  }

  lemma WaitHands(w: World, f: Frame, cut: bool)
    requires Handing(w) && Listening(w, f) && f.messageId !in w.receiver.delivered
    requires AddFrame(w.receiver.buffers, f).1 == Waiting
    ensures Handing(Step(w, Data(f, cut)))
  {
    hide AddFrame, Count, Step, Handing;
    WaitStep(w, f, cut);
    var y := w.(receiver := w.receiver.(buffers := AddFrame(w.receiver.buffers, f).0));
    StillKeeps(w, y);
    CountIsStill(y, f.messageId);
    StillKeeps(y, Step(w, Data(f, cut)));
  }

  lemma DoneHands(w: World, f: Frame, cut: bool, m: M.Message)
    requires Handing(w) && Screened(w) && Listening(w, f) && f.messageId !in w.receiver.delivered
    requires f.messageId in w.messages && m == w.messages[f.messageId] && Sendable(m)
    requires AddFrame(w.receiver.buffers, f) == (w.receiver.buffers - {f.messageId}, Done(Some(Arrival(m))))
    ensures Handing(Step(w, Data(f, cut)))
  {
    hide AddFrame, Step, Handing, Screened, Arrival, Sendable, Judge, Delivered, FullAck, Still, Answered, Fills;
    DoneStep(w, f, cut, Arrival(m));
    var y := Delivered(w, f, Arrival(m), cut);
    DeliveredFills(w, f, Arrival(m), cut);
    FillKeeps(w, y, f.messageId, cut);
    AnswerIsStill(y, f.messageId, FullAck(f.total));
    if Judge(w.receiver, Arrival(m), cut).verdict != Rejected {
      StillKeeps(y, Answered(y, f.messageId, FullAck(f.total)));
    }
  }

  lemma DataHands(w: World, f: Frame, cut: bool)
    requires Inv(w) && Screened(w) && Handing(w) && f in w.wire && Valid(w.receiver.buffers)
    ensures Handing(Step(w, Data(f, cut)))
  {
    hide AddFrame, Step, Screened, Handing, Buffered, Settled, Honest, SentWell, Genuine, Fitting, FullAck, Answered,
        Still, Full, Held;
    ArrivingIsGenuine(w, f);
    if w.receiver.closed {
      ClosedStep(w, f, cut);
    } else if f.messageId in w.receiver.delivered {
      RepeatStep(w, f, cut);
      AnswerIsStill(w, f.messageId, FullAck(f.total));
      StillKeeps(w, Answered(w, f.messageId, FullAck(f.total)));
    } else {
      var m := w.messages[f.messageId];
      GenuineIsAccepted(w.receiver, f, w.sent, m);
      if Completed(w.receiver, f, AddFrame(w.receiver.buffers, f), m) {
        DoneHands(w, f, cut, m);
      } else {
        WaitHands(w, f, cut);
      }
    }
  }

  lemma SendIsStill(w: World, m: M.Message, frames: seq<Frame>)
    requires w.last < MAX_UINT64 && w.last + 1 !in w.messages
    ensures Still(w, Posted(w, m, frames))
  {
  }

  lemma AsideIsStill(w: World, e: Event)
    requires Valid(w.receiver.buffers) && Enabled(w, e)
    requires !e.Data? && !e.Read? && !e.Send? && !e.Report?
    ensures Still(w, Step(w, e))
  {
    hide Receive, Noted, SnapshotRanges, SendAck, Covered, Copies;
  }

  lemma StepHands(w: World, e: Event)
    requires Inv(w) && Screened(w) && Handing(w) && Valid(w.receiver.buffers) && Enabled(w, e)
    ensures Handing(Step(w, e))
  {
    hide Screened, Handing, Buffered, Settled, Honest, IsSplit, Sendable, Brought, Take, Receive, Noted, SnapshotRanges,
         SendAck, Still, SentWell, Genuine;
    match e
    case Data(f, cut) => DataHands(w, f, cut);
    case Read => ReadHands(w);
    case Send(m, size, connection, frames) =>
      LastIsNew(w);
      SendIsStill(w, m, Stamp(frames, connection));
      StillKeeps(w, Posted(w, m, Stamp(frames, connection)));
    case Report(id) =>
      AnswerIsStill(w, id, SnapshotRanges(w.receiver.buffers[id]));
      StillKeeps(w, Step(w, e));
    case _ =>
      AsideIsStill(w, e);
      StillKeeps(w, Step(w, e));
  }

  lemma StartHands(open: Opener)
    ensures Handing(Beginning(open))
  {
  }

  lemma {:induction false} RunHands(ws: seq<World>, es: seq<Event>, n: nat)
    requires Run(ws, es) && n < |ws|
    ensures Handing(ws[n])
  {
    hide Inv, Step, Enabled, Valid, Screened, Handing;
    if n == 0 {
      StartHands(ws[0].receiver.open);
    } else {
      var m := n - 1;
      RunHands(ws, es, m);
      RunScreens(ws, es, m);
      assert Steps(ws[m], es[m], ws[n]);
      StepHands(ws[m], es[m]);
    }
  }

  // ---- The result --------------------------------------------------------------------------

  /** In every run: what the application reads are messages that were sent, each at most once, and no
      two opened records among them have the same sequence. */
  lemma NothingReadTwice(ws: seq<World>, es: seq<Event>, n: nat, i: nat, j: nat)
    requires Run(ws, es) && n < |ws| && i < j < |ws[n].receiver.taken|
    ensures var w := ws[n];
            var a, b := w.receiver.taken[i], w.receiver.taken[j];
            && a.id != b.id && Exact(w.receiver.open, w.receiver.taken, w.messages)
            && a.id in w.messages && Sendable(w.messages[a.id]) && b.id in w.messages && Sendable(w.messages[b.id])
            && var x, y := w.receiver.open(Arrival(w.messages[a.id])), w.receiver.open(Arrival(w.messages[b.id]));
               !a.raw && !b.raw && x.Record? && y.Record? ==>
                 W.Wellformed(x.e2e) && W.Wellformed(y.e2e) && W.Sequence(x.e2e) != W.Sequence(y.e2e)
  {
    hide Run, Arrival, Sendable, Exact, W.Epoch, W.Sequence, Ids;
    RunHands(ws, es, n);
    var w := ws[n];
    assert IsAdmitted(w.receiver.open, w.messages, w.origins, w.receiver.taken[i]);
    assert IsAdmitted(w.receiver.open, w.messages, w.origins, w.receiver.taken[j]);
  }
}
