/** Whole runs of the settlement queue: order within a channel, crashes and reopening, the size
    of the file, and what any cut of the file restores. */
module QueueRuns {
  import opened Sequences
  import opened Bytes
  import opened WriteAheadLog
  import opened LogReplay
  import opened SettlementQueue

  // ---- Runs --------------------------------------------------------------------------------

  datatype Op =
    | DoEnqueue(e: Candidate, io: Append)
    | DoRemove(id: Digest, io: Append, rw: Rewrite)
    | DoRemoveChannelHead(id: Digest, io: Append, rw: Rewrite)
    | DoClose

  predicate OpOk(c: Codec, op: Op) {
    op.DoEnqueue? ==> CandidateOk(c, op.e)
  }

  /** The entry a removal is about, -1 when there is none it may take. */
  function Target(s: State, op: Op): (i: int)
    requires op.DoRemove? || op.DoRemoveChannelHead?
    ensures -1 <= i < |s.log.items| && (i >= 0 ==> ChannelHead(s.log.items, i))
  {
    if op.DoRemove? then RemoveTarget(s, op.id) else ChannelHeadTarget(s, op.id)
  }

  /** The removal of the entry at i, or the refusal when i is -1. */
  ghost function RemoveStep(c: Codec, s: State, i: int, io: Append, rw: Rewrite): (r: Outcome)
    requires Valid(c, s) && -1 <= i < |s.log.items| && (i >= 0 ==> ChannelHead(s.log.items, i))
    ensures Valid(c, r.state) && r.state.limits == s.limits
  {
    RemoveKeepsValid(c, s, i, io, rw);
    RemoveTargeted(c, s, i, io, rw)
  }

  /** One operation; it keeps the invariant whatever the disk does. */
  ghost function Step(c: Codec, s: State, op: Op): (r: Outcome)
    requires Valid(c, s) && OpOk(c, op)
    ensures Valid(c, r.state) && r.state.limits == s.limits
  {
    match op
    case DoEnqueue(e, io) =>
      EnqueueKeepsValid(c, s, e, io);
      Enqueue(c, s, e, io)
    case DoClose => Outcome(s.(closed := true), None, Quiet)
    case _ => RemoveStep(c, s, Target(s, op), op.io, op.rw)
  }

  ghost predicate OpsOk(c: Codec, ops: seq<Op>) {
    forall i :: 0 <= i < |ops| ==> OpOk(c, ops[i])
  }

  /** The state after a run of operations. Valid holds in every one: the file, replayed, is the
      in-memory queue unless a write failed, and all sums and limits hold. */
  ghost function Run(c: Codec, s: State, ops: seq<Op>): (r: State)
    requires Valid(c, s) && OpsOk(c, ops)
    ensures Valid(c, r) && r.limits == s.limits
    decreases |ops|
  {
    if ops == [] then s
    else Step(c, Run(c, s, ops[..|ops| - 1]), ops[|ops| - 1]).state
  }

  function Fresh(l: Limits): (s: State) {
    State(l, EMPTY_LOG, {}, map[], false, false, HEADER)
  }

  lemma FreshValid(c: Codec, l: Limits)
    requires ValidateLimits(l).Some?
    ensures Valid(c, Fresh(l))
  {
    assert HEADER[..HEADER_SIZE] == HEADER;
    assert FrameAt(l, HEADER, HEADER_SIZE) == Short;
    assert Sum(Sizes([])) == 0;
  }

  // ---- Order within a channel --------------------------------------------------------------

  function EnqueuedIn(ev: Event, ch: Channel): (ids: seq<Digest>) {
    if ev.Enqueued? && ChannelOf(ev.entry.envelope) == ch then [ev.entry.id] else []
  }

  function RemovedIn(ev: Event, ch: Channel): (ids: seq<Digest>) {
    if ev.Removed? && ChannelOf(ev.entry.envelope) == ch then [ev.entry.id] else []
  }

  ghost function Enqueues(c: Codec, s: State, ops: seq<Op>, ch: Channel): (ids: seq<Digest>)
    requires Valid(c, s) && OpsOk(c, ops)
    decreases |ops|
  {
    if ops == [] then []
    else
      var init := ops[..|ops| - 1];
      Enqueues(c, s, init, ch) + EnqueuedIn(Step(c, Run(c, s, init), ops[|ops| - 1]).event, ch)
  }

  ghost function Removals(c: Codec, s: State, ops: seq<Op>, ch: Channel): (ids: seq<Digest>)
    requires Valid(c, s) && OpsOk(c, ops)
    decreases |ops|
  {
    if ops == [] then []
    else
      var init := ops[..|ops| - 1];
      Removals(c, s, init, ch) + RemovedIn(Step(c, Run(c, s, init), ops[|ops| - 1]).event, ch)
  }

  lemma EnqueueAccounts(c: Codec, s: State, e: Candidate, io: Append, ch: Channel)
    ensures var r := Enqueue(c, s, e, io);
            !r.event.Removed?
                && InChannel(s.log.items, ch) + EnqueuedIn(r.event, ch) == InChannel(r.state.log.items, ch)
  {
    var r := Enqueue(c, s, e, io);
    if r.event.Enqueued? {
      ProjectAppend(s.log.items, r.event.entry, IdIn(ch));
    }
  }

  lemma RemovalAccounts(c: Codec, s: State, i: int, io: Append, rw: Rewrite, ch: Channel)
    requires -1 <= i < |s.log.items| && (i >= 0 ==> ChannelHead(s.log.items, i) && Refundable(s, i))
    ensures var r := RemoveTargeted(c, s, i, io, rw);
            !r.event.Enqueued?
                && InChannel(s.log.items, ch) == RemovedIn(r.event, ch) + InChannel(r.state.log.items, ch)
  {
    if i >= 0 {
      HeadRemoval(s.log.items, i, ch);
    }
  }

  lemma StepAccounts(c: Codec, s: State, op: Op, ch: Channel)
    requires Valid(c, s) && OpOk(c, op)
    ensures var r := Step(c, s, op);
            InChannel(s.log.items, ch) + EnqueuedIn(r.event, ch) ==
                RemovedIn(r.event, ch) + InChannel(r.state.log.items, ch)
  {
    match op
    case DoEnqueue(e, io) => EnqueueAccounts(c, s, e, io, ch);
    case DoClose =>
    case _ =>
      var i := Target(s, op);
      RemoveKeepsValid(c, s, i, op.io, op.rw);
      RemovalAccounts(c, s, i, op.io, op.rw, ch);
  }

  /** However the channels interleave, what a run removed from a channel, followed by what is
      still live in it, is what the run enqueued into it: removals are a prefix of enqueues. */
  lemma {:induction false} ChannelFifo(c: Codec, s: State, ops: seq<Op>, ch: Channel)
    requires Valid(c, s) && OpsOk(c, ops)
    ensures InChannel(s.log.items, ch) + Enqueues(c, s, ops, ch)
         == Removals(c, s, ops, ch) + InChannel(Run(c, s, ops).log.items, ch)
    decreases |ops|
  {
    if ops != [] {
      var init, op := ops[..|ops| - 1], ops[|ops| - 1];
      var before := Run(c, s, init);
      var r := Step(c, before, op);
      ChannelFifo(c, s, init, ch);
      StepAccounts(c, before, op, ch);
      GainsAndLosses(InChannel(s.log.items, ch), Enqueues(c, s, init, ch), Removals(c, s, init, ch),
                     InChannel(before.log.items, ch), EnqueuedIn(r.event, ch), RemovedIn(r.event, ch),
                     InChannel(r.state.log.items, ch));
    }
  }

  // ---- Crashes and reopening ---------------------------------------------------------------

  ghost function IdSet(items: seq<Entry>): (ids: set<Digest>) {
    set i | 0 <= i < |items| :: items[i].id
  }

  ghost function UsageTable(items: seq<Entry>): (usage: map<Digest, Usage>) {
    map i | 0 <= i < |items| :: PayerOf(items[i].envelope) := UsageOf(items, PayerOf(items[i].envelope))
  }

  /** Opening a file; None is any of the errors. The torn tail is cut off. */
  ghost function Open(c: Codec, l: Limits, disk: seq<byte>): (r: Option<State>)
  {
    if ValidateLimits(l).None? || |disk| > ValidateLimits(l).value then None
    else
      match Replay(c, l, disk)
      case None => None
      case Some(log) =>
        ReplayValid(c, l, disk);
        if !WithinQuotas(l, log.items) then None
        else Some(State(l, log, IdSet(log.items), UsageTable(log.items), false, false, disk[..log.size]))
  }

  lemma IdsAreSet(items: seq<Entry>, ids: set<Digest>)
    requires IdsMatch(items, ids)
    ensures ids == IdSet(items)
  {
    forall id ensures id in ids <==> id in IdSet(items) {
      if id in ids { assert items[IndexOf(items, id)].id in IdSet(items); }
    }
  }

  lemma PayerHasEntry(items: seq<Entry>, payer: Digest)
    ensures UsageOf(items, payer).items > 0 <==> exists i :: 0 <= i < |items| && PayerOf(items[i].envelope) == payer
  {
    var counts := PayerCounts(items, payer);
    if UsageOf(items, payer).items == 0 {
      AllZero(counts);
      forall i | 0 <= i < |items| ensures PayerOf(items[i].envelope) != payer {
        assert counts[i] == 0;
      }
    } else if forall i :: 0 <= i < |items| ==> PayerOf(items[i].envelope) != payer {
      ZeroSum(counts);
    }
  }

  lemma UsageIsTable(items: seq<Entry>, usage: map<Digest, Usage>)
    requires UsageMatches(items, usage)
    ensures usage == UsageTable(items)
  {
    var table := UsageTable(items);
    forall payer ensures payer in usage <==> payer in table {
      PayerHasEntry(items, payer);
      assert UsageIn(usage, payer) == UsageOf(items, payer);
    }
    forall payer | payer in usage ensures usage[payer] == table[payer] {
      assert UsageIn(usage, payer) == UsageOf(items, payer);
    }
  }

  /** Reopening the file of a healthy queue restores that queue, field for field. */
  lemma ReopenRestores(c: Codec, s: State)
    requires Valid(c, s) && !s.poisoned && |s.disk| <= ValidateLimits(s.limits).value
    ensures Open(c, s.limits, s.disk) == Some(s.(closed := false))
  {
    IdsAreSet(s.log.items, s.liveIds);
    UsageIsTable(s.log.items, s.usage);
    assert s.disk[..|s.disk|] == s.disk;
  }

  /** Whatever part of an enqueue's frame reached the disk, the file means the queue before the
      enqueue, or, from the last byte on, the queue after it. */
  lemma EnqueueCrash(c: Codec, s: State, e: Candidate, io: Append, k: nat)
    requires Valid(c, s) && CandidateOk(c, e) && EnqueueRefusal(s, e).None?
    requires |s.disk| <= k <= |Enqueue(c, s, e, io).state.disk|
    ensures var after := Added(c, s, e);
            Replay(c, s.limits, Enqueue(c, s, e, io).state.disk[..k]) ==
            Some(if k < |after.disk| then s.log else after.log)
  {
    EnqueueExtends(c, s, e);
    hide LogValid, IdsMatch, UsageMatches, WithinQuotas, EncodeFrame, EnqueueRefusal, Extend, Replay;
    var frame := EncodeFrame(c, FRAME_ENQUEUE, e.payload, s.log.lastHash);
    TornAppend(c, s.limits, s.disk, FRAME_ENQUEUE, e.payload, k - |s.disk|);
    assert Enqueue(c, s, e, io).state.disk[..k] == s.disk + frame[..k - |s.disk|];
  }

  /** The same for a removal, up to the point where a compaction may follow. */
  lemma RemovalCrash(c: Codec, s: State, i: nat, k: nat)
    requires Valid(c, s) && !s.poisoned && i < |s.log.items| && ChannelHead(s.log.items, i)
    requires |s.disk| <= k <= |s.disk| + REMOVE_FRAME
    ensures Refundable(s, i)
    ensures var after := Dropped(c, s, i);
            && |after.disk| == |s.disk| + REMOVE_FRAME
            && Replay(c, s.limits, after.disk[..k]) == Some(if k < |after.disk| then s.log else after.log)
  {
    RemovalExtends(c, s, i);
    hide LogValid, IdsMatch, UsageMatches, WithinQuotas, EncodeFrame, Extend, Replay;
    var frame := EncodeFrame(c, FRAME_REMOVE, s.log.items[i].id, s.log.lastHash);
    TornAppend(c, s.limits, s.disk, FRAME_REMOVE, s.log.items[i].id, k - |s.disk|);
    assert Dropped(c, s, i).disk[..k] == s.disk + frame[..k - |s.disk|];
  }

  /** A compaction that fails or crashes leaves the old file or the new one; both hold the same
      entries, byte total and live size. */
  lemma CompactionCrash(c: Codec, s: State, rw: Rewrite)
    requires Valid(c, s) && !s.poisoned
    ensures var r := Compact(c, s, rw);
            var log := Replay(c, s.limits, r.disk);
            && log.Some? && log.value.items == s.log.items && log.value.bytes == s.log.bytes
            && LiveSize(log.value) == LiveSize(s.log)
            && log.value.garbage == if rw == NotReplaced then s.log.garbage else 0
  {
    CompactionPreserves(c, s.limits, s.log);
  }

  // ---- The size of the file ----------------------------------------------------------------

  function LiveMaximum(l: Limits): (n: nat) {
    HEADER_SIZE + l.maxItems * FRAME_OVERHEAD + l.maxBytes
  }

  /** No compaction is overdue. */
  ghost predicate Lean(s: State) {
    !s.poisoned ==> s.log.garbage < COMPACTION_CEILING
  }

  lemma LiveSizeBound(c: Codec, s: State)
    requires Valid(c, s)
    ensures LiveSize(s.log) <= LiveMaximum(s.limits)
    ensures !s.poisoned ==> |s.disk| == LiveSize(s.log) + s.log.garbage
  {
  }

  lemma EnqueueKeepsLean(c: Codec, s: State, e: Candidate, io: Append)
    requires Valid(c, s) && Lean(s) && !s.poisoned && CandidateOk(c, e)
    ensures var r := Enqueue(c, s, e, io).state;
            Lean(r) && |r.disk| < LiveMaximum(s.limits) + COMPACTION_CEILING
  {
    hide Valid, EnqueueRefusal;
    LiveSizeBound(c, s);
    if EnqueueRefusal(s, e).None? {
      AddedValid(c, s, e);
      LiveSizeBound(c, Added(c, s, e));
    }
  }

  lemma CompactionShrinks(c: Codec, s: State, rw: Rewrite)
    requires Valid(c, s) && !s.poisoned
    ensures |Compact(c, s, rw).disk| == if rw == NotReplaced then |s.disk| else |s.disk| - s.log.garbage
  {
    LiveSizeBound(c, s);
    CompactionPreserves(c, s.limits, s.log);
  }

  lemma RemovalSize(c: Codec, s: State, i: int, io: Append, rw: Rewrite)
    requires Lean(s) && !s.poisoned && -1 <= i < |s.log.items|
    requires i >= 0 ==> Refundable(s, i) && |Compact(c, Dropped(c, s, i), rw).disk| <= |Dropped(c, s, i).disk|
    ensures var r := RemoveTargeted(c, s, i, io, rw).state;
            Lean(r) && |r.disk| <= |s.disk| + REMOVE_FRAME
  {
  }

  lemma RemovalKeepsLean(c: Codec, s: State, i: int, io: Append, rw: Rewrite)
    requires Valid(c, s) && Lean(s) && !s.poisoned
    requires -1 <= i < |s.log.items| && (i >= 0 ==> ChannelHead(s.log.items, i))
    ensures var r := RemoveStep(c, s, i, io, rw).state;
            Lean(r) && |r.disk| <= |s.disk| + REMOVE_FRAME
  {
    if i >= 0 {
      DroppedValid(c, s, i);
      CompactionShrinks(c, Dropped(c, s, i), rw);
    }
    RemovalSize(c, s, i, io, rw);
  }

  /** No step, whatever the disk does, makes the file longer than this; and a step that succeeds
      leaves no compaction overdue. */
  lemma StepKeepsLean(c: Codec, s: State, op: Op)
    requires Valid(c, s) && Lean(s) && !s.poisoned && OpOk(c, op)
    ensures var r := Step(c, s, op).state;
            && Lean(r)
            && |r.disk| < LiveMaximum(s.limits) + COMPACTION_CEILING + REMOVE_FRAME
            && (!r.poisoned ==> |r.disk| < LiveMaximum(s.limits) + COMPACTION_CEILING)
  {
    LiveSizeBound(c, s);
    LiveSizeBound(c, Step(c, s, op).state);
    match op
    case DoEnqueue(e, io) => EnqueueKeepsLean(c, s, e, io);
    case DoClose =>
    case _ => RemovalKeepsLean(c, s, Target(s, op), op.io, op.rw);
  }

  /** The state after the first i operations. */
  ghost function After(c: Codec, s: State, ops: seq<Op>, i: nat): (r: State)
    requires Valid(c, s) && OpsOk(c, ops) && i <= |ops|
    ensures Valid(c, r) && r.limits == s.limits
  {
    Run(c, s, ops[..i])
  }

  lemma AfterStep(c: Codec, s: State, ops: seq<Op>, i: nat)
    requires Valid(c, s) && OpsOk(c, ops) && i < |ops|
    ensures After(c, s, ops, i + 1) == Step(c, After(c, s, ops, i), ops[i]).state
  {
    assert ops[..i + 1][..i] == ops[..i];
  }

  ghost predicate NeverPoisoned(c: Codec, s: State, ops: seq<Op>)
    requires Valid(c, s) && OpsOk(c, ops)
  {
    forall i :: 0 <= i <= |ops| ==> !After(c, s, ops, i).poisoned
  }

  /** Healthy, with no compaction overdue. */
  ghost predicate Thriving(s: State) {
    !s.poisoned && s.log.garbage < COMPACTION_CEILING && |s.disk| < LiveMaximum(s.limits) + COMPACTION_CEILING
  }

  lemma ThrivesOn(c: Codec, s: State, op: Op)
    requires Valid(c, s) && Thriving(s) && OpOk(c, op) && !Step(c, s, op).state.poisoned
    ensures Thriving(Step(c, s, op).state)
  {
    StepKeepsLean(c, s, op);
  }

  lemma {:induction false} KeepsThriving(c: Codec, s: State, ops: seq<Op>, i: nat)
    requires Valid(c, s) && OpsOk(c, ops) && NeverPoisoned(c, s, ops) && Thriving(s) && i <= |ops|
    ensures Thriving(After(c, s, ops, i))
  {
    hide Valid, Step;
    if i > 0 {
      KeepsThriving(c, s, ops, i - 1);
      var before := After(c, s, ops, i - 1);
      AfterStep(c, s, ops, i - 1);
      assert !After(c, s, ops, i).poisoned;
      ThrivesOn(c, before, ops[i - 1]);
    }
  }

  /** From a fresh file, as long as every write and due compaction completes, garbage stays under
      the ceiling, and Open with the same limits accepts the queue's own file and restores it. */
  lemma OwnFileReopens(c: Codec, l: Limits, ops: seq<Op>)
    requires ValidateLimits(l).Some? && OpsOk(c, ops)
    requires Valid(c, Fresh(l)) && NeverPoisoned(c, Fresh(l), ops)
    ensures var s := Run(c, Fresh(l), ops);
            && s.log.garbage < COMPACTION_CEILING
            && |s.disk| < LiveMaximum(l) + COMPACTION_CEILING
            && Open(c, l, s.disk) == Some(s.(closed := false))
  {
    assert ops[..|ops|] == ops;
    KeepsThriving(c, Fresh(l), ops, |ops|);
    ReopenRestores(c, After(c, Fresh(l), ops, |ops|));
  }

  // ---- Cutting the file of a run -----------------------------------------------------------

  /** The two states are one appended frame apart. */
  ghost predicate OneFrame(c: Codec, s: State, r: State, kind: byte, payload: seq<byte>) {
    && FIXED_BODY + |payload| <= MaxBody(s.limits)
    && Extend(c, s.limits, s.log, kind, payload) == Some(r.log)
    && r.disk == s.disk + EncodeFrame(c, kind, payload, s.log.lastHash)
  }

  lemma RemovalAppends(c: Codec, s: State, i: int, io: Append, rw: Rewrite) returns (payload: seq<byte>)
    requires Valid(c, s) && !s.poisoned
    requires -1 <= i < |s.log.items| && (i >= 0 ==> ChannelHead(s.log.items, i))
    requires var r := RemoveStep(c, s, i, io, rw).state; !r.poisoned && |s.disk| < |r.disk|
    ensures OneFrame(c, s, RemoveStep(c, s, i, io, rw).state, FRAME_REMOVE, payload)
  {
    hide Valid, Extend, EncodeFrame;
    payload := s.log.items[i].id;
    RemovalExtends(c, s, i);
    DroppedValid(c, s, i);
    CompactionShrinks(c, Dropped(c, s, i), rw);
  }

  /** A step that made the file longer appended one frame and moved the log by that frame. */
  lemma StepAppends(c: Codec, s: State, op: Op) returns (kind: byte, payload: seq<byte>)
    requires Valid(c, s) && OpOk(c, op) && !s.poisoned && !Step(c, s, op).state.poisoned
    requires |s.disk| < |Step(c, s, op).state.disk|
    ensures OneFrame(c, s, Step(c, s, op).state, kind, payload)
  {
    match op
    case DoEnqueue(e, io) =>
      kind, payload := FRAME_ENQUEUE, e.payload;
      EnqueueExtends(c, s, e);
    case DoClose =>
      kind, payload := FRAME_REMOVE, [];
      assert false;
    case _ =>
      kind := FRAME_REMOVE;
      payload := RemovalAppends(c, s, Target(s, op), op.io, op.rw);
  }

  /** No operation rewrote the file. */
  ghost predicate OnlyAppends(c: Codec, s: State, ops: seq<Op>)
    requires Valid(c, s) && OpsOk(c, ops)
  {
    forall i, j :: 0 <= i && j == i + 1 <= |ops| ==> After(c, s, ops, i).disk <= After(c, s, ops, j).disk
  }

  lemma {:induction false} EarlierFileIsPrefix(c: Codec, s: State, ops: seq<Op>, i: nat, j: nat)
    requires Valid(c, s) && OpsOk(c, ops) && OnlyAppends(c, s, ops) && i <= j <= |ops|
    ensures After(c, s, ops, i).disk <= After(c, s, ops, j).disk
    decreases j
  {
    if i < j {
      EarlierFileIsPrefix(c, s, ops, i, j - 1);
      assert After(c, s, ops, j - 1).disk <= After(c, s, ops, j).disk;
    }
  }

  lemma CutBehind(c: Codec, s: State, r: State, file: seq<byte>, kind: byte, payload: seq<byte>, cut: nat)
    requires Complete(c, s.limits, s.disk) && Replay(c, s.limits, s.disk) == Some(s.log)
    requires OneFrame(c, s, r, kind, payload) && r.disk <= file && |s.disk| <= cut < |r.disk|
    ensures Replay(c, s.limits, file[..cut]) == Some(s.log)
  {
    var frame := EncodeFrame(c, kind, payload, s.log.lastHash);
    TornAppend(c, s.limits, s.disk, kind, payload, cut - |s.disk|);
    assert file[..cut] == s.disk + frame[..cut - |s.disk|];
  }

  /** Between two compactions, cutting the file of a run anywhere restores the queue as it was
      after exactly the operations whose frames lie wholly inside the cut. */
  lemma CutRestoresHistory(c: Codec, s: State, ops: seq<Op>, i: nat, cut: nat)
    requires Valid(c, s) && OpsOk(c, ops) && NeverPoisoned(c, s, ops) && OnlyAppends(c, s, ops) && i <= |ops|
    requires |After(c, s, ops, i).disk| <= cut <= |After(c, s, ops, |ops|).disk|
    requires i < |ops| ==> cut < |After(c, s, ops, i + 1).disk|
    ensures Replay(c, s.limits, After(c, s, ops, |ops|).disk[..cut]) == Some(After(c, s, ops, i).log)
  {
    hide LogValid, IdsMatch, UsageMatches, WithinQuotas, Step;
    var last, here := After(c, s, ops, |ops|).disk, After(c, s, ops, i);
    if i == |ops| {
      assert last[..cut] == here.disk;
    } else {
      AfterStep(c, s, ops, i);
      var kind, payload := StepAppends(c, here, ops[i]);
      EarlierFileIsPrefix(c, s, ops, i + 1, |ops|);
      CutBehind(c, here, After(c, s, ops, i + 1), last, kind, payload, cut);
    }
  }
}
