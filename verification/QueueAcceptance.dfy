/** When the queue takes an envelope or gives one up, and which error it answers otherwise, in terms of its live
    entries and limits alone. */
module QueueAcceptance {
  import opened Sequences
  import opened Bytes
  import opened WriteAheadLog
  import opened SettlementQueue
  import opened QueueRuns
  import LI = LogIntegrity

  predicate IsLive(items: seq<Entry>, id: Digest) { exists i :: 0 <= i < |items| && items[i].id == id }

  /** The queue as a whole has no room for so many more bytes. */
  predicate NoRoom(l: Limits, items: seq<Entry>, size: nat) {
    |items| >= l.maxItems || Sum(Sizes(items)) + size > l.maxBytes
  }

  /** The payer has used up a limit, or would with so many more bytes; a limit of zero is that of everyone. */
  predicate NoShare(l: Limits, items: seq<Entry>, payer: Digest, size: nat) {
    var mine := UsageOf(items, payer);
    var most := if l.maxItemsPerPayer == 0 then l.maxItems else l.maxItemsPerPayer;
    var bytes := if l.maxBytesPerPayer == 0 then l.maxBytes else l.maxBytesPerPayer;
    mine.items >= most || mine.bytes >= bytes || mine.bytes + size > bytes
  }

  /** The answer to an envelope that could be encoded, if the queue works. */
  function Answer(l: Limits, items: seq<Entry>, id: Digest, payer: Digest, size: nat): (r: Option<Error>) {
    if IsLive(items, id) then Some(Duplicate)
    else if NoRoom(l, items, size) then Some(Full)
    else if NoShare(l, items, payer, size) then Some(PayerFull)
    else if 65 + size > 0xFFFF_FFFF then Some(FrameTooLarge)
    else None
  }

  lemma RefusalIsAnswer(c: Codec, s: State, e: Candidate)
    requires Valid(c, s) && e.Ready? && !s.closed && !s.poisoned
    ensures EnqueueRefusal(s, e) == Answer(s.limits, s.log.items, e.id, PayerOf(e.envelope), |e.payload|)
  {
    assert UsageIn(s.usage, PayerOf(e.envelope)) == UsageOf(s.log.items, PayerOf(e.envelope));
    assert e.id in s.liveIds <==> IndexOf(s.log.items, e.id) >= 0;
    hide Complete, Replay, UsageOf, Distinct;
  }

  /** An envelope is refused with nothing changed, or it is taken: then, unless the disk fails, exactly its entry is
      added behind the others. Which of these, and the error, is told by the entries and limits alone: first
      whether the same voucher is live, then whether there is room, then whether its payer has a share left. */
  lemma EnqueueExactly(c: Codec, s: State, e: Candidate, io: Append)
    requires Valid(c, s) && CandidateOk(c, e)
    ensures var r := Enqueue(c, s, e, io);
            var answer := if e.Refused? then Some(BadEnvelope)
                          else if s.closed then Some(QueueClosed)
                          else if s.poisoned then Some(Poisoned)
                          else Answer(s.limits, s.log.items, e.id, PayerOf(e.envelope), |e.payload|);
            && (answer.Some? ==> r == Outcome(s, answer, Quiet))
            && (answer.None? ==>
                  var entry := Entry(e.envelope, e.id, e.payload, 69 + |e.payload|);
                  var frame := LI.Laid(c, LI.Piece(1, e.payload), s.log.lastHash);
                  && r.state.disk == s.disk + (if io.Cut? && io.written <= |frame| then frame[..io.written] else frame)
                  && if io.Cut? then
                    r.error == Some(PersistFailed) && r.event == Quiet && r.state.log == s.log && r.state.poisoned
                  else
                    && r.state.log.items == s.log.items + [entry] && r.event == Enqueued(entry)
                    && r.error == (if io == Synced then None else Some(PersistFailed))
                    && r.state.poisoned == (io != Synced) && r.state.limits == s.limits && !r.state.closed)
  {
    hide Valid, Answer, EncodeFrame, EnqueueRefusal, LI.Laid;
    RefusedFirst(s, e);
    if e.Ready? { FrameIsLaid(c, FRAME_ENQUEUE, e.payload, s.log.lastHash); }
    if e.Ready? && !s.closed && !s.poisoned { RefusalIsAnswer(c, s, e); }
  }

  lemma FrameIsLaid(c: Codec, kind: byte, payload: seq<byte>, previous: Digest)
    ensures EncodeFrame(c, kind, payload, previous) == LI.Laid(c, LI.Piece(kind, payload), previous)
  {
  }

  lemma RefusedFirst(s: State, e: Candidate)
    ensures e.Refused? ==> EnqueueRefusal(s, e) == Some(BadEnvelope)
    ensures e.Ready? && s.closed ==> EnqueueRefusal(s, e) == Some(QueueClosed)
    ensures e.Ready? && !s.closed && s.poisoned ==> EnqueueRefusal(s, e) == Some(Poisoned)
  {
  }

  // ---- Removal -----------------------------------------------------------------------------

  /** The entry is live and none before it is of its channel. */
  predicate IsHead(items: seq<Entry>, id: Digest, i: nat) {
    && i < |items| && items[i].id == id
    && forall k :: 0 <= k < i ==> ChannelOf(items[k].envelope) != ChannelOf(items[i].envelope)
  }

  /** A removal names the first entry of all, or of its channel. */
  predicate Names(op: Op, items: seq<Entry>, i: nat)
    requires op.DoRemove? || op.DoRemoveChannelHead?
  {
    IsHead(items, op.id, i) && (op.DoRemove? ==> i == 0)
  }

  lemma TargetExactly(c: Codec, s: State, op: Op, i: nat)
    requires Valid(c, s) && (op.DoRemove? || op.DoRemoveChannelHead?)
    ensures Target(s, op) == i <==> Names(op, s.log.items, i)
  {
    hide Complete, Replay, UsageMatches, WithinQuotas, IdsMatch, ChannelOf;
    if Names(op, s.log.items, i) {
      assert s.log.items[IndexOf(s.log.items, op.id)].id == op.id;
    }
  }

  /** The file is rewritten: at least 1 MiB of it is garbage, and that is as much as is live, or 8 MiB. */
  predicate Rewrites(size: nat, live: nat) {
    size - live >= 1024 * 1024 && (size >= 2 * live || size - live >= 8 * 1024 * 1024)
  }

  /** The sizes of the file after a removal, and when it is rewritten. */
  lemma DroppedSizes(c: Codec, s: State, i: nat)
    requires Valid(c, s) && !s.poisoned && i < |s.log.items| && ChannelHead(s.log.items, i)
    ensures Refundable(s, i)
    ensures var r := Dropped(c, s, i);
            var live := 32 + 69 * |r.log.items| + Sum(Sizes(r.log.items));
            && r.log.items == Without(s.log.items, i) && |r.disk| == |s.disk| + 101
            && r.disk == s.disk + EncodeFrame(c, FRAME_REMOVE, s.log.items[i].id, s.log.lastHash)
            && (CompactionDue(r.log) <==> Rewrites(|r.disk|, live))
            && |Compact(c, r, Replaced).disk| == live
  {
    hide Valid, EncodeFrame;
    DroppedValid(c, s, i);
    var r := Dropped(c, s, i);
    LiveSizeBound(c, r);
    CompactionShrinks(c, r, Replaced);
    BytesAreSum(c, r);
  }

  lemma BytesAreSum(c: Codec, s: State)
    requires Valid(c, s)
    ensures s.log.bytes == Sum(Sizes(s.log.items)) && s.log.size == LiveSize(s.log) + s.log.garbage
  {
  }

  lemma Refusals(c: Codec, s: State, op: Op)
    requires Valid(c, s) && (op.DoRemove? || op.DoRemoveChannelHead?)
    ensures var r := Step(c, s, op);
            && (s.closed ==> r == Outcome(s, Some(QueueClosed), Quiet))
            && (!s.closed && s.poisoned ==> r == Outcome(s, Some(Poisoned), Quiet))
            && (!s.closed && !s.poisoned && s.log.items == [] ==> r == Outcome(s, Some(QueueEmpty), Quiet))
            && (!s.closed && !s.poisoned && s.log.items != [] && Target(s, op) < 0 ==>
                  r == Outcome(s, Some(HeadMismatch), Quiet))
  {
    hide Valid, Target;
  }

  /** What a removal does: a write that fails before its end leaves what it has written; otherwise the entry is out. */
  ghost predicate Removes(c: Codec, r: Outcome, s: State, i: nat, io: Append, rw: Rewrite)
    requires i < |s.log.items|
  {
    var dropped := Without(s.log.items, i);
    var frame := LI.Laid(c, LI.Piece(2, s.log.items[i].id), s.log.lastHash);
    var size, live := |s.disk| + 101, 32 + 69 * |dropped| + Sum(Sizes(dropped));
    if io.Cut? then
      var written := if io.written <= |frame| then frame[..io.written] else frame;
      r == Outcome(s.(disk := s.disk + written, poisoned := true), Some(PersistFailed), Quiet)
    else
      && r.state.log.items == dropped && r.event == Removed(s.log.items[i])
      && if io != Synced then r.error == Some(PersistFailed) && r.state.poisoned && r.state.disk == s.disk + frame
         else if !Rewrites(size, live) then r.error == None && |r.state.disk| == size && r.state.disk == s.disk + frame
         else if rw == Replaced then r.error == None && |r.state.disk| == live
         else r.error == Some(CompactFailed) && r.state.poisoned
  }

  lemma NamedIsRemoved(c: Codec, s: State, op: Op, i: nat)
    requires Valid(c, s) && (op.DoRemove? || op.DoRemoveChannelHead?) && !s.closed && !s.poisoned
    requires Target(s, op) == i
    ensures i < |s.log.items| && Removes(c, Step(c, s, op), s, i, op.io, op.rw)
  {
    hide Valid, Target, Dropped, CompactionDue, Rewrites, Sum, Sizes, LI.Laid, EncodeFrame;
    DroppedSizes(c, s, i);
    FrameIsLaid(c, FRAME_REMOVE, s.log.items[i].id, s.log.lastHash);
  }

  /** A removal is refused with nothing changed, or takes out exactly the entry it names: if the queue is closed,
      then if a write failed before, then if it is empty, then if it names no head. Otherwise, unless the disk fails,
      the file grows by a frame of 101 bytes, or is rewritten exactly when enough of it is garbage. */
  lemma RemoveExactly(c: Codec, s: State, op: Op, i: nat)
    requires Valid(c, s) && (op.DoRemove? || op.DoRemoveChannelHead?)
    ensures var r := Step(c, s, op);
            && (s.closed ==> r == Outcome(s, Some(QueueClosed), Quiet))
            && (!s.closed && s.poisoned ==> r == Outcome(s, Some(Poisoned), Quiet))
            && (!s.closed && !s.poisoned && s.log.items == [] ==> r == Outcome(s, Some(QueueEmpty), Quiet))
            && (!s.closed && !s.poisoned && s.log.items != [] && (forall k: nat :: !Names(op, s.log.items, k)) ==>
                  r == Outcome(s, Some(HeadMismatch), Quiet))
    ensures !s.closed && !s.poisoned && Names(op, s.log.items, i) ==> Removes(c, Step(c, s, op), s, i, op.io, op.rw)
  {
    hide Valid, Target, Step, Removes;
    Refusals(c, s, op);
    if Target(s, op) >= 0 { TargetExactly(c, s, op, Target(s, op)); }
    if !s.closed && !s.poisoned && Names(op, s.log.items, i) {
      TargetExactly(c, s, op, i);
      NamedIsRemoved(c, s, op, i);
    }
  }

  // ---- Opening -----------------------------------------------------------------------------

  /** No payer has more live than its limits allow. */
  ghost predicate AllWithin(l: Limits, items: seq<Entry>) {
    forall payer ::
      && UsageOf(items, payer).items <= (if l.maxItemsPerPayer == 0 then l.maxItems else l.maxItemsPerPayer)
      && UsageOf(items, payer).bytes <= (if l.maxBytesPerPayer == 0 then l.maxBytes else l.maxBytesPerPayer)
  }

  /** A file is opened exactly when the limits make sense, it is not too long for them, its frames are intact and mean a
      log, and no payer is over its limit. The queue then has the entries of that log, is neither closed nor
      poisoned, and its file ends with the last whole frame. */
  lemma OpenExactly(c: Codec, l: Limits, disk: seq<byte>)
    ensures Open(c, l, disk).Some? <==>
            && ValidateLimits(l).Some? && |disk| <= ValidateLimits(l).value
            && exists ps, log :: LI.Intact(c, l, disk, ps, log) && AllWithin(l, log.items)
    ensures Open(c, l, disk).Some? ==>
              var s := Open(c, l, disk).value;
              && s.limits == l && !s.closed && !s.poisoned && Valid(c, s) && s.log.size <= |disk|
              && s.disk == disk[..s.log.size] && exists ps :: LI.Intact(c, l, disk, ps, s.log)
  {
    hide LI.Intact, Replay;
    if log :| Replay(c, l, disk) == Some(log) {
      LI.IntactExactly(c, l, disk, log);
      var ps :| LI.Intact(c, l, disk, ps, log);
    }
    if ps, log :| LI.Intact(c, l, disk, ps, log) && AllWithin(l, log.items) {
      LI.IntactExactly(c, l, disk, log);
    }
    if Open(c, l, disk).Some? { OpenedIsValid(c, l, disk); }
  }

  lemma OpenedIsValid(c: Codec, l: Limits, disk: seq<byte>)
    requires Open(c, l, disk).Some?
    ensures Valid(c, Open(c, l, disk).value) && Open(c, l, disk).value.log.size <= |disk|
  {
    ReplayValid(c, l, disk);
    TailIsIdle(c, l, disk);
    var s := Open(c, l, disk).value;
    TableMatches(s.log.items);
    SetMatches(s.log.items);
    hide LogValid, Replay, UsageTable, IdSet, UsageMatches, IdsMatch;
  }

  lemma TableMatches(items: seq<Entry>)
    ensures UsageMatches(items, UsageTable(items))
  {
    hide UsageOf;
    forall payer
      ensures UsageIn(UsageTable(items), payer) == UsageOf(items, payer)
      ensures payer in UsageTable(items) ==> UsageTable(items)[payer].items > 0 {
      PayerHasEntry(items, payer);
      NoEntriesNoBytes(items, payer);
    }
  }

  lemma SetMatches(items: seq<Entry>)
    ensures IdsMatch(items, IdSet(items))
  {
    forall id ensures id in IdSet(items) <==> IndexOf(items, id) >= 0 {
      if IndexOf(items, id) >= 0 { assert items[IndexOf(items, id)].id in IdSet(items); }
    }
  }
}
