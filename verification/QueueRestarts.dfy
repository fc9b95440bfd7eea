/** Lives of the settlement queue that span crashes: what a crash leaves on disk, what reopening makes
    of it, and the order within a channel from the first start on.

    A crash may hit any operation. The file then holds what it held before the operation and any part
    of the frame the operation was writing or, if a removal had come as far as its compaction, the old
    or the new file. A write that fails without a crash leaves the queue refusing everything until it is
    reopened, and the file in one of these states; so it is the same event. */
module QueueRestarts {
  import opened Sequences
  import opened Bytes
  import opened WriteAheadLog
  import opened LogReplay
  import opened SettlementQueue
  import opened QueueRuns

  // ---- What an operation is about to do ----------------------------------------------------

  /** The operation is accepted, and this is the queue once its frame is on disk. */
  datatype Intent = Nothing | Intent(state: State, event: Event)

  ghost function IntentOf(c: Codec, s: State, op: Op): (r: Intent)
    requires Valid(c, s) && OpOk(c, op)
  {
    match op
    case DoEnqueue(e, _) =>
      if EnqueueRefusal(s, e).Some? then Nothing
      else
        var r := Added(c, s, e);
        Intent(r, Enqueued(r.log.items[|s.log.items|]))
    case DoClose => Nothing
    case _ =>
      var i := Target(s, op);
      if Operational(s).Some? || i < 0 then Nothing
      else
        RefundAlways(c, s, i);
        Intent(Dropped(c, s, i), Removed(s.log.items[i]))
  }

  /** What a crash during the operation may leave on disk. */
  ghost predicate Leaves(c: Codec, s: State, op: Op, file: seq<byte>)
    requires Valid(c, s) && OpOk(c, op)
  {
    || file == s.disk
    || var i := IntentOf(c, s, op);
       && i.Intent?
       && (|| (|s.disk| <= |file| && file <= i.state.disk)
           || (i.event.Removed? && CompactionDue(i.state.log) && file == Compacted(c, i.state.log.items)))
  }

  /** The queue a file of a crash stands for. */
  ghost function Survivor(c: Codec, s: State, op: Op, file: seq<byte>): (r: State)
    requires Valid(c, s) && OpOk(c, op)
  {
    var i := IntentOf(c, s, op);
    if i.Nothing? || file == s.disk then s
    else if |s.disk| <= |file| && file <= i.state.disk then if file == i.state.disk then i.state else s
    else Compact(c, i.state, Replaced)
  }

  lemma IntentIsValid(c: Codec, s: State, op: Op)
    requires Valid(c, s) && !s.poisoned && OpOk(c, op)
    ensures var i := IntentOf(c, s, op);
            i.Intent? ==>
              && Valid(c, i.state) && !i.state.poisoned && i.state.limits == s.limits
              && s.disk <= i.state.disk && |s.disk| < |i.state.disk|
  {
    hide Valid, EnqueueRefusal;
    match op
    case DoEnqueue(e, _) =>
      if EnqueueRefusal(s, e).None? {
        AddedValid(c, s, e);
      }
    case DoClose =>
    case _ =>
      var i := Target(s, op);
      if Operational(s).None? && i >= 0 {
        DroppedValid(c, s, i);
      }
  }

  // ---- Reopening ---------------------------------------------------------------------------

  /** The file means this queue, up to a torn tail. */
  ghost predicate Means(c: Codec, file: seq<byte>, r: State) {
    Valid(c, r) && !r.poisoned && r.disk <= file && Replay(c, r.limits, file) == Some(r.log)
  }

  lemma PartialEnqueue(c: Codec, s: State, e: Candidate, file: seq<byte>)
    requires Valid(c, s) && !s.poisoned && CandidateOk(c, e) && EnqueueRefusal(s, e).None?
    requires |s.disk| <= |file| && file <= Added(c, s, e).disk
    ensures Replay(c, s.limits, file) == Some(if file == Added(c, s, e).disk then Added(c, s, e).log else s.log)
  {
    hide Valid, EnqueueRefusal, Replay;
    EnqueueCrash(c, s, e, Synced, |file|);
    assert Enqueue(c, s, e, Synced).state.disk[..|file|] == file;
  }

  lemma PartialRemoval(c: Codec, s: State, i: nat, file: seq<byte>)
    requires Valid(c, s) && !s.poisoned && i < |s.log.items| && ChannelHead(s.log.items, i) && Refundable(s, i)
    requires |s.disk| <= |file| && file <= Dropped(c, s, i).disk
    ensures Replay(c, s.limits, file) == Some(if file == Dropped(c, s, i).disk then Dropped(c, s, i).log else s.log)
  {
    hide Valid, Replay, Refundable;
    RemovalCrash(c, s, i, |s.disk|);
    RemovalCrash(c, s, i, |file|);
    assert Dropped(c, s, i).disk[..|file|] == file;
  }

  lemma PartialMeans(c: Codec, s: State, op: Op, file: seq<byte>)
    requires Valid(c, s) && !s.poisoned && OpOk(c, op) && IntentOf(c, s, op).Intent?
    requires |s.disk| <= |file| && file <= IntentOf(c, s, op).state.disk
    ensures Means(c, file, if file == IntentOf(c, s, op).state.disk then IntentOf(c, s, op).state else s)
  {
    hide Valid, EnqueueRefusal, Replay, Added, Dropped, Refundable, IntentOf, Target, ChannelHead;
    IntentIsValid(c, s, op);
    IntentParts(c, s, op);
    match op
    case DoEnqueue(e, _) => PartialEnqueue(c, s, e, file);
    case DoClose =>
    case _ => PartialRemoval(c, s, Target(s, op), file);
  }

  lemma IntentParts(c: Codec, s: State, op: Op)
    requires Valid(c, s) && OpOk(c, op) && IntentOf(c, s, op).Intent?
    ensures var i := IntentOf(c, s, op);
            match op
            case DoEnqueue(e, _) => EnqueueRefusal(s, e).None? && i.state == Added(c, s, e)
            case DoClose => false
            case _ => var k := Target(s, op); 0 <= k && Refundable(s, k) && i.state == Dropped(c, s, k)
  {
    hide Valid, EnqueueRefusal, Refundable;
    if !op.DoEnqueue? && !op.DoClose? && Target(s, op) >= 0 {
      RefundAlways(c, s, Target(s, op));
    }
  }

  lemma CompactedMeans(c: Codec, s: State)
    requires Valid(c, s) && !s.poisoned
    ensures Means(c, Compacted(c, s.log.items), Compact(c, s, Replaced))
  {
    CompactKeepsValid(c, s, Replaced);
    CompactionPreserves(c, s.limits, s.log);
    hide Valid, Replay, Compacted;
  }

  lemma OwnFileMeans(c: Codec, s: State)
    requires Valid(c, s) && !s.poisoned
    ensures Means(c, s.disk, s)
  {
  }

  /** Whatever a crash leaves, the file means the queue before the operation, after it, or compacted. */
  lemma SurvivorMeans(c: Codec, s: State, op: Op, file: seq<byte>)
    requires Valid(c, s) && !s.poisoned && OpOk(c, op) && Leaves(c, s, op, file)
    ensures Means(c, file, Survivor(c, s, op, file)) && Survivor(c, s, op, file).limits == s.limits
  {
    hide Valid, Means, Compacted, IntentOf, CompactionDue;
    IntentIsValid(c, s, op);
    var i := IntentOf(c, s, op);
    if file == s.disk || i.Nothing? {
      OwnFileMeans(c, s);
    } else if |s.disk| <= |file| && file <= i.state.disk {
      PartialMeans(c, s, op, file);
    } else {
      CompactedMeans(c, i.state);
    }
  }

  lemma OpenSurvivor(c: Codec, file: seq<byte>, r: State)
    requires Means(c, file, r)
    ensures Open(c, r.limits, file) == if |file| <= ValidateLimits(r.limits).value then Some(r.(closed := false))
              else None
  {
    if |file| <= ValidateLimits(r.limits).value {
      ReopenRestores(c, r);
      assert file[..|r.disk|] == r.disk;
    }
    hide LogValid, IdsMatch, UsageMatches, Replay;
  }

  /** Reopening after a crash succeeds exactly when the file is within the limit for files, and then gives
      the surviving queue, field for field. */
  lemma RestartExactly(c: Codec, s: State, op: Op, file: seq<byte>)
    requires Valid(c, s) && !s.poisoned && OpOk(c, op) && Leaves(c, s, op, file)
    ensures Open(c, s.limits, file) ==
            if |file| <= ValidateLimits(s.limits).value then Some(Survivor(c, s, op, file).(closed := false)) else None
  {
    hide Valid, Means, Leaves, Survivor, Open;
    SurvivorMeans(c, s, op, file);
    OpenSurvivor(c, file, Survivor(c, s, op, file));
  }

  // ---- Lives -------------------------------------------------------------------------------

  /** An operation that completes, or one that a crash hits, after which the queue is reopened. */
  datatype Life = Work(op: Op) | Crash(op: Op, file: seq<byte>)

  ghost predicate Possible(c: Codec, s: State, life: Life) {
    && Valid(c, s) && !s.poisoned && OpOk(c, life.op)
    && match life
       case Work(op) => !Step(c, s, op).state.poisoned
       case Crash(op, file) => Leaves(c, s, op, file) && |file| <= ValidateLimits(s.limits).value
  }

  /** After a crash the operation has taken place exactly when the surviving file says so. */
  ghost function Lived(c: Codec, s: State, life: Life): (r: Outcome)
    requires Possible(c, s, life)
    ensures Valid(c, r.state) && !r.state.poisoned && r.state.limits == s.limits
  {
    match life
    case Work(op) => Step(c, s, op)
    case Crash(op, file) =>
      RestartExactly(c, s, op, file);
      SurvivorMeans(c, s, op, file);
      ReopenedValid(c, Survivor(c, s, op, file));
      var r := Open(c, s.limits, file).value;
      var i := IntentOf(c, s, op);
      Outcome(r, None, if |r.log.items| == |s.log.items| || i.Nothing? then Quiet else i.event)
  }

  lemma ReopenedValid(c: Codec, s: State)
    requires Valid(c, s) && !s.poisoned
    ensures Valid(c, s.(closed := false))
  {
  }

  ghost predicate Lives(c: Codec, ss: seq<State>, lives: seq<Life>) {
    && |ss| == |lives| + 1
    && forall i, j :: 0 <= i && j == i + 1 < |ss| ==> LivesOn(c, ss[i], lives[i], ss[j])
  }

  ghost predicate LivesOn(c: Codec, s: State, life: Life, r: State) {
    Possible(c, s, life) && r == Lived(c, s, life).state
  }

  /** What took effect. */
  ghost function Effect(c: Codec, s: State, life: Life): (e: Event) {
    if Possible(c, s, life) then Lived(c, s, life).event else Quiet
  }

  ghost function LifeEnqueues(c: Codec, ss: seq<State>, lives: seq<Life>, ch: Channel, n: nat): (ids: seq<Digest>)
    requires n <= |lives| < |ss|
  {
    if n == 0 then []
    else LifeEnqueues(c, ss, lives, ch, n - 1) + EnqueuedIn(Effect(c, ss[n - 1], lives[n - 1]), ch)
  }

  ghost function LifeRemovals(c: Codec, ss: seq<State>, lives: seq<Life>, ch: Channel, n: nat): (ids: seq<Digest>)
    requires n <= |lives| < |ss|
  {
    if n == 0 then []
    else LifeRemovals(c, ss, lives, ch, n - 1) + RemovedIn(Effect(c, ss[n - 1], lives[n - 1]), ch)
  }

  lemma IntentAccounts(c: Codec, s: State, op: Op, ch: Channel)
    requires Valid(c, s) && OpOk(c, op) && IntentOf(c, s, op).Intent?
    ensures var i := IntentOf(c, s, op);
            && InChannel(s.log.items, ch) + EnqueuedIn(i.event, ch) ==
               RemovedIn(i.event, ch) + InChannel(i.state.log.items, ch)
            && |i.state.log.items| != |s.log.items|
  {
    match op
    case DoEnqueue(e, _) =>
      var r := Added(c, s, e);
      ProjectAppend(s.log.items, r.log.items[|s.log.items|], IdIn(ch));
      hide Valid, EnqueueRefusal, EncodeFrame;
    case DoClose =>
    case _ =>
      var i := Target(s, op);
      RefundAlways(c, s, i);
      HeadRemoval(s.log.items, i, ch);
      hide Valid, EncodeFrame;
  }

  lemma CrashAccounts(c: Codec, s: State, op: Op, file: seq<byte>, ch: Channel)
    requires Possible(c, s, Crash(op, file))
    ensures var r := Lived(c, s, Crash(op, file));
            InChannel(s.log.items, ch) + EnqueuedIn(r.event, ch) ==
                RemovedIn(r.event, ch) + InChannel(r.state.log.items, ch)
  {
    hide Valid, Means, IntentOf, InChannel;
    RestartExactly(c, s, op, file);
    if IntentOf(c, s, op).Intent? {
      IntentAccounts(c, s, op, ch);
    }
    assert InChannel(s.log.items, ch) + [] == [] + InChannel(s.log.items, ch);
  }

  lemma LifeAccounts(c: Codec, s: State, life: Life, r: State, ch: Channel)
    requires LivesOn(c, s, life, r)
    ensures var e := Effect(c, s, life);
            InChannel(s.log.items, ch) + EnqueuedIn(e, ch) == RemovedIn(e, ch) + InChannel(r.log.items, ch)
  {
    hide Valid, Step, InChannel, Leaves;
    match life
    case Work(op) => StepAccounts(c, s, op, ch);
    case Crash(op, file) => CrashAccounts(c, s, op, file, ch);
  }

  /** Through any number of operations, crashes and restarts: what took effect as removed from a channel,
      followed by what is live in it, is what was live at first followed by what took effect as
      enqueued. */
  lemma {:induction false} FifoAcrossRestarts(c: Codec, ss: seq<State>, lives: seq<Life>, ch: Channel, n: nat)
    requires Lives(c, ss, lives) && n <= |lives|
    ensures InChannel(ss[0].log.items, ch) + LifeEnqueues(c, ss, lives, ch, n)
         == LifeRemovals(c, ss, lives, ch, n) + InChannel(ss[n].log.items, ch)
  {
    hide LivesOn, InChannel, Effect;
    if n == 0 {
      assert InChannel(ss[0].log.items, ch) + [] == [] + InChannel(ss[0].log.items, ch);
    } else {
      var m := n - 1;
      FifoAcrossRestarts(c, ss, lives, ch, m);
      assert LivesOn(c, ss[m], lives[m], ss[n]);
      LifeAccounts(c, ss[m], lives[m], ss[n], ch);
      var e := Effect(c, ss[m], lives[m]);
      GainsAndLosses(InChannel(ss[0].log.items, ch), LifeEnqueues(c, ss, lives, ch, m),
                     LifeRemovals(c, ss, lives, ch, m), InChannel(ss[m].log.items, ch),
                     EnqueuedIn(e, ch), RemovedIn(e, ch), InChannel(ss[n].log.items, ch));
    }
  }

  // ---- When the queue's own file is accepted -----------------------------------------------

  /** The crash came between a removal and the compaction that was overdue, so it is lost: opening a file
      does not compact it. */
  ghost predicate LosesCompaction(c: Codec, s: State, life: Life)
    requires Possible(c, s, life)
  {
    life.Crash? && Survivor(c, s, life.op, life.file).log.garbage >= COMPACTION_CEILING
  }

  lemma IntentSize(c: Codec, s: State, op: Op)
    requires Valid(c, s) && Thriving(s) && OpOk(c, op) && IntentOf(c, s, op).Intent?
    ensures var i := IntentOf(c, s, op).state;
            |i.disk| < LiveMaximum(s.limits) + COMPACTION_CEILING + REMOVE_FRAME
  {
    hide Valid, EnqueueRefusal, IntentOf;
    IntentIsValid(c, s, op);
    IntentParts(c, s, op);
    LiveSizeBound(c, s);
    LiveSizeBound(c, IntentOf(c, s, op).state);
  }

  lemma LeavesSize(c: Codec, s: State, op: Op, file: seq<byte>)
    requires Valid(c, s) && Thriving(s) && OpOk(c, op) && Leaves(c, s, op, file)
    ensures |file| < LiveMaximum(s.limits) + COMPACTION_CEILING + REMOVE_FRAME
  {
    hide Valid, IntentOf, CompactionDue;
    IntentIsValid(c, s, op);
    var i := IntentOf(c, s, op);
    if i.Intent? {
      IntentSize(c, s, op);
      CompactionShrinks(c, i.state, Replaced);
    }
  }

  /** Whatever a crash leaves of a queue with no compaction overdue is accepted. */
  lemma ThrivingReopens(c: Codec, s: State, op: Op, file: seq<byte>)
    requires Valid(c, s) && Thriving(s) && OpOk(c, op) && Leaves(c, s, op, file)
    ensures |file| <= ValidateLimits(s.limits).value && Open(c, s.limits, file).Some?
  {
    hide Leaves, Open;
    LeavesSize(c, s, op, file);
    RestartExactly(c, s, op, file);
  }

  lemma ThrivesAfter(c: Codec, s: State, life: Life)
    requires Possible(c, s, life) && Thriving(s) && !LosesCompaction(c, s, life)
    ensures Thriving(Lived(c, s, life).state)
  {
    match life
    case Work(op) => ThrivesOn(c, s, op);
    case Crash(op, file) =>
      hide Leaves, Survivor, Open;
      RestartExactly(c, s, op, file);
      SurvivorMeans(c, s, op, file);
      LiveSizeBound(c, Survivor(c, s, op, file));
  }

  /** Starting with no compaction overdue, and as long as no crash loses one, the queue never has one overdue,
      and whatever the next crash leaves is accepted when it is opened again. */
  lemma {:induction false} AlwaysReopens(c: Codec, ss: seq<State>, lives: seq<Life>, n: nat, op: Op, file: seq<byte>)
    requires Lives(c, ss, lives) && n < |ss| && Thriving(ss[0]) && Valid(c, ss[0])
    requires forall k :: 0 <= k < n && Possible(c, ss[k], lives[k]) ==> !LosesCompaction(c, ss[k], lives[k])
    ensures Valid(c, ss[n]) && Thriving(ss[n])
    ensures OpOk(c, op) && Leaves(c, ss[n], op, file) ==> Open(c, ss[n].limits, file).Some?
  {
    hide Valid, Possible, LosesCompaction, Leaves, Open, Thriving, OpOk;
    if n > 0 {
      var m := n - 1;
      AlwaysReopens(c, ss, lives, m, op, file);
      assert LivesOn(c, ss[m], lives[m], ss[n]);
      ThrivesAfter(c, ss[m], lives[m]);
    }
    if OpOk(c, op) && Leaves(c, ss[n], op, file) {
      ThrivingReopens(c, ss[n], op, file);
    }
  }

  /** A crash that loses a compaction finds it overdue already, from an earlier crash, and leaves as much to
      reclaim; or it comes right after the frame of a removal, and leaves the same entries, less the removed
      one, in a longer file with more to reclaim. */
  lemma LostCompactionGrows(c: Codec, s: State, op: Op, file: seq<byte>)
    requires Possible(c, s, Crash(op, file)) && LosesCompaction(c, s, Crash(op, file))
    ensures var i := IntentOf(c, s, op);
            var r := Lived(c, s, Crash(op, file)).state;
            || (s.log.garbage >= COMPACTION_CEILING && r.log.garbage == s.log.garbage && s.disk <= r.disk)
            || (&& i.Intent? && i.event.Removed? && CompactionDue(i.state.log) && file == i.state.disk
                && r == i.state.(closed := false)
                && |file| == |s.disk| + REMOVE_FRAME && i.state.log.garbage > s.log.garbage + REMOVE_FRAME)
  {
    hide Valid, EnqueueRefusal, Open, Compacted, IntentOf;
    RestartExactly(c, s, op, file);
    IntentIsValid(c, s, op);
    LostIsRemoval(c, s, op);
  }

  lemma LostIsRemoval(c: Codec, s: State, op: Op)
    requires Valid(c, s) && !s.poisoned && OpOk(c, op)
    ensures var i := IntentOf(c, s, op);
            i.Intent? ==>
              && (i.event.Enqueued? ==> i.state.log.garbage == s.log.garbage)
              && (i.event.Removed? ==>
                  i.state.log.garbage > s.log.garbage + REMOVE_FRAME && |i.state.disk| == |s.disk| + REMOVE_FRAME)
              && (i.event.Enqueued? || i.event.Removed?) && (i.state.closed == s.closed)
  {
    hide EnqueueRefusal;
    if !op.DoEnqueue? && !op.DoClose? && Target(s, op) >= 0 {
      RefundAlways(c, s, Target(s, op));
      EntryHasFrame(c, s, Target(s, op));
    }
    hide Valid;
  }

  lemma EntryHasFrame(c: Codec, s: State, i: nat)
    requires Valid(c, s) && i < |s.log.items|
    ensures s.log.items[i].frameBytes > 0
  {
  }

  // ---- How far the file can grow -----------------------------------------------------------

  /** The crash comes right after the frame of a removal, before anything that might follow it. */
  ghost predicate Skips(c: Codec, s: State, life: Life) {
    && life.Crash? && Valid(c, s) && !s.poisoned && OpOk(c, life.op)
    && var i := IntentOf(c, s, life.op);
       i.Intent? && i.event.Removed? && life.file == i.state.disk
  }

  /** Such a crash is possible at every accepted removal. It makes the file longer by the frame, and reopening
      gives the queue without the entry, or refuses the file. */
  lemma FullFrame(c: Codec, s: State, op: Op)
    requires Valid(c, s) && !s.poisoned && OpOk(c, op)
    requires IntentOf(c, s, op).Intent? && IntentOf(c, s, op).event.Removed?
    ensures var r := IntentOf(c, s, op).state;
            && Leaves(c, s, op, r.disk) && |r.disk| == |s.disk| + REMOVE_FRAME
            && Open(c, s.limits, r.disk) ==
               if |r.disk| <= ValidateLimits(s.limits).value then Some(r.(closed := false)) else None
  {
    hide Valid, Open, IntentOf, Compacted;
    IntentIsValid(c, s, op);
    LostIsRemoval(c, s, op);
    RestartExactly(c, s, op, IntentOf(c, s, op).state.disk);
  }

  /** No compaction takes place: the operation that completes is no removal, and the crash leaves the old file
      with or without a part of a new frame. */
  ghost predicate Spares(s: State, life: Life) {
    match life
    case Work(op) => op.DoEnqueue? || op.DoClose?
    case Crash(op, file) => |s.disk| <= |file|
  }

  lemma EnqueueLengthens(c: Codec, s: State, op: Op)
    requires Valid(c, s) && OpOk(c, op) && (op.DoEnqueue? || op.DoClose?)
    ensures |s.disk| <= |Step(c, s, op).state.disk|
  {
    hide Valid, EnqueueRefusal;
  }

  lemma SparedLengthens(c: Codec, s: State, life: Life, r: State)
    requires LivesOn(c, s, life, r) && Spares(s, life)
    ensures |r.disk| >= |s.disk| + (if Skips(c, s, life) then REMOVE_FRAME else 0)
    ensures r.limits == s.limits && (life.Crash? ==> |r.disk| <= ValidateLimits(s.limits).value)
  {
    hide Valid, Open, IntentOf, Compacted, Step, Replay;
    match life
    case Work(op) => EnqueueLengthens(c, s, op);
    case Crash(op, file) =>
      RestartExactly(c, s, op, file);
      SurvivorMeans(c, s, op, file);
      IntentIsValid(c, s, op);
      if Skips(c, s, life) { FullFrame(c, s, op); }
  }

  ghost function Skipped(c: Codec, ss: seq<State>, lives: seq<Life>, n: nat): (k: nat)
    requires n <= |lives| < |ss|
  {
    if n == 0 then 0 else Skipped(c, ss, lives, n - 1) + if Skips(c, ss[n - 1], lives[n - 1]) then 1 else 0
  }

  /** Through any lives without a compaction every such crash adds its frame to the file; and since a crash is
      survived only with a file within the limit, only so many of them can be. */
  lemma {:induction false} SkippedAddUp(c: Codec, ss: seq<State>, lives: seq<Life>, n: nat)
    requires Lives(c, ss, lives) && n <= |lives| && ValidateLimits(ss[0].limits).Some?
    requires forall k :: 0 <= k < n ==> Spares(ss[k], lives[k])
    ensures |ss[n].disk| >= |ss[0].disk| + REMOVE_FRAME * Skipped(c, ss, lives, n)
    ensures Skipped(c, ss, lives, n) > 0 ==>
              |ss[0].disk| + REMOVE_FRAME * Skipped(c, ss, lives, n) <= ValidateLimits(ss[0].limits).value
    ensures ss[n].limits == ss[0].limits
  {
    hide LivesOn, Skips, Spares, ValidateLimits;
    if n > 0 {
      var m := n - 1;
      SkippedAddUp(c, ss, lives, m);
      assert LivesOn(c, ss[m], lives[m], ss[n]);
      SparedLengthens(c, ss[m], lives[m], ss[n]);
      SkipsIsCrash(c, ss[m], lives[m]);
    }
  }

  lemma SkipsIsCrash(c: Codec, s: State, life: Life)
    ensures Skips(c, s, life) ==> life.Crash?
  {
  }

  // ---- A file that is refused --------------------------------------------------------------

  /** Open and with nothing in it, whatever the file has seen. */
  ghost predicate Vacant(c: Codec, l: Limits, s: State) {
    Valid(c, s) && s.limits == l && !s.closed && !s.poisoned && s.log.items == []
  }

  /** What fits a new queue fits every vacant one. */
  lemma VacantAccepts(c: Codec, l: Limits, s: State, e: Candidate)
    requires Vacant(c, l, s) && EnqueueRefusal(Fresh(l), e).None?
    ensures EnqueueRefusal(s, e).None?
  {
    assert IndexOf([], e.id) == -1;
    assert Sum(Sizes([])) == 0;
    assert UsageIn(s.usage, PayerOf(e.envelope)) == UsageOf([], PayerOf(e.envelope)) == Usage(0, 0);
    hide Complete, Replay, WithinQuotas;
  }

  /** The same with one entry. */
  ghost predicate Occupied(c: Codec, l: Limits, s: State, id: Digest) {
    Valid(c, s) && s.limits == l && !s.closed && !s.poisoned && |s.log.items| == 1 && s.log.items[0].id == id
  }

  lemma Occupy(c: Codec, l: Limits, s: State, e: Candidate) returns (r: State)
    requires Vacant(c, l, s) && EnqueueRefusal(Fresh(l), e).None? && CandidateOk(c, e)
    ensures LivesOn(c, s, Work(DoEnqueue(e, Synced)), r) && Occupied(c, l, r, e.id) && |r.disk| >= |s.disk|
  {
    VacantAccepts(c, l, s, e);
    AddedValid(c, s, e);
    r := Added(c, s, e);
    hide EnqueueRefusal, Valid;
  }

  function Removal(id: Digest): (op: Op) { DoRemove(id, Synced, Replaced) }

  lemma VacateIntent(c: Codec, l: Limits, s: State, id: Digest)
    requires Occupied(c, l, s, id)
    ensures var i := IntentOf(c, s, Removal(id));
            && i.Intent? && i.event.Removed?
            && i.state.log.items == [] && i.state.limits == l && !i.state.poisoned
  {
    RefundAlways(c, s, 0);
    hide Valid, EncodeFrame, Refundable;
  }

  /** A crash right after the frame of the removal: the file is refused, or the queue is vacant again. */
  lemma Vacate(c: Codec, l: Limits, s: State, id: Digest) returns (file: seq<byte>)
    requires Occupied(c, l, s, id)
    ensures Leaves(c, s, Removal(id), file) && |file| == |s.disk| + REMOVE_FRAME
    ensures Skips(c, s, Crash(Removal(id), file))
    ensures |file| > ValidateLimits(l).value ==> Open(c, l, file) == None
    ensures |file| <= ValidateLimits(l).value ==>
              && Possible(c, s, Crash(Removal(id), file))
              && Vacant(c, l, Lived(c, s, Crash(Removal(id), file)).state)
              && Lived(c, s, Crash(Removal(id), file)).state.disk == file
  {
    var op := Removal(id);
    VacateIntent(c, l, s, id);
    hide Valid, IntentOf, Open, Leaves, Removal;
    var d := IntentOf(c, s, op).state;
    file := d.disk;
    FullFrame(c, s, op);
    IntentIsValid(c, s, op);
    ReopenedValid(c, d);
  }

  lemma LivesStart(c: Codec, s: State, life: Life, ss: seq<State>, lives: seq<Life>)
    requires Lives(c, ss, lives) && LivesOn(c, s, life, ss[0])
    ensures Lives(c, [s] + ss, [life] + lives) && ([s] + ss)[|[life] + lives|] == ss[|lives|]
  {
    hide LivesOn;
    var all, more := [s] + ss, [life] + lives;
    forall i, j | 0 <= i && j == i + 1 < |all| ensures LivesOn(c, all[i], more[i], all[j]) {
      if i > 0 {
        var k, n := i - 1, j - 1;
        assert LivesOn(c, ss[k], lives[k], ss[n]);
      }
    }
  }

  /** Enqueues of one envelope, or crashes right after the frame of its removal. */
  ghost predicate Alternates(c: Codec, ss: seq<State>, lives: seq<Life>, e: Candidate)
    requires |lives| < |ss|
  {
    forall k :: 0 <= k < |lives| ==> lives[k] == Work(DoEnqueue(e, Synced)) || Skips(c, ss[k], lives[k])
  }

  lemma AlternatesStart(c: Codec, s: State, life: Life, ss: seq<State>, lives: seq<Life>, e: Candidate)
    requires |lives| < |ss| && Alternates(c, ss, lives, e)
    requires life == Work(DoEnqueue(e, Synced)) || Skips(c, s, life)
    ensures Alternates(c, [s] + ss, [life] + lives, e)
  {
    hide Skips;
  }

  lemma {:induction false} GrowsFrom(c: Codec, l: Limits, s: State, e: Candidate)
    returns (ss: seq<State>, lives: seq<Life>, file: seq<byte>)
    requires ValidateLimits(l).Some? && EnqueueRefusal(Fresh(l), e).None? && CandidateOk(c, e) && Vacant(c, l, s)
    ensures Lives(c, ss, lives) && ss[0] == s && Alternates(c, ss, lives, e) && Occupied(c, l, ss[|lives|], e.id)
    ensures Leaves(c, ss[|lives|], Removal(e.id), file) && Skips(c, ss[|lives|], Crash(Removal(e.id), file))
    ensures Open(c, l, file) == None
    decreases if |s.disk| > ValidateLimits(l).value then 0 else 1 + ValidateLimits(l).value - |s.disk|
  {
    hide ValidateLimits, EnqueueRefusal, Open, Leaves, Skips, Occupied, Vacant, Removal, Possible;
    var r := Occupy(c, l, s, e);
    file := Vacate(c, l, r, e.id);
    if |file| > ValidateLimits(l).value {
      ss, lives := [r], [];
    } else {
      var life := Crash(Removal(e.id), file);
      var next := Lived(c, r, life).state;
      ss, lives, file := GrowsFrom(c, l, next, e);
      LivesStart(c, r, life, ss, lives);
      AlternatesStart(c, r, life, ss, lives, e);
      ss, lives := [r] + ss, [life] + lives;
    }
    hide LivesOn, Alternates;
    LivesStart(c, s, Work(DoEnqueue(e, Synced)), ss, lives);
    AlternatesStart(c, s, Work(DoEnqueue(e, Synced)), ss, lives, e);
    ss, lives := [s] + ss, [Work(DoEnqueue(e, Synced))] + lives;
  }

  /** The queue can make itself a file that it refuses: for every envelope that fits a new queue there are lives
      from the new queue on, of enqueues and of crashes right after the frame of a removal, each of which is
      survived, until the next such crash leaves a file that cannot be opened. */
  lemma GrowsUntilRefused(c: Codec, l: Limits, e: Candidate)
    returns (ss: seq<State>, lives: seq<Life>, op: Op, file: seq<byte>)
    requires ValidateLimits(l).Some? && EnqueueRefusal(Fresh(l), e).None? && CandidateOk(c, e)
    ensures Lives(c, ss, lives) && ss[0] == Fresh(l) && Alternates(c, ss, lives, e)
    ensures Skips(c, ss[|lives|], Crash(op, file)) && Leaves(c, ss[|lives|], op, file)
    ensures Open(c, l, file) == None
  {
    FreshValid(c, l);
    hide Valid, ValidateLimits, EnqueueRefusal, Open, Leaves, Skips;
    ss, lives, file := GrowsFrom(c, l, Fresh(l), e);
    op := Removal(e.id);
  }
}
