/** The settlement queue as a state machine: the in-memory queue with its quotas beside the file
    on disk. An append may be written whole and synced, written whole without a sync, or torn; a
    rewrite of the file may be installed and synced, installed without a sync, or not installed. */
module SettlementQueue {
  import opened Sequences
  import opened Bytes
  import opened Envelopes
  import opened WriteAheadLog

  const COMPACTION_FLOOR := 0x10_0000
  const COMPACTION_CEILING := 0x80_0000
  const REMOVE_FRAME := 101

  datatype Usage = Usage(items: nat, bytes: nat)

  datatype Append = Synced | Unsynced | Cut(written: nat)
  datatype Rewrite = Replaced | ReplacedUnsynced | NotReplaced

  datatype Error =
    | BadEnvelope | QueueClosed | Poisoned | QueueEmpty | Full | PayerFull
    | Duplicate | HeadMismatch | FrameTooLarge | PersistFailed | CompactFailed

  datatype Event = Quiet | Enqueued(entry: Entry) | Removed(entry: Entry)

  datatype State = State(
    limits: Limits,
    log: Log,
    liveIds: set<Digest>,
    usage: map<Digest, Usage>,
    closed: bool,
    poisoned: bool,
    disk: seq<byte>)

  datatype Outcome = Outcome(state: State, error: Option<Error>, event: Event)

  /** An envelope as it comes out of the encoder, or the encoder's refusal. */
  datatype Candidate = Refused | Ready(payload: seq<byte>, envelope: Envelope, id: Digest)

  predicate CandidateOk(c: Codec, e: Candidate) {
    e.Ready? ==> c.decode(e.payload) == Some(Decoded(e.envelope, e.id))
  }

  function MaxItemsPerPayer(l: Limits): (n: nat) {
    if l.maxItemsPerPayer == 0 then l.maxItems else l.maxItemsPerPayer
  }

  function MaxBytesPerPayer(l: Limits): (n: nat) {
    if l.maxBytesPerPayer == 0 then l.maxBytes else l.maxBytesPerPayer
  }

  // ---- Quotas as sums over the live entries ------------------------------------------------

  function PayerOf(e: Envelope): (d: Digest) { e.voucher.body.payer }

  function PayerCounts(items: seq<Entry>, payer: Digest): (s: seq<nat>)
    ensures |s| == |items|
  {
    seq(|items|, i requires 0 <= i < |items| => if PayerOf(items[i].envelope) == payer then 1 else 0)
  }

  function PayerSizes(items: seq<Entry>, payer: Digest): (s: seq<nat>)
    ensures |s| == |items|
  {
    seq(|items|, i requires 0 <= i < |items| => if PayerOf(items[i].envelope) == payer then |items[i].encoded| else 0)
  }

  function UsageOf(items: seq<Entry>, payer: Digest): (u: Usage) {
    Usage(Sum(PayerCounts(items, payer)), Sum(PayerSizes(items, payer)))
  }

  function UsageIn(usage: map<Digest, Usage>, payer: Digest): (u: Usage) {
    if payer in usage then usage[payer] else Usage(0, 0)
  }

  /** The quota table holds the sums of the payers that have live entries, and no other payer. */
  ghost predicate UsageMatches(items: seq<Entry>, usage: map<Digest, Usage>) {
    && (forall payer :: UsageIn(usage, payer) == UsageOf(items, payer))
    && (forall payer :: payer in usage ==> usage[payer].items > 0)
  }

  ghost predicate IdsMatch(items: seq<Entry>, ids: set<Digest>) {
    forall id :: id in ids <==> IndexOf(items, id) >= 0
  }

  ghost predicate WithinQuotas(l: Limits, items: seq<Entry>) {
    forall payer :: UsageOf(items, payer).items <= MaxItemsPerPayer(l)
        && UsageOf(items, payer).bytes <= MaxBytesPerPayer(l)
  }

  lemma UsageAppend(items: seq<Entry>, e: Entry, payer: Digest)
    ensures var u := UsageOf(items, payer);
            UsageOf(items + [e], payer) ==
            if PayerOf(e.envelope) == payer then Usage(u.items + 1, u.bytes + |e.encoded|) else u
  {
    var mine := PayerOf(e.envelope) == payer;
    assert PayerCounts(items + [e], payer) == PayerCounts(items, payer) + [if mine then 1 else 0];
    assert PayerSizes(items + [e], payer) == PayerSizes(items, payer) + [if mine then |e.encoded| else 0];
    SumAppend(PayerCounts(items, payer), if mine then 1 else 0);
    SumAppend(PayerSizes(items, payer), if mine then |e.encoded| else 0);
  }

  lemma UsageWithout(items: seq<Entry>, i: nat, payer: Digest)
    requires i < |items|
    ensures var u := UsageOf(Without(items, i), payer);
            UsageOf(items, payer) ==
            if PayerOf(items[i].envelope) == payer then Usage(u.items + 1, u.bytes + |items[i].encoded|) else u
  {
    assert PayerCounts(Without(items, i), payer) == Without(PayerCounts(items, payer), i);
    assert PayerSizes(Without(items, i), payer) == Without(PayerSizes(items, payer), i);
    SumWithout(PayerCounts(items, payer), i);
    SumWithout(PayerSizes(items, payer), i);
  }

  // ---- The operations ----------------------------------------------------------------------

  function Operational(s: State): (r: Option<Error>) {
    if s.closed then Some(QueueClosed) else if s.poisoned then Some(Poisoned) else None
  }

  function EnqueueRefusal(s: State, e: Candidate): (r: Option<Error>)
    ensures r.None? ==> e.Ready? && Operational(s).None?
  {
    if e.Refused? then Some(BadEnvelope)
    else if Operational(s).Some? then Operational(s)
    else if e.id in s.liveIds then Some(Duplicate)
    else
      var usage, size := UsageIn(s.usage, PayerOf(e.envelope)), |e.payload|;
      if |s.log.items| >= s.limits.maxItems then Some(Full)
      else if size > s.limits.maxBytes - s.log.bytes then Some(Full)
      else if usage.items >= MaxItemsPerPayer(s.limits) || usage.bytes >= MaxBytesPerPayer(s.limits)
           || size > MaxBytesPerPayer(s.limits) - usage.bytes then Some(PayerFull)
      else if FIXED_BODY + size > MAX_UINT32 then Some(FrameTooLarge)
      else None
  }

  /** What an append leaves on disk. */
  function Written(frame: seq<byte>, io: Append): (b: seq<byte>) {
    if io.Cut? && io.written <= |frame| then frame[..io.written] else frame
  }

  function AddUsage(usage: map<Digest, Usage>, payer: Digest, size: nat): (r: map<Digest, Usage>) {
    var u := UsageIn(usage, payer);
    usage[payer := Usage(u.items + 1, u.bytes + size)]
  }

  function DropUsage(usage: map<Digest, Usage>, payer: Digest, size: nat): (r: map<Digest, Usage>)
    requires UsageIn(usage, payer).items > 0 && UsageIn(usage, payer).bytes >= size
  {
    var u := UsageIn(usage, payer);
    if u.items == 1 then usage - {payer} else usage[payer := Usage(u.items - 1, u.bytes - size)]
  }

  /** Memory and file once the enqueue frame is installed. */
  function Added(c: Codec, s: State, e: Candidate): (r: State)
    requires e.Ready?
  {
    var frame := EncodeFrame(c, FRAME_ENQUEUE, e.payload, s.log.lastHash);
    s.(log := Log(s.log.items + [Entry(e.envelope, e.id, e.payload, |frame|)], s.log.bytes + |e.payload|,
                  c.digest(FRAME_ENQUEUE, s.log.lastHash, e.payload), s.log.size + |frame|, s.log.garbage),
       liveIds := s.liveIds + {e.id},
       usage := AddUsage(s.usage, PayerOf(e.envelope), |e.payload|),
       disk := s.disk + frame)
  }

  function Enqueue(c: Codec, s: State, e: Candidate, io: Append): (r: Outcome)
  {
    if EnqueueRefusal(s, e).Some? then Outcome(s, EnqueueRefusal(s, e), Quiet)
    else if io.Cut? then
      var frame := EncodeFrame(c, FRAME_ENQUEUE, e.payload, s.log.lastHash);
      Outcome(s.(disk := s.disk + Written(frame, io), poisoned := true), Some(PersistFailed), Quiet)
    else
      var r := Added(c, s, e);
      var event := Enqueued(r.log.items[|s.log.items|]);
      if io == Synced then Outcome(r, None, event)
      else Outcome(r.(poisoned := true), Some(PersistFailed), event)
  }

  function Compact(c: Codec, s: State, rw: Rewrite): (r: State)
  {
    if rw == NotReplaced then s.(poisoned := true)
    else s.(log := CompactedLog(c, s.log), disk := Compacted(c, s.log.items), poisoned := rw != Replaced)
  }

  predicate CompactionDue(log: Log) {
    log.garbage >= COMPACTION_FLOOR && (log.garbage >= log.size - log.garbage || log.garbage >= COMPACTION_CEILING)
  }

  /** The quota table can give back what the entry took. */
  predicate Refundable(s: State, i: nat)
    requires i < |s.log.items|
  {
    var e := s.log.items[i];
    var u := UsageIn(s.usage, PayerOf(e.envelope));
    u.items > 0 && u.bytes >= |e.encoded| && s.log.bytes >= |e.encoded|
  }

  /** Memory and file once the remove frame is installed. */
  function Dropped(c: Codec, s: State, i: nat): (r: State)
    requires i < |s.log.items| && Refundable(s, i)
  {
    var item := s.log.items[i];
    var frame := EncodeFrame(c, FRAME_REMOVE, item.id, s.log.lastHash);
    s.(log := Log(Without(s.log.items, i), s.log.bytes - |item.encoded|,
        c.digest(FRAME_REMOVE, s.log.lastHash, item.id),
                  s.log.size + |frame|, s.log.garbage + item.frameBytes + |frame|),
       liveIds := s.liveIds - {item.id},
       usage := DropUsage(s.usage, PayerOf(item.envelope), |item.encoded|),
       disk := s.disk + frame)
  }

  function RemoveAt(c: Codec, s: State, i: nat, io: Append, rw: Rewrite): (r: Outcome)
    requires i < |s.log.items| && Refundable(s, i)
  {
    var event := Removed(s.log.items[i]);
    match io
    case Cut(_) =>
      var frame := EncodeFrame(c, FRAME_REMOVE, s.log.items[i].id, s.log.lastHash);
      Outcome(s.(disk := s.disk + Written(frame, io), poisoned := true), Some(PersistFailed), Quiet)
    case Unsynced => Outcome(Dropped(c, s, i).(poisoned := true), Some(PersistFailed), event)
    case Synced =>
      var r := Dropped(c, s, i);
      if !CompactionDue(r.log) then Outcome(r, None, event)
      else Outcome(Compact(c, r, rw), if rw == Replaced then None else Some(CompactFailed), event)
  }

  /** Remove accepts only the global head. */
  function RemoveTarget(s: State, id: Digest): (i: int)
    ensures -1 <= i < |s.log.items|
  {
    if s.log.items != [] && s.log.items[0].id == id then 0 else -1
  }

  /** RemoveChannelHead accepts the head of any channel. */
  function ChannelHeadTarget(s: State, id: Digest): (i: int)
    ensures -1 <= i < |s.log.items|
  {
    var i := IndexOf(s.log.items, id);
    if i >= 0 && ChannelHead(s.log.items, i) then i else -1
  }

  function RemoveTargeted(c: Codec, s: State, i: int, io: Append, rw: Rewrite): (r: Outcome)
    requires -1 <= i < |s.log.items| && (i >= 0 ==> Refundable(s, i))
  {
    if Operational(s).Some? then Outcome(s, Operational(s), Quiet)
    else if s.log.items == [] then Outcome(s, Some(QueueEmpty), Quiet)
    else if i < 0 then Outcome(s, Some(HeadMismatch), Quiet)
    else RemoveAt(c, s, i, io, rw)
  }

  // ---- The invariant -----------------------------------------------------------------------

  /** Memory is bookkept exactly and within every limit; unless a write failed, the file means
      exactly what memory holds. */
  ghost predicate Valid(c: Codec, s: State) {
    && ValidateLimits(s.limits).Some?
    && LogValid(c, s.limits, s.log)
    && IdsMatch(s.log.items, s.liveIds)
    && UsageMatches(s.log.items, s.usage)
    && WithinQuotas(s.limits, s.log.items)
    && (!s.poisoned ==> Complete(c, s.limits, s.disk) && Replay(c, s.limits, s.disk) == Some(s.log))
  }

  lemma RefundAlways(c: Codec, s: State, i: nat)
    requires Valid(c, s) && i < |s.log.items|
    ensures Refundable(s, i)
  {
    var e := s.log.items[i];
    UsageWithout(s.log.items, i, PayerOf(e.envelope));
    SizesWithout(s.log.items, i);
    assert UsageIn(s.usage, PayerOf(e.envelope)) == UsageOf(s.log.items, PayerOf(e.envelope));
  }

  lemma UsageAdded(items: seq<Entry>, usage: map<Digest, Usage>, e: Entry)
    requires UsageMatches(items, usage)
    ensures UsageMatches(items + [e], AddUsage(usage, PayerOf(e.envelope), |e.encoded|))
  {
    var usage' := AddUsage(usage, PayerOf(e.envelope), |e.encoded|);
    forall payer ensures UsageIn(usage', payer) == UsageOf(items + [e], payer) {
      UsageAppend(items, e, payer);
      assert UsageIn(usage, payer) == UsageOf(items, payer);
    }
  }

  lemma UsageDropped(items: seq<Entry>, usage: map<Digest, Usage>, i: nat)
    requires UsageMatches(items, usage) && i < |items|
    ensures var e := items[i];
            && UsageIn(usage, PayerOf(e.envelope)).items > 0 && UsageIn(usage, PayerOf(e.envelope)).bytes >= |e.encoded|
            && UsageMatches(Without(items, i), DropUsage(usage, PayerOf(e.envelope), |e.encoded|))
  {
    var e := items[i];
    assert UsageIn(usage, PayerOf(e.envelope)) == UsageOf(items, PayerOf(e.envelope));
    UsageWithout(items, i, PayerOf(e.envelope));
    var usage' := DropUsage(usage, PayerOf(e.envelope), |e.encoded|);
    forall payer ensures UsageIn(usage', payer) == UsageOf(Without(items, i), payer) {
      UsageWithout(items, i, payer);
      assert UsageIn(usage, payer) == UsageOf(items, payer);
      NoEntriesNoBytes(Without(items, i), payer);
    }
  }

  lemma {:induction false} AllZero(ws: seq<nat>)
    requires Sum(ws) == 0
    ensures forall i :: 0 <= i < |ws| ==> ws[i] == 0
  {
    if ws != [] {
      AllZero(ws[1..]);
      assert forall i :: 1 <= i < |ws| ==> ws[i] == ws[1..][i - 1];
    }
  }

  lemma {:induction false} ZeroSum(ws: seq<nat>)
    requires forall i :: 0 <= i < |ws| ==> ws[i] == 0
    ensures Sum(ws) == 0
  {
    if ws != [] {
      ZeroSum(ws[1..]);
    }
  }

  lemma NoEntriesNoBytes(items: seq<Entry>, payer: Digest)
    ensures UsageOf(items, payer).items == 0 ==> UsageOf(items, payer).bytes == 0
  {
    if UsageOf(items, payer).items == 0 {
      AllZero(PayerCounts(items, payer));
      forall i | 0 <= i < |items| ensures PayerSizes(items, payer)[i] == 0 {
        assert PayerCounts(items, payer)[i] == 0;
      }
      ZeroSum(PayerSizes(items, payer));
    }
  }

  lemma EnqueueExtends(c: Codec, s: State, e: Candidate)
    requires Valid(c, s) && CandidateOk(c, e) && EnqueueRefusal(s, e).None?
    ensures Extend(c, s.limits, s.log, FRAME_ENQUEUE, e.payload) == Some(Added(c, s, e).log)
    ensures FIXED_BODY + |e.payload| <= MaxBody(s.limits)
  {
    assert IndexOf(s.log.items, e.id) < 0;
  }

  lemma AddedValid(c: Codec, s: State, e: Candidate)
    requires Valid(c, s) && CandidateOk(c, e) && EnqueueRefusal(s, e).None?
    ensures Valid(c, Added(c, s, e))
  {
    EnqueueExtends(c, s, e);
    var entry := Added(c, s, e).log.items[|s.log.items|];
    ExtendKeepsValid(c, s.limits, s.log, FRAME_ENQUEUE, e.payload);
    UsageAdded(s.log.items, s.usage, entry);
    AddedKeepsQuotas(c, s, e);
    IdsAdded(s.log.items, s.liveIds, entry);
    AppendExtends(c, s.limits, s.disk, FRAME_ENQUEUE, e.payload);
  }

  lemma EnqueueKeepsValid(c: Codec, s: State, e: Candidate, io: Append)
    requires Valid(c, s) && CandidateOk(c, e)
    ensures Valid(c, Enqueue(c, s, e, io).state)
  {
    if EnqueueRefusal(s, e).None? {
      AddedValid(c, s, e);
    }
    hide LogValid, IdsMatch, UsageMatches, WithinQuotas, Complete, EncodeFrame;
  }

  lemma AddedKeepsQuotas(c: Codec, s: State, e: Candidate)
    requires Valid(c, s) && EnqueueRefusal(s, e).None?
    ensures WithinQuotas(s.limits, Added(c, s, e).log.items)
  {
    var items := Added(c, s, e).log.items;
    var entry := items[|s.log.items|];
    forall payer
      ensures UsageOf(items, payer).items <= MaxItemsPerPayer(s.limits)
              && UsageOf(items, payer).bytes <= MaxBytesPerPayer(s.limits) {
      UsageAppend(s.log.items, entry, payer);
      assert UsageIn(s.usage, payer) == UsageOf(s.log.items, payer);
    }
  }

  lemma IdsAdded(items: seq<Entry>, ids: set<Digest>, e: Entry)
    requires IdsMatch(items, ids)
    ensures IdsMatch(items + [e], ids + {e.id})
  {
    forall id ensures IndexOf(items + [e], id) >= 0 <==> IndexOf(items, id) >= 0 || id == e.id {
      assert (items + [e])[|items|] == e;
      assert forall k :: 0 <= k < |items| ==> (items + [e])[k] == items[k];
    }
  }

  lemma IdsDropped(items: seq<Entry>, ids: set<Digest>, i: nat)
    requires IdsMatch(items, ids) && i < |items| && Distinct(items)
    ensures IdsMatch(Without(items, i), ids - {items[i].id})
  {
    forall id ensures IndexOf(Without(items, i), id) >= 0 <==> IndexOf(items, id) >= 0 && id != items[i].id {
      IdDropped(items, i, id);
    }
    hide IndexOf, Without;
  }

  lemma IdDropped(items: seq<Entry>, i: nat, id: Digest)
    requires i < |items| && Distinct(items)
    ensures IndexOf(Without(items, i), id) >= 0 <==> IndexOf(items, id) >= 0 && id != items[i].id
  {
    var rest := Without(items, i);
    var k := IndexOf(items, id);
    if k >= 0 && k != i {
      assert rest[if k < i then k else k - 1] == items[k];
    }
    var m := IndexOf(rest, id);
    if m >= 0 {
      assert items[if m < i then m else m + 1] == rest[m];
    }
  }

  lemma RemovalExtends(c: Codec, s: State, i: nat)
    requires Valid(c, s) && i < |s.log.items| && ChannelHead(s.log.items, i)
    ensures Refundable(s, i)
    ensures Extend(c, s.limits, s.log, FRAME_REMOVE, s.log.items[i].id) == Some(Dropped(c, s, i).log)
    ensures FIXED_BODY + 32 <= MaxBody(s.limits)
  {
    RefundAlways(c, s, i);
    assert Distinct(s.log.items);
    hide Valid, IndexOf, Complete, DropUsage;
    assert IndexOf(s.log.items, s.log.items[i].id) == i;
  }

  lemma CompactKeepsValid(c: Codec, s: State, rw: Rewrite)
    requires Valid(c, s)
    ensures Valid(c, Compact(c, s, rw))
    ensures Compact(c, s, rw).log.items == s.log.items
  {
    CompactionPreserves(c, s.limits, s.log);
  }

  /** Memory and file after the remove frame, before any compaction. */
  lemma DroppedValid(c: Codec, s: State, i: nat)
    requires Valid(c, s) && !s.poisoned && i < |s.log.items| && ChannelHead(s.log.items, i)
    ensures Refundable(s, i) && Valid(c, Dropped(c, s, i))
  {
    RemovalExtends(c, s, i);
    var r := Dropped(c, s, i);
    ExtendKeepsValid(c, s.limits, s.log, FRAME_REMOVE, s.log.items[i].id);
    UsageDropped(s.log.items, s.usage, i);
    IdsDropped(s.log.items, s.liveIds, i);
    forall payer ensures UsageOf(r.log.items, payer).items <= UsageOf(s.log.items, payer).items
                      && UsageOf(r.log.items, payer).bytes <= UsageOf(s.log.items, payer).bytes
    {
      UsageWithout(s.log.items, i, payer);
    }
    AppendExtends(c, s.limits, s.disk, FRAME_REMOVE, s.log.items[i].id);
  }

  lemma RemoveKeepsValid(c: Codec, s: State, i: int, io: Append, rw: Rewrite)
    requires Valid(c, s) && -1 <= i < |s.log.items| && (i >= 0 ==> ChannelHead(s.log.items, i))
    ensures i >= 0 ==> Refundable(s, i)
    ensures Valid(c, RemoveTargeted(c, s, i, io, rw).state)
  {
    hide LogValid, IdsMatch, UsageMatches, WithinQuotas, Complete, Dropped;
    if i >= 0 {
      RefundAlways(c, s, i);
      if Operational(s).None? {
        DroppedValid(c, s, i);
        CompactKeepsValid(c, Dropped(c, s, i), rw);
      }
    }
  }
}
