/** The queue object of the source: fields updated in place, proved step for step against the
    state machine of SettlementQueue, on the real envelope codec. */
module QueueObject {
  import opened Sequences
  import opened Bytes
  import Voucher
  import opened Envelopes
  import opened WriteAheadLog
  import opened LogReplay
  import SQ = SettlementQueue
  import QueueRuns
  import LI = LogIntegrity

  // ---- The codec ---------------------------------------------------------------------------

  function CodecOf(p: Platform): (c: Codec) {
    Codec((kind: byte, previous: Digest, payload: seq<byte>) => p.crypto.sha256(HEADER + [kind] + previous + payload),
          (data: seq<byte>) => DecodeEntry(p, data))
  }

  function DecodeEntry(p: Platform, data: seq<byte>): (r: Option<Decoded>)
  {
    match DecodeEnvelope(p, data)
    case None => None
    case Some(e) =>
      match Voucher.VoucherId(p.crypto, e.voucher)
      case None => None
      case Some(id) => Some(Decoded(e, id))
  }

  function CandidateOf(p: Platform, e: Envelope, identityRequired: bool): (r: SQ.Candidate)
  {
    match EncodeEnvelope(p, e, identityRequired)
    case None => SQ.Refused
    case Some(encoded) =>
      match Voucher.VoucherId(p.crypto, encoded.envelope.voucher)
      case None => SQ.Refused
      case Some(id) => SQ.Ready(encoded.bytes, encoded.envelope, id)
  }

  /** What the encoder hands to the queue is what replay will decode. */
  lemma CandidateDecodes(p: Platform, e: Envelope, identityRequired: bool)
    requires Sound(p)
    ensures SQ.CandidateOk(CodecOf(p), CandidateOf(p, e, identityRequired))
    ensures CandidateOf(p, e, identityRequired).Ready? ==> CandidateOf(p, e, identityRequired).envelope == e
  {
    if EncodeEnvelope(p, e, identityRequired).Some? {
      EnvelopeReadsBack(p, e, identityRequired);
    }
  }

  /** What a frame's digest is taken over. */
  function Digested(i: LI.Input): (b: seq<byte>) { HEADER + [i.kind] + i.previous + i.payload }

  lemma DigestedReads(i: LI.Input)
    ensures var b := Digested(i); i == LI.Input(b[32], b[33..65], b[65..])
  {
  }

  /** A weakness of the frame digest is one of SHA-256: two inputs with one value, or one with the value zero. */
  lemma BrokenIsCollision(p: Platform, a: LI.Input, b: LI.Input)
    requires LI.Broken(CodecOf(p), a, b)
    ensures || (Digested(a) != Digested(b) && p.crypto.sha256(Digested(a)) == p.crypto.sha256(Digested(b)))
            || p.crypto.sha256(Digested(a)) == ZERO_DIGEST
  {
    DigestedReads(a);
    DigestedReads(b);
  }

  // ---- Channel heads -----------------------------------------------------------------------

  function HeadIndices(items: seq<Entry>): (r: seq<nat>)
    ensures forall k :: k in r ==> k < |items|
  {
    if items == [] then []
    else
      var n := |items| - 1;
      HeadIndices(items[..n]) + if ChannelHead(items, n) then [n] else []
  }

  ghost predicate SeenBefore(items: seq<Entry>, i: nat, seen: set<Channel>)
    requires i <= |items|
  {
    forall ch :: ch in seen <==> exists k :: 0 <= k < i && ChannelOf(items[k].envelope) == ch
  }

  lemma HeadsGrow(items: seq<Entry>, i: nat, seen: set<Channel>)
    requires i < |items| && SeenBefore(items, i, seen)
    ensures var ch := ChannelOf(items[i].envelope);
            && HeadIndices(items[..i + 1]) == HeadIndices(items[..i]) + (if ch in seen then [] else [i])
            && SeenBefore(items, i + 1, seen + {ch})
  {
    assert items[..i + 1][..i] == items[..i];
    assert ChannelHead(items[..i + 1], i) <==> ChannelOf(items[i].envelope) !in seen;
  }

  lemma {:induction false} HeadIndicesAreHeads(items: seq<Entry>, i: nat)
    ensures i in HeadIndices(items) <==> i < |items| && ChannelHead(items, i)
  {
    if items != [] {
      var n := |items| - 1;
      HeadIndicesAreHeads(items[..n], i);
      if i < n {
        assert ChannelHead(items[..n], i) <==> ChannelHead(items, i);
      }
    }
  }

  lemma {:induction false} HeadIndicesAreOrdered(items: seq<Entry>, a: nat, b: nat)
    requires a < b < |HeadIndices(items)|
    ensures HeadIndices(items)[a] < HeadIndices(items)[b]
  {
    var n := |items| - 1;
    var earlier := HeadIndices(items[..n]);
    if b < |earlier| {
      HeadIndicesAreOrdered(items[..n], a, b);
    } else {
      assert earlier[a] in earlier;
    }
  }

  function HeadIndex(items: seq<Entry>, k: nat): (i: nat)
    requires k < |HeadIndices(items)|
    ensures i < |items|
  {
    HeadIndicesAreHeads(items, HeadIndices(items)[k]);
    HeadIndices(items)[k]
  }

  /** The envelopes of the channel heads, in the order of the queue. */
  ghost function HeadEnvelopes(items: seq<Entry>): (r: seq<Envelope>)
    ensures |r| == |HeadIndices(items)|
    ensures forall k :: 0 <= k < |r| ==> r[k] == items[HeadIndex(items, k)].envelope
  {
    seq(|HeadIndices(items)|, k requires 0 <= k < |HeadIndices(items)| => items[HeadIndex(items, k)].envelope)
  }

  lemma HeadsInOrder(items: seq<Entry>)
    ensures HeadEnvelopes(items[..0]) == [] && SeenBefore(items, 0, {}) && items[..|items|] == items
    ensures forall a, b :: 0 <= a < b < |HeadIndices(items)| ==> HeadIndex(items, a) < HeadIndex(items, b)
  {
    forall a, b | 0 <= a < b < |HeadIndices(items)| ensures HeadIndex(items, a) < HeadIndex(items, b) {
      HeadIndicesAreOrdered(items, a, b);
    }
    assert items[..0] == [];
  }

  lemma EnvelopesGrow(items: seq<Entry>, i: nat, seen: set<Channel>)
    requires i < |items| && SeenBefore(items, i, seen)
    ensures var ch := ChannelOf(items[i].envelope);
            && HeadEnvelopes(items[..i + 1]) ==
               HeadEnvelopes(items[..i]) + (if ch in seen then [] else [items[i].envelope])
            && SeenBefore(items, i + 1, seen + {ch})
  {
    HeadsGrow(items, i, seen);
    hide HeadIndices, SeenBefore;
  }

  /** Every channel with a live entry has exactly one head. */
  lemma OneHeadPerChannel(items: seq<Entry>, i: nat) returns (head: nat)
    requires i < |items|
    ensures head in HeadIndices(items) && head <= i && ChannelOf(items[head].envelope) == ChannelOf(items[i].envelope)
    ensures forall k :: k in HeadIndices(items) && ChannelOf(items[k].envelope) == ChannelOf(items[i].envelope) ==>
              k == head
    decreases i
  {
    if ChannelHead(items, i) {
      head := i;
      HeadIndicesAreHeads(items, i);
    } else {
      var k :| 0 <= k < i && ChannelOf(items[k].envelope) == ChannelOf(items[i].envelope);
      head := OneHeadPerChannel(items, k);
    }
    forall k | k in HeadIndices(items) && ChannelOf(items[k].envelope) == ChannelOf(items[i].envelope)
      ensures k == head {
      HeadIndicesAreHeads(items, k);
      HeadIndicesAreHeads(items, head);
    }
  }

  /** RemoveChannelHead takes an identifier exactly when ChannelHeads lists its entry. */
  lemma HeadsAreRemovable(c: Codec, s: SQ.State, id: Digest)
    requires SQ.Valid(c, s)
    ensures SQ.ChannelHeadTarget(s, id) >= 0 <==> exists k :: k in HeadIndices(s.log.items) && s.log.items[k].id == id
  {
    var i := IndexOf(s.log.items, id);
    if i >= 0 {
      HeadIndicesAreHeads(s.log.items, i);
    }
    forall k | k in HeadIndices(s.log.items) && s.log.items[k].id == id ensures k == i {
      HeadIndicesAreHeads(s.log.items, k);
    }
  }

  // ---- The object --------------------------------------------------------------------------

  lemma UsageOfPrefix(items: seq<Entry>, n: nat, payer: Digest)
    requires n <= |items|
    ensures SQ.UsageOf(items[..n], payer).items <= SQ.UsageOf(items, payer).items
    ensures SQ.UsageOf(items[..n], payer).bytes <= SQ.UsageOf(items, payer).bytes
  {
    var counts, sizes := SQ.PayerCounts(items, payer), SQ.PayerSizes(items, payer);
    assert counts == SQ.PayerCounts(items[..n], payer) + counts[n..];
    assert sizes == SQ.PayerSizes(items[..n], payer) + sizes[n..];
    SumConcat(SQ.PayerCounts(items[..n], payer), counts[n..]);
    SumConcat(SQ.PayerSizes(items[..n], payer), sizes[n..]);
  }

  method EncodeCompacted(c: Codec, items: seq<Entry>) returns (encoded: seq<byte>, sizes: seq<nat>, last: Digest)
    ensures encoded == Compacted(c, items) && last == ChainHash(c, items)
    ensures |sizes| == |items| && forall i :: 0 <= i < |items| ==> sizes[i] == FRAME_OVERHEAD + |items[i].encoded|
  {
    encoded, sizes, last := HEADER, [], ZERO_DIGEST;
    for i := 0 to |items|
      invariant encoded == Compacted(c, items[..i]) && last == ChainHash(c, items[..i])
      invariant |sizes| == i && forall k :: 0 <= k < i ==> sizes[k] == FRAME_OVERHEAD + |items[k].encoded|
    {
      var frame := EncodeFrame(c, FRAME_ENQUEUE, items[i].encoded, last);
      assert items[..i + 1][..i] == items[..i];
      encoded, sizes, last := encoded + frame, sizes + [|frame|], c.digest(FRAME_ENQUEUE, last, items[i].encoded);
    }
    assert items[..|items|] == items;
  }

  method Resize(items: seq<Entry>, sizes: seq<nat>) returns (r: seq<Entry>)
    requires |sizes| == |items|
    ensures |r| == |items| && forall i :: 0 <= i < |items| ==> r[i] == items[i].(frameBytes := sizes[i])
  {
    r := items;
    for i := 0 to |items|
      invariant |r| == |items|
      invariant forall k :: 0 <= k < |items| ==> r[k] == if k < i then items[k].(frameBytes := sizes[k]) else items[k]
    {
      r := r[i := r[i].(frameBytes := sizes[i])];
    }
  }

  lemma CompactedSize(c: Codec, l: Limits, log: Log)
    requires LogValid(c, l, log)
    ensures |Compacted(c, log.items)| == LiveSize(log)
  {
    CompactionPreserves(c, l, log);
  }

  lemma SizesUnchanged(c: Codec, l: Limits, log: Log, sizes: seq<nat>, resized: seq<Entry>)
    requires LogValid(c, l, log) && |sizes| == |log.items| == |resized|
    requires forall i :: 0 <= i < |log.items| ==> sizes[i] == FRAME_OVERHEAD + |log.items[i].encoded|
    requires forall i :: 0 <= i < |log.items| ==> resized[i] == log.items[i].(frameBytes := sizes[i])
    ensures resized == log.items
  {
    forall i | 0 <= i < |log.items| ensures resized[i] == log.items[i] {
      assert EntryValid(c, l, log.items[i]);
    }
  }

  method CompactionImage(c: Codec, l: Limits, log: Log) returns (encoded: seq<byte>, items: seq<Entry>, last: Digest)
    requires LogValid(c, l, log)
    ensures encoded == Compacted(c, log.items) && CompactedLog(c, log) == Log(items, log.bytes, last, |encoded|, 0)
  {
    CompactedSize(c, l, log);
    var sizes;
    encoded, sizes, last := EncodeCompacted(c, log.items);
    items := Resize(log.items, sizes);
    SizesUnchanged(c, l, log, sizes, items);
  }

  /** The index of an entry by identifier, if no earlier entry shares its channel. */
  method FindChannelHead(items: seq<Entry>, id: Digest) returns (index: int)
    ensures var i := IndexOf(items, id); index == if i >= 0 && ChannelHead(items, i) then i else -1
  {
    index := -1;
    for i := 0 to |items|
      invariant forall k :: 0 <= k < i ==> items[k].id != id
      invariant index == -1
    {
      if items[i].id == id {
        index := i;
        break;
      }
    }
    if index < 0 { return; }
    var key := ChannelOf(items[index].envelope);
    for k := 0 to index
      invariant forall j :: 0 <= j < k ==> ChannelOf(items[j].envelope) != key
    {
      if ChannelOf(items[k].envelope) == key { return -1; }
    }
  }

  /** The identifiers and the quota table of replayed entries; not ok when a payer is over quota. */
  method CountUsage(l: Limits, items: seq<Entry>) returns (ok: bool, ids: set<Digest>, usage: map<Digest, SQ.Usage>)
    requires Distinct(items)
    ensures ok <==> SQ.WithinQuotas(l, items)
    ensures ok ==> SQ.IdsMatch(items, ids) && SQ.UsageMatches(items, usage)
  {
    ids, usage := {}, map[];
    for i := 0 to |items|
      invariant SQ.IdsMatch(items[..i], ids) && SQ.UsageMatches(items[..i], usage)
      invariant SQ.WithinQuotas(l, items[..i])
    {
      var item := items[i];
      var payer := SQ.PayerOf(item.envelope);
      assert items[..i + 1] == items[..i] + [item];
      SQ.IdsAdded(items[..i], ids, item);
      SQ.UsageAdded(items[..i], usage, item);
      ids := ids + {item.id};
      usage := SQ.AddUsage(usage, payer, |item.encoded|);
      assert SQ.UsageIn(usage, payer) == SQ.UsageOf(items[..i + 1], payer);
      if usage[payer].items > SQ.MaxItemsPerPayer(l) || usage[payer].bytes > SQ.MaxBytesPerPayer(l) {
        UsageOfPrefix(items, i + 1, payer);
        return false, ids, usage;
      }
      ghost var counted := items[..i + 1];
      forall other ensures SQ.UsageOf(counted, other).items <= SQ.MaxItemsPerPayer(l)
                        && SQ.UsageOf(counted, other).bytes <= SQ.MaxBytesPerPayer(l)
      {
        SQ.UsageAppend(items[..i], item, other);
      }
    }
    assert items[..|items|] == items;
    ok := true;
  }

  class Queue {
    const platform: Platform
    const limits: Limits
    var items: seq<Entry>
    var liveIds: set<Digest>
    var usage: map<Digest, SQ.Usage>
    var bytes: nat
    var lastHash: Digest
    var logBytes: nat
    var garbageBytes: nat
    var closed: bool
    var poisoned: bool
    var disk: seq<byte>

    function View(): (s: SQ.State)
      reads this
    {
      SQ.State(limits, Log(items, bytes, lastHash, logBytes, garbageBytes), liveIds, usage, closed, poisoned, disk)
    }

    ghost predicate Valid()
      reads this
    {
      Sound(platform) && SQ.Valid(CodecOf(platform), View())
    }

    constructor Restore(p: Platform, l: Limits, log: Log, ids: set<Digest>, usage: map<Digest, SQ.Usage>,
                        disk: seq<byte>)
      ensures platform == p && View() == SQ.State(l, log, ids, usage, false, false, disk)
    {
      platform, limits := p, l;
      items, bytes, lastHash, logBytes, garbageBytes := log.items, log.bytes, log.lastHash, log.size, log.garbage;
      liveIds, this.usage := ids, usage;
      closed, poisoned, this.disk := false, false, disk;
    }

    /** A new file, or the replay of an existing one with its torn tail cut off. */
    static method Open(p: Platform, l: Limits, file: Option<seq<byte>>) returns (q: Queue?)
      requires Sound(p)
      ensures q != null ==> fresh(q) && q.Valid() && q.platform == p
      ensures file.Some? ==> var s := QueueRuns.Open(CodecOf(p), l, file.value);
                             (q != null <==> s.Some?) && (q != null ==> q.View() == s.value)
      ensures file.None? ==> (q != null <==> ValidateLimits(l).Some?) && (q != null ==> q.View() == QueueRuns.Fresh(l))
    {
      var c := CodecOf(p);
      var maximum := ValidateLimits(l);
      if maximum.None? { return null; }
      if file.None? {
        QueueRuns.FreshValid(c, l);
        q := new Queue.Restore(p, l, EMPTY_LOG, {}, map[], HEADER);
        return;
      }
      if |file.value| > maximum.value { return null; }
      var log, validBytes := ReplayWal(c, l, file.value);
      if log.None? { return null; }
      ReplayValid(c, l, file.value);
      var ok, ids, usage := CountUsage(l, log.value.items);
      if !ok { return null; }
      QueueRuns.IdsAreSet(log.value.items, ids);
      QueueRuns.UsageIsTable(log.value.items, usage);
      TailIsIdle(c, l, file.value);
      q := new Queue.Restore(p, l, log.value, ids, usage, file.value[..validBytes]);
    }

    method EnqueueEnvelope(e: Envelope, identityRequired: bool, io: SQ.Append) returns (error: Option<SQ.Error>)
      requires Valid()
      modifies this
      ensures Valid()
      ensures var r := SQ.Enqueue(CodecOf(platform), old(View()), CandidateOf(platform, e, identityRequired), io);
              View() == r.state && error == r.error
    {
      var c, candidate := CodecOf(platform), CandidateOf(platform, e, identityRequired);
      CandidateDecodes(platform, e, identityRequired);
      SQ.EnqueueKeepsValid(c, View(), candidate, io);
      error := EnqueueCandidate(c, candidate, io);
    }

    method EnqueueCandidate(c: Codec, candidate: SQ.Candidate, io: SQ.Append) returns (error: Option<SQ.Error>)
      modifies this
      ensures var r := SQ.Enqueue(c, old(View()), candidate, io); View() == r.state && error == r.error
    {
      hide EncodeFrame, SQ.EnqueueRefusal;
      error := SQ.EnqueueRefusal(View(), candidate);
      if error.Some? { return; }
      var frame := EncodeFrame(c, FRAME_ENQUEUE, candidate.payload, lastHash);
      disk := disk + SQ.Written(frame, io);
      if !io.Cut? {
        items := items + [Entry(candidate.envelope, candidate.id, candidate.payload, |frame|)];
        liveIds := liveIds + {candidate.id};
        usage := SQ.AddUsage(usage, SQ.PayerOf(candidate.envelope), |candidate.payload|);
        bytes := bytes + |candidate.payload|;
        lastHash := c.digest(FRAME_ENQUEUE, lastHash, candidate.payload);
        logBytes := logBytes + |frame|;
      }
      if io != SQ.Synced {
        poisoned := true;
        error := Some(SQ.PersistFailed);
      }
    }

    method Remove(id: Digest, io: SQ.Append, rw: SQ.Rewrite) returns (error: Option<SQ.Error>)
      requires Valid()
      modifies this
      ensures Valid()
      ensures var r := QueueRuns.RemoveStep(CodecOf(platform), old(View()), SQ.RemoveTarget(old(View()), id), io, rw);
              View() == r.state && error == r.error
    {
      error := SQ.Operational(View());
      if error.Some? { return; }
      if items == [] { return Some(SQ.QueueEmpty); }
      if items[0].id != id { return Some(SQ.HeadMismatch); }
      error := RemoveIndex(0, io, rw);
    }

    method RemoveChannelHead(id: Digest, io: SQ.Append, rw: SQ.Rewrite) returns (error: Option<SQ.Error>)
      requires Valid()
      modifies this
      ensures Valid()
      ensures var r := QueueRuns.RemoveStep(CodecOf(platform), old(View()), SQ.ChannelHeadTarget(old(View()), id), io,
                rw);
              View() == r.state && error == r.error
    {
      error := SQ.Operational(View());
      if error.Some? { return; }
      if items == [] { return Some(SQ.QueueEmpty); }
      var index := FindChannelHead(items, id);
      if index < 0 { return Some(SQ.HeadMismatch); }
      error := RemoveIndex(index, io, rw);
    }

    method RemoveIndex(index: nat, io: SQ.Append, rw: SQ.Rewrite) returns (error: Option<SQ.Error>)
      requires Valid() && SQ.Operational(View()).None?
      requires index < |items| && ChannelHead(items, index)
      modifies this
      ensures Valid()
      ensures var r := QueueRuns.RemoveStep(CodecOf(platform), old(View()), index, io, rw);
              View() == r.state && error == r.error
    {
      var c := CodecOf(platform);
      SQ.RefundAlways(c, View(), index);
      SQ.RemoveKeepsValid(c, View(), index, io, rw);
      SQ.DroppedValid(c, View(), index);
      AppendRemoval(c, index, io);
      if io != SQ.Synced { return Some(SQ.PersistFailed); }
      error := MaybeCompact(c, rw);
    }

    /** The remove frame on disk and, once it is all there, the entry out of memory. */
    method AppendRemoval(c: Codec, index: nat, io: SQ.Append)
      requires index < |items| && SQ.Refundable(View(), index) && !poisoned
      modifies this
      ensures io.Cut? ==> View() == SQ.RemoveAt(c, old(View()), index, io, SQ.Replaced).state
      ensures !io.Cut? ==> View() == SQ.Dropped(c, old(View()), index).(poisoned := io != SQ.Synced)
    {
      hide EncodeFrame;
      var item := items[index];
      var frame := EncodeFrame(c, FRAME_REMOVE, item.id, lastHash);
      disk := disk + SQ.Written(frame, io);
      if !io.Cut? {
        items := items[..index] + items[index + 1..];
        liveIds := liveIds - {item.id};
        bytes := bytes - |item.encoded|;
        usage := SQ.DropUsage(usage, SQ.PayerOf(item.envelope), |item.encoded|);
        lastHash := c.digest(FRAME_REMOVE, lastHash, item.id);
        logBytes := logBytes + |frame|;
        garbageBytes := garbageBytes + item.frameBytes + |frame|;
      }
      poisoned := io != SQ.Synced;
    }

    method MaybeCompact(c: Codec, rw: SQ.Rewrite) returns (error: Option<SQ.Error>)
      requires LogValid(c, limits, View().log)
      modifies this
      ensures var s := old(View());
              if SQ.CompactionDue(s.log) then View() == SQ.Compact(c, s, rw)
                  && error == (if rw == SQ.Replaced then None else Some(SQ.CompactFailed))
              else View() == s && error == None
    {
      error := None;
      if garbageBytes < SQ.COMPACTION_FLOOR { return; }
      var liveBytes := logBytes - garbageBytes;
      if garbageBytes < liveBytes && garbageBytes < SQ.COMPACTION_CEILING { return; }
      CompactFile(c, rw);
      if rw != SQ.Replaced { error := Some(SQ.CompactFailed); }
    }

    method CompactFile(c: Codec, rw: SQ.Rewrite)
      requires LogValid(c, limits, View().log)
      modifies this
      ensures View() == SQ.Compact(c, old(View()), rw)
    {
      hide LogValid, Compacted;
      var encoded, resized, last := CompactionImage(c, limits, Log(items, bytes, lastHash, logBytes, garbageBytes));
      if rw != SQ.NotReplaced {
        items, disk := resized, encoded;
        lastHash, logBytes, garbageBytes := last, |encoded|, 0;
      }
      poisoned := rw != SQ.Replaced;
    }

    /** The envelopes of the channel heads, in global order, unless the queue is closed or poisoned. */
    method ChannelHeads() returns (error: Option<SQ.Error>, heads: seq<Envelope>)
      ensures error == if closed then Some(SQ.QueueClosed) else if poisoned then Some(SQ.Poisoned) else None
      ensures error.Some? ==> heads == []
      ensures error.None? ==>
                && |heads| == |HeadIndices(items)|
                && (forall k :: 0 <= k < |heads| ==> heads[k] == items[HeadIndex(items, k)].envelope)
                && (forall a, b :: 0 <= a < b < |heads| ==> HeadIndex(items, a) < HeadIndex(items, b))
    {
      hide HeadIndices, HeadEnvelopes, HeadIndex, SeenBefore, ChannelOf;
      error, heads := None, [];
      if closed { return Some(SQ.QueueClosed), []; }
      if poisoned { return Some(SQ.Poisoned), []; }
      HeadsInOrder(items);
      var seen: set<Channel> := {};
      for i := 0 to |items|
        invariant SeenBefore(items, i, seen) && heads == HeadEnvelopes(items[..i])
      {
        var key := ChannelOf(items[i].envelope);
        EnvelopesGrow(items, i, seen);
        if key in seen {
          assert seen + {key} == seen;
        } else {
          seen := seen + {key};
          heads := heads + [items[i].envelope];
        }
      }
    }

    method Close()
      requires Valid()
      modifies this
      ensures Valid() && View() == old(View()).(closed := true)
    {
      closed := true;
    }
  }
}
