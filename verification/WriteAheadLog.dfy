/** The settlement write-ahead log: the frames of the hash-chained file, what a file means, and
    why appending, cutting and compacting a file changes that meaning the way it should.

    The digest of a frame and the decoder of an enqueue payload are parameters here. */
module WriteAheadLog {
  import opened Sequences
  import opened Bytes
  import opened Envelopes

  const HEADER := Ascii("BNFS/BILLING-WAIT-SUBMIT/WAL/V3\n")
  const HEADER_SIZE := 32
  const FRAME_ENQUEUE: byte := 1
  const FRAME_REMOVE: byte := 2
  const PREFIX_SIZE := 4
  const FIXED_BODY := 65
  const FRAME_OVERHEAD := 69

  datatype Limits = Limits(maxItems: uint64, maxBytes: uint64, maxItemsPerPayer: uint64, maxBytesPerPayer: uint64)

  /** The maximum file size the limits allow, or None when they are refused: limits are refused when a global
      one is zero, when a payer may use more than everyone together, or when the maximum is not below
      2^63-1. A limit of zero for a payer is accepted; it stands for the global one. */
  function ValidateLimits(l: Limits): (r: Option<nat>)
    ensures var live := HEADER_SIZE + l.maxItems * FRAME_OVERHEAD + l.maxBytes;
            && (r.Some? ==> r.value == 4 * live + 0x100_0000)
            && (r.Some? <==> && l.maxItems > 0 && l.maxBytes > 0 && 4 * live + 0x100_0000 < MAX_INT64
                             && l.maxItemsPerPayer <= l.maxItems && l.maxBytesPerPayer <= l.maxBytes)
  {
    var allowed := MAX_INT64 - 1;
    if l.maxItems == 0 || l.maxBytes == 0 then None
    else if l.maxItemsPerPayer > l.maxItems || l.maxBytesPerPayer > l.maxBytes then None
    else if l.maxItems > MAX_INT64 then None
    else if l.maxItems > (allowed - HEADER_SIZE) / FRAME_OVERHEAD then None
    else
      var liveMaximum := HEADER_SIZE + l.maxItems * FRAME_OVERHEAD;
      if l.maxBytes > allowed - liveMaximum then None
      else
        var live := liveMaximum + l.maxBytes;
        if live > (allowed - 0x100_0000) / 4 then None else Some(live * 4 + 0x100_0000)
  }

  // ---- Entries and logs --------------------------------------------------------------------

  /** What the log layer needs of the layers below: the digest of a frame from its kind, the
      previous digest and its payload, and the decoder of an enqueue payload. */
  datatype Codec = Codec(
    digest: (byte, Digest, seq<byte>) -> Digest,
    decode: seq<byte> -> Option<Decoded>)

  datatype Decoded = Decoded(envelope: Envelope, id: Digest)

  datatype Channel = Channel(session: Digest, payer: Digest, relay: Digest, direction: byte)

  function ChannelOf(e: Envelope): (c: Channel)
  {
    var b := e.voucher.body;
    Channel(b.session, b.payer, b.relay, b.direction)
  }

  datatype Entry = Entry(envelope: Envelope, id: Digest, encoded: seq<byte>, frameBytes: nat)

  /** What a file means: the live entries in order, their byte total, the head of the hash chain,
      the size of the file and the part of it that compaction would reclaim. */
  datatype Log = Log(items: seq<Entry>, bytes: nat, lastHash: Digest, size: nat, garbage: nat)

  const EMPTY_LOG := Log([], 0, ZERO_DIGEST, HEADER_SIZE, 0)

  function Sizes(items: seq<Entry>): (s: seq<nat>)
    ensures |s| == |items| && forall i :: 0 <= i < |items| ==> s[i] == |items[i].encoded|
  {
    seq(|items|, i requires 0 <= i < |items| => |items[i].encoded|)
  }

  function IndexOf(items: seq<Entry>, id: Digest): (i: int)
    ensures -1 <= i < |items|
    ensures i == -1 <==> forall k :: 0 <= k < |items| ==> items[k].id != id
    ensures i >= 0 ==> items[i].id == id && forall k :: 0 <= k < i ==> items[k].id != id
  {
    if items == [] then -1
    else if items[0].id == id then 0
    else
      var rest := IndexOf(items[1..], id);
      assert forall k :: 1 <= k < |items| ==> items[k] == items[1..][k - 1];
      if rest < 0 then -1 else rest + 1
  }

  /** The entry at i is the earliest live entry of its channel. */
  predicate ChannelHead(items: seq<Entry>, i: nat)
    requires i < |items|
  {
    forall k :: 0 <= k < i ==> ChannelOf(items[k].envelope) != ChannelOf(items[i].envelope)
  }

  predicate Distinct(items: seq<Entry>) {
    forall i, j :: 0 <= i < j < |items| ==> items[i].id != items[j].id
  }

  predicate EntryValid(c: Codec, l: Limits, e: Entry) {
    && c.decode(e.encoded) == Some(Decoded(e.envelope, e.id))
    && e.frameBytes == FRAME_OVERHEAD + |e.encoded|
    && FIXED_BODY + |e.encoded| <= MAX_UINT32
  }

  ghost predicate LogValid(c: Codec, l: Limits, log: Log) {
    && Distinct(log.items)
    && (forall i :: 0 <= i < |log.items| ==> EntryValid(c, l, log.items[i]))
    && log.bytes == Sum(Sizes(log.items)) <= l.maxBytes
    && |log.items| <= l.maxItems
    && log.size == log.garbage + LiveSize(log)
  }

  /** The header plus one enqueue frame for every live entry. */
  function LiveSize(log: Log): (n: nat) {
    HEADER_SIZE + log.bytes + FRAME_OVERHEAD * |log.items|
  }

  lemma SizesAppend(items: seq<Entry>, e: Entry)
    ensures Sum(Sizes(items + [e])) == Sum(Sizes(items)) + |e.encoded|
  {
    assert Sizes(items + [e]) == Sizes(items) + [|e.encoded|];
    SumAppend(Sizes(items), |e.encoded|);
  }

  lemma SizesWithout(items: seq<Entry>, i: nat)
    requires i < |items|
    ensures Sum(Sizes(items)) == Sum(Sizes(Without(items, i))) + |items[i].encoded|
  {
    assert Sizes(Without(items, i)) == Without(Sizes(items), i);
    SumWithout(Sizes(items), i);
  }

  // ---- The effect of one frame -------------------------------------------------------------

  function Admit(c: Codec, l: Limits, log: Log, payload: seq<byte>): (r: Option<Log>)
  {
    match c.decode(payload)
    case None => None
    case Some(Decoded(e, id)) =>
      if IndexOf(log.items, id) >= 0 then None
      else if |log.items| >= l.maxItems || |payload| > l.maxBytes - log.bytes then None
      else Some(log.(items := log.items + [Entry(e, id, payload, FRAME_OVERHEAD + |payload|)],
                     bytes := log.bytes + |payload|))
  }

  function Retire(log: Log, payload: seq<byte>): (r: Option<Log>)
  {
    if |payload| != 32 then None
    else
      var i := IndexOf(log.items, payload);
      if i < 0 || !ChannelHead(log.items, i) then None
      else
        var e := log.items[i];
        Some(log.(items := Without(log.items, i),
                  bytes := if |e.encoded| <= log.bytes then log.bytes - |e.encoded| else 0,
                  garbage := log.garbage + e.frameBytes + FRAME_OVERHEAD + |payload|))
  }

  /** The effect of a frame on everything but the hash chain and the file size. */
  function Apply(c: Codec, l: Limits, log: Log, kind: byte, payload: seq<byte>): (r: Option<Log>)
  {
    if kind == FRAME_ENQUEUE then Admit(c, l, log, payload)
    else if kind == FRAME_REMOVE then Retire(log, payload)
    else None
  }

  /** A frame as bytes; the source refuses one whose body length does not fit in 32 bits. */
  function EncodeFrame(c: Codec, kind: byte, payload: seq<byte>, previous: Digest): (f: seq<byte>)
    ensures |f| == FRAME_OVERHEAD + |payload|
  {
    BigEndian(FIXED_BODY + |payload|, 4) + [kind] + previous + payload + c.digest(kind, previous, payload)
  }

  /** The log after a frame of this kind and payload. */
  function Extend(c: Codec, l: Limits, log: Log, kind: byte, payload: seq<byte>): (r: Option<Log>)
  {
    match Apply(c, l, log, kind, payload)
    case None => None
    case Some(next) => Some(next.(lastHash := c.digest(kind, log.lastHash, payload),
                                  size := log.size + FRAME_OVERHEAD + |payload|))
  }

  lemma ExtendKeepsValid(c: Codec, l: Limits, log: Log, kind: byte, payload: seq<byte>)
    requires LogValid(c, l, log) && FIXED_BODY + |payload| <= MAX_UINT32
    requires Extend(c, l, log, kind, payload).Some?
    ensures LogValid(c, l, Extend(c, l, log, kind, payload).value)
  {
    hide IndexOf, Sum, Sizes;
    var next := Extend(c, l, log, kind, payload).value;
    if kind == FRAME_ENQUEUE {
      SizesAppend(log.items, next.items[|log.items|]);
    } else {
      SizesWithout(log.items, IndexOf(log.items, payload));
    }
  }

  // ---- Reading a file ----------------------------------------------------------------------

  function MaxBody(l: Limits): (n: nat)
  {
    var payload := if l.maxBytes < 32 then 32 else l.maxBytes;
    if FIXED_BODY + payload > MAX_UINT32 then MAX_UINT32 else FIXED_BODY + payload
  }

  datatype Framed = Short | BadLength | Frame(kind: byte, previous: Digest, payload: seq<byte>, stored: Digest,
      end: nat)

  /** The fields of the frame at the cursor, if all its bytes are there. */
  function FrameAt(l: Limits, data: seq<byte>, cursor: nat): (r: Framed)
    requires cursor <= |data|
    ensures r.Frame? ==>
              r.end == cursor + FRAME_OVERHEAD + |r.payload| <= |data| && FIXED_BODY + |r.payload| <= MaxBody(l)
  {
    if |data| - cursor < PREFIX_SIZE then Short
    else
      var body := FromBigEndian(data[cursor..cursor + 4]);
      if body < FIXED_BODY || body > MaxBody(l) then BadLength
      else if PREFIX_SIZE + body > |data| - cursor then Short
      else
        var end := cursor + PREFIX_SIZE + body;
        Frame(data[cursor + 4], data[cursor + 5..cursor + 37], data[cursor + 37..end - 32], data[end - 32..end], end)
  }

  datatype Next = Torn | Corrupt | Whole(log: Log, end: nat)

  /** The step at the cursor: not all there, wrong, or whole with the log behind it. */
  function ReadFrame(c: Codec, l: Limits, data: seq<byte>, cursor: nat, log: Log): (r: Next)
    requires cursor <= |data|
    ensures r.Whole? ==> cursor + FRAME_OVERHEAD <= r.end <= |data| && r.log.size == log.size + r.end - cursor
  {
    match FrameAt(l, data, cursor)
    case Short => Torn
    case BadLength => Corrupt
    case Frame(kind, previous, payload, stored, end) =>
      if previous != log.lastHash || stored != c.digest(kind, previous, payload) then Corrupt
      else
        match Extend(c, l, log, kind, payload)
        case None => Corrupt
        case Some(next) => Whole(next, end)
  }

  /** None is the corruption error. A torn tail is ignored. */
  function ReplayFrom(c: Codec, l: Limits, data: seq<byte>, cursor: nat, log: Log): (r: Option<Log>)
    requires cursor <= |data|
    decreases |data| - cursor
  {
    match ReadFrame(c, l, data, cursor, log)
    case Torn => Some(log)
    case Corrupt => None
    case Whole(next, end) => ReplayFrom(c, l, data, end, next)
  }

  function Replay(c: Codec, l: Limits, data: seq<byte>): (r: Option<Log>)
  {
    if |data| < HEADER_SIZE || data[..HEADER_SIZE] != HEADER then None
    else ReplayFrom(c, l, data, HEADER_SIZE, EMPTY_LOG)
  }

  /** The file holds whole frames only and they all make sense. */
  ghost predicate Complete(c: Codec, l: Limits, data: seq<byte>) {
    Replay(c, l, data).Some? && Replay(c, l, data).value.size == |data|
  }

  lemma {:induction false} ReplayFromValid(c: Codec, l: Limits, data: seq<byte>, cursor: nat, log: Log)
    requires cursor <= |data| && log.size == cursor && LogValid(c, l, log)
    requires ReplayFrom(c, l, data, cursor, log).Some?
    ensures var r := ReplayFrom(c, l, data, cursor, log).value;
            LogValid(c, l, r) && cursor <= r.size <= |data|
    decreases |data| - cursor
  {
    hide FrameAt, Extend, LogValid;
    match ReadFrame(c, l, data, cursor, log)
    case Whole(next, end) =>
      var f := FrameAt(l, data, cursor);
      ExtendKeepsValid(c, l, log, f.kind, f.payload);
      ReplayFromValid(c, l, data, end, next);
    case _ =>
  }

  /** Whatever replay accepts satisfies every bookkeeping equation and every global limit. */
  lemma ReplayValid(c: Codec, l: Limits, data: seq<byte>)
    requires Replay(c, l, data).Some?
    ensures LogValid(c, l, Replay(c, l, data).value)
    ensures HEADER_SIZE <= Replay(c, l, data).value.size <= |data|
  {
    assert Sum(Sizes([])) == 0;
    ReplayFromValid(c, l, data, HEADER_SIZE, EMPTY_LOG);
  }

  // ---- Appending ---------------------------------------------------------------------------

  lemma SameSlice(a: seq<byte>, b: seq<byte>, end: nat, i: nat, j: nat)
    requires i <= j <= end <= |a| && end <= |b| && a[..end] == b[..end]
    ensures a[i..j] == b[i..j]
  {
    assert a[i..j] == a[..end][i..j];
    assert b[i..j] == b[..end][i..j];
  }

  /** A whole frame reads the same in any file that has the same bytes up to its end. */
  lemma FrameIsLocal(l: Limits, data: seq<byte>, other: seq<byte>, cursor: nat)
    requires cursor <= |data| && FrameAt(l, data, cursor).Frame?
    requires var end := FrameAt(l, data, cursor).end; end <= |other| && data[..end] == other[..end]
    ensures FrameAt(l, other, cursor) == FrameAt(l, data, cursor)
  {
    var end := FrameAt(l, data, cursor).end;
    SameSlice(data, other, end, cursor, cursor + 4);
    SameSlice(data, other, end, cursor + 4, cursor + 5);
    assert data[cursor + 4] == data[cursor + 4..cursor + 5][0] == other[cursor + 4];
    SameSlice(data, other, end, cursor + 5, cursor + 37);
    SameSlice(data, other, end, cursor + 37, end - 32);
    SameSlice(data, other, end, end - 32, end);
  }

  /** A frame that is whole in the file is torn, never corrupt, in every shorter cut of it. */
  lemma CutFrameIsTorn(l: Limits, data: seq<byte>, cut: nat, cursor: nat)
    requires cursor <= cut <= |data| && FrameAt(l, data, cursor).Frame?
    requires cut < FrameAt(l, data, cursor).end
    ensures FrameAt(l, data[..cut], cursor) == Short
  {
    if cut - cursor >= PREFIX_SIZE {
      assert data[..cut][cursor..cursor + 4] == data[cursor..cursor + 4];
    }
  }

  /** Where the fields of a frame lie in the file it ends. */
  lemma FrameFields(c: Codec, pre: seq<byte>, kind: byte, payload: seq<byte>, previous: Digest)
    ensures var data, n := pre + EncodeFrame(c, kind, payload, previous), |pre|;
            && |data| == n + FRAME_OVERHEAD + |payload|
            && data[n..n + 4] == BigEndian(FIXED_BODY + |payload|, 4)
            && data[n + 4] == kind
            && data[n + 5..n + 37] == previous
            && data[n + 37..n + 37 + |payload|] == payload
            && data[n + 37 + |payload|..n + 69 + |payload|] == c.digest(kind, previous, payload)
  {
  }

  lemma WrittenFrame(c: Codec, l: Limits, pre: seq<byte>, kind: byte, payload: seq<byte>, previous: Digest)
    requires FIXED_BODY + |payload| <= MaxBody(l)
    ensures var data := pre + EncodeFrame(c, kind, payload, previous);
            FrameAt(l, data, |pre|) == Frame(kind, previous, payload, c.digest(kind, previous, payload), |data|)
  {
    Capacities();
    BigEndianReadsBack(FIXED_BODY + |payload|, 4);
    FrameFields(c, pre, kind, payload, previous);
  }

  /** The frame the writer produced is read back as the step the writer meant. */
  lemma WrittenFrameIsWhole(c: Codec, l: Limits, pre: seq<byte>, log: Log, kind: byte, payload: seq<byte>)
    requires FIXED_BODY + |payload| <= MaxBody(l)
    requires Extend(c, l, log, kind, payload).Some?
    ensures var f := EncodeFrame(c, kind, payload, log.lastHash);
            ReadFrame(c, l, pre + f, |pre|, log) == Whole(Extend(c, l, log, kind, payload).value, |pre| + |f|)
  {
    WrittenFrame(c, l, pre, kind, payload, log.lastHash);
  }

  /** Replay runs over a complete file and carries on behind it. */
  lemma {:induction false} ReplayContinues(c: Codec, l: Limits, data: seq<byte>, tail: seq<byte>, cursor: nat, log: Log)
    requires cursor <= |data| && log.size == cursor
    requires ReplayFrom(c, l, data, cursor, log).Some?
    requires ReplayFrom(c, l, data, cursor, log).value.size == |data|
    ensures ReplayFrom(c, l, data + tail, cursor, log)
         == ReplayFrom(c, l, data + tail, |data|, ReplayFrom(c, l, data, cursor, log).value)
    decreases |data| - cursor
  {
    hide FrameAt, Extend;
    match ReadFrame(c, l, data, cursor, log)
    case Torn =>
    case Corrupt =>
    case Whole(next, end) =>
      assert (data + tail)[..end] == data[..end];
      FrameIsLocal(l, data, data + tail, cursor);
      ReplayContinues(c, l, data, tail, end, next);
  }

  lemma ReplayAcross(c: Codec, l: Limits, data: seq<byte>, tail: seq<byte>)
    requires Complete(c, l, data)
    ensures Replay(c, l, data + tail) == ReplayFrom(c, l, data + tail, |data|, Replay(c, l, data).value)
  {
    assert (data + tail)[..HEADER_SIZE] == data[..HEADER_SIZE];
    ReplayContinues(c, l, data, tail, HEADER_SIZE, EMPTY_LOG);
  }

  /** Appending a frame to a complete file gives a complete file, one step further. */
  lemma AppendExtends(c: Codec, l: Limits, data: seq<byte>, kind: byte, payload: seq<byte>)
    requires Complete(c, l, data) && FIXED_BODY + |payload| <= MaxBody(l)
    requires Extend(c, l, Replay(c, l, data).value, kind, payload).Some?
    ensures var log := Replay(c, l, data).value;
            var file := data + EncodeFrame(c, kind, payload, log.lastHash);
            Complete(c, l, file) && Replay(c, l, file) == Extend(c, l, log, kind, payload)
  {
    var log := Replay(c, l, data).value;
    var f := EncodeFrame(c, kind, payload, log.lastHash);
    var next := Extend(c, l, log, kind, payload).value;
    assert next.size == log.size + |f|;
    ReplayAcross(c, l, data, f);
    WrittenFrameIsWhole(c, l, data, log, kind, payload);
    assert ReadFrame(c, l, data + f, |data + f|, next) == Torn;
    hide FrameAt, Extend, EncodeFrame, ReadFrame;
    assert (data + f)[..HEADER_SIZE] == data[..HEADER_SIZE];
  }

  // ---- Cutting -----------------------------------------------------------------------------

  lemma {:induction false} TailIsIdleFrom(c: Codec, l: Limits, data: seq<byte>, cursor: nat, log: Log)
    requires cursor <= |data| && log.size == cursor && ReplayFrom(c, l, data, cursor, log).Some?
    ensures var r := ReplayFrom(c, l, data, cursor, log);
            cursor <= r.value.size <= |data| && ReplayFrom(c, l, data[..r.value.size], cursor, log) == r
    decreases |data| - cursor
  {
    assert ReadFrame(c, l, data[..cursor], cursor, log) == Torn;
    hide FrameAt, Extend;
    match ReadFrame(c, l, data, cursor, log)
    case Torn =>
    case Corrupt =>
    case Whole(next, end) =>
      TailIsIdleFrom(c, l, data, end, next);
      var size := ReplayFrom(c, l, data, cursor, log).value.size;
      assert data[..size][..end] == data[..end];
      FrameIsLocal(l, data, data[..size], cursor);
  }

  /** Cutting off what replay ignored leaves a complete file with the same meaning. */
  lemma TailIsIdle(c: Codec, l: Limits, data: seq<byte>)
    requires Replay(c, l, data).Some?
    ensures var r := Replay(c, l, data);
            HEADER_SIZE <= r.value.size <= |data| && Complete(c, l, data[..r.value.size])
                && Replay(c, l, data[..r.value.size]) == r
  {
    TailIsIdleFrom(c, l, data, HEADER_SIZE, EMPTY_LOG);
    assert data[..Replay(c, l, data).value.size][..HEADER_SIZE] == data[..HEADER_SIZE];
  }

  lemma {:induction false} CutFrom(c: Codec, l: Limits, data: seq<byte>, cut: nat, cursor: nat, log: Log)
    requires cursor <= cut <= |data| && log.size == cursor
    requires ReplayFrom(c, l, data, cursor, log).Some?
    requires ReplayFrom(c, l, data, cursor, log).value.size == |data|
    ensures var r := ReplayFrom(c, l, data[..cut], cursor, log);
            && r.Some? && cursor <= r.value.size <= cut
            && ReplayFrom(c, l, data[..r.value.size], cursor, log) == r
            && ReplayFrom(c, l, data, cursor, log) == ReplayFrom(c, l, data, r.value.size, r.value)
            && (r.value.size < |data| ==>
                  ReadFrame(c, l, data, r.value.size, r.value).Whole?
                      && cut < ReadFrame(c, l, data, r.value.size, r.value).end)
    decreases |data| - cursor
  {
    assert ReadFrame(c, l, data[..cursor], cursor, log) == Torn;
    hide FrameAt, Extend;
    match ReadFrame(c, l, data, cursor, log)
    case Torn =>
      assert data[..cut] == data;
    case Corrupt =>
    case Whole(next, end) =>
      if end <= cut {
        assert data[..cut][..end] == data[..end];
        FrameIsLocal(l, data, data[..cut], cursor);
        CutFrom(c, l, data, cut, end, next);
        var size := ReplayFrom(c, l, data[..cut], end, next).value.size;
        assert data[..size][..end] == data[..end];
        FrameIsLocal(l, data, data[..size], cursor);
      } else {
        CutFrameIsTorn(l, data, cut, cursor);
      }
  }

  /** A cut anywhere behind the header never looks corrupt. It means the log of the whole frames
      inside it: that log is complete on its own bytes, and the next frame of the full file ends
      beyond the cut. */
  lemma CutReplays(c: Codec, l: Limits, data: seq<byte>, cut: nat)
    requires Complete(c, l, data) && HEADER_SIZE <= cut <= |data|
    ensures var r := Replay(c, l, data[..cut]);
            && r.Some? && HEADER_SIZE <= r.value.size <= cut
            && Complete(c, l, data[..r.value.size]) && Replay(c, l, data[..r.value.size]) == r
            && (r.value.size < |data| ==>
                  var next := ReadFrame(c, l, data, r.value.size, r.value); next.Whole? && cut < next.end)
  {
    assert data[..cut][..HEADER_SIZE] == HEADER;
    CutFrom(c, l, data, cut, HEADER_SIZE, EMPTY_LOG);
    var size := Replay(c, l, data[..cut]).value.size;
    assert data[..size][..HEADER_SIZE] == HEADER;
  }

  lemma TornReplays(c: Codec, l: Limits, data: seq<byte>, kind: byte, payload: seq<byte>, k: nat)
    requires Complete(c, l, data) && FIXED_BODY + |payload| <= MaxBody(l) && k < FRAME_OVERHEAD + |payload|
    ensures var log := Replay(c, l, data).value;
            Replay(c, l, data + EncodeFrame(c, kind, payload, log.lastHash)[..k]) == Some(log)
  {
    hide Extend, FrameAt, EncodeFrame, Replay;
    var log := Replay(c, l, data).value;
    var f := EncodeFrame(c, kind, payload, log.lastHash);
    ReplayAcross(c, l, data, f[..k]);
    WrittenFrame(c, l, data, kind, payload, log.lastHash);
    CutFrameIsTorn(l, data + f, |data| + k, |data|);
    TakeBeyond(data, f, k);
  }

  /** A torn append leaves the old meaning; only the last byte of the frame brings the new one. */
  lemma TornAppend(c: Codec, l: Limits, data: seq<byte>, kind: byte, payload: seq<byte>, k: nat)
    requires Complete(c, l, data) && FIXED_BODY + |payload| <= MaxBody(l)
    requires Extend(c, l, Replay(c, l, data).value, kind, payload).Some?
    requires k <= FRAME_OVERHEAD + |payload|
    ensures var log := Replay(c, l, data).value;
            var f := EncodeFrame(c, kind, payload, log.lastHash);
            Replay(c, l, data + f[..k]) == if k < |f| then Some(log) else Extend(c, l, log, kind, payload)
  {
    hide Extend, EncodeFrame, Replay;
    if k < FRAME_OVERHEAD + |payload| {
      TornReplays(c, l, data, kind, payload, k);
    } else {
      var f := EncodeFrame(c, kind, payload, Replay(c, l, data).value.lastHash);
      assert f[..k] == f;
      AppendExtends(c, l, data, kind, payload);
    }
  }

  // ---- Compacting --------------------------------------------------------------------------

  /** The hash chain behind the first n entries of a compacted file. */
  function ChainHash(c: Codec, items: seq<Entry>): (d: Digest)
  {
    if items == [] then ZERO_DIGEST
    else c.digest(FRAME_ENQUEUE, ChainHash(c, items[..|items| - 1]), items[|items| - 1].encoded)
  }

  function Compacted(c: Codec, items: seq<Entry>): (data: seq<byte>)
  {
    if items == [] then HEADER
    else
      var init, last := items[..|items| - 1], items[|items| - 1];
      Compacted(c, init) + EncodeFrame(c, FRAME_ENQUEUE, last.encoded, ChainHash(c, init))
  }

  function CompactedLog(c: Codec, log: Log): (r: Log) {
    Log(log.items, log.bytes, ChainHash(c, log.items), LiveSize(log), 0)
  }

  lemma PayloadFits(c: Codec, l: Limits, log: Log, i: nat)
    requires LogValid(c, l, log) && i < |log.items|
    ensures |log.items[i].encoded| <= log.bytes
    ensures FIXED_BODY + |log.items[i].encoded| <= MaxBody(l)
  {
    SizesWithout(log.items, i);
    assert EntryValid(c, l, log.items[i]);
  }

  /** A log without its last entry, as if freshly compacted. */
  function Shorter(log: Log): (r: Log)
    requires log.items != []
  {
    var n := |log.items| - 1;
    var bytes := Sum(Sizes(log.items[..n]));
    Log(log.items[..n], bytes, ZERO_DIGEST, HEADER_SIZE + bytes + FRAME_OVERHEAD * n, 0)
  }

  lemma ShorterExtends(c: Codec, l: Limits, log: Log)
    requires LogValid(c, l, log) && log.items != []
    ensures LogValid(c, l, Shorter(log))
    ensures var last := log.items[|log.items| - 1].encoded;
            && Extend(c, l, CompactedLog(c, Shorter(log)), FRAME_ENQUEUE, last) == Some(CompactedLog(c, log))
            && FIXED_BODY + |last| <= MaxBody(l)
  {
    hide IndexOf, Sum, Sizes;
    var n := |log.items| - 1;
    var init, last := log.items[..n], log.items[n];
    assert log.items == init + [last];
    SizesAppend(init, last);
    PayloadFits(c, l, log, n);
    assert EntryValid(c, l, last);
    assert IndexOf(init, last.id) == -1;
    assert last == Entry(last.envelope, last.id, last.encoded, FRAME_OVERHEAD + |last.encoded|);
  }

  /** The compacted file of a valid log means the same entries with nothing left to reclaim. */
  lemma {:induction false} CompactionPreserves(c: Codec, l: Limits, log: Log)
    requires LogValid(c, l, log)
    ensures Complete(c, l, Compacted(c, log.items))
    ensures Replay(c, l, Compacted(c, log.items)) == Some(CompactedLog(c, log))
    ensures |Compacted(c, log.items)| == LiveSize(log)
    decreases |log.items|
  {
    if log.items == [] {
      assert HEADER[..HEADER_SIZE] == HEADER;
      assert ReadFrame(c, l, HEADER, HEADER_SIZE, EMPTY_LOG) == Torn;
    } else {
      var n := |log.items| - 1;
      ShorterExtends(c, l, log);
      CompactionPreserves(c, l, Shorter(log));
      AppendExtends(c, l, Compacted(c, log.items[..n]), FRAME_ENQUEUE, log.items[n].encoded);
    }
  }
}
