/** Messages cut into frames, and frames put back together in any order with duplicates. */
module FrameAssembly {
  import opened Sequences
  import opened Bytes
  import opened Sorting
  import opened FrameCodec
  import M = MessageCodec

  const DEFAULT_FRAME_PAYLOAD := 1400

  /** The payloads of frames, end to end. */
  function Payloads(frames: seq<Frame>): (body: seq<byte>)
  {
    if frames == [] then [] else Payloads(frames[..|frames| - 1]) + frames[|frames| - 1].payload
  }

  lemma PayloadsAppend(frames: seq<Frame>, f: Frame)
    ensures Payloads(frames + [f]) == Payloads(frames) + f.payload
  {
    assert (frames + [f])[..|frames|] == frames;
  }

  // ---- Splitting ---------------------------------------------------------------------------

  /** A frame of a message: same ID and count in all of them, numbered from zero. */
  predicate Stamped(f: Frame, id: uint64, total: nat, i: nat) {
    f.messageId == id && f.seqId == i && f.total == total && f.kind == DATA && f.ackId == 0 && f.connectionId == []
  }

  /** The frames of a body: full ones and a last, non-empty rest. */
  predicate IsSplit(frames: seq<Frame>, id: uint64, body: seq<byte>, size: nat) {
    && frames != []
    && Payloads(frames) == body
    && (forall i :: 0 <= i < |frames| ==> Stamped(frames[i], id, |frames|, i))
    && (forall i :: 0 <= i < |frames| - 1 ==> |frames[i].payload| == size)
    && 0 < |frames[|frames| - 1].payload| <= size
  }

  function FrameSize(maxPayload: int): (n: nat)
    ensures n > 0
  {
    if maxPayload <= 0 then DEFAULT_FRAME_PAYLOAD else maxPayload
  }

  function FrameCount(length: nat, size: nat): (n: nat)
    requires size > 0
  {
    (length + size - 1) / size
  }

  lemma CountBounds(length: nat, size: nat)
    requires size > 0 && length > 0
    ensures var n := FrameCount(length, size); n > 0 && (n - 1) * size < length <= n * size
  {
    var n := FrameCount(length, size);
    assert length + size - 1 == n * size + (length + size - 1) % size;
    assert (n - 1) * size == n * size - size;
  }

  /** The bytes fit into this many frames exactly when the count says so. */
  lemma CountIsWithin(length: nat, size: nat, max: nat)
    requires size > 0 && length > 0
    ensures FrameCount(length, size) <= max <==> length <= max * size
  {
    CountBounds(length, size);
    var n := FrameCount(length, size);
    hide FrameCount;
    if n <= max { assert n * size <= max * size; } else { assert max * size <= (n - 1) * size; }
  }

  /** Where a frame's payload begins. */
  function Start(i: nat, size: nat): (n: nat) { i * size }

  lemma Position(i: nat, length: nat, size: nat)
    requires size > 0 && length > 0 && i < FrameCount(length, size)
    ensures Start(i, size) < length && Start(i + 1, size) == Start(i, size) + size && Start(0, size) == 0
    ensures Start(i, size) + size < length <==> i + 1 < FrameCount(length, size)
  {
    var n := FrameCount(length, size);
    CountBounds(length, size);
    assert i * size <= (n - 1) * size;
    assert i + 1 < n ==> (i + 1) * size <= (n - 1) * size;
  }

  function Min(a: nat, b: nat): (n: nat) { if a <= b then a else b }

  /** The first frames of a body. */
  predicate Cut(frames: seq<Frame>, id: uint64, body: seq<byte>, size: nat, total: nat, taken: nat) {
    && taken <= |body|
    && |frames| <= total
    && Payloads(frames) == body[..taken]
    && (forall i :: 0 <= i < |frames| ==> Stamped(frames[i], id, total, i) && 0 < |frames[i].payload| <= size)
    && (forall i :: 0 <= i < |frames| && i < total - 1 ==> |frames[i].payload| == size)
  }

  lemma CutStep(frames: seq<Frame>, f: Frame, id: uint64, body: seq<byte>, size: nat, total: nat, start: nat, end: nat)
    requires Cut(frames, id, body, size, total, start) && start < end <= |body| && end <= start + size
             && |frames| < total
    requires Stamped(f, id, total, |frames|) && f.payload == body[start..end]
    requires |frames| < total - 1 ==> end == start + size
    ensures Cut(frames + [f], id, body, size, total, end)
  {
    hide Payloads;
    PayloadsAppend(frames, f);
    SliceInTwo(body[..end], start, end);
  }

  method CutBody(body: seq<byte>, id: uint64, size: nat) returns (frames: seq<Frame>)
    requires body != [] && size > 0 && FrameCount(|body|, size) <= MAX_UINT32
    ensures IsSplit(frames, id, body, size) && |frames| == FrameCount(|body|, size)
  {
    var total := FrameCount(|body|, size);
    CountBounds(|body|, size);
    Position(0, |body|, size);
    frames := [];
    for i := 0 to total
      invariant |frames| == i && Cut(frames, id, body, size, total, Min(Start(i, size), |body|))
      invariant i == total ==> Start(i, size) >= |body|
    {
      hide Payloads, Cut, Start, FrameCount;
      Position(i, |body|, size);
      var start := Start(i, size);
      var end := if start + size > |body| then |body| else start + size;
      var f := Frame(id, i, total, 0, DATA, [], body[start..end]);
      CutStep(frames, f, id, body, size, total, start, end);
      frames := frames + [f];
    }
    assert body[..|body|] == body;
  }

  method SplitToFrames(m: M.Message, id: uint64, maxPayload: int) returns (r: Option<seq<Frame>>)
    requires |m.payload| <= MAX_UINT64
    ensures var body, size := M.EncodeMessage(m), if maxPayload <= 0 then 1400 else maxPayload;
            && (r.Some? <==> body.Some? && |body.value| <= MAX_UINT32 * size)
            && (r.Some? ==> IsSplit(r.value, id, body.value, size) && |r.value| == FrameCount(|body.value|, size))
  {
    var encoded := M.EncodeMessage(m);
    if encoded.None? { return None; }
    M.MessageReadsBack(m);
    hide M.EncodeMessage, M.ParseMessage, M.Arrives, IsSplit;
    CountIsWithin(|encoded.value|, FrameSize(maxPayload), MAX_UINT32);
    if FrameCount(|encoded.value|, FrameSize(maxPayload)) > MAX_UINT32 { return None; }
    var frames := CutBody(encoded.value, id, FrameSize(maxPayload));
    r := Some(frames);
  }

  // ---- Assembly ----------------------------------------------------------------------------

  predicate Fitting(f: Frame, id: uint64, total: uint32, i: nat) {
    f.messageId == id && f.total == total && f.seqId == i && (f.kind == DATA || f.kind == RETRANSMIT)
  }

  /** All frames of one message in their order. */
  predicate Complete(frames: seq<Frame>, id: uint64, total: uint32) {
    |frames| == total && forall i :: 0 <= i < |frames| ==> Fitting(frames[i], id, total, i)
  }

  /** An order of the given frames in which they make up a message. */
  predicate Arrangement(s: seq<Frame>, frames: seq<Frame>) {
    frames != [] && multiset(s) == multiset(frames) && Complete(s, frames[0].messageId, frames[0].total)
  }

  /** What complete frames mean. */
  function Meaning(s: seq<Frame>): (r: Option<M.Message>) {
    if |Payloads(s)| < M.HEADER_LENGTH then None else M.ParseMessage(Payloads(s))
  }

  /** Succeeds exactly on frames that can be arranged, whatever their order, and then gives
      what they mean. */
  method AssembleFrames(frames: seq<Frame>) returns (r: Option<M.Message>)
    ensures forall s :: Arrangement(s, frames) ==> r == Meaning(s)
    ensures (forall s :: !Arrangement(s, frames)) ==> r == None
  {
    if frames == [] { return None; }
    var first := frames[0];
    if first.total != |frames| {
      forall t ensures !Arrangement(t, frames) {
        if multiset(t) == multiset(frames) { SameLength(t, frames); }
      }
      return None;
    }
    var key := (f: Frame) => f.seqId as int;
    var sorted := SortBy(frames, key);
    SameLength(sorted, frames);
    var body := [];
    var i := 0;
    while i < |sorted|
      invariant 0 <= i <= |sorted|
      invariant forall j :: 0 <= j < i ==> Fitting(sorted[j], first.messageId, first.total, j)
      invariant body == Payloads(sorted[..i])
    {
      if !Fitting(sorted[i], first.messageId, first.total, i) {
        forall t ensures !Arrangement(t, frames) {
          if Arrangement(t, frames) { OnlyOrder(sorted, t, frames, key); }
        }
        return None;
      }
      body := body + sorted[i].payload;
      PayloadsAppend(sorted[..i], sorted[i]);
      assert sorted[..i] + [sorted[i]] == sorted[..i + 1];
      i := i + 1;
    }
    assert sorted[..i] == sorted;
    assert Arrangement(sorted, frames);
    forall t | Arrangement(t, frames) ensures t == sorted {
      OnlyOrder(sorted, t, frames, key);
    }
    r := if |body| < M.HEADER_LENGTH then None else M.ParseMessage(body);
  }

  lemma OnlyOrder(sorted: seq<Frame>, t: seq<Frame>, frames: seq<Frame>, key: Frame -> int)
    requires forall f :: key(f) == f.seqId
    requires SortedBy(sorted, key) && multiset(sorted) == multiset(frames) && Arrangement(t, frames)
    ensures t == sorted
  {
    assert Numbered(t, key, 0);
    SortedIsUnique(sorted, t, key, 0);
  }

  /** There is at most one order. */
  lemma ArrangementIsUnique(s: seq<Frame>, t: seq<Frame>, frames: seq<Frame>)
    requires Arrangement(s, frames) && Arrangement(t, frames)
    ensures s == t
  {
    var key := (f: Frame) => f.seqId as int;
    assert SortedBy(s, key);
    OnlyOrder(s, t, frames, key);
  }

  /** Whatever order the frames of a message arrive in, they mean the message that was sent. */
  lemma SplitAssembles(m: M.Message, id: uint64, size: nat, frames: seq<Frame>)
    requires |m.payload| <= MAX_UINT64 && M.EncodeMessage(m).Some? && |frames| <= MAX_UINT32
    requires IsSplit(frames, id, M.EncodeMessage(m).value, size)
    ensures Complete(frames, id, |frames|) && Meaning(frames) == Some(M.Message(M.Arrives(M.Filled(m)), m.payload))
  {
    M.MessageReadsBack(m);
    hide M.EncodeMessage, M.ParseMessage, M.Arrives, Payloads;
  }
}
