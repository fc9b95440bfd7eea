/** A message of more than 131070 frames closes its own stream when every second frame of it arrives: the run
    of sender, network and receiver that does so.

    The frames 0, 2, 4, ... are delivered in turn. Each is a range of its own, so the batch ACKs still fit
    until there are 65536 of them, and the next report does not. */
module ArqOverflow {
  import opened Bytes
  import opened FrameCodec
  import opened FrameAssembly
  import opened Assembler
  import opened AckRanges
  import opened Arq
  import opened ArqSafety
  import opened ArqProgress
  import M = MessageCodec

  function Uncounted(r: Receiver, id: uint64): (n: nat) { if id in r.unacked then r.unacked[id] else 0 }

  /** The first k even frames have arrived, and nothing else of the message. */
  ghost predicate Halfway(x: World, frames: seq<Frame>, id: uint64, k: nat) {
    var r := x.receiver;
    && Valid(r.buffers) && !r.closed && id !in r.delivered
    && (forall i :: 0 <= i < |frames| ==> frames[i] in x.wire)
    && Uncounted(r, id) == k % ACK_BATCH
    && Evens(Held(r.buffers, id), k)
    && (id in r.buffers <==> k > 0) && (id in r.buffers ==> r.buffers[id].total == |frames|)
  }

  /** A message that needs more ranges than an ACK can hold. */
  ghost predicate Long(frames: seq<Frame>, id: uint64) {
    ACKABLE < |frames| <= MAX_UINT32 && Complete(frames, id, |frames|)
  }

  lemma EvenFits(frames: seq<Frame>, id: uint64, i: nat)
    requires Long(frames, id) && i < |frames|
    ensures Fitting(frames[i], id, |frames|, i)
  {
  }

  lemma OneMore(held: map<uint32, Frame>, k: nat, f: Frame)
    requires Evens(held, k) && f.seqId == 2 * k
    ensures Evens(held[f.seqId := f], k + 1) && f.seqId !in held
  {
  }

  /** The next even frame is stored. */
  lemma EvenIsStored(x: World, frames: seq<Frame>, id: uint64, k: nat)
    requires Halfway(x, frames, id, k) && Long(frames, id) && 2 * k < |frames|
    ensures var f := frames[2 * k];
            var more := Held(x.receiver.buffers, id)[f.seqId := f];
            && f.messageId == id && Evens(more, k + 1)
            && AddFrame(x.receiver.buffers, f) == (x.receiver.buffers[id := Buffer(|frames|, more)], Waiting)
  {
    hide Long, AddFrame, Valid, Meaning, InOrder;
    EvenFits(frames, id, 2 * k);
    var f := frames[2 * k];
    OneMore(Held(x.receiver.buffers, id), k, f);
    assert |frames| > 1 by { LongIsMany(frames, id); }
    AddFrameCases(x.receiver.buffers, f);
    assert 1 !in Held(x.receiver.buffers, id)[f.seqId := f];
  }

  lemma LongIsMany(frames: seq<Frame>, id: uint64)
    requires Long(frames, id)
    ensures |frames| > 2 * MAX_UINT16
  {
  }

  /** As long as a batch has fewer ranges than an ACK holds, counting a frame leaves the stream open. */
  lemma EvenIsCounted(r: Receiver, id: uint64, k: nat)
    requires id in r.buffers && Evens(r.buffers[id].frames, k + 1) && 2 * k < r.buffers[id].total
    requires k <= MAX_UINT16 && Uncounted(r, id) == k % ACK_BATCH && !r.closed
    ensures var s := Count(r, id).0;
            && !s.closed && s.buffers == r.buffers && s.delivered == r.delivered
            && Uncounted(s, id) == (k + 1) % ACK_BATCH
  {
    EvenSnapshot(r.buffers[id], k + 1);
    hide Evens, SnapshotRanges, EncodeAckRanges;
  }

  lemma HalfwayGrows(x: World, frames: seq<Frame>, id: uint64, k: nat, more: map<uint32, Frame>, r: Receiver,
                     acks: set<Ack>)
    requires Halfway(x, frames, id, k) && |frames| <= MAX_UINT32 && Evens(more, k + 1)
    requires Valid(r.buffers) && r.buffers == x.receiver.buffers[id := Buffer(|frames|, more)]
    requires !r.closed && r.delivered == x.receiver.delivered && Uncounted(r, id) == (k + 1) % ACK_BATCH
    ensures Halfway(x.(receiver := r, acks := acks), frames, id, k + 1)
  {
    hide Evens, Valid;
  }

  lemma HalfwayListens(x: World, frames: seq<Frame>, id: uint64, k: nat)
    requires Halfway(x, frames, id, k) && Long(frames, id) && k <= MAX_UINT16
    ensures 2 * k < |frames| && Listening(x, frames[2 * k]) && id !in x.receiver.delivered
    ensures Uncounted(x.receiver, id) == k % ACK_BATCH
  {
    LongIsMany(frames, id);
    hide Long, Evens, Valid;
  }

  /** A frame that is stored is counted, and changes nothing else. */
  lemma StoredStep(x: World, f: Frame, buffers: Buffers) returns (acks: set<Ack>)
    requires Listening(x, f) && f.messageId !in x.receiver.delivered
             && AddFrame(x.receiver.buffers, f) == (buffers, Waiting)
    ensures Valid(buffers)
    ensures var r := Count(x.receiver.(buffers := buffers), f.messageId).0;
            Steps(x, Data(f, false), x.(receiver := r, acks := acks))
  {
    assert Valid(AddFrame(x.receiver.buffers, f).0);
    hide AddFrame, Count, Valid, Step;
    WaitStep(x, f, false);
    acks := Step(x, Data(f, false)).acks;
  }

  lemma EvenArrives(x: World, frames: seq<Frame>, id: uint64, k: nat) returns (y: World)
    requires Halfway(x, frames, id, k) && Long(frames, id) && k <= MAX_UINT16
    ensures 2 * k < |frames| && Steps(x, Data(frames[2 * k], false), y) && Halfway(y, frames, id, k + 1)
  {
    HalfwayListens(x, frames, id, k);
    var f := frames[2 * k];
    EvenIsStored(x, frames, id, k);
    hide AddFrame, Long, Evens, Count, Valid, Steps, Halfway;
    var more := Held(x.receiver.buffers, id)[f.seqId := f];
    var r := x.receiver.(buffers := x.receiver.buffers[id := Buffer(|frames|, more)]);
    var acks := StoredStep(x, f, r.buffers);
    EvenIsCounted(r, id, k);
    var s := Count(r, id).0;
    y := x.(receiver := s, acks := acks);
    HalfwayGrows(x, frames, id, k, more, s, acks);
  }

  predicate IsEven(e: Event, frames: seq<Frame>) {
    e.Data? && !e.cut && exists i :: 0 <= i < |frames| && i % 2 == 0 && e.f == frames[i]
  }

  lemma {:induction false} EvensArrive(w: World, frames: seq<Frame>, id: uint64, k: nat)
    returns (ws: seq<World>, es: seq<Event>)
    requires Halfway(w, frames, id, 0) && Long(frames, id) && k <= MAX_UINT16 + 1
    ensures Path(ws, es) && ws[0] == w && |es| == k && Halfway(ws[k], frames, id, k)
    ensures forall i :: 0 <= i < |es| ==> IsEven(es[i], frames)
  {
    hide Halfway, Steps, Long;
    if k == 0 {
      return [w], [];
    }
    ws, es := EvensArrive(w, frames, id, k - 1);
    var y := EvenArrives(ws[k - 1], frames, id, k - 1);
    var e := Data(frames[2 * (k - 1)], false);
    assert IsEven(e, frames);
    hide IsEven;
    PathGrows(ws, es, e, y);
    ws, es := ws + [y], es + [e];
  }

  /** Once there are 65536 even frames, the idle timer answers with a report that closes the stream. */
  lemma ReportCloses(x: World, frames: seq<Frame>, id: uint64) returns (y: World, z: World)
    requires Halfway(x, frames, id, MAX_UINT16 + 1) && Long(frames, id)
    ensures Steps(x, Idle(id), y) && Steps(y, Report(id), z) && !y.receiver.closed && z.receiver.closed
  {
    LongIsMany(frames, id);
    var b := x.receiver.buffers[id];
    EvenSnapshot(b, MAX_UINT16 + 1);
    hide Long, Evens, SnapshotRanges, Valid;
    y := Step(x, Idle(id));
    z := Step(y, Report(id));
  }

  /** From every state with an open receiver that has seen nothing of a message of more than 131070 frames: if its
      even frames arrive first, and the idle timer then answers, the stream closes. */
  lemma LongMessageCloses(w: World, frames: seq<Frame>, id: uint64) returns (ws: seq<World>, es: seq<Event>)
    requires Halfway(w, frames, id, 0) && Long(frames, id)
    ensures Path(ws, es) && ws[0] == w && |es| == MAX_UINT16 + 3
    ensures forall i :: 0 <= i <= MAX_UINT16 ==> IsEven(es[i], frames)
    ensures es[MAX_UINT16 + 1] == Idle(id) && es[MAX_UINT16 + 2] == Report(id)
    ensures !ws[MAX_UINT16 + 2].receiver.closed && ws[MAX_UINT16 + 3].receiver.closed
  {
    hide Halfway, Steps, Long, IsEven;
    var us, ds := EvensArrive(w, frames, id, MAX_UINT16 + 1);
    var y, z := ReportCloses(us[MAX_UINT16 + 1], frames, id);
    PathGrows(us, ds, Idle(id), y);
    PathGrows(us + [y], ds + [Idle(id)], Report(id), z);
    ws, es := us + [y] + [z], ds + [Idle(id)] + [Report(id)];
  }

  // ---- From the beginning ------------------------------------------------------------------

  lemma SentIsLong(open: M.Message -> Opened, e: Event)
    requires e.Send? && Enabled(Beginning(open), e) && |e.frames| > ACKABLE
    ensures Steps(Beginning(open), e, Step(Beginning(open), e))
    ensures var frames := Stamp(e.frames, e.connection);
            Long(frames, 1) && Halfway(Step(Beginning(open), e), frames, 1, 0)
  {
    StampedIsSent(1, e.message, e.size, e.frames, e.connection);
    hide M.EncodeMessage, IsSplit, Sendable, Meaning, Arrival, Complete;
    var frames := Stamp(e.frames, e.connection);
    assert forall i :: 0 <= i < |frames| ==> frames[i] in frames;
    assert Long(frames, 1);
    hide Stamp;
  }

  /** Every message of more than 131070 frames that is sent first has a run in which it closes the stream. */
  lemma OverflowRun(open: M.Message -> Opened, e: Event) returns (ws: seq<World>, es: seq<Event>)
    requires e.Send? && Enabled(Beginning(open), e) && |e.frames| > ACKABLE
    ensures Run(ws, es) && |es| == MAX_UINT16 + 4 && es[0] == e
    ensures forall i :: 1 <= i <= MAX_UINT16 + 1 ==> IsEven(es[i], Stamp(e.frames, e.connection))
    ensures es[MAX_UINT16 + 2] == Idle(1) && es[MAX_UINT16 + 3] == Report(1)
    ensures !ws[MAX_UINT16 + 3].receiver.closed && ws[MAX_UINT16 + 4].receiver.closed
  {
    SentIsLong(open, e);
    hide Halfway, Steps, Long, IsEven, Enabled, Stamp, Step;
    var w, x := Beginning(open), Step(Beginning(open), e);
    var us, ds := LongMessageCloses(x, Stamp(e.frames, e.connection), 1);
    assert Path([w, x], [e]);
    PathJoins([w, x], [e], us, ds);
    ws, es := [w, x] + us[1..], [e] + ds;
    assert ws[MAX_UINT16 + 3] == us[MAX_UINT16 + 2];
  }

  /** One frame for every byte. */
  function Bytewise(id: uint64, body: seq<byte>, total: uint32, n: nat): (frames: seq<Frame>)
    requires n <= |body| <= MAX_UINT32
    ensures |frames| == n && forall i :: 0 <= i < n ==> frames[i] == Frame(id, i, total, 0, DATA, [], [body[i]])
  {
    seq(n, i requires 0 <= i < n => Frame(id, i, total, 0, DATA, [], [body[i]]))
  }

  lemma {:induction false} BytewisePayloads(id: uint64, body: seq<byte>, total: uint32, n: nat)
    requires n <= |body| <= MAX_UINT32
    ensures Payloads(Bytewise(id, body, total, n)) == body[..n]
  {
    if n > 0 {
      BytewisePayloads(id, body, total, n - 1);
      var f := Frame(id, n - 1, total, 0, DATA, [], [body[n - 1]]);
      assert Bytewise(id, body, total, n) == Bytewise(id, body, total, n - 1) + [f];
      PayloadsAppend(Bytewise(id, body, total, n - 1), f);
      assert body[..n] == body[..n - 1] + [body[n - 1]];
    }
  }

  lemma BytewiseIsSplit(id: uint64, body: seq<byte>)
    requires 0 < |body| <= MAX_UINT32
    ensures IsSplit(Bytewise(id, body, |body|, |body|), id, body, 1)
  {
    BytewisePayloads(id, body, |body|, |body|);
    assert body[..|body|] == body;
    hide Payloads;
  }

  function LongSample(): (m: M.Message) {
    M.Message(M.Header([], [], 1, 0, [], 0, [], ZERO_DIGEST, 0, 0), Zeros(ACKABLE + 1))
  }

  lemma LongSampleEncodes()
    ensures |LongSample().payload| == ACKABLE + 1 && Sendable(LongSample())
    ensures |M.EncodeMessage(LongSample()).value| == M.HEADER_LENGTH + ACKABLE + 1
  {
    var m := LongSample();
    assert |m.payload| == ACKABLE + 1;
    var h := M.Filled(m);
    hide Zeros;
    assert M.Encodable(h);
    M.HeaderArrives(h);
    hide M.EncodeHeader, M.Arrives;
  }

  /** Such a run exists, whatever the suite: a message of 131071 bytes, one byte to a frame. */
  lemma LongSampleCloses(open: M.Message -> Opened) returns (ws: seq<World>, es: seq<Event>)
    ensures Run(ws, es) && es != [] && es[0].Send? && es[0].message == LongSample()
    ensures ws[|es|].receiver.closed && Shut !in es
  {
    LongSampleEncodes();
    hide LongSample, M.EncodeMessage;
    var body := M.EncodeMessage(LongSample()).value;
    BytewiseIsSplit(1, body);
    hide IsSplit, Sendable;
    var e := Send(LongSample(), 1, [], Bytewise(1, body, |body|, |body|));
    assert Enabled(Beginning(open), e);
    hide Enabled;
    ws, es := OverflowRun(open, e);
    hide Run, Beginning;
    forall i | 0 <= i < |es| ensures es[i] != Shut { }
  }
}
