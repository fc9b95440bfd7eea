/** The acknowledged frame protocol: a sender that retransmits, a receiver that reassembles, opens
    and screens for replays, and a network that loses, repeats and reorders. */
module Arq {
  import opened Sequences
  import opened Bytes
  import opened FrameCodec
  import opened FrameAssembly
  import opened Assembler
  import opened AckRanges
  import opened AckTracking
  import M = MessageCodec
  import W = ReplayWindow

  const ACK_BATCH := 100

  datatype Ack = Ack(id: uint64, ranges: seq<AckRange>)

  /** What the encryption suite makes of a message: nothing, a payload without an identity, or a
      payload and the end-to-end ID of its record. */
  datatype Opened = Failed | Plain(payload: seq<byte>) | Record(e2e: seq<byte>, payload: seq<byte>)

  /** Hand the message over, drop it as a repetition, or close the stream. */
  datatype Verdict = Fresh | Repeated | Rejected

  /** A message in the inbox; a raw one arrived before there was a suite and is opened when read. */
  datatype Entry = Entry(id: uint64, message: M.Message, raw: bool)

  /** `inbox` is everything ever put in, of which the first `read` have been taken out; `taken` is
      what the application got. */
  datatype Receiver = Receiver(
    open: M.Message -> Opened,
    secured: bool,
    window: W.Window,
    buffers: Buffers,
    delivered: set<uint64>,
    unacked: map<uint64, nat>,
    inbox: seq<Entry>,
    read: nat,
    taken: seq<Entry>,
    repeated: set<uint64>,
    closed: bool)

  // ---- Opening a message -------------------------------------------------------------------

  datatype Judgement = Judgement(window: W.Window, verdict: Verdict, message: M.Message)

  /** An authenticated record goes through the replay window; `cut` is a stream that closes before the
      message finds room in the inbox. */
  function Screen(w: W.Window, o: Opened, m: M.Message, cut: bool): (j: Judgement) {
    var admitted := if cut then Rejected else Fresh;
    match o
    case Failed => Judgement(w, Rejected, m)
    case Plain(p) => Judgement(w, admitted, m.(payload := p))
    case Record(e, p) =>
      var (x, seen) := W.Observe(w, e);
      match seen
      case Fresh => Judgement(x, admitted, m.(payload := p))
      case Seen => Judgement(x, Repeated, m)
      case _ => Judgement(x, Rejected, m)
  }

  /** Without a suite a message goes into the inbox as it is. */
  function Judge(r: Receiver, m: M.Message, cut: bool): (j: Judgement) {
    if r.secured then Screen(r.window, r.open(m), m, cut)
    else Judgement(r.window, if cut then Rejected else Fresh, m)
  }

  // ---- The receiver ------------------------------------------------------------------------

  /** The ranges of a finished message. */
  function FullAck(total: uint32): (ranges: seq<AckRange>) {
    if total == 0 then [] else [AckRange(0, total - 1)]
  }

  /** Sends ranges; a list that does not fit an ACK frame is an error, and errors close the stream. */
  function SendAck(r: Receiver, id: uint64, ranges: seq<AckRange>): (s: (Receiver, Option<Ack>))
    ensures s.0.buffers == r.buffers
  {
    if EncodeAckRanges(ranges).None? then (r.(closed := true), None) else (r, Some(Ack(id, ranges)))
  }

  /** A stored frame counts towards the next batch ACK. */
  function Count(r: Receiver, id: uint64): (s: (Receiver, Option<Ack>))
    ensures s.0.buffers == r.buffers
  {
    var n := (if id in r.unacked then r.unacked[id] else 0) + 1;
    if n >= ACK_BATCH
        && id in r.buffers then SendAck(r.(unacked := r.unacked[id := 0]), id, SnapshotRanges(r.buffers[id]))
    else (r.(unacked := r.unacked[id := n]), None)
  }

  /** A message is marked as delivered before it is opened. */
  function Resolve(r: Receiver, id: uint64, j: Judgement): (s: Receiver)
    ensures s.buffers == r.buffers
  {
    var d := r.(unacked := r.unacked - {id}, delivered := r.delivered + {id}, window := j.window);
    match j.verdict
    case Fresh => d.(inbox := d.inbox + [Entry(id, j.message, !r.secured)])
    case Repeated => d.(repeated := d.repeated + {id})
    case Rejected => d.(closed := true)
  }

  function Deliver(r: Receiver, f: Frame, m: M.Message, cut: bool): (s: (Receiver, Option<Ack>))
    ensures s.0.buffers == r.buffers
  {
    var j := Judge(r, m, cut);
    var d := Resolve(r, f.messageId, j);
    if j.verdict == Rejected then (d, None) else SendAck(d, f.messageId, FullAck(f.total))
  }

  function Receive(r: Receiver, f: Frame, cut: bool): (s: (Receiver, Option<Ack>))
    requires Valid(r.buffers)
    ensures Valid(s.0.buffers)
  {
    if r.closed then (r, None)
    else if f.messageId in r.delivered then SendAck(r, f.messageId, FullAck(f.total))
    else
      var (b, reception) := AddFrame(r.buffers, f);
      var next := r.(buffers := b);
      match reception
      case Refused => (r.(closed := true), None)
      case Done(None) => (next.(closed := true), None)
      case Done(Some(m)) => Deliver(next, f, m, cut)
      case _ => Count(next, f.messageId)
  }

  /** Takes the next message out of the inbox; a raw one is opened and screened now if it can be. */
  function Take(r: Receiver): (s: Receiver)
    ensures s.buffers == r.buffers
  {
    if r.read >= |r.inbox| then r
    else
      var e := r.inbox[r.read];
      var d := r.(read := r.read + 1);
      if !e.raw || !r.secured then d.(taken := d.taken + [e])
      else
        var j := Screen(r.window, r.open(e.message), e.message, false);
        match j.verdict
        case Fresh => d.(window := j.window, taken := d.taken + [Entry(e.id, j.message, false)])
        case Repeated => d.(window := j.window)
        case Rejected => d.(window := j.window, closed := true)
  }

  /** A suite is installed once; a second one closes the stream. */
  function Secure(r: Receiver): (s: Receiver)
    ensures s.buffers == r.buffers
  {
    if r.secured then r.(closed := true) else r.(secured := true)
  }

  // ---- The world ---------------------------------------------------------------------------

  /** The state a message was judged in. */
  datatype Gate = Gate(secured: bool, window: W.Window)

  /** The last five are histories: the frames and the message of every ID, the frame that completed a
      message the receiver then rejected, the state each completed message was judged in, and the
      message that brought each sequence the replay window has accepted. */
  datatype World = World(
    last: nat,
    pending: map<uint64, set<int>>,
    succeeded: set<uint64>,
    wire: set<Frame>,
    acks: set<Ack>,
    receiver: Receiver,
    sent: map<uint64, seq<Frame>>,
    messages: map<uint64, M.Message>,
    rejected: map<uint64, uint32>,
    judged: map<uint64, Gate>,
    origins: map<int, uint64>)

  datatype Event =
    | Send(message: M.Message, size: nat, connection: seq<byte>, frames: seq<Frame>)
    | Data(f: Frame, cut: bool)
    | Acked(a: Ack)
    | Retransmit(id: uint64)
    | Succeed(id: uint64)
    | GiveUp(id: uint64)
    | Idle(id: uint64)
    | Report(id: uint64)
    | Read
    | Install
    | Shut

  predicate Sendable(m: M.Message) {
    |m.payload| <= MAX_UINT64 && M.EncodeMessage(m).Some?
  }

  /** The message as it reads when it arrives. */
  function Arrival(m: M.Message): (r: M.Message)
    requires Sendable(m)
  {
    M.Message(M.Arrives(M.Filled(m)), m.payload)
  }

  function Stamp(frames: seq<Frame>, connection: seq<byte>): (r: seq<Frame>)
    ensures |r| == |frames| && forall i :: 0 <= i < |r| ==> r[i] == frames[i].(connectionId := connection)
  {
    seq(|frames|, i requires 0 <= i < |frames| => frames[i].(connectionId := connection))
  }

  function Again(f: Frame): (r: Frame) { f.(kind := RETRANSMIT) }

  /** The frames that are not acknowledged, marked as sent again. */
  ghost function Copies(frames: seq<Frame>, acked: set<int>): (s: set<Frame>) {
    set i | 0 <= i < |frames| && i !in acked :: Again(frames[i])
  }

  function Answers(a: Option<Ack>): (s: set<Ack>) {
    match a case None => {} case Some(x) => {x}
  }

  /** What the network, the peers and the clock may do next: any frame or ACK that was ever sent may
      arrive at any time, any number of times, or never. */
  ghost predicate Enabled(w: World, e: Event) {
    match e
    case Send(m, size, _, frames) =>
      w.last < MAX_UINT64 && Sendable(m) && |frames| <= MAX_UINT32
          && IsSplit(frames, w.last + 1, M.EncodeMessage(m).value, size)
    case Data(f, _) => f in w.wire
    case Acked(a) => a in w.acks
    case Retransmit(id) => id in w.pending && id in w.sent
    case Succeed(id) => id in w.pending && id in w.sent && |w.sent[id]| <= MAX_UINT32
        && Counted(w.pending[id], |w.sent[id]|)
    case GiveUp(id) => id in w.pending
    case Idle(id) => id in w.receiver.unacked && !w.receiver.closed
    case Report(id) => id in w.receiver.buffers && !w.receiver.closed
    case _ => true
  }

  /** The frame completes a message. */
  predicate Finishes(r: Receiver, f: Frame)
    requires Valid(r.buffers)
  {
    && !r.closed
    && f.messageId !in r.delivered
    && var reception := AddFrame(r.buffers, f).1; reception.Done? && reception.message.Some?
  }

  function Finished(r: Receiver, f: Frame): (m: M.Message)
    requires Valid(r.buffers) && Finishes(r, f)
  {
    AddFrame(r.buffers, f).1.message.value
  }

  /** What the window accepted since was brought by this message. */
  ghost function Brought(origins: map<int, uint64>, before: W.Window, now: W.Window,
                         id: uint64): (o: map<int, uint64>) {
    origins + map s | s in now.accepted - before.accepted :: id
  }

  /** The histories of a completed message. */
  ghost function Noted(w: World, x: World, f: Frame, v: Verdict): (y: World) {
    x.(judged := x.judged[f.messageId := Gate(w.receiver.secured, w.receiver.window)],
       origins := Brought(x.origins, w.receiver.window, x.receiver.window, f.messageId),
       rejected := if v == Rejected then x.rejected[f.messageId := f.seqId] else x.rejected)
  }

  /** The message at the front of the inbox. */
  ghost function Front(r: Receiver): (id: uint64) { if r.read < |r.inbox| then r.inbox[r.read].id else 0 }

  ghost function Step(w: World, e: Event): (s: World)
    requires Valid(w.receiver.buffers) && Enabled(w, e)
  {
    match e
    case Send(m, _, connection, frames) =>
      var id: uint64 := w.last + 1;
      var stamped := Stamp(frames, connection);
      w.(last := id, sent := w.sent[id := stamped], messages := w.messages[id := m], pending := w.pending[id := {}],
         wire := w.wire + set f | f in stamped)
    case Data(f, cut) =>
      var (r, a) := Receive(w.receiver, f, cut);
      var x := w.(receiver := r, acks := w.acks + Answers(a));
      if Finishes(w.receiver, f) then Noted(w, x, f, Judge(w.receiver, Finished(w.receiver, f), cut).verdict)
      else x
    case Acked(a) =>
      if a.id in w.pending then w.(pending := w.pending[a.id := w.pending[a.id] + Covered(a.ranges)]) else w
    case Retransmit(id) =>
      w.(wire := w.wire + Copies(w.sent[id], w.pending[id]))
    case Succeed(id) => w.(pending := w.pending - {id}, succeeded := w.succeeded + {id})
    case GiveUp(id) => w.(pending := w.pending - {id})
    case Idle(id) => w.(receiver := w.receiver.(unacked := w.receiver.unacked[id := 0]))
    case Report(id) =>
      var (r, a) := SendAck(w.receiver, id, SnapshotRanges(w.receiver.buffers[id]));
      w.(receiver := r, acks := w.acks + Answers(a))
    case Read =>
      var r := Take(w.receiver);
      w.(receiver := r, origins := Brought(w.origins, w.receiver.window, r.window, Front(w.receiver)))
    case Install => w.(receiver := Secure(w.receiver))
    case Shut => w.(receiver := w.receiver.(closed := true))
  }

  /** Nothing received yet; what opening gives is fixed for the run and otherwise arbitrary. */
  function NewReceiver(open: M.Message -> Opened): (r: Receiver) {
    Receiver(open, false, W.EMPTY, map[], {}, map[], [], 0, [], {}, false)
  }

  function Beginning(open: M.Message -> Opened): (w: World) {
    World(0, map[], {}, {}, {}, NewReceiver(open), map[], map[], map[], map[], map[])
  }

  ghost predicate Run(ws: seq<World>, es: seq<Event>) {
    && |ws| == |es| + 1
    && ws[0] == Beginning(ws[0].receiver.open)
    && forall i, j :: 0 <= i && j == i + 1 < |ws| ==> Steps(ws[i], es[i], ws[j])
  }

  ghost predicate Steps(w: World, e: Event, next: World) {
    Valid(w.receiver.buffers) && Enabled(w, e) && next == Step(w, e)
  }
}
