/** The stream object: its reading and its acknowledging side, one call at a time. */
module StreamObject {
  import opened Sequences
  import opened Bytes
  import opened FrameCodec
  import opened Assembler
  import opened AckRanges
  import opened AckTracking
  import opened Arq
  import M = MessageCodec
  import W = ReplayWindow

  datatype Handling = Marked | Malformed | Endless

  class Stream {
    const open: M.Message -> Opened
    const assembler: FrameAssembler
    const replay: W.ReplayWindow
    var secured: bool
    var delivered: set<uint64>
    var unacked: map<uint64, nat>
    var inbox: seq<Entry>
    var read: nat
    ghost var taken: seq<Entry>
    var repeated: set<uint64>
    var closed: bool
    var pending: map<uint64, AckTracker>

    /** The receiving side as a value. */
    ghost function View(): (r: Receiver)
      reads this, assembler, replay
    {
      Receiver(open, secured, replay.View(), assembler.buffers, delivered, unacked, inbox, read, taken, repeated,
          closed)
    }

    ghost predicate Valid()
      reads this, assembler, replay, replay.seen
    {
      Assembler.Valid(assembler.buffers) && replay.Valid()
    }

    constructor (open: M.Message -> Opened)
      ensures Valid() && fresh(assembler) && fresh(replay) && fresh(replay.seen)
      ensures View() == NewReceiver(open) && pending == map[]
    {
      this.open := open;
      assembler := new FrameAssembler();
      replay := new W.ReplayWindow();
      secured, read, taken := false, 0, [];
      delivered, unacked, inbox, repeated, closed, pending := {}, map[], [], {}, false, map[];
    }

    /** Opens a message and, if it is an authenticated record, asks the replay window. */
    method OpenMessage(m: M.Message, cut: bool) returns (v: Verdict, result: M.Message)
      requires replay.Valid()
      modifies replay, replay.seen
      ensures replay.Valid()
      ensures Judgement(replay.View(), v, result) == Screen(old(replay.View()), open(m), m, cut)
    {
      hide W.Observe;
      result := m;
      match open(m)
      case Failed => v := Rejected;
      case Plain(p) =>
        v, result := if cut then Rejected else Fresh, m.(payload := p);
      case Record(e, p) =>
        var seen := replay.ObserveId(e);
        match seen {
          case Fresh => v, result := if cut then Rejected else Fresh, m.(payload := p);
          case Seen => v := Repeated;
          case _ => v := Rejected;
        }
    }

    /** A data frame: repeats of a finished message are answered in full, a new frame is stored, and
        the last one hands the message over. */
    method HandleData(f: Frame, cut: bool) returns (ack: Option<Ack>)
      requires Valid()
      modifies this`delivered, this`unacked, this`inbox, this`repeated, this`closed, assembler, replay, replay.seen
      ensures Valid() && (View(), ack) == Receive(old(View()), f, cut)
    {
      hide FullAck, EncodeAckRanges, SnapshotRanges, AddFrame, Deliver, Count, SendAck;
      if closed { return None; }
      if f.messageId in delivered {
        ack := WriteAck(f.messageId, FullAck(f.total));
        return;
      }
      var reception := assembler.Add(f);
      match reception
      case Refused =>
        AddRefused(old(assembler.buffers), f);
        closed := true;
        ack := None;
      case Done(None) =>
        closed := true;
        ack := None;
      case Done(Some(m)) =>
        ack := HandOver(f, m, cut);
      case _ =>
        ack := CountFrame(f.messageId);
    }

    /** Encodes and writes an ACK; a list that does not fit closes the stream. */
    method WriteAck(id: uint64, ranges: seq<AckRange>) returns (ack: Option<Ack>)
      modifies this`closed
      ensures (View(), ack) == SendAck(old(View()), id, ranges)
    {
      if EncodeAckRanges(ranges).None? {
        closed := true;
        return None;
      }
      ack := Some(Ack(id, ranges));
    }

    method HandOver(f: Frame, m: M.Message, cut: bool) returns (ack: Option<Ack>)
      requires replay.Valid()
      modifies this`delivered, this`unacked, this`inbox, this`repeated, this`closed, replay, replay.seen
      ensures replay.Valid() && (View(), ack) == Deliver(old(View()), f, m, cut)
    {
      hide FullAck, SendAck, Screen;
      unacked := unacked - {f.messageId};
      delivered := delivered + {f.messageId};
      var v, result := if cut then Rejected else Fresh, m;
      if secured {
        v, result := OpenMessage(m, cut);
      }
      match v {
        case Rejected =>
          closed := true;
          return None;
        case Repeated =>
          repeated := repeated + {f.messageId};
        case Fresh =>
          inbox := inbox + [Entry(f.messageId, result, !secured)];
      }
      ack := WriteAck(f.messageId, FullAck(f.total));
    }

    /** The next message for the application: one that arrived before there was a suite is opened now,
        and skipped if it is a repetition. */
    method NextMessage() returns (next: Option<M.Message>)
      requires replay.Valid()
      modifies this`read, this`taken, this`closed, replay, replay.seen
      ensures replay.Valid() && View() == Take(old(View()))
      ensures next == if |taken| > |old(taken)| then Some(taken[|old(taken)|].message) else None
    {
      hide Screen;
      if read >= |inbox| { return None; }
      var e := inbox[read];
      read := read + 1;
      if !e.raw || !secured {
        taken := taken + [e];
        return Some(e.message);
      }
      var v, result := OpenMessage(e.message, false);
      match v
      case Rejected =>
        closed := true;
        next := None;
      case Repeated => next := None;
      case Fresh =>
        taken := taken + [Entry(e.id, result, false)];
        next := Some(result);
    }

    /** A suite is installed once. */
    method SetCryptoSuite()
      modifies this`secured, this`closed
      ensures View() == Secure(old(View()))
    {
      if secured {
        closed := true;
      } else {
        secured := true;
      }
    }

    /** Every hundredth frame since the last ACK is answered with what has arrived so far. */
    method CountFrame(id: uint64) returns (ack: Option<Ack>)
      requires Assembler.Valid(assembler.buffers)
      modifies this`unacked, this`closed
      ensures (View(), ack) == Count(old(View()), id)
    {
      hide EncodeAckRanges, SnapshotRanges;
      var n := (if id in unacked then unacked[id] else 0) + 1;
      unacked := unacked[id := n];
      ack := None;
      if n >= ACK_BATCH {
        var snapshot := assembler.Snapshot(id);
        if snapshot.Some? {
          Overwrite(old(unacked), id, n, 0);
          unacked := unacked[id := 0];
          ack := WriteAck(id, snapshot.value.0);
        }
      }
    }

    /** The idle timer answers for a message that has had no frame for a while. */
    method AnswerIdle(id: uint64) returns (ack: Option<Ack>)
      requires Valid() && id in unacked && !closed
      modifies this`unacked, this`closed
      ensures var r := old(View()).(unacked := old(unacked)[id := 0]);
              (View(), ack) == if id in r.buffers then SendAck(r, id, SnapshotRanges(r.buffers[id])) else (r, None)
    {
      hide EncodeAckRanges, SnapshotRanges;
      unacked := unacked[id := 0];
      var snapshot := assembler.Snapshot(id);
      if snapshot.None? { return None; }
      ack := WriteAck(id, snapshot.value.0);
    }

    /** An ACK marks the frames of its own message and nothing else; for a message that is no longer
        pending it is ignored. One with a range that is counted through without end does not return. */
    method HandleAck(f: Frame) returns (h: Handling)
      modifies if f.messageId in pending then {pending[f.messageId]} else {}
      ensures f.messageId !in pending ==> h == Marked
      ensures f.messageId in pending ==>
                h == match DecodeAckRanges(f.payload)
                     case None => Malformed
                     case Some(ranges) => if Ending(ranges) then Marked else Endless
      ensures h == Marked && f.messageId in pending ==>
                pending[f.messageId].acked ==
                    old(pending[f.messageId].acked) + Covered(DecodeAckRanges(f.payload).value)
      ensures h == Malformed ==> pending[f.messageId].acked == old(pending[f.messageId].acked)
    {
      if f.messageId !in pending { return Marked; }
      var ranges := DecodeAckRanges(f.payload);
      if ranges.None? { return Malformed; }
      var returned := pending[f.messageId].Update(ranges.value);
      h := if returned then Marked else Endless;
    }
  }

  lemma AddRefused(buffers: Buffers, f: Frame)
    requires Assembler.Valid(buffers) && AddFrame(buffers, f).1 == Refused
    ensures AddFrame(buffers, f).0 == buffers
  {
  }
}
