/** Transport frames on a byte stream. */
module FrameCodec {
  import opened Sequences
  import opened Bytes

  const MAGIC := Ascii("bnfs-frm")
  const HEADER_LENGTH := 39
  const MAX_PAYLOAD := 0x10_0000

  const DATA: byte := 0
  const ACK: byte := 1
  const RETRANSMIT: byte := 2

  datatype Frame = Frame(
    messageId: uint64,
    seqId: uint32,
    total: uint32,
    ackId: uint64,
    kind: byte,
    connectionId: seq<byte>,
    payload: seq<byte>)

  predicate Encodable(f: Frame) {
    |f.payload| <= MAX_PAYLOAD && |f.connectionId| <= MAX_UINT16
  }

  const FIXED_WIDTHS: seq<nat> := [8, 8, 4, 4, 8, 1, 2, 4]

  function FixedFields(f: Frame): (r: seq<seq<byte>>) {
    [MAGIC, LittleEndian(f.messageId, 8), LittleEndian(f.seqId, 4), LittleEndian(f.total, 4), LittleEndian(f.ackId, 8),
     [f.kind], LittleEndian(|f.connectionId|, 2), LittleEndian(|f.payload|, 4)]
  }

  /** The bytes a frame is appended as; None is the size error. */
  function Encode(f: Frame): (r: Option<seq<byte>>)
  {
    if !Encodable(f) then None else Some(Join(FixedFields(f)) + f.connectionId + f.payload)
  }

  lemma FixedWidthSum()
    ensures Sum(FIXED_WIDTHS) == HEADER_LENGTH
  {
    var w := FIXED_WIDTHS;
    assert Sum(w[7..]) == 4;
    assert Sum(w[6..]) == 6 by { assert w[6..][1..] == w[7..]; }
    assert Sum(w[5..]) == 7 by { assert w[5..][1..] == w[6..]; }
    assert Sum(w[4..]) == 15 by { assert w[4..][1..] == w[5..]; }
    assert Sum(w[3..]) == 19 by { assert w[3..][1..] == w[4..]; }
    assert Sum(w[2..]) == 23 by { assert w[2..][1..] == w[3..]; }
    assert Sum(w[1..]) == 31 by { assert w[1..][1..] == w[2..]; }
    assert Sum(w[0..]) == 39 by { assert w[0..][1..] == w[1..]; }
    assert w[0..] == w;
  }

  predicate FixedLayout(h: seq<seq<byte>>) {
    |h| == 8 && |h[0]| == 8 && |h[1]| == 8 && |h[2]| == 4 && |h[3]| == 4 && |h[4]| == 8 && |h[5]| == 1 && |h[6]| == 2
        && |h[7]| == 4
  }

  lemma FixedIsLaidOut(data: seq<byte>)
    requires |data| >= HEADER_LENGTH
    ensures Sum(FIXED_WIDTHS) <= |data| && FixedLayout(Split(data, FIXED_WIDTHS))
    ensures Join(Split(data, FIXED_WIDTHS)) == data[..HEADER_LENGTH]
  {
    FixedWidthSum();
    hide Sum, Split, Join;
    JoinSplit(data, FIXED_WIDTHS);
  }

  function FixedPart(data: seq<byte>): (h: seq<seq<byte>>)
    requires |data| >= HEADER_LENGTH
    ensures FixedLayout(h)
  {
    FixedIsLaidOut(data);
    Split(data, FIXED_WIDTHS)
  }

  function FrameOf(h: seq<seq<byte>>, connectionId: seq<byte>, payload: seq<byte>): (f: Frame)
    requires FixedLayout(h)
  {
    Capacities();
    Frame(FromLittleEndian(h[1]), FromLittleEndian(h[2]), FromLittleEndian(h[3]), FromLittleEndian(h[4]), h[5][0],
          connectionId, payload)
  }

  /** What follows a whole frame is ignored; None is any of the parse errors. */
  function ParseFrame(data: seq<byte>): (r: Option<Frame>)
    ensures r.Some? ==> Encodable(r.value) && |data| >= HEADER_LENGTH + |r.value.connectionId| + |r.value.payload|
  {
    if |data| < HEADER_LENGTH then None
    else
      Capacities();
      var h := FixedPart(data);
      var connLen, payloadLen := FromLittleEndian(h[6]), FromLittleEndian(h[7]);
      if h[0] != MAGIC || payloadLen > MAX_PAYLOAD || |data| - HEADER_LENGTH < connLen + payloadLen then None
      else
        var rest := data[HEADER_LENGTH..];
        Some(FrameOf(h, rest[..connLen], rest[connLen..connLen + payloadLen]))
  }

  /** The length of the frame at the front of a stream, once its header is there and sane. */
  function FrameLength(data: seq<byte>): (r: Option<nat>)
    ensures r.Some? ==> r.value >= HEADER_LENGTH
  {
    if |data| < HEADER_LENGTH then None
    else
      var h := FixedPart(data);
      var payloadLen := FromLittleEndian(h[7]);
      if h[0] != MAGIC || payloadLen > MAX_PAYLOAD then None
      else Some(HEADER_LENGTH + FromLittleEndian(h[6]) + payloadLen)
  }

  datatype Read = Failed | Got(frame: Frame, rest: seq<byte>)

  /** One frame off the front of a stream: the header first, then exactly the body it announces. */
  function ReadFrame(stream: seq<byte>): (r: Read)
    ensures r.Got? ==> |r.rest| < |stream|
  {
    match FrameLength(stream)
    case None => Failed
    case Some(n) =>
      if |stream| < n then Failed
      else
        match ParseFrame(stream[..n])
        case None => Failed
        case Some(f) => Got(f, stream[n..])
  }

  // ---- Round trips -------------------------------------------------------------------------

  lemma FixedReadsBack(f: Frame, rest: seq<byte>)
    requires Encodable(f)
    ensures |Join(FixedFields(f))| == HEADER_LENGTH
    ensures FixedPart(Join(FixedFields(f)) + rest) == FixedFields(f)
  {
    FixedWidthSum();
    hide Sum, Split, Join;
    SplitJoin(FixedFields(f), rest);
    assert Widths(FixedFields(f)) == FIXED_WIDTHS;
  }

  lemma NumbersReadBack(f: Frame)
    requires Encodable(f)
    ensures var h := FixedFields(f);
            && FrameOf(h, f.connectionId, f.payload) == f
            && FromLittleEndian(h[6]) == |f.connectionId| && FromLittleEndian(h[7]) == |f.payload|
  {
    Capacities();
    LittleEndianReadsBack(f.messageId, 8);
    LittleEndianReadsBack(f.seqId, 4);
    LittleEndianReadsBack(f.total, 4);
    LittleEndianReadsBack(f.ackId, 8);
    LittleEndianReadsBack(|f.connectionId|, 2);
    LittleEndianReadsBack(|f.payload|, 4);
  }

  /** A frame is read back whole, whatever follows it on the stream. */
  lemma FrameReadsBack(f: Frame, rest: seq<byte>)
    requires Encodable(f)
    ensures ParseFrame(Encode(f).value) == Some(f)
    ensures ReadFrame(Encode(f).value + rest) == Got(f, rest)
  {
    var fixed, data := Join(FixedFields(f)), Encode(f).value;
    NumbersReadBack(f);
    var body := f.connectionId + f.payload;
    FixedReadsBack(f, body);
    FixedReadsBack(f, body + rest);
    Associative(fixed, f.connectionId, f.payload);
    Associative(fixed, body, rest);
    Parts(fixed, body);
    Parts(f.connectionId, f.payload);
    Parts(data, rest);
    assert FixedFields(f)[0] == MAGIC;
    hide FixedFields, FixedPart, FrameOf, Join;
    assert body[|f.connectionId|..|f.connectionId| + |f.payload|] == f.payload;
  }

  /** What parses is the print of the frame it parsed to, up to where that frame ends. */
  lemma ParsedFramePrints(data: seq<byte>)
    requires ParseFrame(data).Some?
    ensures var e := Encode(ParseFrame(data).value); e.Some? && e.value <= data
  {
    var h, f := FixedPart(data), ParseFrame(data).value;
    FixedIsLaidOut(data);
    FieldsWriteBack(h, f.connectionId, f.payload);
    var n, m := HEADER_LENGTH + |f.connectionId|, HEADER_LENGTH + |f.connectionId| + |f.payload|;
    assert f.connectionId == data[HEADER_LENGTH..n] && f.payload == data[n..m];
    hide FixedFields, FixedPart, FrameOf, Join, Split;
    assert data[..m] == data[..HEADER_LENGTH] + data[HEADER_LENGTH..n] + data[n..m];
  }

  lemma FieldsWriteBack(h: seq<seq<byte>>, connectionId: seq<byte>, payload: seq<byte>)
    requires FixedLayout(h) && h[0] == MAGIC
    requires |connectionId| == FromLittleEndian(h[6]) && |payload| == FromLittleEndian(h[7])
    ensures FixedFields(FrameOf(h, connectionId, payload)) == h
  {
    var g := FixedFields(FrameOf(h, connectionId, payload));
    assert g[1] == h[1] by { LittleEndianWritesBack(h[1]); }
    assert g[2] == h[2] by { LittleEndianWritesBack(h[2]); }
    assert g[3] == h[3] by { LittleEndianWritesBack(h[3]); }
    assert g[4] == h[4] by { LittleEndianWritesBack(h[4]); }
    assert g[5] == h[5];
    assert g[6] == h[6] by { LittleEndianWritesBack(h[6]); }
    assert g[7] == h[7] by { LittleEndianWritesBack(h[7]); }
  }

  /** Frames written one after the other. */
  function Stream(frames: seq<Frame>): (r: seq<byte>)
    requires forall i :: 0 <= i < |frames| ==> Encodable(frames[i])
  {
    if frames == [] then [] else Encode(frames[0]).value + Stream(frames[1..])
  }

  lemma StreamHead(sent: seq<Frame>, tail: seq<byte>)
    requires sent != [] && forall i :: 0 <= i < |sent| ==> Encodable(sent[i])
    ensures Stream(sent) + tail == Encode(sent[0]).value + (Stream(sent[1..]) + tail)
  {
    Associative(Encode(sent[0]).value, Stream(sent[1..]), tail);
  }

  lemma NextOnStream(sent: seq<Frame>, tail: seq<byte>)
    requires forall i :: 0 <= i < |sent| ==> Encodable(sent[i])
    ensures sent == [] ==> Stream(sent) + tail == tail
    ensures sent != [] ==> ReadFrame(Stream(sent) + tail) == Got(sent[0], Stream(sent[1..]) + tail)
  {
    hide Encode, ReadFrame;
    if sent != [] {
      StreamHead(sent, tail);
      FrameReadsBack(sent[0], Stream(sent[1..]) + tail);
    }
  }

  /** Reads frames until one cannot be read. Any list of encodable frames comes off the stream as
      the same list, with nothing left; a broken tail costs no frame before it. */
  method ReadFrames(stream: seq<byte>, ghost sent: seq<Frame>, ghost tail: seq<byte>)
    returns (frames: seq<Frame>, rest: seq<byte>)
    requires forall i :: 0 <= i < |sent| ==> Encodable(sent[i])
    requires stream == Stream(sent) + tail && ReadFrame(tail).Failed?
    ensures frames == sent && rest == tail
  {
    hide Encode, ReadFrame, Stream;
    frames, rest := [], stream;
    while true
      invariant |frames| <= |sent| && frames == sent[..|frames|]
      invariant rest == Stream(sent[|frames|..]) + tail
      decreases |rest|
    {
      NextOnStream(sent[|frames|..], tail);
      var r := ReadFrame(rest);
      if r.Failed? { return; }
      frames, rest := frames + [r.frame], r.rest;
    }
  }
}
