/** The formats on the wire, byte by byte: which bytes are a frame, an ACK or a header, and what they mean. The round
    trips say that reader and writer agree; these say what they agree on. */
module WireFormats {
  import opened Sequences
  import opened Bytes
  import F = FrameCodec
  import A = AckRanges
  import M = MessageCodec

  function Little(b: seq<byte>): (n: nat) { FromLittleEndian(b) }

  // ---- Frames ------------------------------------------------------------------------------

  const FRAME_OFFSETS: seq<nat> := [0, 8, 16, 20, 24, 32, 33, 35]

  lemma FrameField(data: seq<byte>, k: nat)
    requires |data| >= 39 && k < 8
    ensures var from, width := FRAME_OFFSETS[k], F.FIXED_WIDTHS[k];
            from + width <= 39 && F.FixedPart(data)[k] == data[from..from + width]
  {
    assert Offsets(F.FIXED_WIDTHS, FRAME_OFFSETS);
    F.FixedWidthSum();
    hide Sum, Split, Offsets;
    FieldAt(data, F.FIXED_WIDTHS, FRAME_OFFSETS, k);
  }

  lemma FrameFields(data: seq<byte>)
    requires |data| >= 39
    ensures F.FixedPart(data) == [data[..8], data[8..16], data[16..20], data[20..24], data[24..32], data[32..33],
                                  data[33..35], data[35..39]]
  {
    hide F.FixedPart;
    forall k | 0 <= k < 8
      ensures var from, width := FRAME_OFFSETS[k], F.FIXED_WIDTHS[k];
              from + width <= 39 && F.FixedPart(data)[k] == data[from..from + width] {
      FrameField(data, k);
    }
  }

  lemma FollowEach(rest: seq<byte>, a: seq<byte>, b: seq<byte>)
    requires |rest| >= |a| + |b|
    ensures a + b <= rest <==> rest[..|a|] == a && rest[|a|..|a| + |b|] == b
  {
    if a + b <= rest {
      assert rest[..|a|] == (a + b)[..|a|];
      assert rest[|a|..|a| + |b|] == (a + b)[|a|..];
    }
    if rest[..|a|] == a && rest[|a|..|a| + |b|] == b {
      assert rest[..|a| + |b|] == rest[..|a|] + rest[|a|..|a| + |b|];
    }
  }

  /** Bytes begin with a frame exactly when they begin with the magic and these little-endian fields: message, sequence,
      count, acknowledged message, kind, and the lengths of the connection and of the payload, which follow. */
  lemma FrameExactly(data: seq<byte>, f: F.Frame)
    ensures F.ParseFrame(data) == Some(f) <==>
            && |data| >= 39 && data[..8] == Ascii("bnfs-frm")
            && Little(data[8..16]) == f.messageId && Little(data[16..20]) == f.seqId && Little(data[20..24]) == f.total
            && Little(data[24..32]) == f.ackId && data[32] == f.kind
            && Little(data[33..35]) == |f.connectionId| && Little(data[35..39]) == |f.payload| <= 1024 * 1024
            && f.connectionId + f.payload <= data[39..]
  {
    if |data| >= 39 {
      FrameFields(data);
      var c, n := Little(data[33..35]), Little(data[35..39]);
      hide F.FixedPart, FromLittleEndian;
      var rest := data[39..];
      if |rest| >= c + n {
        assert rest[..c + n] == rest[..c] + rest[c..c + n];
        if |f.connectionId| == c && |f.payload| == n { FollowEach(rest, f.connectionId, f.payload); }
      }
    }
  }

  // ---- ACK ranges --------------------------------------------------------------------------

  lemma {:induction false} EntryLies(b: seq<byte>, count: nat, i: nat)
    requires 8 * count <= |b| && i < count
    ensures var r := A.DecodeEntries(b, count)[i];
            r.start == Little(b[8 * i..8 * i + 4]) && r.end == Little(b[8 * i + 4..8 * i + 8])
    decreases count
  {
    hide FromLittleEndian;
    if i > 0 {
      EntryLies(b[8..], count - 1, i - 1);
      var k := 8 * (i - 1);
      TailSlice(b, 8, k, k + 4);
      TailSlice(b, 8, k + 4, k + 8);
    }
  }

  lemma FixedIsWritten(data: seq<byte>, f: F.Frame)
    requires F.ParseFrame(data) == Some(f)
    ensures Join(F.FixedFields(f)) == data[..39]
  {
    hide Join, Split, Sum, LittleEndian, FromLittleEndian;
    var h := F.FixedPart(data);
    F.FixedWidthSum();
    JoinSplit(data, F.FIXED_WIDTHS);
    LittleEndianWritesBack(h[1]);
    LittleEndianWritesBack(h[2]);
    LittleEndianWritesBack(h[3]);
    LittleEndianWritesBack(h[4]);
    LittleEndianWritesBack(h[6]);
    LittleEndianWritesBack(h[7]);
    assert h[5] == [f.kind];
    assert F.FixedFields(f) == h;
  }

  lemma WrittenIsRead(f: F.Frame)
    requires F.Encodable(f)
    ensures var d := F.Encode(f).value; |d| == 39 + |f.connectionId| + |f.payload| && F.ParseFrame(d) == Some(f)
  {
    F.FrameReadsBack(f, []);
    F.FixedReadsBack(f, []);
    hide F.ParseFrame, Join, F.FixedFields;
  }

  lemma ReadIsWritten(data: seq<byte>, f: F.Frame)
    requires F.ParseFrame(data) == Some(f) && |data| == 39 + |f.connectionId| + |f.payload|
    ensures F.Encode(f) == Some(data)
  {
    hide F.ParseFrame, Join, F.FixedFields, FromLittleEndian;
    FixedIsWritten(data, f);
    FrameExactly(data, f);
    assert data[39..] == f.connectionId + f.payload;
    Associative(data[..39], f.connectionId, f.payload);
    assert data == data[..39] + data[39..];
  }

  /** A frame is written exactly when its connection and payload are short enough, as the bytes that are read as it. */
  lemma FrameWritesExactly(f: F.Frame, data: seq<byte>)
    ensures F.Encode(f) == Some(data) <==>
            && |f.connectionId| <= 65535 && |f.payload| <= 1024 * 1024
            && |data| == 39 + |f.connectionId| + |f.payload| && F.ParseFrame(data) == Some(f)
  {
    hide F.ParseFrame, Join, F.FixedFields;
    if F.Encodable(f) { WrittenIsRead(f); }
    if F.ParseFrame(data) == Some(f) && |data| == 39 + |f.connectionId| + |f.payload| { ReadIsWritten(data, f); }
  }

  lemma FixedOfCut(stream: seq<byte>, n: nat)
    requires 39 <= n <= |stream|
    ensures F.FixedPart(stream[..n]) == F.FixedPart(stream)
  {
    FrameFields(stream);
    FrameFields(stream[..n]);
    hide F.FixedPart;
    CutSlice(stream, n, 0, 8);
    CutSlice(stream, n, 8, 16);
    CutSlice(stream, n, 16, 20);
    CutSlice(stream, n, 20, 24);
    CutSlice(stream, n, 24, 32);
    CutSlice(stream, n, 32, 33);
    CutSlice(stream, n, 33, 35);
    CutSlice(stream, n, 35, 39);
  }

  lemma ParseOfCut(stream: seq<byte>, n: nat)
    requires F.FrameLength(stream) == Some(n) && n <= |stream|
    ensures F.ParseFrame(stream[..n]) == F.ParseFrame(stream)
    ensures F.ParseFrame(stream).Some?
    ensures var f := F.ParseFrame(stream).value; n == 39 + |f.connectionId| + |f.payload|
  {
    FixedOfCut(stream, n);
    var c := Little(F.FixedPart(stream)[6]);
    hide F.FixedPart, FromLittleEndian;
    var p := Little(F.FixedPart(stream)[7]);
    assert n == 39 + c + p;
    assert stream[..n][39..] == stream[39..][..c + p];
    CutSlice(stream[39..], c + p, 0, c);
    CutSlice(stream[39..], c + p, c, c + p);
  }

  /** A frame is read off a stream exactly when the stream begins with one, and the rest is what follows it. */
  lemma ReadExactly(stream: seq<byte>, f: F.Frame, rest: seq<byte>)
    ensures F.ReadFrame(stream) == F.Got(f, rest) <==>
            var n := 39 + |f.connectionId| + |f.payload|;
            F.ParseFrame(stream) == Some(f) && n <= |stream| && rest == stream[n..]
  {
    var n := F.FrameLength(stream);
    if n.Some? && n.value <= |stream| {
      ParseOfCut(stream, n.value);
      hide F.ParseFrame, F.FrameLength;
    } else {
      hide F.FixedPart, FromLittleEndian;
    }
  }

  /** Bytes are ranges exactly when they hold as many pairs of four-byte numbers as the first two bytes say; the
      range at each place is the pair there. */
  lemma AckExactly(b: seq<byte>)
    ensures A.DecodeAckRanges(b).Some? <==> |b| >= 2 && |b| >= 2 + 8 * Little(b[..2])
    ensures A.DecodeAckRanges(b).Some? ==>
              var ranges := A.DecodeAckRanges(b).value;
              && |ranges| == Little(b[..2])
              && forall i :: 0 <= i < |ranges| ==>
                   && ranges[i].start == Little(b[2 + 8 * i..6 + 8 * i])
                   && ranges[i].end == Little(b[6 + 8 * i..10 + 8 * i])
  {
    if |b| >= 2 && |b| >= 2 + 8 * Little(b[..2]) {
      var n := Little(b[..2]);
      hide FromLittleEndian, A.DecodeEntries;
      forall i | 0 <= i < n
        ensures var r := A.DecodeEntries(b[2..], n)[i];
                r.start == Little(b[2 + 8 * i..6 + 8 * i]) && r.end == Little(b[6 + 8 * i..10 + 8 * i]) {
        EntryLies(b[2..], n, i);
        TailSlice(b, 2, 8 * i, 8 * i + 4);
        TailSlice(b, 2, 8 * i + 4, 8 * i + 8);
      }
    }
  }

  // ---- Message headers ---------------------------------------------------------------------

  /** The bytes up to the last that is not zero. */
  predicate Stripped(field: seq<byte>, s: seq<byte>) {
    s <= field && (s == [] || s[|s| - 1] != 0) && forall i :: |s| <= i < |field| ==> field[i] == 0
  }

  lemma {:induction false} TrimExactly(field: seq<byte>, s: seq<byte>)
    ensures M.Trim(field) == s <==> Stripped(field, s)
  {
    var n := |field| - 1;
    if field != [] && field[n] == 0 {
      TrimExactly(field[..n], s);
      if Stripped(field, s) { assert |s| <= n; }
    }
  }

  function HeaderOffsets(r: nat): (os: seq<nat>) {
    var flags := 126 + r + M.FlagsWidth(r);
    var session := flags + M.SessionWidth(r);
    var b := if M.HasBilling(r) then 1 else 0;
    [0, 9, 10, 74, 82, 82 + r, 90 + r, 126 + r, flags, session, session + 32 * b, session + 40 * b, session + 48 * b]
  }

  lemma HeaderIsLaidOut(r: nat)
    requires r <= 128
    ensures Offsets(M.WidthsFor(r), HeaderOffsets(r)) && Sum(M.WidthsFor(r)) == 254
  {
    M.WidthsFill(r);
  }

  lemma HeaderField(d: seq<byte>, r: nat, k: nat)
    requires |d| == 254 && r <= 128 && k < 13
    ensures var from, width := HeaderOffsets(r)[k], M.WidthsFor(r)[k];
            from + width <= 254 && M.CutHeader(d, r)[k] == d[from..from + width]
  {
    hide Sum, Split, Offsets;
    HeaderIsLaidOut(r);
    FieldAt(d, M.WidthsFor(r), HeaderOffsets(r), k);
  }

  /** Bytes are a header exactly when they begin with the magic and version 1 and announce a route that fits. */
  lemma HeaderExactly(d: seq<byte>)
    requires |d| == 254
    ensures M.ParseHeader(d).Some? <==> d[..9] == Ascii("bnfs-data") && d[9] == 1 && Little(d[74..82]) <= 128
  {
    hide M.HeaderOf, M.CutHeader, FromLittleEndian;
  }

  lemma HeaderCut(d: seq<byte>, r: nat)
    requires |d| == 254 && r <= 128
    ensures var f := M.CutHeader(d, r);
            && f[2] == d[10..74] && f[4] == d[82..82 + r] && f[5] == d[82 + r..90 + r] && f[6] == d[90 + r..126 + r]
            && (r < 128 ==> f[7] == d[126 + r..127 + r])
            && f[8] == (if r <= 91 then d[127 + r..163 + r] else [])
            && (r <= 43 ==> f[9] == d[163 + r..195 + r] && f[10] == d[195 + r..203 + r] && f[11] == d[203 + r..211 + r])
  {
    hide M.CutHeader;
    HeaderField(d, r, 2);
    HeaderField(d, r, 4);
    HeaderField(d, r, 5);
    HeaderField(d, r, 6);
    HeaderField(d, r, 7);
    HeaderField(d, r, 8);
    HeaderField(d, r, 9);
    HeaderField(d, r, 10);
    HeaderField(d, r, 11);
  }

  /** Where each field of a header lies; a longer route moves what follows it, and leaves no room for the leg session
      beyond 91 bytes, for billing beyond 43, and for the leg flags at 128. */
  lemma HeaderMeans(d: seq<byte>)
    requires |d| == 254 && M.ParseHeader(d).Some?
    ensures var h, r := M.ParseHeader(d).value, Little(d[74..82]);
            && r <= 128 && h.version == 1 && Stripped(d[10..74], h.nodeId) && h.route == d[82..82 + r]
            && h.payloadLength == Little(d[82 + r..90 + r]) && Stripped(d[90 + r..126 + r], h.connectionId)
            && h.legFlags == (if r < 128 then d[126 + r] else 0)
            && (if r <= 91 then Stripped(d[127 + r..163 + r], h.legSession) else h.legSession == [])
            && (if r <= 43 then
                  && h.billingSession == d[163 + r..195 + r]
                  && h.billingSequence == FromBigEndian(d[195 + r..203 + r])
                  && h.billingBytes == FromBigEndian(d[203 + r..211 + r])
                else h.billingSession == ZERO_DIGEST && h.billingSequence == 0 && h.billingBytes == 0)
  {
    hide M.CutHeader, FromLittleEndian, FromBigEndian, Stripped, M.Trim;
    var r := Little(d[74..82]);
    HeaderCut(d, r);
    NothingToTrim();
    var h := M.ParseHeader(d).value;
    TrimExactly(d[10..74], h.nodeId);
    TrimExactly(d[90 + r..126 + r], h.connectionId);
    if r <= 91 { TrimExactly(d[127 + r..163 + r], h.legSession); }
  }

  lemma NothingToTrim()
    ensures M.Trim([]) == []
  {
  }

  /** The writer refuses exactly a route or leg session that is too long, a part that is used and has no room behind the
      route, and billing that is incomplete. */
  lemma WritesExactly(h: M.Header)
    ensures M.EncodeHeader(h).Some? <==>
            var r := |h.route|;
            var billed := h.billingSequence != 0 || h.billingBytes != 0 || h.billingSession != ZERO_DIGEST;
            && r <= 128 && |h.legSession| <= 36 && (r > 91 ==> h.legSession == [])
            && (billed ==> r <= 43 && h.billingSequence != 0 && h.billingBytes != 0 && h.billingSession != ZERO_DIGEST)
  {
    hide M.Fields, Join;
  }
}
