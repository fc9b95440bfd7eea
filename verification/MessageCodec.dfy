/** Messages: the fixed 254-byte header with its variable layout, and the payload behind it. */
module MessageCodec {
  import opened Sequences
  import opened Bytes

  const MAGIC := Ascii("bnfs-data")
  const HEADER_LENGTH := 254
  const MAX_ROUTE := 128

  datatype Header = Header(
    route: seq<byte>,
    nodeId: seq<byte>,
    version: byte,
    payloadLength: uint64,
    connectionId: seq<byte>,
    legFlags: byte,
    legSession: seq<byte>,
    billingSession: Digest,
    billingSequence: uint64,
    billingBytes: uint64)

  datatype Message = Message(header: Header, payload: seq<byte>)

  // ---- Padded strings ----------------------------------------------------------------------

  /** A string in a field of fixed width: cut off or filled up with zeros. */
  function Pad(s: seq<byte>, width: nat): (r: seq<byte>)
    ensures |r| == width
  {
    if |s| >= width then s[..width] else s + Zeros(width - |s|)
  }

  function Trim(s: seq<byte>): (r: seq<byte>)
    ensures r <= s && (r == [] || r[|r| - 1] != 0)
  {
    if s != [] && s[|s| - 1] == 0 then Trim(s[..|s| - 1]) else s
  }

  lemma {:induction false} TrimZeros(s: seq<byte>, n: nat)
    ensures Trim(s + Zeros(n)) == Trim(s)
  {
    if n == 0 {
      assert s + Zeros(0) == s;
    } else {
      TrimZeros(s, n - 1);
      var t := s + Zeros(n);
      assert t[..|t| - 1] == s + Zeros(n - 1);
      assert t[|t| - 1] == 0;
    }
  }

  /** A string fits a field: short enough, and not ending in the fill byte. */
  predicate Fits(s: seq<byte>, width: nat) {
    |s| <= width && (s == [] || s[|s| - 1] != 0)
  }

  /** A field gives back exactly the strings that fit it. */
  lemma PaddedReadsBack(s: seq<byte>, width: nat)
    ensures Trim(Pad(s, width)) == s <==> Fits(s, width)
  {
    if |s| < width {
      TrimZeros(s, width - |s|);
    } else if |s| == width {
      assert s[..width] == s;
    }
  }

  // ---- The layout --------------------------------------------------------------------------

  function FlagsWidth(r: nat): (n: nat) { if r < MAX_ROUTE then 1 else 0 }

  function SessionWidth(r: nat): (n: nat) { if r <= 91 then 36 else 0 }

  predicate HasBilling(r: nat) { r <= 43 }

  function BillingWidth(r: nat): (n: nat) { if HasBilling(r) then 48 else 0 }

  function WidthsFor(r: nat): (w: seq<nat>)
    requires r <= MAX_ROUTE
  {
    var b := if HasBilling(r) then 1 else 0;
    var used := 126 + r + FlagsWidth(r) + SessionWidth(r) + BillingWidth(r);
    [9, 1, 64, 8, r, 8, 36, FlagsWidth(r), SessionWidth(r), 32 * b, 8 * b, 8 * b, HEADER_LENGTH - used]
  }

  lemma Peel(w: seq<nat>, i: nat)
    requires i < |w|
    ensures Sum(w[i..]) == w[i] + Sum(w[i + 1..])
  {
    assert w[i..][1..] == w[i + 1..];
  }

  lemma WidthsFill(r: nat)
    requires r <= MAX_ROUTE
    ensures Sum(WidthsFor(r)) == HEADER_LENGTH
  {
    var w := WidthsFor(r);
    assert w[0..] == w && w[13..] == [];
    assert Sum(w[13..]) == 0;
    hide Sum;
    Peel(w, 0); Peel(w, 1); Peel(w, 2); Peel(w, 3); Peel(w, 4); Peel(w, 5); Peel(w, 6);
    Peel(w, 7); Peel(w, 8); Peel(w, 9); Peel(w, 10); Peel(w, 11); Peel(w, 12);
  }

  predicate BillingPresent(h: Header) {
    h.billingSequence != 0 || h.billingBytes != 0 || h.billingSession != ZERO_DIGEST
  }

  predicate BillingFits(h: Header) {
    BillingPresent(h) ==>
      h.billingSequence != 0 && h.billingBytes != 0 && h.billingSession != ZERO_DIGEST && HasBilling(|h.route|)
  }

  /** What the writer accepts: the route fits, an optional part that is used has room, and
      billing is complete or absent. */
  predicate Encodable(h: Header) {
    var r := |h.route|;
    && r <= MAX_ROUTE
    && |h.legSession| <= 36
    && (SessionWidth(r) == 0 ==> h.legSession == [] && h.billingSequence == 0)
    && BillingFits(h)
  }

  /** An absent billing record leaves zeros, which is also what an absent record reads as. */
  function Fields(h: Header): (f: seq<seq<byte>>)
    requires |h.route| <= MAX_ROUTE
  {
    var r := |h.route|;
    [MAGIC, [1], Pad(h.nodeId, 64), LittleEndian(r, 8), h.route, LittleEndian(h.payloadLength, 8),
        Pad(h.connectionId, 36),
     if FlagsWidth(r) == 1 then [h.legFlags] else [],
     if SessionWidth(r) == 36 then Pad(h.legSession, 36) else [],
     if HasBilling(r) then h.billingSession else [],
     if HasBilling(r) then BigEndian(h.billingSequence, 8) else [],
     if HasBilling(r) then BigEndian(h.billingBytes, 8) else [],
     Zeros(WidthsFor(r)[12])]
  }

  function EncodeHeader(h: Header): (r: Option<seq<byte>>)
  {
    if !Encodable(h) then None else Some(Join(Fields(h)))
  }

  predicate Layout(f: seq<seq<byte>>, r: nat)
    requires r <= MAX_ROUTE
  {
    |f| == 13 && forall i :: 0 <= i < 13 ==> |f[i]| == WidthsFor(r)[i]
  }

  function HeaderOf(f: seq<seq<byte>>, r: nat): (h: Header)
    requires r <= MAX_ROUTE && Layout(f, r)
  {
    Capacities();
    assert |f[5]| == 8 && |f[7]| == FlagsWidth(r) && (HasBilling(r) ==> |f[9]| == 32 && |f[10]| == 8 && |f[11]| == 8);
    Header(f[4], Trim(f[2]), 1, FromLittleEndian(f[5]), Trim(f[6]),
           if FlagsWidth(r) == 1 then f[7][0] else 0,
           Trim(f[8]),
           if HasBilling(r) then f[9] else ZERO_DIGEST,
           if HasBilling(r) then FromBigEndian(f[10]) else 0,
           if HasBilling(r) then FromBigEndian(f[11]) else 0)
  }

  function CutHeader(data: seq<byte>, r: nat): (f: seq<seq<byte>>)
    requires |data| == HEADER_LENGTH && r <= MAX_ROUTE
    ensures Layout(f, r)
  {
    WidthsFill(r);
    Split(data, WidthsFor(r))
  }

  /** The announced length of the route; a value beyond the room for it is refused. */
  function RouteLength(data: seq<byte>): (n: nat)
    requires |data| == HEADER_LENGTH
  {
    FromLittleEndian(data[74..82])
  }

  function ParseHeader(data: seq<byte>): (r: Option<Header>)
    requires |data| == HEADER_LENGTH
  {
    if data[..9] != MAGIC || data[9] != 1 || RouteLength(data) > MAX_ROUTE then None
    else Some(HeaderOf(CutHeader(data, RouteLength(data)), RouteLength(data)))
  }

  // ---- The round trip ----------------------------------------------------------------------

  /** The header as it arrives. */
  function Arrives(h: Header): (r: Header)
    requires Encodable(h)
  {
    h.(nodeId := Trim(Pad(h.nodeId, 64)), version := 1, connectionId := Trim(Pad(h.connectionId, 36)),
       legFlags := if |h.route| < MAX_ROUTE then h.legFlags else 0, legSession := Trim(Pad(h.legSession, 36)))
  }

  lemma FieldsLaidOut(h: Header)
    requires Encodable(h)
    ensures Layout(Fields(h), |h.route|) && Widths(Fields(h)) == WidthsFor(|h.route|)
  {
  }

  lemma EncodedCuts(h: Header)
    requires Encodable(h)
    ensures var data := Join(Fields(h)); |data| == HEADER_LENGTH && CutHeader(data, |h.route|) == Fields(h)
  {
    hide Sum, Split, Join, Fields;
    FieldsLaidOut(h);
    SplitJoin(Fields(h), []);
    WidthsFill(|h.route|);
    assert Join(Fields(h)) + [] == Join(Fields(h));
  }

  lemma PrefixFields(f: seq<seq<byte>>)
    requires |f| == 13 && |f[0]| == 9 && |f[1]| == 1 && |f[2]| == 64 && |f[3]| == 8
    ensures var data := Join(f);
            |data| >= 82 && data[..9] == f[0] && data[9] == f[1][0] && data[74..82] == f[3]
  {
    var f1, f2, f3 := f[1..], f[2..], f[3..];
    assert f1[1..] == f2 && f2[1..] == f3;
    assert Join(f3) == f[3] + Join(f3[1..]);
    assert Join(f2) == f[2] + Join(f3);
    assert Join(f1) == f[1] + Join(f2);
    assert Join(f) == f[0] + Join(f1);
  }

  /** Every header that can be written is read, as what arrives. */
  lemma HeaderArrives(h: Header)
    requires Encodable(h)
    ensures EncodeHeader(h).Some? && |EncodeHeader(h).value| == HEADER_LENGTH
    ensures ParseHeader(EncodeHeader(h).value) == Some(Arrives(h))
  {
    EncodedCuts(h);
    FieldsLaidOut(h);
    PrefixFields(Fields(h));
    Capacities();
    LittleEndianReadsBack(|h.route|, 8);
    FieldsArrive(h);
    hide Join, CutHeader, HeaderOf, FromLittleEndian;
  }

  lemma FieldsArrive(h: Header)
    requires Encodable(h)
    ensures Layout(Fields(h), |h.route|) && HeaderOf(Fields(h), |h.route|) == Arrives(h)
  {
    FieldsLaidOut(h);
    hide Sum, Join, Split, WidthsFor, Layout, BigEndian, LittleEndian, FromBigEndian, FromLittleEndian;
    PaddedReadsBack([], 36);
    hide Pad, Trim;
    var f := Fields(h);
    var r := |h.route|;
    assert f[2] == Pad(h.nodeId, 64) && f[4] == h.route && f[6] == Pad(h.connectionId, 36);
    assert f[5] == LittleEndian(h.payloadLength, 8);
    assert f[7] == if FlagsWidth(r) == 1 then [h.legFlags] else [];
    assert f[8] == if SessionWidth(r) == 36 then Pad(h.legSession, 36) else [];
    assert HasBilling(r) ==>
        f[9] == h.billingSession && f[10] == BigEndian(h.billingSequence, 8) && f[11] == BigEndian(h.billingBytes, 8);
    hide Fields;
    Capacities();
    LittleEndianReadsBack(h.payloadLength, 8);
    BigEndianReadsBack(h.billingSequence, 8);
    BigEndianReadsBack(h.billingBytes, 8);
  }

  /** What a header must be to arrive unchanged. */
  predicate Faithful(h: Header) {
    && h.version == 1
    && Fits(h.nodeId, 64)
    && Fits(h.connectionId, 36)
    && Fits(h.legSession, 36)
    && (|h.route| == MAX_ROUTE ==> h.legFlags == 0)
  }

  /** A header arrives unchanged exactly when it is faithful: a 128-byte route silently drops the
      leg flags, and a name that is too long or ends in a zero byte is changed. */
  lemma HeaderUnchanged(h: Header)
    requires Encodable(h)
    ensures EncodeHeader(h).Some? && |EncodeHeader(h).value| == HEADER_LENGTH
    ensures ParseHeader(EncodeHeader(h).value) == Some(h) <==> Faithful(h)
  {
    HeaderArrives(h);
    PaddedReadsBack(h.nodeId, 64);
    PaddedReadsBack(h.connectionId, 36);
    PaddedReadsBack(h.legSession, 36);
    hide Trim, Pad, ParseHeader, EncodeHeader;
  }

  lemma LongRouteDropsFlags()
    ensures var h := Header(Zeros(128), [], 1, 0, [], 1, [], ZERO_DIGEST, 0, 0);
            && Encodable(h)
            && |EncodeHeader(h).value| == HEADER_LENGTH
            && ParseHeader(EncodeHeader(h).value) == Some(h.(legFlags := 0))
  {
    var h := Header(Zeros(128), [], 1, 0, [], 1, [], ZERO_DIGEST, 0, 0);
    HeaderArrives(h);
    PaddedReadsBack([], 64);
    PaddedReadsBack([], 36);
  }

  // ---- Writing in place --------------------------------------------------------------------

  method Copy(buffer: array<byte>, at: nat, data: seq<byte>)
    requires at + |data| <= buffer.Length
    modifies buffer
    ensures buffer[..] == old(buffer[..at]) + data + old(buffer[at + |data|..])
  {
    for i := 0 to |data|
      invariant buffer[..at] == old(buffer[..at]) && buffer[at..at + i] == data[..i]
      invariant buffer[at + i..] == old(buffer[at + i..])
    {
      buffer[at + i] := data[i];
      assert buffer[at..at + i + 1] == buffer[at..at + i] + [data[i]];
    }
  }

  /** The first k fields are in place and the rest of the buffer is still zero. */
  predicate Laid(buffer: seq<byte>, f: seq<seq<byte>>, k: nat, at: nat) {
    k <= |f| && at == |Join(f[..k])| && at <= |buffer| && buffer == Join(f[..k]) + Zeros(|buffer| - at)
  }

  lemma {:induction false} JoinAppend<T>(f: seq<seq<T>>, x: seq<T>)
    ensures Join(f + [x]) == Join(f) + x
  {
    if f == [] {
      assert Join([x]) == x + Join([x][1..]);
      assert f + [x] == [x];
    } else {
      JoinAppend(f[1..], x);
      assert (f + [x])[1..] == f[1..] + [x];
      Associative(f[0], Join(f[1..]), x);
    }
  }

  lemma NextLaid(before: seq<byte>, after: seq<byte>, f: seq<seq<byte>>, k: nat, at: nat)
    requires Laid(before, f, k, at) && k < |f| && at + |f[k]| <= |before|
    requires after == before[..at] + f[k] + before[at + |f[k]|..]
    ensures Laid(after, f, k + 1, at + |f[k]|)
  {
    JoinAppend(f[..k], f[k]);
    assert f[..k + 1] == f[..k] + [f[k]];
  }

  lemma ZerosLaid(buffer: seq<byte>, f: seq<seq<byte>>, k: nat, at: nat)
    requires Laid(buffer, f, k, at) && k < |f| && at + |f[k]| <= |buffer| && f[k] == Zeros(|f[k]|)
    ensures Laid(buffer, f, k + 1, at + |f[k]|)
  {
    assert buffer == buffer[..at] + f[k] + buffer[at + |f[k]|..];
    NextLaid(buffer, buffer, f, k, at);
  }

  method Put(buffer: array<byte>, at: nat, data: seq<byte>, ghost f: seq<seq<byte>>, ghost k: nat) returns (next: nat)
    requires Laid(buffer[..], f, k, at) && k < |f| && data == f[k] && at + |data| <= buffer.Length
    modifies buffer
    ensures next == at + |data| && Laid(buffer[..], f, k + 1, next)
  {
    ghost var before := buffer[..];
    Copy(buffer, at, data);
    NextLaid(before, buffer[..], f, k, at);
    next := at + |data|;
  }

  lemma LaidOut(buffer: seq<byte>, f: seq<seq<byte>>, at: nat)
    requires Laid(buffer, f, |f|, at) && at == |buffer|
    ensures buffer == Join(f)
  {
    assert f[..|f|] == f;
  }

  lemma NothingLaid(buffer: seq<byte>, f: seq<seq<byte>>)
    requires buffer == Zeros(|buffer|)
    ensures Laid(buffer, f, 0, 0)
  {
    assert f[..0] == [];
  }

  /** The fields every header has. */
  method WriteFixed(h: Header, buffer: array<byte>, ghost f: seq<seq<byte>>) returns (at: nat)
    requires |h.route| <= MAX_ROUTE && f == Fields(h) && buffer.Length == HEADER_LENGTH && Laid(buffer[..], f, 0, 0)
    modifies buffer
    ensures at == 126 + |h.route| && Laid(buffer[..], f, 7, at)
  {
    hide Laid, Sum, Join, LittleEndian, BigEndian, Pad;
    at := Put(buffer, 0, MAGIC, f, 0);
    at := Put(buffer, at, [1], f, 1);
    at := Put(buffer, at, Pad(h.nodeId, 64), f, 2);
    at := Put(buffer, at, LittleEndian(|h.route|, 8), f, 3);
    at := Put(buffer, at, h.route, f, 4);
    at := Put(buffer, at, LittleEndian(h.payloadLength, 8), f, 5);
    at := Put(buffer, at, Pad(h.connectionId, 36), f, 6);
  }

  /** The leg flags and the dial generation, where they fit. */
  method WriteLeg(h: Header, buffer: array<byte>, at: nat, ghost f: seq<seq<byte>>) returns (end: Option<nat>)
    requires |h.route| <= MAX_ROUTE && f == Fields(h) && buffer.Length == HEADER_LENGTH
    requires at == 126 + |h.route| && Laid(buffer[..], f, 7, at)
    modifies buffer
    ensures end.Some? <==>
            |h.legSession| <= 36 && (SessionWidth(|h.route|) == 0 ==> h.legSession == [] && h.billingSequence == 0)
    ensures end.Some? ==>
              end.value == at + FlagsWidth(|h.route|) + SessionWidth(|h.route|) && Laid(buffer[..], f, 9, end.value)
  {
    hide Laid, Sum, Join, LittleEndian, BigEndian, Pad;
    var next := at;
    if at < HEADER_LENGTH {
      next := Put(buffer, at, [h.legFlags], f, 7);
    } else {
      ZerosLaid(buffer[..], f, 7, at);
    }
    if |h.legSession| > 36 { return None; }
    if next + 36 <= HEADER_LENGTH {
      next := Put(buffer, next, Pad(h.legSession, 36), f, 8);
    } else if h.legSession != [] || h.billingSequence != 0 {
      return None;
    } else {
      ZerosLaid(buffer[..], f, 8, next);
    }
    end := Some(next);
  }

  /** The billing record, or zeros in its place. */
  method WriteBilling(h: Header, buffer: array<byte>, at: nat, ghost f: seq<seq<byte>>) returns (end: Option<nat>)
    requires |h.route| <= MAX_ROUTE && f == Fields(h) && buffer.Length == HEADER_LENGTH
    requires at == 126 + |h.route| + FlagsWidth(|h.route|) + SessionWidth(|h.route|) && Laid(buffer[..], f, 9, at)
    modifies buffer
    ensures end.Some? <==> BillingFits(h)
    ensures end.Some? ==> end.value == at + BillingWidth(|h.route|) && Laid(buffer[..], f, 12, end.value)
  {
    if h.billingSequence != 0 || h.billingBytes != 0 || h.billingSession != ZERO_DIGEST {
      if h.billingSequence == 0 || h.billingBytes == 0 || h.billingSession == ZERO_DIGEST { return None; }
      if at + 48 > HEADER_LENGTH { return None; }
      hide Laid, Sum, Join, LittleEndian, BigEndian, Pad;
      var next := Put(buffer, at, h.billingSession, f, 9);
      next := Put(buffer, next, BigEndian(h.billingSequence, 8), f, 10);
      next := Put(buffer, next, BigEndian(h.billingBytes, 8), f, 11);
      end := Some(next);
    } else {
      BigEndianZero(8);
      hide Laid, Sum, Join, LittleEndian, BigEndian, Pad;
      ZerosLaid(buffer[..], f, 9, at);
      ZerosLaid(buffer[..], f, 10, at + |f[9]|);
      ZerosLaid(buffer[..], f, 11, at + |f[9]| + |f[10]|);
      end := Some(at + BillingWidth(|h.route|));
    }
  }

  lemma {:induction false} BigEndianZero(width: nat)
    ensures BigEndian(0, width) == Zeros(width)
  {
    if width > 0 {
      BigEndianZero(width - 1);
    }
  }

  /** Fills a zeroed buffer with a running index, field by field, as far as they fit. */
  method WriteHeader(h: Header) returns (r: Option<seq<byte>>)
    ensures r == EncodeHeader(h)
  {
    hide Laid, Sum, Join, Pad;
    if |h.route| > MAX_ROUTE { return None; }
    var buffer := new byte[HEADER_LENGTH](_ => 0);
    ghost var f := Fields(h);
    assert |f| == 13 && f[12] == Zeros(WidthsFor(|h.route|)[12]);
    hide Fields;
    assert buffer[..] == Zeros(|buffer[..]|);
    NothingLaid(buffer[..], f);
    var at := WriteFixed(h, buffer, f);
    var leg := WriteLeg(h, buffer, at, f);
    if leg.None? { return None; }
    var end := WriteBilling(h, buffer, leg.value, f);
    if end.None? { return None; }
    ZerosLaid(buffer[..], f, 12, end.value);
    LaidOut(buffer[..], f, HEADER_LENGTH);
    r := Some(buffer[..]);
  }

  // ---- Messages ----------------------------------------------------------------------------

  /** The writer fills in the payload length. */
  function Filled(m: Message): (h: Header)
    requires |m.payload| <= MAX_UINT64
  {
    m.header.(payloadLength := |m.payload|)
  }

  function EncodeMessage(m: Message): (r: Option<seq<byte>>)
    requires |m.payload| <= MAX_UINT64
  {
    match EncodeHeader(Filled(m))
    case None => None
    case Some(h) => Some(h + m.payload)
  }

  function ParseMessage(data: seq<byte>): (r: Option<Message>)
    requires |data| >= HEADER_LENGTH
  {
    match ParseHeader(data[..HEADER_LENGTH])
    case None => None
    case Some(h) => Some(Message(h, data[HEADER_LENGTH..]))
  }

  /** Every message that can be written is read back with its payload, and unchanged exactly when
      its header is faithful and its length field was right. */
  lemma MessageReadsBack(m: Message)
    requires |m.payload| <= MAX_UINT64 && EncodeMessage(m).Some?
    ensures var data := EncodeMessage(m).value;
            && |data| >= HEADER_LENGTH
            && ParseMessage(data) == Some(Message(Arrives(Filled(m)), m.payload))
            && (ParseMessage(data) == Some(m) <==> Faithful(m.header) && m.header.payloadLength == |m.payload|)
  {
    var h := Filled(m);
    HeaderArrives(h);
    HeaderUnchanged(h);
    Parts(EncodeHeader(h).value, m.payload);
    hide ParseHeader, EncodeHeader;
  }
}
