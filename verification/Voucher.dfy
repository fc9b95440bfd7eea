/** Mutual usage vouchers: the canonical codec, the rules a chain of vouchers obeys, and the
    95/5 split of the bytes a chain authorizes. SHA-256 and the ASN.1 shape of a signature are
    parameters: the model holds for every such function. */
module Voucher {
  import opened Sequences
  import opened Bytes

  const CURRENT_VERSION := 1
  const WINDOW_BYTES := 0x10_0000
  const MAX_SEQUENCE := MAX_INT64
  const MAX_BILLABLE := MAX_INT64
  const MAX_SIGNATURE := 72

  const BODY_DOMAIN := Ascii("BNFS/USAGE-VOUCHER-BODY/V1")
  const ID_DOMAIN := Ascii("BNFS/MUTUAL-VOUCHER/V1")
  const WIRE_DOMAIN := Ascii("BNFS/MUTUAL-VOUCHER-WIRE/V1")
  const BODY_SIZE := 285

  datatype Crypto = Crypto(sha256: seq<byte> -> Digest, derSignature: seq<byte> -> bool)

  datatype Body = Body(
    version: uint16,
    session: Digest,
    payer: Digest,
    relay: Digest,
    direction: byte,
    sequence: uint64,
    previous: Digest,
    cumulative: uint64,
    lastRecord: Digest,
    lastRecordSequence: uint64,
    recordSet: Digest,
    policy: Digest,
    authorized: uint64)

  datatype Voucher = Voucher(body: Body, payerSignature: seq<byte>, relaySignature: seq<byte>)

  predicate DirectionValid(d: byte) { d == 1 || d == 2 }

  /** The byte ceiling of a sequence number; the guard keeps the product inside 63 bits. */
  function WindowCeiling(sequence: uint64): (c: uint64)
    ensures c == if sequence * WINDOW_BYTES <= MAX_BILLABLE then sequence * WINDOW_BYTES else MAX_BILLABLE
  {
    if sequence > MAX_BILLABLE / WINDOW_BYTES then MAX_BILLABLE else sequence * WINDOW_BYTES
  }

  predicate BodyValid(b: Body) {
    && b.version == CURRENT_VERSION
    && b.session != ZERO_DIGEST
    && b.payer != ZERO_DIGEST
    && b.relay != ZERO_DIGEST
    && b.payer != b.relay
    && DirectionValid(b.direction)
    && 1 <= b.sequence <= MAX_SEQUENCE
    && (b.sequence == 1 ==> b.previous == ZERO_DIGEST)
    && (b.sequence > 1 ==> b.previous != ZERO_DIGEST)
    && 1 <= b.cumulative <= MAX_BILLABLE
    && 1 <= b.authorized <= MAX_BILLABLE
    && b.cumulative <= b.authorized
    && b.cumulative <= WindowCeiling(b.sequence)
    && b.lastRecord != ZERO_DIGEST
    && 1 <= b.lastRecordSequence <= MAX_SEQUENCE
    && b.recordSet != ZERO_DIGEST
    && b.policy != ZERO_DIGEST
  }

  // ---- The canonical body ------------------------------------------------------------------

  const BODY_WIDTHS: seq<nat> := [26, 2, 32, 32, 32, 1, 8, 32, 8, 32, 8, 32, 32, 8]

  function BodyFields(b: Body): (f: seq<seq<byte>>)
  {
    [BODY_DOMAIN, BigEndian(b.version, 2), b.session, b.payer, b.relay, [b.direction],
     BigEndian(b.sequence, 8), b.previous, BigEndian(b.cumulative, 8), b.lastRecord,
     BigEndian(b.lastRecordSequence, 8), b.recordSet, b.policy, BigEndian(b.authorized, 8)]
  }

  lemma BodyWidthSum()
    ensures Sum(BODY_WIDTHS) == BODY_SIZE
  {
    var w := BODY_WIDTHS;
    assert Sum(w[13..]) == 8;
    assert Sum(w[12..]) == 40 by { assert w[12..][1..] == w[13..]; }
    assert Sum(w[11..]) == 72 by { assert w[11..][1..] == w[12..]; }
    assert Sum(w[10..]) == 80 by { assert w[10..][1..] == w[11..]; }
    assert Sum(w[9..]) == 112 by { assert w[9..][1..] == w[10..]; }
    assert Sum(w[8..]) == 120 by { assert w[8..][1..] == w[9..]; }
    assert Sum(w[7..]) == 152 by { assert w[7..][1..] == w[8..]; }
    assert Sum(w[6..]) == 160 by { assert w[6..][1..] == w[7..]; }
    assert Sum(w[5..]) == 161 by { assert w[5..][1..] == w[6..]; }
    assert Sum(w[4..]) == 193 by { assert w[4..][1..] == w[5..]; }
    assert Sum(w[3..]) == 225 by { assert w[3..][1..] == w[4..]; }
    assert Sum(w[2..]) == 257 by { assert w[2..][1..] == w[3..]; }
    assert Sum(w[1..]) == 259 by { assert w[1..][1..] == w[2..]; }
    assert Sum(w[0..]) == 285 by { assert w[0..][1..] == w[1..]; }
    assert w[0..] == w;
  }

  function CanonicalBody(b: Body): (r: Option<seq<byte>>)
  {
    if BodyValid(b) then Some(Join(BodyFields(b))) else None
  }

  predicate BodyLayout(f: seq<seq<byte>>) {
    && |f| == 14
    && |f[1]| == 2 && |f[2]| == 32 && |f[3]| == 32 && |f[4]| == 32 && |f[5]| == 1 && |f[6]| == 8 && |f[7]| == 32
    && |f[8]| == 8 && |f[9]| == 32 && |f[10]| == 8 && |f[11]| == 32 && |f[12]| == 32 && |f[13]| == 8
  }

  lemma CutIsLaidOut(data: seq<byte>)
    requires |data| == BODY_SIZE
    ensures Sum(BODY_WIDTHS) == |data| && BodyLayout(Split(data, BODY_WIDTHS)) && Join(Split(data, BODY_WIDTHS)) == data
  {
    BodyWidthSum();
    hide Sum, Split, Join;
    JoinSplit(data, BODY_WIDTHS);
    assert data[..BODY_SIZE] == data;
  }

  /** The bytes cut at the widths of the fields. */
  function CutBody(data: seq<byte>): (f: seq<seq<byte>>)
    requires |data| == BODY_SIZE
    ensures BodyLayout(f) && Join(f) == data
  {
    CutIsLaidOut(data);
    Split(data, BODY_WIDTHS)
  }

  function BodyOfFields(f: seq<seq<byte>>): (b: Body)
    requires BodyLayout(f)
  {
    Capacities();
    Body(FromBigEndian(f[1]), f[2], f[3], f[4], f[5][0], FromBigEndian(f[6]), f[7],
         FromBigEndian(f[8]), f[9], FromBigEndian(f[10]), f[11], f[12], FromBigEndian(f[13]))
  }

  function ParseBody(data: seq<byte>): (r: Option<Body>)
  {
    if |data| != BODY_SIZE then None
    else
      var f := CutBody(data);
      if f[0] != BODY_DOMAIN then None
      else
        var b := BodyOfFields(f);
        if BodyValid(b) then Some(b) else None
  }

  lemma BodyFieldsReadBack(b: Body)
    ensures BodyLayout(BodyFields(b)) && BodyOfFields(BodyFields(b)) == b
  {
    Capacities();
    BigEndianReadsBack(b.version, 2);
    BigEndianReadsBack(b.sequence, 8);
    BigEndianReadsBack(b.cumulative, 8);
    BigEndianReadsBack(b.lastRecordSequence, 8);
    BigEndianReadsBack(b.authorized, 8);
  }

  lemma NumberWritesBack(f: seq<byte>, width: nat)
    requires |f| == width
    ensures BigEndian(FromBigEndian(f), width) == f
  {
    BigEndianWritesBack(f);
  }

  lemma BodyFieldsWriteBack(f: seq<seq<byte>>)
    requires BodyLayout(f) && f[0] == BODY_DOMAIN
    ensures BodyFields(BodyOfFields(f)) == f
  {
    var b := BodyOfFields(f);
    var g := BodyFields(b);
    assert g[1] == f[1] by { NumberWritesBack(f[1], 2); }
    assert g[5] == f[5];
    assert g[6] == f[6] by { NumberWritesBack(f[6], 8); }
    assert g[8] == f[8] by { NumberWritesBack(f[8], 8); }
    assert g[10] == f[10] by { NumberWritesBack(f[10], 8); }
    assert g[13] == f[13] by { NumberWritesBack(f[13], 8); }
  }

  /** The printed fields are cut where they were joined. */
  lemma CutBodyReadsBack(b: Body)
    ensures |Join(BodyFields(b))| == BODY_SIZE && CutBody(Join(BodyFields(b))) == BodyFields(b)
  {
    var f := BodyFields(b);
    hide Join, Split, Sum;
    assert Widths(f) == BODY_WIDTHS;
    SplitJoin(f, []);
    BodyWidthSum();
    assert Join(f) + [] == Join(f);
  }

  /** Every valid body survives print then parse, and has the fixed size. */
  lemma BodyPrintParse(b: Body)
    requires BodyValid(b)
    ensures CanonicalBody(b).Some? && |CanonicalBody(b).value| == BODY_SIZE
    ensures ParseBody(CanonicalBody(b).value) == Some(b)
  {
    assert BodyFields(b)[0] == BODY_DOMAIN;
    hide BodyFields, BodyValid, BodyOfFields, CutBody, Join;
    BodyFieldsReadBack(b);
    CutBodyReadsBack(b);
  }

  /** Whatever parses, prints to the very same bytes. */
  lemma BodyParsePrint(data: seq<byte>)
    requires ParseBody(data).Some?
    ensures BodyValid(ParseBody(data).value)
    ensures CanonicalBody(ParseBody(data).value) == Some(data)
  {
    hide BodyFields, BodyValid, BodyOfFields, CutBody, Join;
    BodyFieldsWriteBack(CutBody(data));
  }

  // ---- The mutual voucher ------------------------------------------------------------------

  predicate SignatureValid(c: Crypto, s: seq<byte>) {
    0 < |s| <= MAX_SIGNATURE && c.derSignature(s)
  }

  predicate VoucherValid(c: Crypto, v: Voucher) {
    BodyValid(v.body) && SignatureValid(c, v.payerSignature) && SignatureValid(c, v.relaySignature)
  }

  function Prefixed(s: seq<byte>): (r: seq<byte>) { BigEndian(|s|, 2) + s }

  function VoucherId(c: Crypto, v: Voucher): (r: Option<Digest>)
  {
    if !VoucherValid(c, v) then None
    else
      var body := c.sha256(CanonicalBody(v.body).value);
      Some(c.sha256(ID_DOMAIN + body + Prefixed(v.payerSignature) + Prefixed(v.relaySignature)))
  }

  function CanonicalVoucher(c: Crypto, v: Voucher): (r: Option<seq<byte>>)
  {
    if !VoucherValid(c, v) then None
    else Some(WIRE_DOMAIN + CanonicalBody(v.body).value + Prefixed(v.payerSignature) + Prefixed(v.relaySignature))
  }

  /** A signature read at an offset, with the offset behind it. */
  function ReadSignature(c: Crypto, data: seq<byte>, offset: nat): (r: Option<(seq<byte>, nat)>)
    requires offset <= |data|
    ensures r.Some? ==> offset + 2 <= r.value.1 <= |data|
  {
    if |data| - offset < 2 then None
    else
      var length := FromBigEndian(data[offset..offset + 2]);
      if length == 0 || length > MAX_SIGNATURE || |data| - offset - 2 < length then None
      else
        var s := data[offset + 2..offset + 2 + length];
        if SignatureValid(c, s) then Some((s, offset + 2 + length)) else None
  }

  function ParseVoucher(c: Crypto, data: seq<byte>): (r: Option<Voucher>)
  {
    var start := |WIRE_DOMAIN|;
    if |data| < start + BODY_SIZE + 4 || data[..start] != WIRE_DOMAIN then None
    else
      match ParseBody(data[start..start + BODY_SIZE])
      case None => None
      case Some(body) =>
        match ReadSignature(c, data, start + BODY_SIZE)
        case None => None
        case Some(payer) =>
          match ReadSignature(c, data, payer.1)
          case None => None
          case Some(relay) =>
            if relay.1 != |data| then None else Some(Voucher(body, payer.0, relay.0))
  }

  lemma ReadPrefixed(c: Crypto, pre: seq<byte>, s: seq<byte>, post: seq<byte>)
    requires SignatureValid(c, s)
    ensures ReadSignature(c, pre + Prefixed(s) + post, |pre|) == Some((s, |pre| + 2 + |s|))
  {
    var data, length := pre + Prefixed(s) + post, BigEndian(|s|, 2);
    Capacities();
    BigEndianReadsBack(|s|, 2);
    hide BigEndian, FromBigEndian;
    assert data == pre + length + (s + post);
    Middle(pre, length, s + post);
    assert data == (pre + length) + s + post;
    Middle(pre + length, s, post);
  }

  lemma ReadSignaturePrints(c: Crypto, data: seq<byte>, offset: nat)
    requires offset <= |data| && ReadSignature(c, data, offset).Some?
    ensures var r := ReadSignature(c, data, offset).value;
            SignatureValid(c, r.0) && data[offset..r.1] == Prefixed(r.0)
  {
    var r := ReadSignature(c, data, offset).value;
    BigEndianWritesBack(data[offset..offset + 2]);
    assert data[offset..r.1] == data[offset..offset + 2] + data[offset + 2..r.1];
  }

  /** Every valid voucher survives print then parse. */
  lemma VoucherPrintParse(c: Crypto, v: Voucher)
    requires VoucherValid(c, v)
    ensures CanonicalVoucher(c, v).Some?
    ensures ParseVoucher(c, CanonicalVoucher(c, v).value) == Some(v)
  {
    BodyPrintParse(v.body);
    var body := CanonicalBody(v.body).value;
    var payer, relay := Prefixed(v.payerSignature), Prefixed(v.relaySignature);
    var data := CanonicalVoucher(c, v).value;
    hide ReadSignature, ParseBody, CanonicalBody;
    assert data == WIRE_DOMAIN + body + (payer + relay);
    Middle(WIRE_DOMAIN, body, payer + relay);
    ReadPrefixed(c, WIRE_DOMAIN + body, v.payerSignature, relay);
    ReadPrefixed(c, WIRE_DOMAIN + body + payer, v.relaySignature, []);
    assert data == WIRE_DOMAIN + body + payer + relay + [];
  }

  /** A byte string that parses as a voucher is the canonical print of that voucher. */
  lemma VoucherParsePrint(c: Crypto, data: seq<byte>)
    requires ParseVoucher(c, data).Some?
    ensures VoucherValid(c, ParseVoucher(c, data).value)
    ensures CanonicalVoucher(c, ParseVoucher(c, data).value) == Some(data)
  {
    var start := |WIRE_DOMAIN|;
    var middle := start + BODY_SIZE;
    hide ReadSignature, ParseBody, CanonicalBody, BodyValid;
    BodyParsePrint(data[start..middle]);
    assert BodyValid(ParseBody(data[start..middle]).value);
    ReadSignaturePrints(c, data, middle);
    var payer := ReadSignature(c, data, middle).value;
    ReadSignaturePrints(c, data, payer.1);
    assert data == data[..start] + data[start..middle] + data[middle..payer.1] + data[payer.1..];
    assert data[payer.1..] == data[payer.1..|data|];
  }

  // ---- Chains of vouchers ------------------------------------------------------------------

  predicate SameBindings(a: Body, b: Body) {
    && a.version == b.version && a.session == b.session && a.payer == b.payer && a.relay == b.relay
    && a.direction == b.direction && a.policy == b.policy && a.authorized == b.authorized
  }

  /** Why a voucher is not the successor of another. */
  datatype Objection =
    | BadPredecessor | BadSuccessor | WrongSequence | WrongPredecessor | ChangedBindings
    | TotalNotHigher | RecordNotHigher | WindowExceeded | SameRecordSet

  /** The first objection, if there is one. */
  function ValidateSuccessor(c: Crypto, previous: Voucher, current: Voucher): (r: Option<Objection>) {
    var a, b := previous.body, current.body;
    if VoucherId(c, previous).None? then Some(BadPredecessor)
    else if VoucherId(c, current).None? then Some(BadSuccessor)
    else if a.sequence == MAX_SEQUENCE || b.sequence != a.sequence + 1 then Some(WrongSequence)
    else if b.previous != VoucherId(c, previous).value then Some(WrongPredecessor)
    else if !SameBindings(a, b) then Some(ChangedBindings)
    else if b.cumulative <= a.cumulative then Some(TotalNotHigher)
    else if b.lastRecordSequence <= a.lastRecordSequence then Some(RecordNotHigher)
    else if b.cumulative - a.cumulative > WINDOW_BYTES then Some(WindowExceeded)
    else if b.recordSet == a.recordSet then Some(SameRecordSet)
    else None
  }

  predicate IsSuccessor(c: Crypto, previous: Voucher, current: Voucher) {
    ValidateSuccessor(c, previous, current).None?
  }

  /** A channel as the inspection accepts it: its genesis voucher, then successors. */
  predicate ChainAccepted(c: Crypto, chain: seq<Voucher>) {
    chain != [] ==>
      && VoucherId(c, chain[0]).Some?
      && chain[0].body.sequence == 1
      && chain[0].body.previous == ZERO_DIGEST
      && forall i :: 1 <= i < |chain| ==> IsSuccessor(c, chain[i - 1], chain[i])
  }

  /** Every position of an accepted chain is fixed by the chain rule, and the cumulative total
      grows by 1 to WINDOW_BYTES bytes a step, inside one authorization. */
  lemma {:induction false} ChainPositions(c: Crypto, chain: seq<Voucher>, i: nat, j: nat)
    requires ChainAccepted(c, chain) && i <= j < |chain|
    ensures chain[j].body.sequence == j + 1
    ensures SameBindings(chain[i].body, chain[j].body)
    ensures j - i <= chain[j].body.cumulative - chain[i].body.cumulative <= (j - i) * WINDOW_BYTES
    ensures j - i <= chain[j].body.lastRecordSequence - chain[i].body.lastRecordSequence
    ensures 0 < chain[j].body.cumulative <= chain[j].body.authorized
    ensures chain[j].body.cumulative <= WindowCeiling(j + 1)
    decreases j
  {
    if i < j {
      ChainPositions(c, chain, i, j - 1);
      assert IsSuccessor(c, chain[j - 1], chain[j]);
    } else if 0 < j {
      ChainPositions(c, chain, j - 1, j - 1);
      assert IsSuccessor(c, chain[j - 1], chain[j]);
    }
  }

  // ---- Settlement --------------------------------------------------------------------------

  datatype Shares = Shares(relay: nat, ca: nat)

  /** The cumulative 95/5 totals; None is the out-of-range error. */
  function CumulativeTotals(cumulative: uint64): (r: Option<Shares>)
  {
    if cumulative > MAX_BILLABLE then None
    else
      var quotient, remainder := cumulative / 100, cumulative % 100;
      var relay := quotient * 95 + remainder * 95 / 100;
      Some(Shares(relay, cumulative - relay))
  }

  /** The split of quotient and remainder is the exact floor, nothing is lost, and every
      intermediate value of the computation fits in 63 bits. */
  lemma TotalsAreExact(cumulative: uint64)
    ensures CumulativeTotals(cumulative).Some? <==> cumulative <= MAX_BILLABLE
    ensures CumulativeTotals(cumulative).Some? ==>
              var s := CumulativeTotals(cumulative).value;
              && s.relay == 95 * cumulative / 100
              && s.relay + s.ca == cumulative
              && s.ca == (5 * cumulative + 99) / 100
              && cumulative / 100 * 95 <= MAX_INT64 && cumulative % 100 * 95 <= MAX_INT64 && s.relay <= MAX_INT64
  {
    var q, r := cumulative / 100, cumulative % 100;
    assert cumulative == 100 * q + r;
    assert 95 * cumulative == 100 * (95 * q) + 95 * r;
    assert 5 * cumulative + 99 == 100 * (5 * q) + (5 * r + 99);
  }

  /** Watermarks a settlement may be made at: they never go back and stay in range. */
  predicate Watermarks(marks: seq<uint64>) {
    && (forall i :: 0 <= i < |marks| ==> marks[i] <= MAX_BILLABLE)
    && (forall i, j :: 0 <= i < j < |marks| ==> marks[i] <= marks[j])
  }

  /** What is paid when each watermark is settled against the one before it. */
  function Paid(from: uint64, marks: seq<uint64>): (s: (int, int))
    requires from <= MAX_BILLABLE && Watermarks(marks)
    decreases |marks|
  {
    if marks == [] then (0, 0)
    else
      var a, b := CumulativeTotals(from).value, CumulativeTotals(marks[0]).value;
      var rest := Paid(marks[0], marks[1..]);
      (b.relay - a.relay + rest.0, b.ca - a.ca + rest.1)
  }

  /** Both shares are monotone in the cumulative total, so no single payment is negative. */
  lemma TotalsAreMonotone(a: uint64, b: uint64)
    requires a <= b <= MAX_BILLABLE
    ensures CumulativeTotals(a).value.relay <= CumulativeTotals(b).value.relay
    ensures CumulativeTotals(a).value.ca <= CumulativeTotals(b).value.ca
  {
    TotalsAreExact(a);
    TotalsAreExact(b);
  }

  /** Settling in any grouping pays exactly the difference of the two cumulative splits. */
  lemma {:induction false} PaidTelescopes(from: uint64, marks: seq<uint64>)
    requires from <= MAX_BILLABLE && Watermarks(marks)
    ensures var last := if marks == [] then from else marks[|marks| - 1];
            && Paid(from, marks).0 == 95 * last / 100 - 95 * from / 100
            && Paid(from, marks).1 == (last - 95 * last / 100) - (from - 95 * from / 100)
    decreases |marks|
  {
    if marks != [] {
      TotalsAreExact(from);
      TotalsAreExact(marks[0]);
      PaidTelescopes(marks[0], marks[1..]);
    }
  }

  /** Indices at which a chain of length n is settled: increasing, and the last voucher is one. */
  predicate Grouping(g: seq<nat>, n: nat) {
    && g != [] && g[|g| - 1] == n - 1
    && (forall i :: 0 <= i < |g| ==> g[i] < n)
    && (forall i, j :: 0 <= i < j < |g| ==> g[i] < g[j])
  }

  function MarksOf(chain: seq<Voucher>, g: seq<nat>): (m: seq<uint64>)
    requires forall i :: 0 <= i < |g| ==> g[i] < |chain|
    ensures |m| == |g| && forall i :: 0 <= i < |g| ==> m[i] == chain[g[i]].body.cumulative
  {
    seq(|g|, i requires 0 <= i < |g| => chain[g[i]].body.cumulative)
  }

  /** However an accepted chain is batched, the relay is paid floor(95c/100) of its last total c
      and the CA the rest. */
  lemma ChainSettlement(c: Crypto, chain: seq<Voucher>, g: seq<nat>)
    requires ChainAccepted(c, chain) && chain != [] && Grouping(g, |chain|)
    ensures Watermarks(MarksOf(chain, g))
    ensures var total := chain[|chain| - 1].body.cumulative;
            Paid(0, MarksOf(chain, g)) == (95 * total / 100, total - 95 * total / 100)
  {
    hide ChainAccepted, Paid;
    var marks := MarksOf(chain, g);
    forall i, j | 0 <= i <= j < |marks| ensures marks[i] <= marks[j] <= MAX_BILLABLE {
      ChainPositions(c, chain, g[i], g[j]);
    }
    PaidTelescopes(0, marks);
  }
}
