/** Why a voucher stands for the whole chain before it: its body names the identifier of its predecessor, and
    an identifier is a digest from which no other voucher can be read. */
module VoucherLinks {
  import opened Sequences
  import opened Bytes
  import opened Voucher

  /** Two different inputs with one digest. */
  ghost predicate Collision(c: Crypto, x: seq<byte>, y: seq<byte>) { x != y && c.sha256(x) == c.sha256(y) }

  // ---- Identifiers -------------------------------------------------------------------------

  /** A signature with its length before it. */
  function Sized(s: seq<byte>): (b: seq<byte>) { [|s| / 256 % 256, |s| % 256] + s }

  /** What the identifier of a voucher is taken over: the domain, the digest of the body as it is printed, and
      both signatures. */
  function Identified(c: Crypto, v: Voucher): (b: seq<byte>)
    requires VoucherValid(c, v)
  {
    Ascii("BNFS/MUTUAL-VOUCHER/V1") + c.sha256(CanonicalBody(v.body).value)
    + Sized(v.payerSignature) + Sized(v.relaySignature)
  }

  lemma PrefixedIsSized(s: seq<byte>)
    ensures Prefixed(s) == Sized(s)
  {
    var n := |s|;
    assert BigEndian(n / 256 / 256, 0) == [];
    assert BigEndian(n / 256, 1) == [] + [n / 256 % 256];
    assert BigEndian(n, 2) == BigEndian(n / 256, 1) + [n % 256];
  }

  /** A signature is at most 72 bytes, not empty, and in the form it has to have. */
  predicate Signature(c: Crypto, s: seq<byte>) { 0 < |s| <= 72 && c.derSignature(s) }

  /** A voucher has an identifier exactly when it is valid: the digest of these bytes. */
  lemma IdExactly(c: Crypto, v: Voucher)
    ensures VoucherId(c, v).Some? <==>
              BodyValid(v.body) && Signature(c, v.payerSignature) && Signature(c, v.relaySignature)
    ensures VoucherId(c, v).Some? ==> VoucherId(c, v).value == c.sha256(Identified(c, v))
  {
    PrefixedIsSized(v.payerSignature);
    PrefixedIsSized(v.relaySignature);
    hide CanonicalBody, Prefixed, Sized;
  }

  lemma SizedOnce(s: seq<byte>, x: seq<byte>, t: seq<byte>, y: seq<byte>)
    requires |s| < 0x1_0000 && |t| < 0x1_0000 && Sized(s) + x == Sized(t) + y
    ensures s == t && x == y
  {
    var a, b := Sized(s) + x, Sized(t) + y;
    assert a[0] == b[0] && a[1] == b[1];
    assert |s| == |s| / 256 % 256 * 256 + |s| % 256;
    assert |s| == |t|;
    assert s == a[2..2 + |s|] && t == b[2..2 + |s|];
    assert x == a[2 + |s|..] && y == b[2 + |s|..];
  }

  lemma IdentifiedOnce(c: Crypto, v: Voucher, w: Voucher)
    requires VoucherValid(c, v) && VoucherValid(c, w) && Identified(c, v) == Identified(c, w)
    ensures c.sha256(CanonicalBody(v.body).value) == c.sha256(CanonicalBody(w.body).value)
    ensures v.payerSignature == w.payerSignature && v.relaySignature == w.relaySignature
  {
    hide BodyFields, Join, BodyValid, Sized;
    var domain := Ascii("BNFS/MUTUAL-VOUCHER/V1");
    var d, e := c.sha256(CanonicalBody(v.body).value), c.sha256(CanonicalBody(w.body).value);
    var a, b := Sized(v.payerSignature), Sized(w.payerSignature);
    var x, y := Sized(v.relaySignature), Sized(w.relaySignature);
    assert Identified(c, v) == domain + d + (a + x) && Identified(c, w) == domain + e + (b + y);
    Middle(domain, d, a + x);
    Middle(domain, e, b + y);
    SizedOnce(v.payerSignature, x, w.payerSignature, y);
    assert x + [] == x && y + [] == y;
    SizedOnce(v.relaySignature, [], w.relaySignature, []);
  }

  lemma BodiesAgree(a: Body, b: Body)
    requires BodyValid(a) && BodyValid(b) && CanonicalBody(a) == CanonicalBody(b)
    ensures a == b
  {
    BodyPrintParse(a);
    BodyPrintParse(b);
    hide CanonicalBody, ParseBody, BodyValid;
  }

  /** Equal identifiers are of equal vouchers, or they exhibit a collision. */
  lemma IdBinds(c: Crypto, v: Voucher, w: Voucher) returns (x: seq<byte>, y: seq<byte>)
    requires VoucherId(c, v).Some? && VoucherId(c, v) == VoucherId(c, w)
    ensures v == w || Collision(c, x, y)
  {
    IdExactly(c, v);
    IdExactly(c, w);
    hide VoucherId, BodyValid, Identified;
    x, y := Identified(c, v), Identified(c, w);
    if x == y {
      IdentifiedOnce(c, v, w);
      x, y := CanonicalBody(v.body).value, CanonicalBody(w.body).value;
      if x == y { BodiesAgree(v.body, w.body); }
    }
  }

  // ---- Successors --------------------------------------------------------------------------

  /** A voucher is accepted as the successor of another exactly when both are valid, its body differs from that of
      the other in six fields only, of these the sequence is the next one, the predecessor is named by its
      identifier, the total is higher by at most 1 MiB, the last record is later and the record set another. */
  lemma SuccessorExactly(c: Crypto, v: Voucher, w: Voucher)
    ensures ValidateSuccessor(c, v, w) == None <==>
            && VoucherValid(c, v) && VoucherValid(c, w)
            && w.body == v.body.(sequence := v.body.sequence + 1, previous := c.sha256(Identified(c, v)),
                                 cumulative := w.body.cumulative, lastRecord := w.body.lastRecord,
                                 lastRecordSequence := w.body.lastRecordSequence, recordSet := w.body.recordSet)
            && 0 < w.body.cumulative - v.body.cumulative <= 1024 * 1024
            && w.body.lastRecordSequence > v.body.lastRecordSequence && w.body.recordSet != v.body.recordSet
  {
    IdExactly(c, v);
    IdExactly(c, w);
    hide VoucherId, Identified, CanonicalBody;
  }

  /** In an accepted chain every voucher but the first names the identifier of the one before it. */
  lemma ChainLinks(c: Crypto, chain: seq<Voucher>, j: nat)
    requires ChainAccepted(c, chain) && 0 < j < |chain|
    ensures VoucherValid(c, chain[j - 1]) && chain[j].body.previous == c.sha256(Identified(c, chain[j - 1]))
    ensures VoucherId(c, chain[j - 1]) == Some(chain[j].body.previous)
  {
    assert IsSuccessor(c, chain[j - 1], chain[j]);
    SuccessorExactly(c, chain[j - 1], chain[j]);
    IdExactly(c, chain[j - 1]);
    hide VoucherId, Identified, ValidateSuccessor, BodyValid;
  }

  /** A chain is accepted exactly when its first voucher is a valid one of sequence 1 and every other a successor of the
      one before it. */
  lemma ChainExactly(c: Crypto, chain: seq<Voucher>)
    ensures ChainAccepted(c, chain) <==>
            && (chain != [] ==> VoucherValid(c, chain[0]) && chain[0].body.sequence == 1)
            && forall i, j :: 0 <= i && j == i + 1 < |chain| ==> ValidateSuccessor(c, chain[i], chain[j]) == None
  {
    if chain != [] { IdExactly(c, chain[0]); }
    hide VoucherId, Identified, ValidateSuccessor;
    if ChainAccepted(c, chain) {
      forall i, j | 0 <= i && j == i + 1 < |chain| ensures ValidateSuccessor(c, chain[i], chain[j]) == None {
        assert IsSuccessor(c, chain[j - 1], chain[j]);
      }
    }
  }

  lemma ChainPrefix(c: Crypto, chain: seq<Voucher>, n: nat)
    requires ChainAccepted(c, chain) && n <= |chain|
    ensures ChainAccepted(c, chain[..n])
  {
    hide IsSuccessor, VoucherId;
    forall i | 1 <= i < n ensures IsSuccessor(c, chain[..n][i - 1], chain[..n][i]) {
      assert IsSuccessor(c, chain[i - 1], chain[i]);
    }
  }

  lemma SameLength(c: Crypto, a: seq<Voucher>, b: seq<Voucher>)
    requires ChainAccepted(c, a) && ChainAccepted(c, b) && a != [] && b != [] && a[|a| - 1] == b[|b| - 1]
    ensures |a| == |b|
  {
    hide ChainAccepted;
    ChainPositions(c, a, |a| - 1, |a| - 1);
    ChainPositions(c, b, |b| - 1, |b| - 1);
  }

  lemma SamePredecessor(c: Crypto, a: seq<Voucher>, b: seq<Voucher>, n: nat) returns (x: seq<byte>, y: seq<byte>)
    requires ChainAccepted(c, a) && ChainAccepted(c, b) && 0 < n < |a| && n < |b| && a[n] == b[n]
    ensures a[n - 1] == b[n - 1] || Collision(c, x, y)
    ensures ChainAccepted(c, a[..n]) && ChainAccepted(c, b[..n])
  {
    hide ChainAccepted, VoucherId, VoucherValid;
    ChainLinks(c, a, n);
    ChainLinks(c, b, n);
    x, y := IdBinds(c, a[n - 1], b[n - 1]);
    ChainPrefix(c, a, n);
    ChainPrefix(c, b, n);
  }

  /** The last voucher of an accepted chain stands for the chain: two accepted chains with the same last voucher are
      the same from the first on, or they exhibit a collision. */
  lemma {:induction false} LastBindsChain(c: Crypto, a: seq<Voucher>, b: seq<Voucher>)
    returns (x: seq<byte>, y: seq<byte>)
    requires ChainAccepted(c, a) && ChainAccepted(c, b) && a != [] && b != [] && a[|a| - 1] == b[|b| - 1]
    ensures a == b || Collision(c, x, y)
    decreases |a|
  {
    hide ChainAccepted, Collision;
    SameLength(c, a, b);
    var n := |a| - 1;
    assert a == a[..n] + [a[n]] && b == b[..n] + [b[n]];
    x, y := [], [];
    if n > 0 {
      x, y := SamePredecessor(c, a, b, n);
      if a[n - 1] == b[n - 1] {
        x, y := LastBindsChain(c, a[..n], b[..n]);
      }
    }
  }

  // ---- Which bytes are a body --------------------------------------------------------------

  predicate IsZero(b: seq<byte>) { forall i :: 0 <= i < |b| ==> b[i] == 0 }

  /** The body at fixed places of 285 bytes. */
  function Placed(d: seq<byte>): (b: Body)
    requires |d| == 285
  {
    Capacities();
    Body(FromBigEndian(d[26..28]), d[28..60], d[60..92], d[92..124], d[124], FromBigEndian(d[125..133]), d[133..165],
         FromBigEndian(d[165..173]), d[173..205], FromBigEndian(d[205..213]), d[213..245], d[245..277],
         FromBigEndian(d[277..285]))
  }

  /** What is asked of a body: three parties of which none is missing and payer and relay differ, a direction, a
      sequence of which only the first has no predecessor, a total within the authorization and the ceiling of
      1 MiB for every voucher so far, and a last record, record set and policy. */
  predicate Usable(b: Body) {
    && b.version == 1 && !IsZero(b.session) && !IsZero(b.payer) && !IsZero(b.relay) && b.payer != b.relay
    && (b.direction == 1 || b.direction == 2)
    && 0 < b.sequence < 0x8000_0000_0000_0000 && (b.sequence == 1 <==> IsZero(b.previous))
    && 0 < b.cumulative <= b.authorized < 0x8000_0000_0000_0000 && b.cumulative <= b.sequence * 1024 * 1024
    && 0 < b.lastRecordSequence < 0x8000_0000_0000_0000
    && !IsZero(b.lastRecord) && !IsZero(b.recordSet) && !IsZero(b.policy)
  }

  lemma ZeroOnly(d: Digest)
    ensures IsZero(d) <==> d == ZERO_DIGEST
  {
  }

  lemma UsableIsValid(b: Body)
    ensures Usable(b) <==> BodyValid(b)
  {
    ZeroOnly(b.session);
    ZeroOnly(b.payer);
    ZeroOnly(b.relay);
    ZeroOnly(b.previous);
    ZeroOnly(b.lastRecord);
    ZeroOnly(b.recordSet);
    ZeroOnly(b.policy);
    hide IsZero;
  }

  const OFFSETS: seq<nat> := [0, 26, 28, 60, 92, 124, 125, 133, 165, 173, 205, 213, 245, 277]

  lemma BodyOffsets()
    ensures Offsets(BODY_WIDTHS, OFFSETS)
  {
  }

  lemma CutIsSplit(d: seq<byte>)
    requires |d| == 285
    ensures Sum(BODY_WIDTHS) == 285 && CutBody(d) == Split(d, BODY_WIDTHS)
  {
    hide Sum, Split, Join;
    BodyWidthSum();
  }

  lemma CutField(d: seq<byte>, k: nat)
    requires |d| == 285 && k < 14
    ensures OFFSETS[k] + BODY_WIDTHS[k] <= 285 && CutBody(d)[k] == d[OFFSETS[k]..OFFSETS[k] + BODY_WIDTHS[k]]
  {
    hide Sum, Split, CutBody, BodyLayout, Join, Offsets;
    BodyOffsets();
    CutIsSplit(d);
    FieldAt(d, BODY_WIDTHS, OFFSETS, k);
  }

  lemma CutIsPlaced(d: seq<byte>)
    requires |d| == 285
    ensures CutBody(d)[0] == d[..26] && BodyOfFields(CutBody(d)) == Placed(d)
  {
    hide CutBody, FromBigEndian, Join;
    forall k | 0 <= k < 14
      ensures OFFSETS[k] + BODY_WIDTHS[k] <= 285 && CutBody(d)[k] == d[OFFSETS[k]..OFFSETS[k] + BODY_WIDTHS[k]] {
      CutField(d, k);
    }
  }

  /** Bytes are accepted as a body exactly when they are 285, begin with the domain and hold a usable body at these
      places; they then mean that body. */
  lemma ParsesExactly(d: seq<byte>)
    ensures ParseBody(d).Some? <==> |d| == 285 && d[..26] == Ascii("BNFS/USAGE-VOUCHER-BODY/V1") && Usable(Placed(d))
    ensures ParseBody(d).Some? ==> ParseBody(d).value == Placed(d)
  {
    if |d| == 285 {
      CutIsPlaced(d);
      UsableIsValid(Placed(d));
    }
    hide CutBody, BodyOfFields, Placed, Usable, BodyValid;
  }

  /** A body is printed exactly when it is usable, as the bytes that are accepted for it. */
  lemma PrintsExactly(b: Body)
    ensures CanonicalBody(b).Some? <==> Usable(b)
    ensures CanonicalBody(b).Some? ==>
              var d := CanonicalBody(b).value;
              |d| == 285 && d[..26] == Ascii("BNFS/USAGE-VOUCHER-BODY/V1") && Placed(d) == b
  {
    UsableIsValid(b);
    if BodyValid(b) {
      BodyPrintParse(b);
      ParsesExactly(CanonicalBody(b).value);
    }
    hide BodyValid, Usable, ParseBody, Placed, Join, BodyFields;
  }

  /** Bytes are a voucher exactly when they are the domain, its printed body and both signatures with their lengths. */
  lemma WireExactly(c: Crypto, data: seq<byte>, v: Voucher)
    ensures ParseVoucher(c, data) == Some(v) <==>
            && BodyValid(v.body) && Signature(c, v.payerSignature) && Signature(c, v.relaySignature)
            && data == Ascii("BNFS/MUTUAL-VOUCHER-WIRE/V1") + CanonicalBody(v.body).value + Sized(v.payerSignature)
                       + Sized(v.relaySignature)
  {
    PrefixedIsSized(v.payerSignature);
    PrefixedIsSized(v.relaySignature);
    if ParseVoucher(c, data) == Some(v) { VoucherParsePrint(c, data); }
    if VoucherValid(c, v) { VoucherPrintParse(c, v); }
    hide ParseVoucher, Prefixed, Sized, BodyValid, Join, BodyFields;
  }
}
