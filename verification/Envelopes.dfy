/** Settlement envelopes: a voucher with the payer's settlement identity, and its canonical form
    on disk. SHA-256, the JSON encoding and the settlement-identity check are parameters. */
module Envelopes {
  import opened Sequences
  import opened Bytes
  import opened Voucher

  const ENVELOPE_DOMAIN := Ascii("BNFS/BILLING-SETTLEMENT-ENVELOPE/V1")

  datatype Envelope = Envelope(voucher: Voucher, payerKey: string, payerBillingKey: string,
      payerCert: Option<seq<byte>>)

  datatype DiskEnvelope = DiskEnvelope(voucher: seq<byte>, payerKey: string, payerBillingKey: string,
      payerCert: Option<seq<byte>>)

  datatype Platform = Platform(
    crypto: Crypto,
    marshal: DiskEnvelope -> seq<byte>,
    unmarshal: seq<byte> -> Option<DiskEnvelope>,
    identityOk: (Envelope, bool) -> bool)

  /** What is assumed of the parameters: JSON reads back what it wrote and never writes nothing,
      and an identity that passes the strict check passes the lenient one. */
  ghost predicate Sound(p: Platform) {
    && (forall d :: p.unmarshal(p.marshal(d)) == Some(d) && p.marshal(d) != [])
    && (forall e :: p.identityOk(e, true) ==> p.identityOk(e, false))
  }

  datatype Encoded = Encoded(bytes: seq<byte>, envelope: Envelope)

  function EncodeEnvelope(p: Platform, e: Envelope, identityRequired: bool): (r: Option<Encoded>)
  {
    match CanonicalVoucher(p.crypto, e.voucher)
    case None => None
    case Some(voucherBytes) =>
      match ParseVoucher(p.crypto, voucherBytes)
      case None => None
      case Some(v) =>
        var canonical := e.(voucher := v);
        if !p.identityOk(canonical, identityRequired) then None
        else
          var disk := DiskEnvelope(voucherBytes, e.payerKey, e.payerBillingKey, e.payerCert);
          Some(Encoded(ENVELOPE_DOMAIN + p.marshal(disk), canonical))
  }

  function DecodeEnvelope(p: Platform, data: seq<byte>): (r: Option<Envelope>)
  {
    if |data| <= |ENVELOPE_DOMAIN| || data[..|ENVELOPE_DOMAIN|] != ENVELOPE_DOMAIN then None
    else
      match p.unmarshal(data[|ENVELOPE_DOMAIN|..])
      case None => None
      case Some(disk) =>
        match ParseVoucher(p.crypto, disk.voucher)
        case None => None
        case Some(v) =>
          var e := Envelope(v, disk.payerKey, disk.payerBillingKey, disk.payerCert);
          if !p.identityOk(e, false) then None
          else
            match EncodeEnvelope(p, e, false)
            case None => None
            case Some(again) => if again.bytes == data then Some(e) else None
  }

  /** What was encoded decodes to the same envelope, and its voucher has an identifier. */
  lemma EnvelopeReadsBack(p: Platform, e: Envelope, identityRequired: bool)
    requires Sound(p) && EncodeEnvelope(p, e, identityRequired).Some?
    ensures var r := EncodeEnvelope(p, e, identityRequired).value;
            && r.envelope == e
            && DecodeEnvelope(p, r.bytes) == Some(e)
            && VoucherId(p.crypto, e.voucher).Some?
  {
    VoucherPrintParse(p.crypto, e.voucher);
    var r := EncodeEnvelope(p, e, identityRequired).value;
    var disk := DiskEnvelope(CanonicalVoucher(p.crypto, e.voucher).value, e.payerKey, e.payerBillingKey, e.payerCert);
    assert p.marshal(disk) != [];
    assert r.bytes[..|ENVELOPE_DOMAIN|] == ENVELOPE_DOMAIN;
    assert r.bytes[|ENVELOPE_DOMAIN|..] == p.marshal(disk);
    assert p.identityOk(e, false);
    assert EncodeEnvelope(p, e, false) == Some(r);
  }

  /** An envelope on disk: the domain, and the JSON of its printed voucher and the identity of its payer. */
  function OnDisk(p: Platform, e: Envelope): (b: seq<byte>)
    requires VoucherValid(p.crypto, e.voucher)
  {
    Ascii("BNFS/BILLING-SETTLEMENT-ENVELOPE/V1")
    + p.marshal(DiskEnvelope(CanonicalVoucher(p.crypto, e.voucher).value, e.payerKey, e.payerBillingKey, e.payerCert))
  }

  /** An envelope can be encoded exactly when its voucher is valid and its identity passes the check. */
  lemma EncodesExactly(p: Platform, e: Envelope, identityRequired: bool)
    ensures EncodeEnvelope(p, e, identityRequired) ==
              if VoucherValid(p.crypto, e.voucher) && p.identityOk(e, identityRequired)
              then Some(Encoded(OnDisk(p, e), e)) else None
  {
    if VoucherValid(p.crypto, e.voucher) { VoucherPrintParse(p.crypto, e.voucher); }
    hide VoucherValid, ParseVoucher;
  }

  /** Bytes are an envelope exactly when they are what that envelope is encoded to: no envelope has two encodings. */
  lemma DecodesExactly(p: Platform, data: seq<byte>, e: Envelope)
    requires Sound(p)
    ensures DecodeEnvelope(p, data) == Some(e) <==>
              VoucherValid(p.crypto, e.voucher) && p.identityOk(e, false) && data == OnDisk(p, e)
  {
    EncodesExactly(p, e, false);
    if VoucherValid(p.crypto, e.voucher) && p.identityOk(e, false) && data == OnDisk(p, e) {
      EnvelopeReadsBack(p, e, false);
    }
    hide Sound, EncodeEnvelope, ParseVoucher, CanonicalVoucher;
  }
}
