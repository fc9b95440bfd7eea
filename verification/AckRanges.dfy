/** ACK ranges: lists of closed intervals of frame sequence numbers, the set of numbers they
    cover, how a receiver builds them from what it holds, and their form on the wire. */
module AckRanges {
  import opened Sequences
  import opened Bytes

  datatype AckRange = AckRange(start: uint32, end: uint32)

  /** Some range of the list holds the sequence number. */
  predicate Covers(ranges: seq<AckRange>, s: int) {
    exists i :: 0 <= i < |ranges| && ranges[i].start <= s <= ranges[i].end
  }

  /** In order, without overlap, below the frame count; neighbours may touch. */
  predicate Ordered(ranges: seq<AckRange>, total: int) {
    && (forall i :: 0 <= i < |ranges| ==> ranges[i].start <= ranges[i].end < total)
    && (forall i, j :: 0 <= i < j < |ranges| ==> ranges[i].end < ranges[j].start)
  }

  /** In order with a gap between neighbours: no two ranges could be one. */
  predicate Maximal(ranges: seq<AckRange>) {
    && (forall i :: 0 <= i < |ranges| ==> ranges[i].start <= ranges[i].end)
    && (forall i, j :: 0 <= i < j < |ranges| ==> ranges[i].end + 1 < ranges[j].start)
  }

  predicate Ascending(seqs: seq<uint32>) {
    forall i, j :: 0 <= i < j < |seqs| ==> seqs[i] < seqs[j]
  }

  /** One more number: the last run grows, or a new run starts. */
  function AddSeq(ranges: seq<AckRange>, s: uint32): (r: seq<AckRange>)
  {
    var n := |ranges| - 1;
    if ranges != [] && ranges[n].end + 1 == s then ranges[..n] + [AckRange(ranges[n].start, s)]
    else ranges + [AckRange(s, s)]
  }

  function Runs(seqs: seq<uint32>): (r: seq<AckRange>)
  {
    if seqs == [] then [] else AddSeq(Runs(seqs[..|seqs| - 1]), seqs[|seqs| - 1])
  }

  lemma CoversAppend(ranges: seq<AckRange>, r: AckRange, s: int)
    ensures Covers(ranges + [r], s) <==> Covers(ranges, s) || r.start <= s <= r.end
  {
    var more := ranges + [r];
    assert more[|ranges|] == r;
    assert forall i :: 0 <= i < |ranges| ==> more[i] == ranges[i];
  }

  lemma AddSeqCovers(ranges: seq<AckRange>, x: uint32, s: int)
    requires Maximal(ranges)
    ensures Covers(AddSeq(ranges, x), s) <==> Covers(ranges, s) || s == x
  {
    var n := |ranges| - 1;
    if ranges != [] && ranges[n].end + 1 == x {
      CoversAppend(ranges[..n], AckRange(ranges[n].start, x), s);
      CoversAppend(ranges[..n], ranges[n], s);
      assert ranges[..n] + [ranges[n]] == ranges;
    } else {
      CoversAppend(ranges, AckRange(x, x), s);
    }
  }

  lemma AddSeqMaximal(ranges: seq<AckRange>, x: uint32)
    requires Maximal(ranges) && (ranges == [] || ranges[|ranges| - 1].end < x)
    ensures var r := AddSeq(ranges, x); Maximal(r) && r != [] && r[|r| - 1].end == x
  {
    var n, r := |ranges| - 1, AddSeq(ranges, x);
    forall i, j | 0 <= i < j < |r| ensures r[i].end + 1 < r[j].start {
      if j < n {
        assert ranges[i].end + 1 < ranges[j].start;
      } else if i < n {
        assert ranges[i].end + 1 < ranges[n].start;
      }
    }
  }

  lemma {:induction false} RunsAreMaximal(seqs: seq<uint32>)
    requires Ascending(seqs)
    ensures Maximal(Runs(seqs))
    ensures seqs == [] ==> Runs(seqs) == []
    ensures seqs != [] ==> var r := Runs(seqs); r != [] && r[|r| - 1].end == seqs[|seqs| - 1]
  {
    if seqs != [] {
      var n := |seqs| - 1;
      RunsAreMaximal(seqs[..n]);
      if n > 0 { assert seqs[n - 1] < seqs[n]; }
      AddSeqMaximal(Runs(seqs[..n]), seqs[n]);
    }
  }

  /** The runs of an ascending list cover exactly its members. */
  lemma {:induction false} RunsAreExact(seqs: seq<uint32>, s: int)
    requires Ascending(seqs)
    ensures Covers(Runs(seqs), s) <==> s in seqs
  {
    if seqs != [] {
      var n := |seqs| - 1;
      RunsAreExact(seqs[..n], s);
      RunsAreMaximal(seqs[..n]);
      AddSeqCovers(Runs(seqs[..n]), seqs[n], s);
      assert seqs == seqs[..n] + [seqs[n]];
    }
  }

  lemma RunsStep(seqs: seq<uint32>, i: nat)
    requires i < |seqs|
    ensures Runs(seqs[..i + 1]) == AddSeq(Runs(seqs[..i]), seqs[i])
  {
    assert seqs[..i + 1][..i] == seqs[..i];
  }

  lemma AddSeqLast(ranges: seq<AckRange>, r: AckRange, s: uint32)
    ensures AddSeq(ranges + [r], s) ==
            if s == r.end + 1 then ranges + [AckRange(r.start, s)] else ranges + [r] + [AckRange(s, s)]
  {
    Parts(ranges, [r]);
  }

  /** The maximal runs of an ascending list. */
  method SeqsToRanges(seqs: seq<uint32>) returns (ranges: seq<AckRange>)
    requires Ascending(seqs)
    ensures Maximal(ranges)
    ensures forall s :: Covers(ranges, s) <==> s in seqs
  {
    RunsAreMaximal(seqs);
    forall s ensures Covers(Runs(seqs), s) <==> s in seqs {
      RunsAreExact(seqs, s);
    }
    assert seqs != [] ==> Runs(seqs[..1]) == [AckRange(seqs[0], seqs[0])];
    hide Covers, Maximal, Ascending, Runs, AddSeq;
    ranges := [];
    if seqs == [] { return; }
    var start: int, end: int := seqs[0], seqs[0];
    for i := 1 to |seqs|
      invariant 0 <= start <= end <= MAX_UINT32
      invariant Runs(seqs[..i]) == ranges + [AckRange(start, end)]
    {
      RunsStep(seqs, i);
      AddSeqLast(ranges, AckRange(start, end), seqs[i]);
      if seqs[i] == end + 1 {
        end := seqs[i];
      } else {
        ranges := ranges + [AckRange(start, end)];
        start, end := seqs[i], seqs[i];
      }
    }
    ranges := ranges + [AckRange(start, end)];
    assert seqs[..|seqs|] == seqs;
  }

  lemma CoversItsStart(b: seq<AckRange>)
    requires Maximal(b)
    ensures b != [] ==> Covers(b, b[0].start)
  {
    if b != [] {
      assert b[0].start <= b[0].start <= b[0].end;
    }
  }

  /** A maximal list is determined by what it covers: two receivers holding the same frames send
      the same ACK. */
  lemma {:induction false} MaximalIsUnique(a: seq<AckRange>, b: seq<AckRange>)
    requires Maximal(a) && Maximal(b) && forall s :: Covers(a, s) <==> Covers(b, s)
    ensures a == b
    decreases |a|
  {
    if a == [] {
      CoversItsStart(b);
    } else {
      assert Covers(a, a[0].start);
      assert b != [];
      assert Covers(b, b[0].start) && Covers(b, b[0].end) && Covers(a, a[0].end);
      assert !Covers(a, a[0].end + 1) && !Covers(b, b[0].end + 1);
      assert a[0] == b[0];
      forall s ensures Covers(a[1..], s) <==> Covers(b[1..], s) {
        CoversTail(a, s);
        CoversTail(b, s);
      }
      MaximalIsUnique(a[1..], b[1..]);
    }
  }

  lemma CoversTail(a: seq<AckRange>, s: int)
    requires Maximal(a) && a != []
    ensures Covers(a[1..], s) <==> Covers(a, s) && s > a[0].end
  {
    if Covers(a, s) && s > a[0].end {
      var i :| 0 <= i < |a| && a[i].start <= s <= a[i].end;
      assert a[1..][i - 1] == a[i];
    }
  }

  // ---- On the wire -------------------------------------------------------------------------

  function EncodeEntries(ranges: seq<AckRange>): (b: seq<byte>)
    ensures |b| == 8 * |ranges|
  {
    if ranges == [] then []
    else LittleEndian(ranges[0].start, 4) + LittleEndian(ranges[0].end, 4) + EncodeEntries(ranges[1..])
  }

  function EncodeAckRanges(ranges: seq<AckRange>): (r: Option<seq<byte>>)
    ensures r.Some? <==> |ranges| <= MAX_UINT16
  {
    if |ranges| > MAX_UINT16 then None else Some(LittleEndian(|ranges|, 2) + EncodeEntries(ranges))
  }

  function DecodeEntries(b: seq<byte>, count: nat): (ranges: seq<AckRange>)
    requires 8 * count <= |b|
    ensures |ranges| == count
    decreases count
  {
    if count == 0 then []
    else
      Capacities();
      [AckRange(FromLittleEndian(b[..4]), FromLittleEndian(b[4..8]))] + DecodeEntries(b[8..], count - 1)
  }

  function DecodeAckRanges(b: seq<byte>): (r: Option<seq<AckRange>>)
  {
    if |b| < 2 then None
    else
      var count := FromLittleEndian(b[..2]);
      if |b| < 2 + 8 * count then None else Some(DecodeEntries(b[2..], count))
  }

  lemma {:induction false} EntriesReadBack(ranges: seq<AckRange>)
    ensures DecodeEntries(EncodeEntries(ranges), |ranges|) == ranges
  {
    if ranges != [] {
      EntriesReadBack(ranges[1..]);
      Capacities();
      var b := EncodeEntries(ranges);
      LittleEndianReadsBack(ranges[0].start, 4);
      LittleEndianReadsBack(ranges[0].end, 4);
      assert b[..4] == LittleEndian(ranges[0].start, 4);
      assert b[4..8] == LittleEndian(ranges[0].end, 4);
      assert b[8..] == EncodeEntries(ranges[1..]);
    }
  }

  /** Every encodable list of ranges is read back as it was. */
  lemma AckRangesReadBack(ranges: seq<AckRange>)
    requires |ranges| <= MAX_UINT16
    ensures DecodeAckRanges(EncodeAckRanges(ranges).value) == Some(ranges)
  {
    var b := EncodeAckRanges(ranges).value;
    Capacities();
    LittleEndianReadsBack(|ranges|, 2);
    EntriesReadBack(ranges);
    assert b[..2] == LittleEndian(|ranges|, 2);
    assert b[2..] == EncodeEntries(ranges);
  }
}
