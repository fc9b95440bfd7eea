/** The sender's bookkeeping of acknowledged frames, and its retry loop. */
module AckTracking {
  import opened Sequences
  import opened Bytes
  import opened Sorting
  import opened AckRanges

  const MAX_ATTEMPTS := 6

  /** The frames ranges acknowledge. */
  ghost function Covered(ranges: seq<AckRange>): (s: set<int>) {
    set s | 0 <= s <= MAX_UINT32 && Covers(ranges, s)
  }

  predicate Within(lo: int, hi: int, k: int) { lo <= k < hi }

  ghost function Interval(lo: int, hi: int): (s: set<int>) {
    set k | lo <= k < hi && Within(lo, hi, k)
  }

  lemma CoveredAppend(ranges: seq<AckRange>, r: AckRange)
    ensures Covered(ranges + [r]) == Covered(ranges) + Interval(r.start, r.end + 1)
  {
    forall s ensures s in Covered(ranges + [r]) <==> s in Covered(ranges) || Within(r.start, r.end + 1, s) {
      CoversAppend(ranges, r, s);
    }
  }

  /** A range list a receiver of `total` frames can send. */
  predicate Below(ranges: seq<AckRange>, total: uint32) {
    forall i :: 0 <= i < |ranges| ==> ranges[i].end < total
  }

  /** A range list that 32-bit counting gets to the end of. */
  predicate Ending(ranges: seq<AckRange>) {
    forall i :: 0 <= i < |ranges| ==> ranges[i].end < MAX_UINT32
  }

  /** The test of completeness: as many marks as frames. */
  predicate Counted(acked: set<int>, total: uint32) { |acked| >= total }

  ghost predicate Whole(acked: set<int>, total: uint32) {
    forall s :: 0 <= s < total ==> s in acked
  }

  ghost predicate Inside(acked: set<int>, total: uint32) {
    forall s :: s in acked ==> 0 <= s < total
  }

  lemma WholeIsCounted(acked: set<int>, total: uint32)
    requires Whole(acked, total)
    ensures Counted(acked, total)
  {
    AllMarked(acked, total);
  }

  /** As many marks as frames means every frame is marked, as long as only frames are marked. */
  lemma CountedIsWhole(acked: set<int>, total: uint32)
    requires Inside(acked, total)
    ensures Counted(acked, total) <==> Whole(acked, total)
  {
    FullRange(acked, total);
    if Whole(acked, total) { WholeIsCounted(acked, total); }
  }

  /** The count is trustworthy under a bound on the marks. */
  ghost predicate Trusted(bound: uint32, total: uint32) {
    forall acked: set<int> :: Inside(acked, bound) && Counted(acked, total) ==> Whole(acked, total)
  }

  /** One mark beyond the last frame and none for the first. */
  ghost function Astray(total: uint32): (s: set<int>) {
    Interval(1, total + 1)
  }

  lemma {:induction false} AstrayCounts(total: nat)
    requires total <= MAX_UINT32
    ensures |Astray(total)| == total
  {
    if total == 0 {
      assert Astray(0) == {};
    } else {
      AstrayCounts(total - 1);
      assert Astray(total) == Astray(total - 1) + {total};
    }
  }

  /** Counting decides completeness for all marks below a bound exactly when the bound is at most the
      number of frames: a single mark beyond the last frame can stand in for a missing one. */
  lemma CountIsTrusted(bound: uint32, total: uint32)
    requires total > 0
    ensures Trusted(bound, total) <==> bound <= total
  {
    if bound <= total {
      forall acked: set<int> | Inside(acked, bound) && Counted(acked, total) ensures Whole(acked, total) {
        CountedIsWhole(acked, total);
      }
    } else {
      AstrayCounts(total);
      var acked := Astray(total);
      assert Inside(acked, bound) && 0 !in acked && Counted(acked, total);
      assert !Whole(acked, total);
    }
  }

  /** The ACK that does it: one range from the second frame to one beyond the last. */
  lemma StrayAck(total: uint32)
    requires 0 < total < MAX_UINT32
    ensures var ack := [AckRange(1, total)];
            && Ending(ack) && Covered(ack) == Astray(total)
            && Counted(Covered(ack), total) && !Whole(Covered(ack), total)
  {
    var ack := [AckRange(1, total)];
    CoveredAppend([], ack[0]);
    assert [] + ack == ack && Covered([]) == {};
    AstrayCounts(total);
    assert 0 !in Astray(total);
  }

  /** Tracks one outbound message. */
  class AckTracker {
    const total: uint32
    var acked: set<int>

    constructor (total: uint32)
      ensures this.total == total && acked == {}
    {
      this.total := total;
      acked := {};
    }

    /** Marks every frame of every range. A range that ends at the largest 32-bit number is counted
        through without end, since the counter wraps to zero; that is reported as not returning. */
    method Update(ranges: seq<AckRange>) returns (returned: bool)
      modifies this
      ensures returned <==> Ending(ranges)
      ensures returned ==> acked == old(acked) + Covered(ranges)
    {
      assert ranges[..0] == [];
      for i := 0 to |ranges|
        invariant acked == old(acked) + Covered(ranges[..i])
        invariant Ending(ranges[..i])
      {
        var r := ranges[i];
        CoveredAppend(ranges[..i], r);
        assert ranges[..i + 1] == ranges[..i] + [r];
        ghost var before := acked;
        var s: int := r.start;
        while s <= r.end
          invariant s == r.start || r.start <= s <= r.end + 1
          invariant s <= MAX_UINT32
          invariant acked == before + Interval(r.start, s)
        {
          acked := acked + {s};
          if s == MAX_UINT32 { return false; }
          s := s + 1;
        }
        assert r.end < MAX_UINT32;
      }
      assert ranges[..|ranges|] == ranges;
      returned := true;
    }

    /** As many marks as frames. */
    method Complete() returns (done: bool)
      ensures Whole(acked, total) ==> done
      ensures Inside(acked, total) ==> (done <==> Whole(acked, total))
      ensures done == Counted(acked, total)
    {
      done := |acked| >= total;
      if Inside(acked, total) { CountedIsWhole(acked, total); }
      if Whole(acked, total) { WholeIsCounted(acked, total); }
    }

    method Missing() returns (out: seq<uint32>)
      ensures Ascending(out)
      ensures forall s :: s in out <==> 0 <= s < total && s !in acked
    {
      out := [];
      for s: int := 0 to total
        invariant Ascending(out)
        invariant forall k :: k in out <==> 0 <= k < s && k !in acked
      {
        if s !in acked {
          assert forall i :: 0 <= i < |out| ==> out[i] in out;
          MemberAppend(out, s);
          out := out + [s];
        }
      }
    }
  }

  lemma {:induction false} AllMarked(acked: set<int>, n: nat)
    requires forall s :: 0 <= s < n ==> s in acked
    ensures |acked| >= n
  {
    if n > 0 {
      AllMarked(acked - {n - 1}, n - 1);
    }
  }

  // ---- The retry loop ----------------------------------------------------------------------

  /** One wait: the ACKs that arrive during it, and whether it ended by a closed stream or a
      cancelled call instead of a completed message or the timer. */
  datatype Round = Round(acks: seq<seq<AckRange>>, aborted: bool)

  datatype Result = Success | Failure | Exhausted | Pending | Stuck

  ghost function Marks(acked: set<int>, acks: seq<seq<AckRange>>): (s: set<int>) {
    if acks == [] then acked else Marks(acked, acks[..|acks| - 1]) + Covered(acks[|acks| - 1])
  }

  /** What is acknowledged after the first n waits. */
  ghost function After(acked: set<int>, rounds: seq<Round>, n: nat): (s: set<int>)
    requires n <= |rounds|
  {
    if n == 0 then acked else Marks(After(acked, rounds, n - 1), rounds[n - 1].acks)
  }

  predicate AllBelow(acks: seq<seq<AckRange>>, total: uint32) {
    forall i :: 0 <= i < |acks| ==> Below(acks[i], total)
  }

  predicate AllEnding(acks: seq<seq<AckRange>>) {
    forall i :: 0 <= i < |acks| ==> Ending(acks[i])
  }

  /** The ACKs of the first n waits are counted to the end. */
  predicate Ended(rounds: seq<Round>, n: nat)
    requires n <= |rounds|
  {
    forall i :: 0 <= i < n ==> AllEnding(rounds[i].acks)
  }

  lemma EndedGrows(rounds: seq<Round>, n: nat)
    requires n < |rounds| && Ended(rounds, n) && AllEnding(rounds[n].acks)
    ensures Ended(rounds, n + 1)
  {
  }

  /** Every ACK of every wait names frames of the message only. */
  ghost predicate Orderly(rounds: seq<Round>, total: uint32) {
    forall i :: 0 <= i < |rounds| ==> AllBelow(rounds[i].acks, total)
  }

  lemma {:induction false} MarksStayInside(acked: set<int>, acks: seq<seq<AckRange>>, total: uint32)
    requires AllBelow(acks, total) && Inside(acked, total)
    ensures Inside(Marks(acked, acks), total)
  {
    if acks != [] {
      var n := |acks| - 1;
      MarksStayInside(acked, acks[..n], total);
      assert Below(acks[n], total);
    }
  }

  /** A retransmission holds exactly the frames that are missing, and there are some: the count says so. */
  ghost predicate IsMissing(frames: seq<uint32>, acked: set<int>, total: uint32) {
    && !Counted(acked, total) && !Whole(acked, total)
    && Ascending(frames)
    && forall s :: s in frames <==> 0 <= s < total && s !in acked
  }

  ghost predicate Retransmissions(sent: seq<seq<uint32>>, acked: set<int>, rounds: seq<Round>, total: uint32) {
    && |sent| <= |rounds|
    && forall i :: 0 <= i < |sent| ==> !rounds[i].aborted && IsMissing(sent[i], After(acked, rounds, i + 1), total)
  }

  lemma {:induction false} AfterStaysInside(acked: set<int>, rounds: seq<Round>, n: nat, total: uint32)
    requires n <= |rounds| && Orderly(rounds, total) && Inside(acked, total)
    ensures Inside(After(acked, rounds, n), total)
  {
    if n > 0 {
      AfterStaysInside(acked, rounds, n - 1, total);
      MarksStayInside(After(acked, rounds, n - 1), rounds[n - 1].acks, total);
    }
  }

  /** Waits, and retransmits what is missing after each time-out, at most six times. A success
      means as many marks as frames, and that every frame is acknowledged if the ACKs name frames of
      the message only; without one, the call was aborted or seven waits in a row ended with a frame
      missing. It is stuck exactly when it comes to an ACK that is counted through without end. */
  method SendLoop(tracker: AckTracker, rounds: seq<Round>)
    returns (r: Result, retransmitted: seq<seq<uint32>>, waits: nat)
    modifies tracker
    ensures waits <= |rounds| && (r != Stuck ==> tracker.acked == After(old(tracker.acked), rounds, waits))
    ensures r == Stuck ==> waits < |rounds| && !AllEnding(rounds[waits].acks)
    ensures Ended(rounds, waits)
    ensures r == Success ==> waits > 0 && !rounds[waits - 1].aborted && Counted(tracker.acked, tracker.total)
    ensures r == Success && Orderly(rounds, tracker.total) && Inside(old(tracker.acked), tracker.total) ==>
              Whole(tracker.acked, tracker.total)
    ensures r == Failure ==> waits > 0 && rounds[waits - 1].aborted
    ensures r == Exhausted ==> waits == MAX_ATTEMPTS + 1 && !Whole(tracker.acked, tracker.total)
    ensures r == Exhausted ==> !Counted(tracker.acked, tracker.total)
    ensures r == Pending ==> waits == |rounds| == |retransmitted|
    ensures r == Stuck ==> |retransmitted| == waits
    ensures r != Pending && r != Stuck ==> |retransmitted| == waits - 1
    ensures |retransmitted| <= MAX_ATTEMPTS
    ensures Retransmissions(retransmitted, old(tracker.acked), rounds, tracker.total)
  {
    retransmitted, waits := [], 0;
    assert tracker.acked == After(tracker.acked, rounds, 0);
    assert Retransmissions([], tracker.acked, rounds, tracker.total);
    assert Ended(rounds, 0);
    hide After, IsMissing, Inside, Whole, Counted, Orderly, Marks, AllEnding, Ended, Ascending, Retransmissions;
    while waits < |rounds|
      invariant waits == |retransmitted| <= |rounds| && waits <= MAX_ATTEMPTS
      invariant tracker.acked == After(old(tracker.acked), rounds, waits)
      invariant Ended(rounds, waits)
      invariant Retransmissions(retransmitted, old(tracker.acked), rounds, tracker.total)
    {
      var round := rounds[waits];
      AfterStep(old(tracker.acked), rounds, waits);
      var ended := Wait(tracker, round.acks);
      if !ended { return Stuck, retransmitted, waits; }
      EndedGrows(rounds, waits);
      waits := waits + 1;
      if round.aborted { return Failure, retransmitted, waits; }
      var done := tracker.Complete();
      if done {
        if Orderly(rounds, tracker.total) && Inside(old(tracker.acked), tracker.total) {
          AfterStaysInside(old(tracker.acked), rounds, waits, tracker.total);
        }
        return Success, retransmitted, waits;
      }
      if waits > MAX_ATTEMPTS { return Exhausted, retransmitted, waits; }
      var missing := tracker.Missing();
      MissingIs(missing, tracker.acked, tracker.total);
      RetransmitOnce(retransmitted, missing, old(tracker.acked), rounds, tracker.total);
      retransmitted := retransmitted + [missing];
    }
    r := Pending;
  }

  lemma RetransmitOnce(sent: seq<seq<uint32>>, missing: seq<uint32>, acked: set<int>, rounds: seq<Round>, total: uint32)
    requires Retransmissions(sent, acked, rounds, total) && |sent| < |rounds| && !rounds[|sent|].aborted
    requires IsMissing(missing, After(acked, rounds, |sent| + 1), total)
    ensures Retransmissions(sent + [missing], acked, rounds, total)
  {
  }

  lemma AfterStep(acked: set<int>, rounds: seq<Round>, n: nat)
    requires n < |rounds|
    ensures After(acked, rounds, n + 1) == Marks(After(acked, rounds, n), rounds[n].acks)
  {
  }

  lemma MissingIs(frames: seq<uint32>, acked: set<int>, total: uint32)
    requires Ascending(frames) && !Counted(acked, total) && !Whole(acked, total)
    requires forall s :: s in frames <==> 0 <= s < total && s !in acked
    ensures IsMissing(frames, acked, total)
  {
  }

  /** Applies the ACKs that arrive during a wait. */
  method Wait(tracker: AckTracker, acks: seq<seq<AckRange>>) returns (ended: bool)
    modifies tracker
    ensures ended <==> AllEnding(acks)
    ensures ended ==> tracker.acked == Marks(old(tracker.acked), acks)
  {
    for i := 0 to |acks|
      invariant tracker.acked == Marks(old(tracker.acked), acks[..i])
      invariant AllEnding(acks[..i])
    {
      var returned := tracker.Update(acks[i]);
      if !returned { return false; }
      assert acks[..i + 1][..i] == acks[..i];
    }
    assert acks[..|acks|] == acks;
    ended := true;
  }

  /** A send of any number of frames below 2^32-1 that has the stray ACK as its only answer succeeds, although
      its first frame was never acknowledged. */
  method StrayAckSucceeds(tracker: AckTracker) returns (r: Result)
    requires tracker.acked == {} && 0 < tracker.total < MAX_UINT32
    modifies tracker
    ensures r == Success && 0 !in tracker.acked && !Whole(tracker.acked, tracker.total)
  {
    ghost var total := tracker.total;
    var ack := [AckRange(1, tracker.total)];
    StrayAck(total);
    var acks, rounds := [ack], [Round([ack], false)];
    assert After({}, rounds, 1) == Covered(ack) by {
      assert After({}, rounds, 0) == {} && acks[..0] == [] && Marks({}, []) == {};
    }
    assert AllEnding(acks);
    var sent, waits;
    r, sent, waits := SendLoop(tracker, rounds);
  }
}
