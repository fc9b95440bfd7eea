/** The relay's ACK accounting: which frames an ACK newly acknowledges, and how many payload
    bytes they carry, by subtracting one sorted list of ranges from another. */
module AckAccounting {
  import opened Sequences
  import opened Bytes
  import opened AckRanges
  import opened FrameCodec

  // ---- What the numbers mean ---------------------------------------------------------------

  /** Acknowledged now and not before. */
  predicate Newly(now: seq<AckRange>, before: seq<AckRange>, s: int) {
    Covers(now, s) && !Covers(before, s)
  }

  datatype Credit = Credit(bytes: nat, frames: nat)

  /** Number and payload bytes of the newly acknowledged frames below hi; None when the size of
      one of them is not known. */
  function Tally(size: map<nat, nat>, now: seq<AckRange>, before: seq<AckRange>, hi: nat): (r: Option<Credit>)
  {
    if hi == 0 then Some(Credit(0, 0))
    else
      match Tally(size, now, before, hi - 1)
      case None => None
      case Some(c) =>
        if !Newly(now, before, hi - 1) then Some(c)
        else if hi - 1 !in size then None
        else Some(Credit(c.bytes + size[hi - 1], c.frames + 1))
  }

  // ---- The checks --------------------------------------------------------------------------

  method ValidAckRanges(ranges: seq<AckRange>, total: uint32) returns (ok: bool)
    ensures ok <==> Ordered(ranges, total)
  {
    for i := 0 to |ranges|
      invariant Ordered(ranges[..i], total)
    {
      var r := ranges[i];
      if r.start > r.end || r.end >= total || (i > 0 && r.start <= ranges[i - 1].end) {
        return false;
      }
      assert ranges[..i + 1] == ranges[..i] + [r];
      if i > 0 { assert forall a :: 0 <= a < i ==> ranges[..i][a].end <= ranges[i - 1].end; }
    }
    assert ranges[..|ranges|] == ranges;
    return true;
  }

  /** One range of the list holds all of the interval. */
  predicate Encloses(ranges: seq<AckRange>, r: AckRange) {
    exists i :: 0 <= i < |ranges| && ranges[i].start <= r.start && r.end <= ranges[i].end
  }

  predicate Contains(current: seq<AckRange>, previous: seq<AckRange>) {
    forall k :: 0 <= k < |previous| ==> Encloses(current, previous[k])
  }

  method AckRangesContain(current: seq<AckRange>, previous: seq<AckRange>, ghost total: int) returns (ok: bool)
    requires Ordered(current, total) && Ordered(previous, total)
    ensures ok <==> Contains(current, previous)
  {
    var index := 0;
    for k := 0 to |previous|
      invariant 0 <= index <= |current|
      invariant forall j :: 0 <= j < k ==> Encloses(current, previous[j])
      invariant forall i :: 0 <= i < index ==> k < |previous| ==> current[i].end < previous[k].start
    {
      var prior := previous[k];
      while index < |current| && current[index].end < prior.start
        invariant 0 <= index <= |current|
        invariant forall i :: 0 <= i < index ==> current[i].end < prior.start
      {
        index := index + 1;
      }
      if index >= |current| || current[index].start > prior.start || current[index].end < prior.end {
        assert !Encloses(current, prior) by {
          forall i | 0 <= i < |current| ensures !(current[i].start <= prior.start && prior.end <= current[i].end) {
            if i > index { assert current[index].end < current[i].start; }
          }
        }
        return false;
      }
      assert Encloses(current, prior);
    }
    return true;
  }

  /** Against a maximal list, enclosing range by range is the same as covering number by number. */
  lemma ContainsIsSubset(current: seq<AckRange>, previous: seq<AckRange>, total: int)
    requires Maximal(current) && Ordered(previous, total)
    ensures Contains(current, previous) <==> forall s :: Covers(previous, s) ==> Covers(current, s)
  {
    if forall s :: Covers(previous, s) ==> Covers(current, s) {
      forall k | 0 <= k < |previous| ensures Encloses(current, previous[k]) {
        var p := previous[k];
        forall s | p.start <= s <= p.end ensures Covers(current, s) {
          assert Covers(previous, s);
        }
        RunInOneRange(current, p.start, p.end);
      }
    }
    if Contains(current, previous) {
      forall s | Covers(previous, s) ensures Covers(current, s) {
        var k :| 0 <= k < |previous| && previous[k].start <= s <= previous[k].end;
        assert Encloses(current, previous[k]);
      }
    }
  }

  lemma {:induction false} RunInOneRange(current: seq<AckRange>, lo: int, hi: int)
    requires Maximal(current) && lo <= hi && forall s :: lo <= s <= hi ==> Covers(current, s)
    ensures exists i :: 0 <= i < |current| && current[i].start <= lo && hi <= current[i].end
    decreases hi - lo
  {
    assert Covers(current, hi);
    if lo < hi {
      RunInOneRange(current, lo, hi - 1);
      var i :| 0 <= i < |current| && current[i].start <= lo && hi - 1 <= current[i].end;
      var j :| 0 <= j < |current| && current[j].start <= hi <= current[j].end;
      assert i == j;
    }
  }

  /** Without the gap the test is stricter: touching ranges cover an earlier range and are still
      refused. */
  lemma TouchingRangesAreRefused()
    ensures var current, previous := [AckRange(0, 1), AckRange(2, 3)], [AckRange(0, 3)];
            && Ordered(current, 4) && Ordered(previous, 4)
            && (forall s :: Covers(previous, s) ==> Covers(current, s))
            && !Contains(current, previous)
  {
    var current, previous := [AckRange(0, 1), AckRange(2, 3)], [AckRange(0, 3)];
    forall s | Covers(previous, s) ensures Covers(current, s) {
      assert current[0].start <= s <= current[0].end || current[1].start <= s <= current[1].end;
    }
    assert !Encloses(current, previous[0]);
  }

  // ---- The subtraction ---------------------------------------------------------------------

  function PlainSum(size: map<nat, nat>, lo: nat, hi: nat): (n: nat)
    requires lo <= hi && forall s :: lo <= s < hi ==> s in size
    decreases hi
  {
    if lo == hi then 0 else PlainSum(size, lo, hi - 1) + size[hi - 1]
  }

  method PayloadRangeSize(size: map<nat, nat>, start: nat, end: nat) returns (bytes: nat, frames: nat, ok: bool)
    requires start <= end
    ensures ok <==> forall s :: start <= s <= end ==> s in size
    ensures ok ==> bytes == PlainSum(size, start, end + 1) && frames == end - start + 1
  {
    bytes, frames, ok := 0, 0, true;
    for s := start to end + 1
      invariant forall k :: start <= k < s ==> k in size
      invariant bytes == PlainSum(size, start, s)
    {
      if s !in size { return 0, 0, false; }
      bytes := bytes + size[s];
    }
    frames := end - start + 1;
  }

  /** Nothing in [lo, hi) is new. */
  lemma {:induction false} SkipOld(size: map<nat, nat>, now: seq<AckRange>, before: seq<AckRange>, lo: nat, hi: nat)
    requires lo <= hi && forall s :: lo <= s < hi ==> !Newly(now, before, s)
    ensures Tally(size, now, before, hi) == Tally(size, now, before, lo)
    decreases hi
  {
    if lo < hi {
      SkipOld(size, now, before, lo, hi - 1);
    }
  }

  /** Everything in [lo, hi) is new. */
  lemma {:induction false} AddFresh(size: map<nat, nat>, now: seq<AckRange>, before: seq<AckRange>, lo: nat, hi: nat)
    requires lo <= hi && (forall s :: lo <= s < hi ==> Newly(now, before, s) && s in size)
    requires Tally(size, now, before, lo).Some?
    ensures var c := Tally(size, now, before, lo).value;
            Tally(size, now, before, hi) == Some(Credit(c.bytes + PlainSum(size, lo, hi), c.frames + hi - lo))
    decreases hi
  {
    if lo < hi {
      AddFresh(size, now, before, lo, hi - 1);
    }
  }

  /** One new frame of unknown size spoils every tally above it. */
  lemma {:induction false} UnknownSpoils(size: map<nat, nat>, now: seq<AckRange>, before: seq<AckRange>, s: nat,
                                         hi: nat)
    requires s < hi && Newly(now, before, s) && s !in size
    ensures Tally(size, now, before, hi).None?
    decreases hi
  {
    if s < hi - 1 {
      UnknownSpoils(size, now, before, s, hi - 1);
    }
  }

  lemma OutsideAll(ranges: seq<AckRange>, total: int, i: nat, s: int)
    requires Ordered(ranges, total) && i <= |ranges|
    requires (i > 0 ==> ranges[i - 1].end < s) && (i < |ranges| ==> s < ranges[i].start)
    ensures !Covers(ranges, s)
  {
    forall k | 0 <= k < |ranges| ensures !(ranges[k].start <= s <= ranges[k].end) {
      if k < i - 1 { assert ranges[k].end < ranges[i - 1].start; }
      if i < k { assert ranges[i].end < ranges[k].start; }
    }
  }

  /** An old range that reaches into a range of the new list ends inside it. */
  lemma EndsInside(now: seq<AckRange>, before: seq<AckRange>, total: nat, i: nat, k: nat)
    requires Ordered(now, total) && Contains(now, before) && i < |now| && k < |before|
    requires before[k].start <= before[k].end && before[k].start <= now[i].end && now[i].start <= before[k].end
    ensures now[i].start <= before[k].start && before[k].end <= now[i].end
  {
    assert Encloses(now, before[k]);
    var j :| 0 <= j < |now| && now[j].start <= before[k].start && before[k].end <= now[j].end;
    assert j == i;
  }

  /** What lies in a range of the new list between two neighbours of the old one is new. */
  lemma GapIsNew(now: seq<AckRange>, before: seq<AckRange>, total: nat, i: nat, scan: nat, lo: nat, hi: nat)
    requires Ordered(now, total) && Ordered(before, total) && i < |now| && scan <= |before|
    requires now[i].start <= lo && hi <= now[i].end + 1
    requires (scan > 0 ==> before[scan - 1].end < lo) && (scan < |before| ==> hi <= before[scan].start)
    ensures forall s :: lo <= s < hi ==> Newly(now, before, s)
  {
    forall s | lo <= s < hi ensures Newly(now, before, s) {
      OutsideAll(before, total, scan, s);
      assert now[i].start <= s <= now[i].end;
    }
  }

  /** An old range adds nothing. */
  lemma OldIsIdle(size: map<nat, nat>, now: seq<AckRange>, before: seq<AckRange>, k: nat)
    requires k < |before| && before[k].start <= before[k].end
    ensures Tally(size, now, before, before[k].end + 1) == Tally(size, now, before, before[k].start)
  {
    SkipOld(size, now, before, before[k].start, before[k].end + 1);
  }

  /** Counts a stretch that is all new. */
  method AddGap(size: map<nat, nat>, ghost now: seq<AckRange>, ghost before: seq<AckRange>, lo: nat, hi: nat,
                credit: Credit, ghost total: nat)
    returns (r: Option<Credit>)
    requires lo <= hi <= total && Tally(size, now, before, lo) == Some(credit)
    requires forall s :: lo <= s < hi ==> Newly(now, before, s)
    ensures r.Some? ==> Tally(size, now, before, hi) == r
    ensures r.None? ==> Tally(size, now, before, total).None?
  {
    if lo == hi { return Some(credit); }
    var bytes, frames, ok := PayloadRangeSize(size, lo, hi - 1);
    if !ok {
      ghost var s :| lo <= s < hi && s !in size;
      UnknownSpoils(size, now, before, s, total);
      return None;
    }
    AddFresh(size, now, before, lo, hi);
    r := Some(Credit(credit.bytes + bytes, credit.frames + frames));
  }

  /** What one range of the new list adds: the parts of it that lie between the old ranges. */
  method SubtractRange(size: map<nat, nat>, now: seq<AckRange>, before: seq<AckRange>, i: nat, from: nat,
                       credit: Credit, ghost total: nat)
    returns (r: Option<Credit>)
    requires Ordered(now, total) && Ordered(before, total) && Contains(now, before) && i < |now|
    requires from <= |before| && (from > 0 ==> before[from - 1].end < now[i].start)
    requires from < |before| ==> now[i].start <= before[from].end
    requires Tally(size, now, before, now[i].start) == Some(credit)
    ensures r.Some? ==> Tally(size, now, before, now[i].end + 1) == r
    ensures r.None? ==> Tally(size, now, before, total).None?
  {
    hide Tally, Contains;
    r := Some(credit);
    var cursor: nat, end: nat := now[i].start, now[i].end;
    var scan := from;
    while scan < |before| && before[scan].start <= end
      invariant from <= scan <= |before|
      invariant now[i].start <= cursor <= end + 1
      invariant cursor == if scan == from then now[i].start else before[scan - 1].end + 1
      invariant scan < |before| ==> now[i].start <= before[scan].end
      invariant r.Some? && Tally(size, now, before, cursor) == r
      decreases |before| - scan
    {
      var previous := before[scan];
      EndsInside(now, before, total, i, scan);
      GapIsNew(now, before, total, i, scan, cursor, previous.start);
      r := AddGap(size, now, before, cursor, previous.start, r.value, total);
      if r.None? { return; }
      OldIsIdle(size, now, before, scan);
      cursor := previous.end + 1;
      if cursor > end { break; }
      scan := scan + 1;
    }
    if cursor > end { return; }
    GapIsNew(now, before, total, i, scan, cursor, end + 1);
    r := AddGap(size, now, before, cursor, end + 1, r.value, total);
  }

  // ---- One ACK -----------------------------------------------------------------------------

  /** An ACK frame for this message whose ranges are in order and lose nothing acknowledged. */
  predicate Acceptable(frame: Frame, total: uint32, before: seq<AckRange>) {
    && frame.kind == ACK && total != 0 && frame.total == total
    && DecodeAckRanges(frame.payload).Some?
    && var now := DecodeAckRanges(frame.payload).value;
       now != [] && Ordered(now, total) && Contains(now, before)
  }

  /** The credit of an ACK, and the progress behind it: a refused ACK changes nothing. */
  function Account(size: map<nat, nat>, frame: Frame, total: uint32,
                   before: seq<AckRange>): (r: (Option<Credit>, seq<AckRange>)) {
    if !Acceptable(frame, total, before) then (None, before)
    else
      var now := DecodeAckRanges(frame.payload).value;
      var credit := Tally(size, now, before, total);
      (credit, if credit.Some? then now else before)
  }

  ghost function NewFrames(now: seq<AckRange>, before: seq<AckRange>, hi: nat): (r: set<nat>) {
    set s: nat | s < hi && Covers(now, s) && !Covers(before, s)
  }

  /** The payload bytes of a set of frames. */
  ghost function SizeOf(size: map<nat, nat>, frames: set<nat>): (n: nat)
    requires forall s :: s in frames ==> s in size
  {
    if frames == {} then 0
    else
      var s :| s in frames;
      size[s] + SizeOf(size, frames - {s})
  }

  lemma {:induction false} SizeWithout(size: map<nat, nat>, frames: set<nat>, s: nat)
    requires s in frames && forall k :: k in frames ==> k in size
    ensures SizeOf(size, frames) == size[s] + SizeOf(size, frames - {s})
    decreases |frames|
  {
    var k :| k in frames && SizeOf(size, frames) == size[k] + SizeOf(size, frames - {k});
    if k != s {
      SizeWithout(size, frames - {k}, s);
      SizeWithout(size, frames - {s}, k);
      assert frames - {k} - {s} == frames - {s} - {k};
    }
  }

  lemma NewFramesGrow(now: seq<AckRange>, before: seq<AckRange>, hi: nat)
    requires hi > 0
    ensures var rest := NewFrames(now, before, hi - 1);
            hi - 1 !in rest
            && NewFrames(now, before, hi) == rest + (if Newly(now, before, hi - 1) then {hi - 1} else {})
  {
  }

  lemma OneMore(size: map<nat, nat>, frames: set<nat>, s: nat)
    requires s !in frames && s in size && forall k :: k in frames ==> k in size
    ensures SizeOf(size, frames + {s}) == SizeOf(size, frames) + size[s] && |frames + {s}| == |frames| + 1
  {
    SizeWithout(size, frames + {s}, s);
    assert frames + {s} - {s} == frames;
  }

  /** A tally is there exactly when all sizes are known, and then counts the new frames and their bytes. */
  lemma {:induction false} TallyExactly(size: map<nat, nat>, now: seq<AckRange>, before: seq<AckRange>, hi: nat)
    ensures var t, added := Tally(size, now, before, hi), NewFrames(now, before, hi);
            && (t.Some? <==> forall s :: s in added ==> s in size)
            && (t.Some? ==> t.value == Credit(SizeOf(size, added), |added|))
  {
    hide SizeOf, Newly;
    if hi == 0 {
      NoSize(size, now, before);
    } else {
      TallyExactly(size, now, before, hi - 1);
      NewFramesGrow(now, before, hi);
      hide NewFrames;
      if Newly(now, before, hi - 1) && Tally(size, now, before, hi).Some? {
        OneMore(size, NewFrames(now, before, hi - 1), hi - 1);
      }
    }
  }

  lemma NoSize(size: map<nat, nat>, now: seq<AckRange>, before: seq<AckRange>)
    ensures NewFrames(now, before, 0) == {} && SizeOf(size, {}) == 0
  {
  }

  /** An ACK is credited exactly when it is one of the message, its ranges are in order, each range acknowledged before
      lies in one of them, and the sizes of the new frames are known. The credit is then the new frames and their
      bytes, and its ranges are the progress; otherwise the progress stays. */
  lemma AccountExactly(size: map<nat, nat>, frame: Frame, total: uint32, before: seq<AckRange>)
    ensures var r, decoded := Account(size, frame, total, before), DecodeAckRanges(frame.payload);
            if && frame.kind == 1 && total > 0 && frame.total == total && decoded.Some? && decoded.value != []
               && Ordered(decoded.value, total) && Contains(decoded.value, before)
               && forall s :: s in NewFrames(decoded.value, before, total) ==> s in size
            then
              var added := NewFrames(decoded.value, before, total);
              r == (Some(Credit(SizeOf(size, added), |added|)), decoded.value)
            else r == (None, before)
  {
    hide DecodeAckRanges, Ordered, Contains, Tally, NewFrames;
    if DecodeAckRanges(frame.payload).Some? {
      TallyExactly(size, DecodeAckRanges(frame.payload).value, before, total);
    }
  }

  class Progress {
    var ranges: seq<AckRange>

    constructor ()
      ensures ranges == []
    {
      ranges := [];
    }

    /** Two sorted lists walked side by side give the credit that the definition gives. */
    method Acknowledge(frame: Frame, total: uint32, size: map<nat, nat>) returns (credit: Option<Credit>)
      requires Ordered(ranges, total)
      modifies this
      ensures (credit, ranges) == Account(size, frame, total, old(ranges))
      ensures Ordered(ranges, total)
    {
      if frame.kind != ACK || total == 0 || frame.total != total { return None; }
      var decoded := DecodeAckRanges(frame.payload);
      if decoded.None? || decoded.value == [] { return None; }
      var now := decoded.value;
      var ordered := ValidAckRanges(now, total);
      if !ordered { return None; }
      var contains := AckRangesContain(now, ranges, total);
      if !contains { return None; }
      credit := Subtract(size, now, ranges, total);
      if credit.Some? { ranges := now; }
    }
  }

  /** Before the i-th range of the new list, and behind the last, there is nothing to count. */
  lemma GapIsIdle(size: map<nat, nat>, now: seq<AckRange>, before: seq<AckRange>, total: nat, i: nat)
    requires Ordered(now, total) && i <= |now|
    ensures var lo := if i == 0 then 0 else now[i - 1].end + 1;
            var hi := if i < |now| then now[i].start else total;
            lo <= hi && Tally(size, now, before, hi) == Tally(size, now, before, lo)
  {
    var lo := if i == 0 then 0 else now[i - 1].end + 1;
    var hi := if i < |now| then now[i].start else total;
    forall s | lo <= s < hi ensures !Newly(now, before, s) {
      OutsideAll(now, total, i, s);
    }
    SkipOld(size, now, before, lo, hi);
  }

  lemma TallyOfNone(size: map<nat, nat>, now: seq<AckRange>, before: seq<AckRange>)
    ensures Tally(size, now, before, 0) == Some(Credit(0, 0))
  {
  }

  method Subtract(size: map<nat, nat>, now: seq<AckRange>, before: seq<AckRange>, ghost total: nat)
    returns (r: Option<Credit>)
    requires Ordered(now, total) && Ordered(before, total) && Contains(now, before)
    ensures r == Tally(size, now, before, total)
  {
    hide Tally, Contains;
    TallyOfNone(size, now, before);
    r := Some(Credit(0, 0));
    var previousIndex := 0;
    for i := 0 to |now|
      invariant 0 <= previousIndex <= |before|
      invariant previousIndex > 0 && i < |now| ==> before[previousIndex - 1].end < now[i].start
      invariant r.Some? && r == Tally(size, now, before, if i == 0 then 0 else now[i - 1].end + 1)
    {
      previousIndex := SkipEnded(before, previousIndex, now[i].start, total);
      GapIsIdle(size, now, before, total, i);
      r := SubtractRange(size, now, before, i, previousIndex, r.value, total);
      if r.None? { return; }
    }
    GapIsIdle(size, now, before, total, |now|);
  }

  /** The first old range, from an index on, that does not end before the start. */
  method SkipEnded(before: seq<AckRange>, from: nat, start: uint32, ghost total: nat) returns (k: nat)
    requires Ordered(before, total) && from <= |before| && (from > 0 ==> before[from - 1].end < start)
    ensures from <= k <= |before| && (k > 0 ==> before[k - 1].end < start)
    ensures k < |before| ==> start <= before[k].end
  {
    k := from;
    while k < |before| && before[k].end < start
      invariant from <= k <= |before| && (k > 0 ==> before[k - 1].end < start)
    {
      k := k + 1;
    }
  }

  // ---- Runs of ACKs ------------------------------------------------------------------------

  /** Subtracting step by step adds up: what is new against nothing is what was new before, plus
      what is new since. */
  lemma {:induction false} CreditsAdd(size: map<nat, nat>, now: seq<AckRange>, before: seq<AckRange>, hi: nat)
    requires forall s :: Covers(before, s) ==> Covers(now, s)
    requires Tally(size, before, [], hi).Some? && Tally(size, now, before, hi).Some?
    ensures var a, b := Tally(size, before, [], hi).value, Tally(size, now, before, hi).value;
            Tally(size, now, [], hi) == Some(Credit(a.bytes + b.bytes, a.frames + b.frames))
  {
    if hi > 0 {
      CreditsAdd(size, now, before, hi - 1);
    }
  }

  datatype Totals = Totals(bytes: nat, frames: nat, progress: seq<AckRange>)

  /** A run of ACKs of one message, accepted or not. */
  function RunAcks(size: map<nat, nat>, acks: seq<Frame>, total: uint32): (t: Totals)
  {
    if acks == [] then Totals(0, 0, [])
    else
      var t := RunAcks(size, acks[..|acks| - 1], total);
      var r := Account(size, acks[|acks| - 1], total, t.progress);
      match r.0
      case None => t
      case Some(c) => Totals(t.bytes + c.bytes, t.frames + c.frames, r.1)
  }

  /** Over any run, the credits add up to exactly the covered set, each frame counted once. */
  lemma {:induction false} CreditsAreExact(size: map<nat, nat>, acks: seq<Frame>, total: uint32)
    ensures var t := RunAcks(size, acks, total);
            Ordered(t.progress, total) && Tally(size, t.progress, [], total) == Some(Credit(t.bytes, t.frames))
  {
    if acks == [] {
      SkipOld(size, [], [], 0, total);
    } else {
      var init := acks[..|acks| - 1];
      CreditsAreExact(size, init, total);
      var before := RunAcks(size, init, total).progress;
      var now := RunAcks(size, acks, total).progress;
      if Account(size, acks[|acks| - 1], total, before).0.Some? {
        ContainedIsCovered(now, before);
        CreditsAdd(size, now, before, total);
      }
    }
  }

  lemma ContainedIsCovered(now: seq<AckRange>, before: seq<AckRange>)
    requires Contains(now, before)
    ensures forall s :: Covers(before, s) ==> Covers(now, s)
  {
    forall s | Covers(before, s) ensures Covers(now, s) {
      var k :| 0 <= k < |before| && before[k].start <= s <= before[k].end;
      assert Encloses(now, before[k]);
    }
  }

  /** An ACK frame that carries these ranges. */
  predicate Carries(f: Frame, total: uint32, ranges: seq<AckRange>) {
    f.kind == ACK && f.total == total && |ranges| <= MAX_UINT16 && EncodeAckRanges(ranges) == Some(f.payload)
  }

  /** ACKs that a receiver builds from snapshots of what it holds, in any order of arrival: what is held
      only grows, so of two snapshots one is part of the other, and each is sent as its maximal
      ranges. */
  ghost predicate Snapshots(acks: seq<Frame>, held: seq<set<nat>>, total: uint32) {
    && |acks| == |held|
    && (forall i :: 0 <= i < |held| ==> held[i] != {} && forall s :: s in held[i] ==> s < total)
    && (forall i, j :: 0 <= i < j < |held| ==> held[i] <= held[j] || held[j] <= held[i])
    && (forall i :: 0 <= i < |acks| ==> SnapshotOf(acks[i], held[i], total))
  }

  ghost predicate SnapshotOf(ack: Frame, held: set<nat>, total: uint32) {
    exists r :: Maximal(r) && Carries(ack, total, r) && forall s: nat :: Covers(r, s) <==> s in held
  }

  lemma SnapshotAccepted(size: map<nat, nat>, ack: Frame, r: seq<AckRange>, before: seq<AckRange>, held: set<nat>,
                         total: uint32)
    requires Maximal(r) && Carries(ack, total, r) && DecodeAckRanges(ack.payload) == Some(r) && total != 0
    requires held != {} && (forall s :: s in held ==> s < total && s in size)
             && forall s: nat :: Covers(r, s) <==> s in held
    requires Ordered(before, total) && forall s: nat :: Covers(before, s) ==> s in held
    ensures Account(size, ack, total, before).0.Some? && Account(size, ack, total, before).1 == r
  {
    var some :| some in held;
    assert Covers(r, some);
    forall i | 0 <= i < |r| ensures r[i].end < total {
      assert Covers(r, r[i].end);
    }
    ContainsIsSubset(r, before, total);
    AllKnown(size, r, before, total);
  }

  lemma {:induction false} AllKnown(size: map<nat, nat>, now: seq<AckRange>, before: seq<AckRange>, hi: nat)
    requires forall s :: 0 <= s < hi && Covers(now, s) ==> s in size
    ensures Tally(size, now, before, hi).Some?
  {
    if hi > 0 {
      AllKnown(size, now, before, hi - 1);
    }
  }

  /** The largest of the first n snapshots. */
  ghost function Largest(held: seq<set<nat>>, n: nat): (s: set<nat>)
    requires n <= |held|
  {
    if n == 0 then {}
    else
      var before := Largest(held, n - 1);
      if before <= held[n - 1] then held[n - 1] else before
  }

  lemma {:induction false} LargestIsOne(held: seq<set<nat>>, n: nat) returns (i: nat)
    requires 0 < n <= |held|
    ensures i < n && Largest(held, n) == held[i]
  {
    i := n - 1;
    if !(Largest(held, n - 1) <= held[n - 1]) {
      i := LargestIsOne(held, n - 1);
    }
  }

  /** It holds every snapshot. */
  lemma {:induction false} LargestHoldsAll(held: seq<set<nat>>, n: nat, k: nat)
    requires k < n <= |held| && forall i, j :: 0 <= i < j < |held| ==> held[i] <= held[j] || held[j] <= held[i]
    ensures held[k] <= Largest(held, n)
  {
    if k < n - 1 {
      LargestHoldsAll(held, n - 1, k);
    } else if n > 1 {
      var i := LargestIsOne(held, n - 1);
      assert held[i] <= held[k] || held[k] <= held[i];
    }
  }

  /** Snapshot ACKs in any order of arrival: an ACK is credited exactly when its snapshot holds every one
      credited before, and after n of them the progress is exactly the largest; by CreditsAreExact, so
      is the credit. */
  lemma {:induction false} SnapshotsAreCredited(size: map<nat, nat>, acks: seq<Frame>, held: seq<set<nat>>,
          total: uint32, n: nat)
    requires Snapshots(acks, held, total) && total != 0 && n <= |acks|
    requires forall i, s :: 0 <= i < |held| && s in held[i] ==> s in size
    ensures var t := RunAcks(size, acks[..n], total);
            forall s: nat :: Covers(t.progress, s) <==> s in Largest(held, n)
    ensures forall k :: 0 <= k < n ==> held[k] <= Largest(held, n)
    ensures n > 0 ==>
              var before := RunAcks(size, acks[..n - 1], total).progress;
              Account(size, acks[n - 1], total, before).0.Some? <==> Largest(held, n - 1) <= held[n - 1]
  {
    hide Account, Tally, SnapshotOf, Ordered;
    forall k | 0 <= k < n ensures held[k] <= Largest(held, n) {
      LargestHoldsAll(held, n, k);
    }
    if n == 0 {
      assert RunAcks(size, acks[..0], total).progress == [];
    } else {
      SnapshotsAreCredited(size, acks, held, total, n - 1);
      CreditsAreExact(size, acks[..n - 1], total);
      assert acks[..n][..n - 1] == acks[..n - 1];
      RunStep(size, acks, total, n);
      var before := RunAcks(size, acks[..n - 1], total).progress;
      if Largest(held, n - 1) <= held[n - 1] {
        SnapshotCredited(size, acks[n - 1], before, held[n - 1], total);
      } else {
        StaleIsIdle(size, acks[n - 1], before, held[n - 1], total);
      }
    }
  }

  lemma RunStep(size: map<nat, nat>, acks: seq<Frame>, total: uint32, n: nat)
    requires 0 < n <= |acks|
    ensures var before := RunAcks(size, acks[..n - 1], total).progress;
            var r := Account(size, acks[n - 1], total, before);
            RunAcks(size, acks[..n], total).progress == if r.0.Some? then r.1 else before
  {
    hide Account;
    assert acks[..n][..n - 1] == acks[..n - 1];
  }

  /** A snapshot that lacks a frame acknowledged before changes nothing. */
  lemma StaleIsIdle(size: map<nat, nat>, ack: Frame, before: seq<AckRange>, held: set<nat>, total: uint32)
    requires SnapshotOf(ack, held, total) && exists s: nat :: Covers(before, s) && s !in held
    ensures Account(size, ack, total, before) == (None, before)
  {
    var r :| Maximal(r) && Carries(ack, total, r) && forall s: nat :: Covers(r, s) <==> s in held;
    AckRangesReadBack(r);
    if Contains(r, before) { ContainedIsCovered(r, before); }
  }

  lemma SnapshotCredited(size: map<nat, nat>, ack: Frame, before: seq<AckRange>, held: set<nat>, total: uint32)
    requires SnapshotOf(ack, held, total) && total != 0
    requires held != {} && forall s :: s in held ==> s < total && s in size
    requires Ordered(before, total) && forall s: nat :: Covers(before, s) ==> s in held
    ensures Account(size, ack, total, before).0.Some?
    ensures forall s: nat :: Covers(Account(size, ack, total, before).1, s) <==> s in held
  {
    var r :| Maximal(r) && Carries(ack, total, r) && forall s: nat :: Covers(r, s) <==> s in held;
    AckRangesReadBack(r);
    SnapshotAccepted(size, ack, r, before, held, total);
  }

  // ---- Whole-message ACKs ------------------------------------------------------------------

  predicate CoversAll(ranges: seq<AckRange>, total: int) {
    forall s :: 0 <= s < total ==> Covers(ranges, s)
  }

  /** One of the first n ranges covers the number. */
  ghost predicate CoveredEarly(ranges: seq<AckRange>, n: nat, s: int)
    requires n <= |ranges|
  {
    exists k :: 0 <= k < n && ranges[k].start <= s <= ranges[k].end
  }

  /** The first n ranges are ranges of frames, and none leaves out a number that those before it have left out. */
  ghost predicate WithoutGap(ranges: seq<AckRange>, n: nat, total: int)
    requires n <= |ranges|
  {
    forall i :: 0 <= i < n ==>
      && ranges[i].start <= ranges[i].end < total
      && forall s :: 0 <= s < ranges[i].start ==> CoveredEarly(ranges, i, s)
  }

  /** The first n ranges cover exactly the numbers below a bound. */
  ghost predicate ReachTo(ranges: seq<AckRange>, n: nat, bound: nat)
    requires n <= |ranges|
  {
    forall s :: 0 <= s ==> (CoveredEarly(ranges, n, s) <==> s < bound)
  }

  lemma ReachFurther(ranges: seq<AckRange>, n: nat, bound: nat)
    requires n < |ranges| && ReachTo(ranges, n, bound) && ranges[n].start <= bound && ranges[n].start <= ranges[n].end
    ensures ReachTo(ranges, n + 1, if ranges[n].end >= bound then ranges[n].end + 1 else bound)
  {
    var next, further := n + 1, if ranges[n].end >= bound then ranges[n].end + 1 else bound;
    forall s | 0 <= s ensures CoveredEarly(ranges, next, s) <==> s < further {
      if s < bound {
        assert CoveredEarly(ranges, n, s);
        var k :| 0 <= k < n && ranges[k].start <= s <= ranges[k].end;
        assert ranges[k].start <= s <= ranges[k].end;
      } else {
        assert !CoveredEarly(ranges, n, s);
      }
    }
  }

  /** An ACK of the message is taken as full exactly when its ranges are ranges of frames, leave no gap in the order
      they come in, and cover every frame. */
  method IsFullFrameAck(frame: Frame, total: uint32) returns (full: bool)
    ensures full <==>
            && frame.kind == ACK && total > 0 && frame.total == total && DecodeAckRanges(frame.payload).Some?
            && var ranges := DecodeAckRanges(frame.payload).value;
               WithoutGap(ranges, |ranges|, total) && CoversAll(ranges, total)
  {
    hide DecodeAckRanges;
    if frame.kind != ACK || total == 0 || frame.total != total { return false; }
    var decoded := DecodeAckRanges(frame.payload);
    if decoded.None? { return false; }
    var ranges := decoded.value;
    assert ranges == [] ==> !Covers(ranges, 0);
    if ranges == [] { return false; }
    var cursor := 0;
    for i := 0 to |ranges|
      invariant 0 <= cursor <= total && ReachTo(ranges, i, cursor) && WithoutGap(ranges, i, total)
    {
      hide CoveredEarly;
      var r := ranges[i];
      if r.start > r.end || r.end >= total || r.start > cursor {
        assert !CoveredEarly(ranges, i, cursor);
        return false;
      }
      ReachFurther(ranges, i, cursor);
      if r.end >= cursor { cursor := r.end + 1; }
    }
    ReachedIsCovered(ranges, cursor, total);
    return cursor == total;
  }

  lemma ReachedIsCovered(ranges: seq<AckRange>, bound: nat, total: int)
    requires ReachTo(ranges, |ranges|, bound) && bound <= total
    ensures CoversAll(ranges, total) <==> bound == total
  {
    forall s ensures Covers(ranges, s) <==> CoveredEarly(ranges, |ranges|, s) {
    }
    hide Covers, CoveredEarly;
    assert !Covers(ranges, bound);
  }

  /** Ranges in order that cover every frame leave no gap. */
  lemma InOrderIsEnough(ranges: seq<AckRange>, total: uint32)
    requires Ordered(ranges, total) && CoversAll(ranges, total)
    ensures WithoutGap(ranges, |ranges|, total)
  {
    forall i, s | 0 <= i < |ranges| && 0 <= s < ranges[i].start ensures CoveredEarly(ranges, i, s) {
      assert Covers(ranges, s);
      var k :| 0 <= k < |ranges| && ranges[k].start <= s <= ranges[k].end;
      assert k < i;
    }
  }
}
