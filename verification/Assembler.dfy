/** The receiver's reassembly buffers. */
module Assembler {
  import opened Sequences
  import opened Bytes
  import opened Sorting
  import opened FrameCodec
  import opened FrameAssembly
  import opened AckRanges
  import M = MessageCodec

  datatype Buffer = Buffer(total: uint32, frames: map<uint32, Frame>)

  type Buffers = map<uint64, Buffer>

  datatype Reception = Ignored | Refused | Waiting | Done(message: Option<M.Message>)

  /** A buffer holds fitting frames under their own numbers, and is not full. */
  predicate Fits(id: uint64, total: uint32, frames: map<uint32, Frame>) {
    forall k :: k in frames ==> k < total && Fitting(frames[k], id, total, k)
  }

  predicate Valid(buffers: Buffers) {
    forall id :: id in buffers ==>
        Fits(id, buffers[id].total, buffers[id].frames) && |buffers[id].frames| < buffers[id].total
  }

  predicate Full(frames: map<uint32, Frame>, n: nat) {
    n <= MAX_UINT32 && forall k :: 0 <= k < n ==> k in frames
  }

  lemma CountIsFull(id: uint64, total: uint32, frames: map<uint32, Frame>)
    requires Fits(id, total, frames)
    ensures |frames| <= total
    ensures |frames| == total ==> Full(frames, total)
  {
    var keys: set<int> := frames.Keys;
    assert |keys| == |frames|;
    FullRange(keys, total);
  }

  function InOrder(frames: map<uint32, Frame>, n: nat): (s: seq<Frame>)
    requires Full(frames, n)
    ensures |s| == n && forall i :: 0 <= i < n ==> s[i] == frames[i]
  {
    seq(n, i requires 0 <= i < n => frames[i])
  }

  // ---- Adding a frame ----------------------------------------------------------------------

  predicate Wellformed(buffers: Buffers, f: Frame) {
    f.total != 0 && f.seqId < f.total && (f.messageId in buffers ==> buffers[f.messageId].total == f.total)
  }

  function Held(buffers: Buffers, id: uint64): (frames: map<uint32, Frame>) {
    if id in buffers then buffers[id].frames else map[]
  }

  /** The last missing frame ends the buffer and yields the message. */
  function AddFrame(buffers: Buffers, f: Frame): (r: (Buffers, Reception))
    requires Valid(buffers)
    ensures Valid(r.0)
  {
    if f.kind != DATA && f.kind != RETRANSMIT then (buffers, Ignored)
    else if !Wellformed(buffers, f) then (buffers, Refused)
    else
      var frames := Held(buffers, f.messageId);
      if f.seqId in frames then (buffers, Waiting)
      else
        var more := frames[f.seqId := f];
        assert Fits(f.messageId, f.total, more);
        CountIsFull(f.messageId, f.total, more);
        if |more| < f.total then (buffers[f.messageId := Buffer(f.total, more)], Waiting)
        else (buffers - {f.messageId}, Done(Meaning(InOrder(more, f.total))))
  }

  /** A well-formed frame is known already, is stored, or completes its message. */
  lemma AddFrameCases(buffers: Buffers, f: Frame)
    requires Valid(buffers) && Wellformed(buffers, f) && (f.kind == DATA || f.kind == RETRANSMIT)
    ensures var held := Held(buffers, f.messageId);
            var more := held[f.seqId := f];
            var r := AddFrame(buffers, f);
            && (f.seqId in held ==> r == (buffers, Waiting) && f.messageId in buffers)
            && (f.seqId !in held && |more| < f.total ==> r == (buffers[f.messageId := Buffer(f.total, more)], Waiting))
            && (f.seqId !in held && |more| >= f.total ==>
                  Full(more, f.total) && r == (buffers - {f.messageId}, Done(Meaning(InOrder(more, f.total)))))
  {
    hide Meaning;
    var more := Held(buffers, f.messageId)[f.seqId := f];
    assert Fits(f.messageId, f.total, more);
    CountIsFull(f.messageId, f.total, more);
  }

  // ---- The map in no particular order ------------------------------------------------------

  method Keys<T>(m: map<uint32, T>) returns (list: seq<uint32>)
    ensures Distinct(list) && forall k :: k in list <==> k in m
  {
    list := [];
    var rest := m.Keys;
    while rest != {}
      invariant rest <= m.Keys && forall k :: k in list <==> k in m && k !in rest
      invariant Distinct(list)
      decreases |rest|
    {
      var k :| k in rest;
      MemberAppend(list, k);
      list := list + [k];
      rest := rest - {k};
    }
  }

  lemma CollectedIsAll(frames: map<uint32, Frame>, list: seq<uint32>, all: seq<Frame>, id: uint64, total: uint32)
    requires Fits(id, total, frames) && Full(frames, total)
    requires Distinct(list) && forall k :: k in list <==> k in frames
    requires |all| == |list| && forall i :: 0 <= i < |all| ==> all[i] == frames[list[i]]
    ensures multiset(all) == multiset(InOrder(frames, total))
  {
    var ordered := InOrder(frames, total);
    forall i, j | 0 <= i < j < |all| ensures all[i] != all[j] {
      assert Fitting(frames[list[i]], id, total, list[i]) && Fitting(frames[list[j]], id, total, list[j]);
    }
    forall i, j | 0 <= i < j < |ordered| ensures ordered[i] != ordered[j] {
      assert Fitting(frames[i], id, total, i) && Fitting(frames[j], id, total, j);
    }
    forall f ensures f in all <==> f in ordered {
      if f in all {
        var i :| 0 <= i < |all| && all[i] == f;
        assert list[i] in frames && ordered[list[i]] == f;
      }
      if f in ordered {
        var k :| 0 <= k < |ordered| && ordered[k] == f;
        assert k in list;
        var i :| 0 <= i < |list| && list[i] == k;
        assert all[i] == f;
      }
    }
    SameBag(all, ordered);
  }

  /** Assembling the collected frames gives what the ordered frames mean. */
  method AssembleMap(id: uint64, total: uint32, frames: map<uint32, Frame>) returns (r: Option<M.Message>)
    requires total > 0 && Fits(id, total, frames) && Full(frames, total)
    ensures r == Meaning(InOrder(frames, total))
  {
    var list := Keys(frames);
    var all := seq(|list|, i requires 0 <= i < |list| => assert list[i] in list; frames[list[i]]);
    ghost var ordered := InOrder(frames, total);
    CollectedIsAll(frames, list, all, id, total);
    SameLength(all, ordered);
    SameMembers(all, ordered, 0);
    r := AssembleFrames(all);
    assert Complete(ordered, id, total);
    assert Arrangement(ordered, all);
  }

  // ---- Snapshots ---------------------------------------------------------------------------

  function Present(frames: map<uint32, Frame>, n: nat): (keys: seq<uint32>)
    requires n <= MAX_UINT32 + 1
    ensures Ascending(keys)
    ensures forall k :: k in keys <==> k in frames && k < n
  {
    if n == 0 then []
    else
      var keys := Present(frames, n - 1);
      MemberAppend(keys, n - 1);
      assert forall i :: 0 <= i < |keys| ==> keys[i] in keys;
      if n - 1 in frames then keys + [n - 1] else keys
  }

  /** The ranges a receiver reports for a buffer. */
  function SnapshotRanges(b: Buffer): (ranges: seq<AckRange>) {
    Runs(Present(b.frames, b.total))
  }

  lemma SnapshotIsExact(id: uint64, b: Buffer)
    requires Fits(id, b.total, b.frames)
    ensures Maximal(SnapshotRanges(b))
    ensures forall s :: Covers(SnapshotRanges(b), s) <==> s in b.frames
  {
    var keys := Present(b.frames, b.total);
    RunsAreMaximal(keys);
    forall s ensures Covers(SnapshotRanges(b), s) <==> s in b.frames {
      RunsAreExact(keys, s);
    }
  }

  /** Distinct numbers, sorted, ascend. */
  lemma DistinctAscend(list: seq<uint32>, sorted: seq<uint32>, key: uint32 -> int)
    requires forall k :: key(k) == k
    requires multiset(list) == multiset(sorted) && SortedBy(sorted, key)
    requires Distinct(list)
    ensures Ascending(sorted)
  {
    forall i, j | 0 <= i < j < |sorted| ensures sorted[i] < sorted[j] {
      assert key(sorted[i]) <= key(sorted[j]);
      if sorted[i] == sorted[j] {
        Twice(sorted, i, j);
        Once(list, sorted[i]);
        assert false;
      }
    }
  }

  class FrameAssembler {
    var buffers: Buffers

    constructor ()
      ensures buffers == map[] && Valid(buffers)
    {
      buffers := map[];
    }

    method Add(f: Frame) returns (r: Reception)
      requires Valid(buffers)
      modifies this
      ensures (buffers, r) == AddFrame(old(buffers), f) && Valid(buffers)
    {
      hide Meaning, InOrder;
      if f.kind != DATA && f.kind != RETRANSMIT { return Ignored; }
      if f.total == 0 { return Refused; }
      if f.seqId >= f.total { return Refused; }
      var buffer := Buffer(f.total, map[]);
      if f.messageId in buffers {
        buffer := buffers[f.messageId];
        if buffer.total != f.total { return Refused; }
        if f.seqId in buffer.frames { return Waiting; }
      }
      r := File(f, buffer);
    }

    /** Stores the frame in the buffer of its message, which may be new. */
    method File(f: Frame, buffer0: Buffer) returns (r: Reception)
      requires Valid(buffers) && Wellformed(buffers, f) && buffer0 == Buffer(f.total, Held(buffers, f.messageId))
      requires f.seqId !in buffer0.frames && (f.kind == DATA || f.kind == RETRANSMIT)
      modifies this
      ensures (buffers, r) == AddFrame(old(buffers), f)
    {
      hide Meaning, InOrder;
      ghost var before := buffers;
      var buffer := buffer0.(frames := buffer0.frames[f.seqId := f]);
      buffers := buffers[f.messageId := buffer];
      CountIsFull(f.messageId, f.total, buffer.frames);
      if |buffer.frames| != f.total { return Waiting; }
      Overwrite(before, f.messageId, buffer, buffer);
      buffers := buffers - {f.messageId};
      var m := AssembleMap(f.messageId, f.total, buffer.frames);
      r := Done(m);
    }

    method Drop(id: uint64)
      requires Valid(buffers)
      modifies this
      ensures buffers == old(buffers) - {id} && Valid(buffers)
    {
      buffers := buffers - {id};
    }

    method Snapshot(id: uint64) returns (r: Option<(seq<AckRange>, uint32)>)
      requires Valid(buffers)
      ensures r == if id in buffers then Some((SnapshotRanges(buffers[id]), buffers[id].total)) else None
    {
      if id !in buffers { return None; }
      var frames := buffers[id].frames;
      var list := Keys(frames);
      var key := (k: uint32) => k as int;
      var sorted := SortBy(list, key);
      DistinctAscend(list, sorted, key);
      var ranges := SeqsToRanges(sorted);
      forall s ensures Covers(ranges, s) <==> s in frames {
        assert s in sorted <==> s in multiset(sorted);
        assert s in list <==> s in multiset(list);
      }
      SnapshotIsExact(id, buffers[id]);
      MaximalIsUnique(ranges, SnapshotRanges(buffers[id]));
      r := Some((ranges, buffers[id].total));
    }
  }
}
