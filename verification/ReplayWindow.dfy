/** The sliding replay window: a ring of bits that stands for the set of accepted sequences. */
module ReplayWindow {
  import opened Sequences
  import opened Bytes

  const ID_SIZE := 44
  const WINDOW := 65536
  const WORDS := 1024

  // ---- Single bits -------------------------------------------------------------------------

  // The operations on words, named so that a proof can leave their bits alone.

  function Left(m: bv64): (r: bv64) { m << 1 }

  function Left8(m: bv64): (r: bv64) { m << 8 }

  function Common(w: bv64, m: bv64): (r: bv64) { w & m }

  function With(w: bv64, m: bv64): (r: bv64) { w | m }

  function Off(w: bv64, m: bv64): (r: bv64) { w & !m }

  /** One, shifted left i times. */
  function Mask(i: nat): (m: bv64) {
    if i == 0 then 1 else Left(Mask(i - 1))
  }

  lemma LowBit(m: bv64)
    ensures Common(1, Left(m)) == 0
  {
  }

  lemma LeftTogether(a: bv64, b: bv64)
    requires Common(a, b) == 0
    ensures Common(Left(a), Left(b)) == 0
  {
  }

  lemma {:induction false} MasksAreDisjoint(i: nat, j: nat)
    requires i < j
    ensures Common(Mask(i), Mask(j)) == 0
  {
    hide Common, Left;
    if i == 0 {
      LowBit(Mask(j - 1));
    } else {
      MasksAreDisjoint(i - 1, j - 1);
      LeftTogether(Mask(i - 1), Mask(j - 1));
    }
  }

  lemma EightLefts(m: bv64)
    ensures Left(Left(Left(Left(Left(Left(Left(Left(m)))))))) == Left8(m)
  {
  }

  lemma EightMore(i: nat)
    ensures Mask(i + 8) == Left8(Mask(i))
  {
    EightLefts(Mask(i));
    hide Left, Left8;
    assert Mask(i + 2) == Left(Left(Mask(i)));
    assert Mask(i + 4) == Left(Left(Mask(i + 2)));
    assert Mask(i + 6) == Left(Left(Mask(i + 4)));
    assert Mask(i + 8) == Left(Left(Mask(i + 6)));
  }

  lemma TopBit()
    ensures Left8(Left8(Left8(Left8(Left8(Left8(Left8(1))))))) == 0x0100_0000_0000_0000
    ensures Left(Left(Left(Left(Left(Left(Left(0x0100_0000_0000_0000))))))) != 0
  {
  }

  lemma SevenMore(i: nat)
    ensures Mask(i + 7) == Left(Left(Left(Left(Left(Left(Left(Mask(i))))))))
  {
    hide Left;
    assert Mask(i + 2) == Left(Left(Mask(i)));
    assert Mask(i + 4) == Left(Left(Mask(i + 2)));
    assert Mask(i + 6) == Left(Left(Mask(i + 4)));
    assert Mask(i + 7) == Left(Mask(i + 6));
  }

  lemma FirstMask()
    ensures Mask(0) == 1
  {
  }

  lemma MaskOfLast()
    ensures Mask(63) != 0
  {
    hide Left, Left8, Mask;
    TopBit();
    FirstMask();
    EightMore(0); EightMore(8); EightMore(16); EightMore(24); EightMore(32); EightMore(40); EightMore(48);
    SevenMore(56);
  }

  lemma ZeroStays()
    ensures Left(0) == 0
  {
  }

  lemma {:induction false} MaskIsNotZero(i: nat)
    requires i < 64
    ensures Mask(i) != 0
    decreases 64 - i
  {
    ZeroStays();
    hide Left;
    if i == 63 {
      MaskOfLast();
    } else {
      MaskIsNotZero(i + 1);
    }
  }

  predicate Bit(w: bv64, i: nat) { Common(w, Mask(i)) != 0 }

  lemma NoBits(m: bv64)
    ensures Common(0, m) == 0
  {
  }

  lemma SetSame(w: bv64, a: bv64)
    ensures Common(With(w, a), a) == a
  {
  }

  lemma ClearSame(w: bv64, a: bv64)
    ensures Common(Off(w, a), a) == 0
  {
  }

  lemma SetOther(w: bv64, a: bv64, b: bv64)
    requires Common(a, b) == 0
    ensures Common(With(w, a), b) == Common(w, b)
  {
  }

  lemma ClearOther(w: bv64, a: bv64, b: bv64)
    requires Common(a, b) == 0
    ensures Common(Off(w, a), b) == Common(w, b)
  {
  }

  lemma Symmetric(a: bv64, b: bv64)
    ensures Common(a, b) == Common(b, a)
  {
  }

  /** Setting and clearing a bit touch that bit only. */
  lemma BitOf(w: bv64, i: nat, j: nat)
    requires i < 64 && j < 64
    ensures Bit(With(w, Mask(i)), j) <==> (Bit(w, j) || i == j)
    ensures Bit(Off(w, Mask(i)), j) <==> (Bit(w, j) && i != j)
  {
    hide Mask, Common, With, Off;
    if i == j {
      MaskIsNotZero(j);
      SetSame(w, Mask(j));
      ClearSame(w, Mask(j));
    } else {
      if i < j {
        MasksAreDisjoint(i, j);
      } else {
        MasksAreDisjoint(j, i);
        Symmetric(Mask(i), Mask(j));
      }
      SetOther(w, Mask(i), Mask(j));
      ClearOther(w, Mask(i), Mask(j));
    }
  }

  // ---- The ring ----------------------------------------------------------------------------

  function Slot(sequence: nat): (k: nat)
    ensures k < WINDOW
  {
    sequence % WINDOW
  }

  predicate Marked(seen: seq<bv64>, k: nat)
    requires |seen| == WORDS && k < WINDOW
  {
    Bit(seen[k / 64], k % 64)
  }

  /** The one sequence of the window that a slot stands for; not positive before the ring has
      gone round. */
  function Occupant(highest: nat, k: nat): (s: int) {
    highest - (highest - k) % WINDOW
  }

  lemma OccupantIsLatest(highest: nat, k: nat, s: nat)
    requires k < WINDOW && s <= highest
    ensures Occupant(highest, k) == s <==> highest - s < WINDOW && Slot(s) == k
  {
    var d := (highest - k) % WINDOW;
    var q := (highest - k) / WINDOW;
    assert highest - k == WINDOW * q + d;
    if s == highest - d {
      assert s == WINDOW * q + k;
      assert s % WINDOW == k;
    }
    if highest - s < WINDOW && s % WINDOW == k {
      assert s == WINDOW * (s / WINDOW) + k;
      assert highest - k - d == WINDOW * q;
    }
  }

  lemma OccupantMoves(highest: nat, k: nat)
    requires k < WINDOW
    ensures Occupant(highest + 1, k) == if Slot(highest + 1) == k then highest + 1 else Occupant(highest, k)
  {
    var d := (highest - k) % WINDOW;
    var q := (highest - k) / WINDOW;
    assert highest - k == WINDOW * q + d;
    if d + 1 < WINDOW {
      assert highest + 1 - k == WINDOW * q + (d + 1);
      assert (highest + 1 - k) % WINDOW == d + 1;
      assert (highest + 1) % WINDOW != k;
    } else {
      assert highest + 1 - k == WINDOW * (q + 1);
      assert (highest + 1 - k) % WINDOW == 0;
      assert highest + 1 == WINDOW * (q + 1) + k;
      assert (highest + 1) % WINDOW == k;
    }
  }

  lemma OccupantJumps(highest: nat, next: nat, k: nat)
    requires k < WINDOW && next >= highest + WINDOW
    ensures Occupant(next, k) > highest
  {
  }

  /** The bits say, for each slot, whether its sequence was accepted. */
  ghost predicate Refines(seen: seq<bv64>, highest: nat, accepted: set<int>) {
    && |seen| == WORDS
    && forall k :: 0 <= k < WINDOW ==> (Marked(seen, k) <==> Occupant(highest, k) in accepted)
  }

  lemma SlotParts(j: nat, k: nat)
    ensures j == k <==> j / 64 == k / 64 && j % 64 == k % 64
  {
  }

  lemma SetMark(seen: seq<bv64>, k: nat, j: nat)
    requires |seen| == WORDS && k < WINDOW && j < WINDOW
    ensures Marked(seen[k / 64 := With(seen[k / 64], Mask(k % 64))], j) <==> (Marked(seen, j) || j == k)
    ensures Marked(seen[k / 64 := Off(seen[k / 64], Mask(k % 64))], j) <==> (Marked(seen, j) && j != k)
  {
    hide Bit, Mask, With, Off;
    BitOf(seen[k / 64], k % 64, j % 64);
    SlotParts(j, k);
  }

  // ---- The window as a set -----------------------------------------------------------------

  datatype Window = Window(session: Option<Digest>, highest: nat, accepted: set<int>)

  datatype Observation = Invalid | Foreign | Seen | Fresh

  const EMPTY := Window(None, 0, {})

  function Epoch(id: seq<byte>): (n: nat)
    requires |id| == ID_SIZE
  {
    FromBigEndian(id[32..36])
  }

  function Sequence(id: seq<byte>): (n: nat)
    requires |id| == ID_SIZE
  {
    FromBigEndian(id[36..44])
  }

  predicate Wellformed(id: seq<byte>) {
    |id| == ID_SIZE && Epoch(id) != 0 && Sequence(id) != 0
  }

  predicate SameSession(w: Window, id: seq<byte>)
    requires Wellformed(id)
  {
    w.session == None || w.session == Some(id[..32])
  }

  /** Never accepted before, and not too far behind the highest. */
  predicate IsFresh(w: Window, sequence: nat) {
    sequence !in w.accepted && w.highest < sequence + WINDOW
  }

  function Max(a: nat, b: nat): (m: nat) { if a < b then b else a }

  function Observe(w: Window, id: seq<byte>): (r: (Window, Observation)) {
    if !Wellformed(id) then (w, Invalid)
    else if !SameSession(w, id) then (w, Foreign)
    else
      var s := Sequence(id);
      var bound := w.(session := Some(id[..32]));
      if IsFresh(w, s) then (bound.(highest := Max(w.highest, s), accepted := w.accepted + {s}), Fresh)
          else (bound, Seen)
  }

  ghost predicate Sound(w: Window) {
    && (forall s :: s in w.accepted ==> 0 < s <= w.highest)
    && (w.highest > 0 ==> w.highest in w.accepted)
  }

  lemma ObserveKeepsSound(w: Window, id: seq<byte>)
    requires Sound(w)
    ensures Sound(Observe(w, id).0)
  {
  }

  // ---- The ring follows the set ------------------------------------------------------------

  lemma ClearedStep(seen: seq<bv64>, highest: nat, accepted: set<int>)
    requires Refines(seen, highest, accepted) && highest + 1 !in accepted
    ensures var k := Slot(highest + 1);
            Refines(seen[k / 64 := Off(seen[k / 64], Mask(k % 64))], highest + 1, accepted)
  {
    hide Marked, Occupant, Slot, Mask, Off;
    var k := Slot(highest + 1);
    var next, top := seen[k / 64 := Off(seen[k / 64], Mask(k % 64))], highest + 1;
    forall j | 0 <= j < WINDOW ensures Marked(next, j) <==> Occupant(top, j) in accepted
    {
      SetMark(seen, k, j);
      OccupantMoves(highest, j);
    }
  }

  lemma MarkedStep(seen: seq<bv64>, highest: nat, accepted: set<int>, s: nat)
    requires Refines(seen, highest, accepted) && s <= highest && highest - s < WINDOW
    ensures var k := Slot(s);
            && (Marked(seen, k) <==> s in accepted)
            && Refines(seen[k / 64 := With(seen[k / 64], Mask(k % 64))], highest, accepted + {s})
  {
    hide Marked, Occupant, Slot, Mask, With;
    var k := Slot(s);
    OccupantIsLatest(highest, k, s);
    var next := seen[k / 64 := With(seen[k / 64], Mask(k % 64))];
    forall j | 0 <= j < WINDOW ensures Marked(next, j) <==> Occupant(highest, j) in accepted + {s}
    {
      SetMark(seen, k, j);
      OccupantIsLatest(highest, j, s);
    }
  }

  lemma ZeroIsUnmarked(seen: seq<bv64>, k: nat)
    requires |seen| == WORDS && k < WINDOW && seen[k / 64] == 0
    ensures !Marked(seen, k)
  {
    hide Mask, Common;
    NoBits(Mask(k % 64));
  }

  lemma AllClear(seen: seq<bv64>, highest: nat, accepted: set<int>)
    requires |seen| == WORDS && forall i :: 0 <= i < WORDS ==> seen[i] == 0
    requires forall k :: 0 <= k < WINDOW ==> Occupant(highest, k) !in accepted
    ensures Refines(seen, highest, accepted)
  {
    hide Marked, Occupant;
    forall k | 0 <= k < WINDOW ensures Marked(seen, k) <==> Occupant(highest, k) in accepted {
      ZeroIsUnmarked(seen, k);
    }
  }

  class ReplayWindow {
    var initialized: bool
    var sessionId: Digest
    var highest: nat
    const seen: array<bv64>
    ghost var accepted: set<int>

    ghost function View(): (w: Window)
      reads this
    {
      Window(if initialized then Some(sessionId) else None, highest, accepted)
    }

    ghost predicate Valid()
      reads this, seen
    {
      seen.Length == WORDS && Refines(seen[..], highest, accepted) && Sound(View())
    }

    constructor ()
      ensures Valid() && fresh(seen) && View() == EMPTY
    {
      initialized, sessionId, highest, accepted := false, ZERO_DIGEST, 0, {};
      seen := new bv64[WORDS](_ => 0);
      new;
      AllClear(seen[..], 0, {});
    }

    /** Moves the window up and forgets what falls out of it. */
    method Advance(sequence: nat)
      requires Valid() && sequence > highest
      modifies this`highest, seen
      ensures highest == sequence && Refines(seen[..], highest, accepted)
    {
      hide Marked, Occupant, Slot, Mask, Off, Refines;
      if sequence - highest >= WINDOW {
        for i := 0 to WORDS
          invariant highest == old(highest) && forall j :: 0 <= j < i ==> seen[j] == 0
        {
          seen[i] := 0;
        }
        forall k | 0 <= k < WINDOW ensures Occupant(sequence, k) !in accepted {
          OccupantJumps(highest, sequence, k);
        }
        AllClear(seen[..], sequence, accepted);
      } else {
        var offset := 1;
        while offset <= sequence - highest
          invariant highest == old(highest) && 1 <= offset <= sequence - highest + 1
          invariant Refines(seen[..], highest + offset - 1, accepted)
        {
          var k := Slot(highest + offset);
          ghost var before := seen[..];
          ClearedStep(before, highest + offset - 1, accepted);
          seen[k / 64] := Off(seen[k / 64], Mask(k % 64));
          assert seen[..] == before[k / 64 := Off(before[k / 64], Mask(k % 64))];
          offset := offset + 1;
        }
      }
      highest := sequence;
    }

    /** Whether a message is new. The bits decide exactly as the set of all accepted sequences does. */
    method ObserveId(id: seq<byte>) returns (r: Observation)
      requires Valid()
      modifies this, seen
      ensures Valid() && (View(), r) == Observe(old(View()), id)
    {
      if |id| != ID_SIZE { return Invalid; }
      var sequence := Sequence(id);
      if Epoch(id) == 0 || sequence == 0 { return Invalid; }
      if !initialized {
        sessionId := id[..32];
        initialized := true;
      } else if sessionId != id[..32] {
        return Foreign;
      }
      hide Marked, Occupant, Mask, With, Refines, Epoch, Sequence;
      assert Valid();
      if sequence > highest {
        Advance(sequence);
      } else if highest - sequence >= WINDOW {
        return Seen;
      }
      var k := Slot(sequence);
      ghost var before := seen[..];
      MarkedStep(before, highest, accepted, sequence);
      if Bit(seen[k / 64], k % 64) {
        return Seen;
      }
      seen[k / 64] := With(seen[k / 64], Mask(k % 64));
      assert seen[..] == before[k / 64 := With(before[k / 64], Mask(k % 64))];
      accepted := accepted + {sequence};
      r := Fresh;
    }
  }

  // ---- Whole runs --------------------------------------------------------------------------

  function After(w: Window, ids: seq<seq<byte>>): (r: Window) {
    if ids == [] then w else Observe(After(w, ids[..|ids| - 1]), ids[|ids| - 1]).0
  }

  /** The sequences reported fresh, in order. */
  function Accepted(w: Window, ids: seq<seq<byte>>): (r: seq<nat>) {
    if ids == [] then []
    else
      var n := |ids| - 1;
      var before := Accepted(w, ids[..n]);
      if Observe(After(w, ids[..n]), ids[n]).1 == Fresh then before + [Sequence(ids[n])] else before
  }

  /** The window remembers exactly what it reported fresh, and its top is the largest of them. */
  lemma {:induction false} RunIsRemembered(ids: seq<seq<byte>>)
    ensures var w := After(EMPTY, ids);
            Sound(w) && forall s :: s in w.accepted <==> s in Accepted(EMPTY, ids)
  {
    if ids != [] {
      var n := |ids| - 1;
      RunIsRemembered(ids[..n]);
      var before := After(EMPTY, ids[..n]);
      ObserveKeepsSound(before, ids[n]);
      if Observe(before, ids[n]).1 == Fresh {
        MemberAppend(Accepted(EMPTY, ids[..n]), Sequence(ids[n]));
      }
    }
  }

  /** In no run is a sequence accepted twice. */
  lemma {:induction false} NoSequenceTwice(ids: seq<seq<byte>>)
    ensures forall i, j :: 0 <= i < j < |Accepted(EMPTY, ids)| ==> Accepted(EMPTY, ids)[i] != Accepted(EMPTY, ids)[j]
  {
    if ids != [] {
      var n := |ids| - 1;
      NoSequenceTwice(ids[..n]);
      RunIsRemembered(ids[..n]);
    }
  }

  /** The next message of the session is accepted exactly when its sequence was never accepted in the
      run and is less than the window size behind the largest that was. */
  lemma FreshExactly(ids: seq<seq<byte>>, id: seq<byte>)
    requires Wellformed(id) && SameSession(After(EMPTY, ids), id)
    ensures var earlier := Accepted(EMPTY, ids);
            Observe(After(EMPTY, ids), id).1 == Fresh <==>
            Sequence(id) !in earlier && forall i :: 0 <= i < |earlier| ==> earlier[i] < Sequence(id) + WINDOW
  {
    RunIsRemembered(ids);
    var w := After(EMPTY, ids);
    var earlier := Accepted(EMPTY, ids);
    assert forall i :: 0 <= i < |earlier| ==> earlier[i] in earlier && earlier[i] in w.accepted;
    if w.highest > 0 {
      assert w.highest in earlier;
    }
  }

  /** The ID of a record: 44 bytes with an epoch and a sequence that are not zero. */
  predicate Usable(id: seq<byte>) { |id| == 44 && FromBigEndian(id[32..36]) != 0 && FromBigEndian(id[36..44]) != 0 }

  /** The first usable ID of a run. */
  function FirstUsable(ids: seq<seq<byte>>): (r: Option<seq<byte>>)
    ensures r.Some? ==> Usable(r.value)
  {
    if ids == [] then None
    else
      var n := |ids| - 1;
      var first := FirstUsable(ids[..n]);
      if first.Some? then first else if Usable(ids[n]) then Some(ids[n]) else None
  }

  lemma {:induction false} FirstBinds(ids: seq<seq<byte>>)
    ensures var first := FirstUsable(ids);
            After(EMPTY, ids).session == if first.Some? then Some(first.value[..32]) else None
  {
    if ids != [] {
      FirstBinds(ids[..|ids| - 1]);
    }
  }

  /** Every ID after every run: it is invalid exactly when it is not usable, of another session exactly when the first
      usable one was, and otherwise seen exactly when its sequence was accepted or is 65536 behind an accepted one. */
  lemma ObservedExactly(ids: seq<seq<byte>>, id: seq<byte>)
    ensures var first, earlier := FirstUsable(ids), Accepted(EMPTY, ids);
            Observe(After(EMPTY, ids), id).1 ==
            if !Usable(id) then Invalid
            else if first.Some? && first.value[..32] != id[..32] then Foreign
            else
              var s := FromBigEndian(id[36..44]);
              if s in earlier || exists i :: 0 <= i < |earlier| && earlier[i] >= s + 65536 then Seen else Fresh
  {
    FirstBinds(ids);
    if Usable(id) && SameSession(After(EMPTY, ids), id) { FreshExactly(ids, id); }
    hide After, Accepted, FirstUsable, FromBigEndian, IsFresh;
  }
}
