/** Outbound record identities: each is issued once and bound to one content, and the oldest
    bindings are dropped from a ring. */
module RecordIds {
  import opened Sequences
  import opened Bytes

  const ID_SIZE := 44
  const CACHE_LIMIT := 65536
  const REKEY_BYTES := 0x4000_0000
  const MAX_NONCE := 0xFFFF_FFFF_FFFF_FFFE
  const DOMAIN := Ascii("BNFS/E2E-OUTBOUND-BINDING/V2")

  // ---- A ring ------------------------------------------------------------------------------

  /** What a ring holds, oldest first. */
  function Queue<T>(ring: seq<T>, next: nat): (q: seq<T>)
    requires next <= |ring|
  {
    ring[next..] + ring[..next]
  }

  predicate RingValid<T>(ring: seq<T>, next: nat, limit: nat) {
    |ring| <= limit && next <= |ring| && (if |ring| < limit then next == 0 else next < limit)
  }

  /** A full ring overwrites its oldest member. */
  lemma PushFull<T>(ring: seq<T>, next: nat, limit: nat, x: T)
    requires RingValid(ring, next, limit) && |ring| == limit
    ensures var n := (next + 1) % limit;
            && RingValid(ring[next := x], n, limit)
            && Queue(ring, next) != [] && Queue(ring, next)[0] == ring[next]
            && Queue(ring[next := x], n) == Queue(ring, next)[1..] + [x]
  {
    if next + 1 == limit {
      assert (next + 1) % limit == 0;
    } else {
      assert (next + 1) % limit == next + 1;
    }
  }

  lemma PushSpare<T>(ring: seq<T>, limit: nat, x: T)
    requires RingValid(ring, 0, limit) && |ring| < limit && limit > 1
    ensures RingValid(ring + [x], 0, limit) && Queue(ring + [x], 0) == Queue(ring, 0) + [x]
  {
  }

  // ---- Issuing and sealing -----------------------------------------------------------------

  type Id = seq<byte>

  /** A binding without a digest is issued and not yet sealed. */
  datatype Sender = Sender(
    session: Digest,
    sequence: nat,
    epoch: nat,
    epochBytes: nat,
    started: int,
    bindings: map<Id, Option<Digest>>,
    ring: seq<Id>,
    next: nat)

  datatype Outcome = Sealed(id: Id) | Exhausted | BadLength | OtherSession | BadNumbers | Unknown | Rebound | KeyFailure

  function IdOf(session: Digest, epoch: nat, sequence: nat): (id: Id)
    ensures |id| == ID_SIZE
  {
    session + BigEndian(epoch, 4) + BigEndian(sequence, 8)
  }

  function Epoch(id: Id): (n: nat)
    requires |id| == ID_SIZE
  {
    FromBigEndian(id[32..36])
  }

  function Sequence(id: Id): (n: nat)
    requires |id| == ID_SIZE
  {
    FromBigEndian(id[36..44])
  }

  lemma IdReadsBack(session: Digest, epoch: uint32, sequence: uint64)
    ensures var id := IdOf(session, epoch, sequence);
            id[..32] == session && Epoch(id) == epoch && Sequence(id) == sequence
  {
    var id := IdOf(session, epoch, sequence);
    Capacities();
    BigEndianReadsBack(epoch, 4);
    BigEndianReadsBack(sequence, 8);
    hide BigEndian, FromBigEndian;
    assert id[..32] == session;
    assert id[32..36] == BigEndian(epoch, 4);
    assert id[36..44] == BigEndian(sequence, 8);
  }

  /** The epoch the next ID belongs to; None when there is no further epoch. A first call starts epoch
      one; enough bytes or an elapsed interval starts the next. */
  function Rotated(s: Sender, now: int, interval: int): (r: (Sender, bool)) {
    var t := if s.epoch == 0 then s.(epoch := 1, started := now) else s;
    if t.epochBytes >= REKEY_BYTES || now - t.started >= interval then
      if t.epoch >= MAX_UINT32 then (t, false) else (t.(epoch := t.epoch + 1, epochBytes := 0, started := now), true)
    else (t, true)
  }

  function Remembered(s: Sender, id: Id): (r: Sender)
    requires RingValid(s.ring, s.next, CACHE_LIMIT)
  {
    if id in s.bindings then s
    else if |s.ring| < CACHE_LIMIT then s.(ring := s.ring + [id], bindings := s.bindings[id := None])
    else s.(bindings := (s.bindings - {s.ring[s.next]})[id := None], ring := s.ring[s.next := id],
            next := (s.next + 1) % CACHE_LIMIT)
  }

  function Issue(s: Sender, now: int, interval: int): (r: (Sender, Option<Id>))
    requires RingValid(s.ring, s.next, CACHE_LIMIT)
  {
    var (t, ok) := Rotated(s, now, interval);
    if !ok || t.sequence >= MAX_NONCE then (t, None)
    else
      var id := IdOf(t.session, t.epoch, t.sequence + 1);
      (Remembered(t.(sequence := t.sequence + 1), id), Some(id))
  }

  /** What a binding digest is taken over. */
  function Contents(payload: seq<byte>, aad: seq<byte>): (b: seq<byte>) {
    DOMAIN + BigEndian(|payload|, 8) + payload + BigEndian(|aad|, 8) + aad
  }

  /** Seals under an issued ID; `keyed` is false when no key can be derived. */
  function SealUnder(hash: seq<byte> -> Digest, s: Sender, payload: seq<byte>, aad: seq<byte>, id: Id,
                     keyed: bool): (r: (Sender, Outcome))
    requires |id| == ID_SIZE
  {
    if id[..32] != s.session then (s, OtherSession)
    else if Epoch(id) == 0 || Sequence(id) == 0 || Sequence(id) > MAX_NONCE then (s, BadNumbers)
    else if id !in s.bindings then (s, Unknown)
    else
      var digest := hash(Contents(payload, aad));
      if s.bindings[id].Some? && s.bindings[id].value != digest then (s, Rebound)
      else if !keyed then (s, KeyFailure)
      else if s.bindings[id].Some? then (s, Sealed(id))
      else (s.(bindings := s.bindings[id := Some(digest)], epochBytes := s.epochBytes + |payload|), Sealed(id))
  }

  /** Without an ID, a new one is issued first. */
  function Seal(hash: seq<byte> -> Digest, s: Sender, payload: seq<byte>, aad: seq<byte>, id: Id, now: int,
                interval: int, keyed: bool): (r: (Sender, Outcome))
    requires RingValid(s.ring, s.next, CACHE_LIMIT)
  {
    if id == [] then
      var (t, issued) := Issue(s, now, interval);
      if issued.None? then (t, Exhausted) else SealUnder(hash, t, payload, aad, issued.value, keyed)
    else if |id| != ID_SIZE then (s, BadLength)
    else SealUnder(hash, s, payload, aad, id, keyed)
  }

  /** The object: each call changes it as the functions above say. */
  class RecordSender {
    const hash: seq<byte> -> Digest
    const interval: int
    const session: Digest
    var sequence: nat
    var epoch: nat
    var epochBytes: nat
    var started: int
    var bindings: map<Id, Option<Digest>>
    var ring: seq<Id>
    var next: nat

    ghost function View(): (s: Sender)
      reads this
    {
      Sender(session, sequence, epoch, epochBytes, started, bindings, ring, next)
    }

    constructor (hash: seq<byte> -> Digest, interval: int, session: Digest)
      ensures this.hash == hash && this.interval == interval && View() == Sender(session, 0, 0, 0, 0, map[], [], 0)
    {
      this.hash, this.interval, this.session := hash, interval, session;
      sequence, epoch, epochBytes, started, bindings, ring, next := 0, 0, 0, 0, map[], [], 0;
    }

    method NewMessageId(now: int) returns (id: Option<Id>)
      requires RingValid(ring, next, CACHE_LIMIT)
      modifies this
      ensures RingValid(ring, next, CACHE_LIMIT) && (View(), id) == Issue(old(View()), now, interval)
    {
      hide IdOf;
      if epoch == 0 {
        epoch, started := 1, now;
      }
      if epochBytes >= REKEY_BYTES || now - started >= interval {
        if epoch >= MAX_UINT32 { return None; }
        epoch, epochBytes, started := epoch + 1, 0, now;
      }
      if sequence >= MAX_NONCE { return None; }
      sequence := sequence + 1;
      var made := IdOf(session, epoch, sequence);
      RememberId(made);
      id := Some(made);
    }

    method RememberId(id: Id)
      requires RingValid(ring, next, CACHE_LIMIT)
      modifies this`ring, this`next, this`bindings
      ensures RingValid(ring, next, CACHE_LIMIT) && View() == Remembered(old(View()), id)
    {
      if id in bindings { return; }
      if |ring| < CACHE_LIMIT {
        ring := ring + [id];
      } else {
        bindings := bindings - {ring[next]};
        ring := ring[next := id];
        next := (next + 1) % CACHE_LIMIT;
      }
      bindings := bindings[id := None];
    }

    method Encrypt(payload: seq<byte>, aad: seq<byte>, given: Id, now: int, keyed: bool) returns (r: Outcome)
      requires RingValid(ring, next, CACHE_LIMIT)
      modifies this
      ensures RingValid(ring, next, CACHE_LIMIT)
      ensures (View(), r) == Seal(hash, old(View()), payload, aad, given, now, interval, keyed)
    {
      hide IdOf, Contents, Remembered, Rotated, Epoch, Sequence;
      var id := given;
      if id == [] {
        var made := NewMessageId(now);
        if made.None? { return Exhausted; }
        id := made.value;
      } else if |id| != ID_SIZE {
        return BadLength;
      }
      if id[..32] != session { return OtherSession; }
      if Epoch(id) == 0 || Sequence(id) == 0 || Sequence(id) > MAX_NONCE { return BadNumbers; }
      if id !in bindings { return Unknown; }
      var binding := bindings[id];
      var digest := hash(Contents(payload, aad));
      if binding.Some? && binding.value != digest { return Rebound; }
      if !keyed { return KeyFailure; }
      if binding.None? {
        bindings := bindings[id := Some(digest)];
        epochBytes := epochBytes + |payload|;
      }
      r := Sealed(id);
    }
  }

  // ---- Contents are read unambiguously -----------------------------------------------------

  lemma SplitAt<T>(a: seq<T>, b: seq<T>, c: seq<T>, d: seq<T>)
    requires a + b == c + d && |a| == |c|
    ensures a == c && b == d
  {
    Parts(a, b);
    Parts(c, d);
  }

  lemma WidthOnce(n: nat, m: nat)
    requires n <= MAX_UINT64 && m <= MAX_UINT64 && BigEndian(n, 8) == BigEndian(m, 8)
    ensures n == m
  {
    Capacities();
    BigEndianReadsBack(n, 8);
    BigEndianReadsBack(m, 8);
  }

  lemma PrefixedOnce(a: seq<byte>, x: seq<byte>, b: seq<byte>, y: seq<byte>)
    requires |a| <= MAX_UINT64 && |b| <= MAX_UINT64 && BigEndian(|a|, 8) + (a + x) == BigEndian(|b|, 8) + (b + y)
    ensures a == b && x == y
  {
    SplitAt(BigEndian(|a|, 8), a + x, BigEndian(|b|, 8), b + y);
    WidthOnce(|a|, |b|);
    hide BigEndian;
    SplitAt(a, x, b, y);
  }

  /** Different payload or associated data means different digest input. */
  lemma ContentsAreUnique(p: seq<byte>, a: seq<byte>, q: seq<byte>, b: seq<byte>)
    requires |p| <= MAX_UINT64 && |a| <= MAX_UINT64 && |q| <= MAX_UINT64 && |b| <= MAX_UINT64
    requires Contents(p, a) == Contents(q, b)
    ensures p == q && a == b
  {
    hide BigEndian;
    var x, y := BigEndian(|a|, 8) + a, BigEndian(|b|, 8) + b;
    assert Contents(p, a) == DOMAIN + (BigEndian(|p|, 8) + (p + x));
    assert Contents(q, b) == DOMAIN + (BigEndian(|q|, 8) + (q + y));
    hide Contents;
    SplitAt(DOMAIN, BigEndian(|p|, 8) + (p + x), DOMAIN, BigEndian(|q|, 8) + (q + y));
    PrefixedOnce(p, x, q, y);
    assert a == a + [] && b == b + [];
    PrefixedOnce(a, [], b, []);
  }

  // ---- Whole runs --------------------------------------------------------------------------

  datatype Record = Record(id: Id, payload: seq<byte>, aad: seq<byte>)

  /** The sender with everything it ever issued and sealed. */
  datatype World = World(sender: Sender, issued: seq<Id>, records: seq<Record>)

  datatype Op =
    | NewId(now: int)
    | Encrypt(payload: seq<byte>, aad: seq<byte>, id: Id, now: int, keyed: bool)

  function Fresh(session: Digest): (w: World) {
    World(Sender(session, 0, 0, 0, 0, map[], [], 0), [], [])
  }

  function Step(hash: seq<byte> -> Digest, interval: int, w: World, op: Op): (x: World)
    requires RingValid(w.sender.ring, w.sender.next, CACHE_LIMIT)
  {
    match op
    case NewId(now) => Issuing(w, now, interval)
    case Encrypt(payload, aad, id, now, keyed) =>
      var y := if id == [] then Issuing(w, now, interval) else w;
      var (s, outcome) := Seal(hash, w.sender, payload, aad, id, now, interval, keyed);
      y.(sender := s, records := if outcome.Sealed? then w.records + [Record(outcome.id, payload, aad)] else w.records)
  }

  function Issuing(w: World, now: int, interval: int): (x: World)
    requires RingValid(w.sender.ring, w.sender.next, CACHE_LIMIT)
  {
    var (s, id) := Issue(w.sender, now, interval);
    w.(sender := s, issued := if id.Some? then w.issued + [id.value] else w.issued)
  }

  /** The nth ID of a session. */
  predicate IsNth(id: Id, session: Digest, n: nat) {
    |id| == ID_SIZE && id[..32] == session && Sequence(id) == n && Epoch(id) != 0
  }

  function LastOf<T>(s: seq<T>, n: nat): (r: seq<T>)
    requires n <= |s|
  {
    s[|s| - n..]
  }

  function Smaller(a: nat, b: nat): (n: nat) { if a < b then a else b }

  /** The IDs are numbered without gaps, the ring holds the latest of them in order, and the bindings
      are exactly those in the ring. */
  ghost predicate Numbered(w: World) {
    var s := w.sender;
    && s.sequence == |w.issued| <= MAX_NONCE
    && s.epoch <= MAX_UINT32
    && (forall i :: 0 <= i < |w.issued| ==> IsNth(w.issued[i], s.session, i + 1))
    && RingValid(s.ring, s.next, CACHE_LIMIT)
    && |s.ring| == Smaller(CACHE_LIMIT, |w.issued|)
    && Queue(s.ring, s.next) == LastOf(w.issued, |s.ring|)
    && (forall id :: id in s.bindings <==> id in LastOf(w.issued, |s.ring|))
  }

  function DigestOf(hash: seq<byte> -> Digest, r: Record): (d: Digest) {
    hash(Contents(r.payload, r.aad))
  }

  /** Every record is of an issued ID, and agrees with the binding and with the other records of it. */
  ghost predicate Bound(hash: seq<byte> -> Digest, w: World) {
    && (forall i :: 0 <= i < |w.records| ==> w.records[i].id in w.issued)
    && (forall i :: 0 <= i < |w.records| && w.records[i].id in w.sender.bindings ==>
          w.sender.bindings[w.records[i].id] == Some(DigestOf(hash, w.records[i])))
    && (forall i, j :: 0 <= i < |w.records| && 0 <= j < |w.records| && w.records[i].id == w.records[j].id ==>
          DigestOf(hash, w.records[i]) == DigestOf(hash, w.records[j]))
  }

  lemma LastGrows<T>(s: seq<T>, x: T, n: nat)
    requires n <= |s|
    ensures LastOf(s + [x], n + 1) == LastOf(s, n) + [x]
    ensures n > 0 ==> LastOf(s + [x], n) == LastOf(s, n)[1..] + [x] && LastOf(s, n)[0] == s[|s| - n]
  {
  }

  /** A new number is not one of the earlier IDs, and these differ from each other. */
  lemma NthDiffer(issued: seq<Id>, session: Digest, id: Id, n: nat)
    requires forall i :: 0 <= i < |issued| ==> IsNth(issued[i], session, i + 1)
    requires IsNth(id, session, n) && n > |issued|
    ensures id !in issued
    ensures forall i, j :: 0 <= i < j < |issued| ==> issued[i] != issued[j]
  {
    forall i, j | 0 <= i < j < |issued| ensures issued[i] != issued[j] {
      assert IsNth(issued[i], session, i + 1) && IsNth(issued[j], session, j + 1);
    }
  }

  lemma RotateKeeps(w: World, now: int, interval: int)
    requires Numbered(w)
    ensures var t := Rotated(w.sender, now, interval).0;
            Numbered(w.(sender := t))
                && t == w.sender.(epoch := t.epoch, started := t.started, epochBytes := t.epochBytes)
            && t.epoch > 0
  {
    hide Queue, LastOf, IsNth, RingValid;
  }

  /** The ring holds the latest members of a growing list. */
  ghost predicate Tracks<T>(ring: seq<T>, next: nat, issued: seq<T>) {
    && RingValid(ring, next, CACHE_LIMIT)
    && |ring| == Smaller(CACHE_LIMIT, |issued|)
    && Queue(ring, next) == LastOf(issued, |ring|)
  }

  lemma TrackSpare<T>(ring: seq<T>, next: nat, issued: seq<T>, x: T)
    requires Tracks(ring, next, issued) && |ring| < CACHE_LIMIT
    ensures Tracks(ring + [x], next, issued + [x])
    ensures forall y :: y in LastOf(issued + [x], |ring| + 1) <==> y in LastOf(issued, |ring|) || y == x
  {
    PushSpare(ring, CACHE_LIMIT, x);
    LastGrows(issued, x, |ring|);
    MemberAppend(LastOf(issued, |ring|), x);
    hide Queue, LastOf;
  }

  lemma TrackFull<T>(ring: seq<T>, next: nat, issued: seq<T>, x: T)
    requires Tracks(ring, next, issued) && |ring| == CACHE_LIMIT
    requires forall i, j :: 0 <= i < j < |issued| ==> issued[i] != issued[j]
    ensures Tracks(ring[next := x], (next + 1) % CACHE_LIMIT, issued + [x])
    ensures forall y :: y in LastOf(issued + [x], |ring|) <==>
              (y in LastOf(issued, |ring|) && y != ring[next]) || y == x
  {
    PushFull(ring, next, CACHE_LIMIT, x);
    LastGrows(issued, x, |ring|);
    var kept := LastOf(issued, |ring|);
    FirstOnly(kept);
    MemberAppend(kept[1..], x);
    hide Queue, LastOf;
  }

  lemma NumberedGrows(w: World, id: Id, s: Sender)
    requires Numbered(w) && |w.issued| < MAX_NONCE && IsNth(id, w.sender.session, |w.issued| + 1)
    requires s.session == w.sender.session && s.sequence == |w.issued| + 1 && s.epoch <= MAX_UINT32
    requires Tracks(s.ring, s.next, w.issued + [id])
    requires forall x :: x in s.bindings <==> x in LastOf(w.issued + [id], |s.ring|)
    ensures Numbered(World(s, w.issued + [id], w.records))
  {
    hide Queue, LastOf, RingValid, IsNth, Smaller;
  }

  lemma NewIsUnknown(w: World, id: Id)
    requires Numbered(w) && IsNth(id, w.sender.session, |w.issued| + 1)
    ensures id !in w.sender.bindings && id !in w.issued
    ensures Tracks(w.sender.ring, w.sender.next, w.issued)
    ensures forall i, j :: 0 <= i < j < |w.issued| ==> w.issued[i] != w.issued[j]
  {
    NthDiffer(w.issued, w.sender.session, id, |w.issued| + 1);
    hide IsNth, Queue;
    var kept := LastOf(w.issued, |w.sender.ring|);
    assert forall x :: x in kept ==> x in w.issued;
  }

  lemma RememberSpare(w: World, id: Id)
    requires Numbered(w) && |w.issued| < MAX_NONCE && IsNth(id, w.sender.session, |w.issued| + 1)
             && |w.sender.ring| < CACHE_LIMIT
    ensures var s := Remembered(w.sender.(sequence := |w.issued| + 1), id);
            Numbered(World(s, w.issued + [id], w.records)) && s.bindings == w.sender.bindings[id := None]
  {
    hide IsNth, Queue, LastOf, Tracks;
    NewIsUnknown(w, id);
    var s := w.sender;
    TrackSpare(s.ring, s.next, w.issued, id);
    var t := s.(sequence := |w.issued| + 1, ring := s.ring + [id], bindings := s.bindings[id := None]);
    assert Remembered(s.(sequence := |w.issued| + 1), id) == t;
    NumberedGrows(w, id, t);
  }

  lemma RememberFull(w: World, id: Id)
    requires Numbered(w) && |w.issued| < MAX_NONCE && IsNth(id, w.sender.session, |w.issued| + 1)
             && |w.sender.ring| == CACHE_LIMIT
    ensures var s := Remembered(w.sender.(sequence := |w.issued| + 1), id);
            && Numbered(World(s, w.issued + [id], w.records))
            && s.bindings == (w.sender.bindings - {w.sender.ring[w.sender.next]})[id := None]
  {
    hide IsNth, Queue, LastOf, Tracks;
    NewIsUnknown(w, id);
    var s := w.sender;
    TrackFull(s.ring, s.next, w.issued, id);
    var t := s.(sequence := |w.issued| + 1, bindings := (s.bindings - {s.ring[s.next]})[id := None],
                ring := s.ring[s.next := id], next := (s.next + 1) % CACHE_LIMIT);
    assert Remembered(s.(sequence := |w.issued| + 1), id) == t;
    NumberedGrows(w, id, t);
  }

  lemma FirstOnly<T>(s: seq<T>)
    requires s != [] && forall i, j :: 0 <= i < j < |s| ==> s[i] != s[j]
    ensures forall x :: x in s[1..] <==> x in s && x != s[0]
  {
    assert s == [s[0]] + s[1..];
  }

  ghost predicate Inv(hash: seq<byte> -> Digest, w: World) {
    Numbered(w) && Bound(hash, w)
  }

  lemma BoundIssue(hash: seq<byte> -> Digest, w: World, s: Sender, id: Id, evicted: set<Id>)
    requires Bound(hash, w) && id !in w.issued && s.bindings == (w.sender.bindings - evicted)[id := None]
    ensures Bound(hash, World(s, w.issued + [id], w.records))
  {
    hide DigestOf;
    MemberAppend(w.issued, id);
  }

  lemma IssueUnfolds(w: World, now: int, interval: int)
    requires RingValid(w.sender.ring, w.sender.next, CACHE_LIMIT)
    requires var t := Rotated(w.sender, now, interval).0; t.ring == w.sender.ring && t.next == w.sender.next
    ensures var (t, ok) := Rotated(w.sender, now, interval);
            var id := IdOf(t.session, t.epoch, t.sequence + 1);
            && Issue(w.sender, now, interval).1 == (if ok && t.sequence < MAX_NONCE then Some(id) else None)
            && Issuing(w, now, interval) ==
               if ok && t.sequence < MAX_NONCE then
                 w.(sender := Remembered(t.(sequence := t.sequence + 1), id), issued := w.issued + [id])
               else w.(sender := t)
  {
    hide Rotated, Remembered, IdOf;
  }

  lemma IssueKeeps(hash: seq<byte> -> Digest, w: World, now: int, interval: int)
    requires RingValid(w.sender.ring, w.sender.next, CACHE_LIMIT) && Inv(hash, w)
    ensures var x := Issuing(w, now, interval);
            && Inv(hash, x) && w.issued <= x.issued && x.records == w.records
            && var id := Issue(w.sender, now, interval).1;
               id.Some? ==>
                   |id.value| == ID_SIZE && id.value in x.sender.bindings && x.sender.bindings[id.value] == None
  {
    hide Rotated, IsNth, RingValid, Remembered, Queue, LastOf, IdOf, Issue, Issuing, DigestOf;
    RotateKeeps(w, now, interval);
    IssueUnfolds(w, now, interval);
    var t := Rotated(w.sender, now, interval);
    var v := w.(sender := t.0);
    assert Bound(hash, v);
    assert v.sender.sequence == |v.issued| && v.sender.epoch <= MAX_UINT32;
    hide Numbered, Bound;
    if t.1 && t.0.sequence < MAX_NONCE {
      NthIsRight(t.0.session, t.0.epoch, t.0.sequence + 1);
      IssueNew(hash, v, IdOf(t.0.session, t.0.epoch, t.0.sequence + 1));
    }
  }

  lemma NthIsRight(session: Digest, epoch: nat, sequence: nat)
    requires 0 < epoch <= MAX_UINT32 && sequence <= MAX_UINT64
    ensures IsNth(IdOf(session, epoch, sequence), session, sequence)
  {
    IdReadsBack(session, epoch, sequence);
  }

  lemma IssueNew(hash: seq<byte> -> Digest, v: World, id: Id)
    requires RingValid(v.sender.ring, v.sender.next, CACHE_LIMIT) && |v.sender.ring| <= CACHE_LIMIT
    requires Numbered(v) && Bound(hash, v) && |v.issued| < MAX_NONCE && IsNth(id, v.sender.session, |v.issued| + 1)
    ensures var s := Remembered(v.sender.(sequence := |v.issued| + 1), id);
            Inv(hash, World(s, v.issued + [id], v.records)) && id in s.bindings && s.bindings[id] == None
  {
    hide Numbered, Remembered, IsNth, Bound, Tracks;
    NewIsUnknown(v, id);
    var s := Remembered(v.sender.(sequence := |v.issued| + 1), id);
    if |v.sender.ring| < CACHE_LIMIT {
      RememberSpare(v, id);
      assert v.sender.bindings - {} == v.sender.bindings;
      BoundIssue(hash, v, s, id, {});
    } else {
      RememberFull(v, id);
      BoundIssue(hash, v, s, id, {v.sender.ring[v.sender.next]});
    }
  }

  lemma BoundSeal(hash: seq<byte> -> Digest, w: World, s: Sender, r: Record)
    requires Bound(hash, w) && r.id in w.issued && r.id in w.sender.bindings
    requires w.sender.bindings[r.id] == None || w.sender.bindings[r.id] == Some(DigestOf(hash, r))
    requires s.bindings == w.sender.bindings[r.id := Some(DigestOf(hash, r))]
    ensures Bound(hash, World(s, w.issued, w.records + [r]))
  {
    hide DigestOf;
    var x := World(s, w.issued, w.records + [r]);
    var n := |w.records|;
    forall i | 0 <= i < n && w.records[i].id == r.id ensures DigestOf(hash, w.records[i]) == DigestOf(hash, r) {
    }
  }

  lemma NumberedSeal(w: World, s: Sender, records: seq<Record>)
    requires Numbered(w) && s == w.sender.(bindings := s.bindings, epochBytes := s.epochBytes)
    requires s.bindings.Keys == w.sender.bindings.Keys
    ensures Numbered(World(s, w.issued, records))
  {
    hide IsNth, Queue, LastOf, RingValid;
    assert forall id :: id in s.bindings <==> id in w.sender.bindings;
  }

  lemma SealUnderKeeps(hash: seq<byte> -> Digest, w: World, payload: seq<byte>, aad: seq<byte>, id: Id, keyed: bool)
    requires Inv(hash, w) && |id| == ID_SIZE
    ensures var (s, outcome) := SealUnder(hash, w.sender, payload, aad, id, keyed);
            var records := if outcome.Sealed? then w.records + [Record(id, payload, aad)] else w.records;
            && Inv(hash, World(s, w.issued, records))
            && (outcome.Sealed? ==> outcome.id == id)
  {
    hide Contents, IsNth, Queue, Epoch, Sequence, Bound, RingValid;
    var (s, outcome) := SealUnder(hash, w.sender, payload, aad, id, keyed);
    if outcome.Sealed? {
      var r := Record(id, payload, aad);
      assert id in w.issued;
      assert s.bindings == w.sender.bindings[id := Some(DigestOf(hash, r))];
      NumberedSeal(w, s, w.records + [r]);
      hide Numbered, LastOf;
      BoundSeal(hash, w, s, r);
    } else {
      assert World(s, w.issued, w.records) == w;
    }
  }

  lemma StepKeeps(hash: seq<byte> -> Digest, interval: int, w: World, op: Op)
    requires RingValid(w.sender.ring, w.sender.next, CACHE_LIMIT) && Inv(hash, w)
    ensures var x := Step(hash, interval, w, op); Inv(hash, x) && w.issued <= x.issued && w.records <= x.records
  {
    hide Inv, SealUnder, Issue;
    match op
    case NewId(now) => IssueKeeps(hash, w, now, interval);
    case Encrypt(payload, aad, id, now, keyed) =>
      if id == [] {
        IssueKeeps(hash, w, now, interval);
        var y := Issuing(w, now, interval);
        var issued := Issue(w.sender, now, interval).1;
        if issued.Some? {
          SealUnderKeeps(hash, y, payload, aad, issued.value, keyed);
        }
      } else if |id| == ID_SIZE {
        SealUnderKeeps(hash, w, payload, aad, id, keyed);
      }
  }

  ghost predicate Steps(hash: seq<byte> -> Digest, interval: int, w: World, op: Op, x: World) {
    RingValid(w.sender.ring, w.sender.next, CACHE_LIMIT) && x == Step(hash, interval, w, op)
  }

  ghost predicate Run(hash: seq<byte> -> Digest, interval: int, session: Digest, ws: seq<World>, ops: seq<Op>) {
    && |ws| == |ops| + 1
    && ws[0] == Fresh(session)
    && forall i, j :: 0 <= i && j == i + 1 < |ws| ==> Steps(hash, interval, ws[i], ops[i], ws[j])
  }

  lemma {:induction false} RunKeeps(hash: seq<byte> -> Digest, interval: int, session: Digest, ws: seq<World>,
                                    ops: seq<Op>, m: nat, n: nat)
    requires Run(hash, interval, session, ws, ops) && m <= n < |ws|
    ensures Inv(hash, ws[n]) && Inv(hash, ws[m]) && ws[m].issued <= ws[n].issued && ws[m].records <= ws[n].records
    decreases n
  {
    if n > 0 {
      var k := n - 1;
      RunKeeps(hash, interval, session, ws, ops, if m < n then m else k, k);
      assert Steps(hash, interval, ws[k], ops[k], ws[n]);
      StepKeeps(hash, interval, ws[k], ops[k]);
    } else {
      assert LastOf<Id>([], 0) == [];
    }
  }

  /** No ID is issued in an epoch that is over: it has room for bytes and time left. */
  lemma NoStaleEpoch(s: Sender, now: int, interval: int)
    requires RingValid(s.ring, s.next, CACHE_LIMIT) && interval > 0 && s.epoch <= MAX_UINT32 && s.sequence <= MAX_NONCE
    requires Issue(s, now, interval).1.Some?
    ensures var (t, id) := Issue(s, now, interval);
            && t.epochBytes < REKEY_BYTES && now - t.started < interval
            && Epoch(id.value) == t.epoch >= s.epoch && Sequence(id.value) == t.sequence == s.sequence + 1
  {
    var t := Rotated(s, now, interval).0;
    IdReadsBack(t.session, t.epoch, t.sequence + 1);
    hide IdOf, Epoch, Sequence;
  }

  // ---- The results -------------------------------------------------------------------------

  /** Two different inputs with one digest. */
  ghost predicate Collision(hash: seq<byte> -> Digest, a: Record, b: Record) {
    Contents(a.payload, a.aad) != Contents(b.payload, b.aad) && DigestOf(hash, a) == DigestOf(hash, b)
  }

  /** In any run, all records sealed under one ID carry the same payload and associated data, unless
      they exhibit a collision of the digest. */
  lemma OneContentPerId(hash: seq<byte> -> Digest, interval: int, session: Digest, ws: seq<World>, ops: seq<Op>,
                        n: nat, i: nat, j: nat)
    requires Run(hash, interval, session, ws, ops) && n < |ws| && i < |ws[n].records| && j < |ws[n].records|
    requires var a, b := ws[n].records[i], ws[n].records[j];
             a.id == b.id && |a.payload| <= MAX_UINT64 && |a.aad| <= MAX_UINT64 && |b.payload| <= MAX_UINT64
                 && |b.aad| <= MAX_UINT64
    ensures ws[n].records[i] == ws[n].records[j] || Collision(hash, ws[n].records[i], ws[n].records[j])
  {
    RunKeeps(hash, interval, session, ws, ops, n, n);
    var a, b := ws[n].records[i], ws[n].records[j];
    assert DigestOf(hash, a) == DigestOf(hash, b);
    hide Numbered, Bound, Run;
    if Contents(a.payload, a.aad) == Contents(b.payload, b.aad) {
      ContentsAreUnique(a.payload, a.aad, b.payload, b.aad);
    }
  }

  /** IDs are numbered in the order they are issued, so none is issued twice and no nonce is shared
      by two IDs, in whatever epoch. */
  lemma NeverReissued(hash: seq<byte> -> Digest, interval: int, session: Digest, ws: seq<World>, ops: seq<Op>, n: nat,
                      i: nat)
    requires Run(hash, interval, session, ws, ops) && n < |ws| && i < |ws[n].issued|
    ensures |ws[n].issued[i]| == ID_SIZE && Sequence(ws[n].issued[i]) == i + 1 <= MAX_NONCE
  {
    RunKeeps(hash, interval, session, ws, ops, n, n);
    assert IsNth(ws[n].issued[i], ws[n].sender.session, i + 1);
  }

  lemma InLast<T>(s: seq<T>, n: nat, i: nat)
    requires n <= |s| && i < |s| && forall j, k :: 0 <= j < k < |s| ==> s[j] != s[k]
    ensures s[i] in LastOf(s, n) <==> i >= |s| - n
  {
    var kept := LastOf(s, n);
    var from := |s| - n;
    assert forall k :: 0 <= k < n ==> kept[k] == s[from + k];
    if i >= from {
      assert kept[i - from] == s[i];
    }
  }

  /** An ID can be sealed under exactly while it is one of the latest 65536; once it has been dropped
      it is refused for ever. */
  lemma LatestAreUsable(hash: seq<byte> -> Digest, interval: int, session: Digest, ws: seq<World>, ops: seq<Op>,
                        m: nat, n: nat, i: nat)
    requires Run(hash, interval, session, ws, ops) && m <= n < |ws| && i < |ws[m].issued|
    ensures i < |ws[n].issued| && ws[n].issued[i] == ws[m].issued[i]
    ensures ws[m].issued[i] in ws[n].sender.bindings <==> |ws[n].issued| - i <= CACHE_LIMIT
  {
    RunKeeps(hash, interval, session, ws, ops, m, n);
    hide Run, Bound, Queue, RingValid;
    var w := ws[n];
    IssuedDiffer(w);
    InLast(w.issued, |w.sender.ring|, i);
    hide LastOf;
  }

  lemma IssuedDiffer(w: World)
    requires Numbered(w)
    ensures forall i, j :: 0 <= i < j < |w.issued| ==> w.issued[i] != w.issued[j]
  {
    forall i, j | 0 <= i < j < |w.issued| ensures w.issued[i] != w.issued[j] {
      assert IsNth(w.issued[i], w.sender.session, i + 1) && IsNth(w.issued[j], w.sender.session, j + 1);
    }
  }
}
