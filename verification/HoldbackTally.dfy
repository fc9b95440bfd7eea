/** Withheld messages and what they add up to. */
module HoldbackTally {
  import opened Bytes
  import opened FrameCodec

  type Name = seq<byte>

  datatype Place = Place(node: Name, connection: Name)

  datatype Key = Key(place: Place, message: uint64)

  /** A message waits for its frames, is being validated, was put off, or was approved. */
  datatype Stage = Collecting | Validating | Deferred | Approved

  /** `uid` tells an entry from a later one under the same key. */
  datatype Entry = Entry(uid: nat, total: uint32, frames: map<uint32, Frame>, digests: map<uint32, Digest>, bytes: nat,
      stage: Stage)

  datatype Tally = Tally(pendingBytes: int, pendingMessages: int, pendingFrames: int, approvedBytes: int,
      approvedMessages: int)

  const ZERO := Tally(0, 0, 0, 0, 0)

  function Add(a: Tally, b: Tally): (t: Tally) {
    Tally(a.pendingBytes + b.pendingBytes, a.pendingMessages + b.pendingMessages, a.pendingFrames + b.pendingFrames,
          a.approvedBytes + b.approvedBytes, a.approvedMessages + b.approvedMessages)
  }

  function Sub(a: Tally, b: Tally): (t: Tally) {
    Tally(a.pendingBytes - b.pendingBytes, a.pendingMessages - b.pendingMessages, a.pendingFrames - b.pendingFrames,
          a.approvedBytes - b.approvedBytes, a.approvedMessages - b.approvedMessages)
  }

  /** What one message counts for. */
  function Of(e: Entry): (t: Tally) {
    if e.stage == Approved then Tally(0, 0, 0, 32 * |e.digests|, 1) else Tally(e.bytes, 1, |e.digests|, 0, 0)
  }

  datatype Scope = Everywhere | At(place: Place)

  function Share(s: Scope, k: Key, e: Entry): (t: Tally) {
    if s == Everywhere || s.place == k.place then Of(e) else ZERO
  }

  predicate NonNegative(t: Tally) {
    t.pendingBytes >= 0 && t.pendingMessages >= 0 && t.pendingFrames >= 0 && t.approvedBytes >= 0
        && t.approvedMessages >= 0
  }

  // ---- Adding up ---------------------------------------------------------------------------

  lemma Fewer<K, V>(m: map<K, V>, k: K)
    requires k in m
    ensures |m - {k}| < |m|
  {
    assert (m - {k}).Keys == m.Keys - {k};
  }

  ghost function Total<K(!new)>(m: map<K, Tally>): (t: Tally)
    decreases |m|
  {
    if m == map[] then ZERO
    else
      var k :| k in m;
      Fewer(m, k);
      Add(m[k], Total(m - {k}))
  }

  lemma TotalUnfolds<K(!new)>(m: map<K, Tally>) returns (k: K)
    requires m != map[]
    ensures k in m && Total(m) == Add(m[k], Total(m - {k}))
  {
    k :| k in m && Total(m) == Add(m[k], Total(m - {k}));
  }

  lemma WithoutTwo<K, V>(m: map<K, V>, j: K, k: K)
    ensures m - {j} - {k} == m - {k} - {j}
  {
  }

  /** The sum does not depend on the order. */
  lemma {:induction false} TotalRemove<K(!new)>(m: map<K, Tally>, k: K)
    requires k in m
    ensures Total(m) == Add(m[k], Total(m - {k}))
    decreases |m|
  {
    hide Total;
    var j := TotalUnfolds(m);
    if j != k {
      Fewer(m, j);
      Fewer(m, k);
      WithoutTwo(m, j, k);
      TotalRemove(m - {j}, k);
      TotalRemove(m - {k}, j);
    }
  }

  lemma {:induction false} TotalIsNonNegative<K(!new)>(m: map<K, Tally>)
    requires forall k :: k in m ==> NonNegative(m[k])
    ensures NonNegative(Total(m))
    decreases |m|
  {
    if m != map[] {
      hide Total;
      var k := TotalUnfolds(m);
      Fewer(m, k);
      TotalIsNonNegative(m - {k});
    }
  }

  lemma {:induction false} TotalOfZeros<K(!new)>(m: map<K, Tally>)
    requires forall k :: k in m ==> m[k] == ZERO
    ensures Total(m) == ZERO
    decreases |m|
  {
    if m != map[] {
      hide Total;
      var k := TotalUnfolds(m);
      Fewer(m, k);
      TotalOfZeros(m - {k});
    }
  }

  lemma {:induction false} TotalWithoutApproved<K(!new)>(m: map<K, Tally>)
    requires forall k :: k in m ==> m[k].approvedBytes == 0 && m[k].approvedMessages == 0
    ensures Total(m).approvedBytes == 0 && Total(m).approvedMessages == 0
    decreases |m|
  {
    if m != map[] {
      hide Total;
      var k := TotalUnfolds(m);
      Fewer(m, k);
      TotalWithoutApproved(m - {k});
    }
  }

  function Shares(entries: map<Key, Entry>, s: Scope): (m: map<Key, Tally>) {
    map k | k in entries :: Share(s, k, entries[k])
  }

  ghost function SumOf(entries: map<Key, Entry>, s: Scope): (t: Tally) { Total(Shares(entries, s)) }

  function ShareAt(entries: map<Key, Entry>, k: Key, s: Scope): (t: Tally) {
    if k in entries then Share(s, k, entries[k]) else ZERO
  }

  lemma SharesWithout(entries: map<Key, Entry>, k: Key, s: Scope)
    ensures SumOf(entries - {k}, s) == Sub(SumOf(entries, s), ShareAt(entries, k, s))
  {
    hide Total, Share;
    var m := Shares(entries, s);
    assert Shares(entries - {k}, s) == m - {k};
    if k in entries {
      TotalRemove(m, k);
    } else {
      assert m - {k} == m;
    }
  }

  /** Putting an entry in, for the first time or again, changes the sum by the difference. */
  lemma SumReplace(entries: map<Key, Entry>, k: Key, e: Entry, s: Scope)
    ensures SumOf(entries[k := e], s) == Add(Sub(SumOf(entries, s), ShareAt(entries, k, s)), Share(s, k, e))
  {
    SharesWithout(entries, k, s);
    hide Total, Share;
    var m := Shares(entries[k := e], s);
    TotalRemove(m, k);
    assert m - {k} == Shares(entries - {k}, s);
  }

  lemma SumIsNonNegative(entries: map<Key, Entry>, s: Scope)
    ensures NonNegative(SumOf(entries, s))
  {
    hide Total;
    TotalIsNonNegative(Shares(entries, s));
  }

  /** One entry is part of the sum of its place and of all. */
  lemma PartOfSum(entries: map<Key, Entry>, k: Key, s: Scope)
    requires k in entries && (s == Everywhere || s.place == k.place)
    ensures var t, o := SumOf(entries, s), Of(entries[k]);
            NonNegative(Sub(t, o)) && t.pendingMessages + t.approvedMessages > 0
  {
    hide SumOf;
    SharesWithout(entries, k, s);
    SumIsNonNegative(entries - {k}, s);
  }

  /** A place without entries has an empty sum. */
  lemma EmptyPlace(entries: map<Key, Entry>, p: Place)
    requires forall k :: k in entries ==> k.place != p
    ensures SumOf(entries, At(p)) == ZERO
  {
    hide Total;
    TotalOfZeros(Shares(entries, At(p)));
  }

  /** A place without messages has no entries. */
  lemma NoMessagesNoEntries(entries: map<Key, Entry>, p: Place, k: Key)
    requires SumOf(entries, At(p)).pendingMessages == 0 && SumOf(entries, At(p)).approvedMessages == 0 && k.place == p
    ensures k !in entries
  {
    if k in entries {
      PartOfSum(entries, k, At(p));
      assert false;
    }
  }

  lemma NothingApproved(entries: map<Key, Entry>, s: Scope)
    requires forall k :: k in entries && (s == Everywhere || s.place == k.place) ==> entries[k].stage != Approved
    ensures SumOf(entries, s).approvedBytes == 0 && SumOf(entries, s).approvedMessages == 0
  {
    hide Total;
    TotalWithoutApproved(Shares(entries, s));
  }

  // ---- Entries of a node -------------------------------------------------------------------

  function KeysAt(entries: map<Key, Entry>, node: Name): (r: set<Key>) {
    set k | k in entries && k.place.node == node
  }

  lemma KeysReplace(entries: map<Key, Entry>, k: Key, e: Entry, node: Name)
    ensures |KeysAt(entries[k := e], node)|
            == |KeysAt(entries, node)| + if k !in entries && k.place.node == node then 1 else 0
  {
    if k !in entries && k.place.node == node {
      assert KeysAt(entries[k := e], node) == KeysAt(entries, node) + {k};
    } else {
      assert KeysAt(entries[k := e], node) == KeysAt(entries, node);
    }
  }

  lemma KeysWithout(entries: map<Key, Entry>, k: Key, node: Name)
    ensures |KeysAt(entries - {k}, node)|
            == |KeysAt(entries, node)| - if k in entries && k.place.node == node then 1 else 0
  {
    if k in entries && k.place.node == node {
      assert KeysAt(entries - {k}, node) == KeysAt(entries, node) - {k};
    } else {
      assert KeysAt(entries - {k}, node) == KeysAt(entries, node);
    }
  }
}
