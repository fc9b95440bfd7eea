/** The relay's two-sided table of message IDs, with tombstones for finished messages. */
module RouteTable {
  import opened Sequences
  import opened Bytes

  datatype Key = Key(connection: seq<byte>, message: uint64)

  /** A leg of the group, with the connection it belongs to. */
  datatype Endpoint = Endpoint(number: nat, connection: seq<byte>)

  /** Where a frame goes, and the message ID it carries there. */
  datatype Entry = Entry(dest: Endpoint, dstId: uint64)

  /** What a caller asks to bind: an ID on the relay's side and one on a client's, each with the entry
      that a frame arriving under it is to be sent by. */
  datatype Binding = Binding(relayId: uint64, relayEntry: Entry, key: Key, clientEntry: Entry, total: uint32)

  /** A binding in the table; `expiresAt` counts only for a completed one. */
  datatype Pair = Pair(
    relayId: uint64,
    key: Key,
    relayEntry: Entry,
    clientEntry: Entry,
    total: uint32,
    completed: bool,
    expiresAt: int,
    removed: bool)

  /** Pairs are kept by number, so that a pair that left the table can still be referred to. */
  datatype Table = Table(
    pairs: seq<Pair>,
    relaySide: map<uint64, nat>,
    clientSide: map<Key, nat>,
    connections: map<seq<byte>, set<nat>>,
    expiry: seq<nat>,
    count: nat)

  const EMPTY := Table([], map[], map[], map[], [], 0)

  predicate Live(t: Table, u: nat) { u < |t.pairs| && !t.pairs[u].removed }

  // ---- The invariant -----------------------------------------------------------------------

  /** Each side leads to live pairs that carry the ID they are found under. */
  ghost predicate Sides(t: Table) {
    && (forall id :: id in t.relaySide ==> Live(t, t.relaySide[id]) && t.pairs[t.relaySide[id]].relayId == id)
    && (forall k :: k in t.clientSide ==> Live(t, t.clientSide[k]) && t.pairs[t.clientSide[k]].key == k)
  }

  ghost predicate Found(t: Table, u: nat)
    requires u < |t.pairs|
  {
    var p := t.pairs[u];
    && p.relayId in t.relaySide && t.relaySide[p.relayId] == u
    && p.key in t.clientSide && t.clientSide[p.key] == u
    && p.key.connection in t.connections && u in t.connections[p.key.connection]
    && (p.completed <==> u in t.expiry)
  }

  /** Every live pair is found from both sides and under its connection, and is listed for expiry
      exactly when it is complete. */
  ghost predicate AllFound(t: Table) {
    forall u :: Live(t, u) ==> Found(t, u)
  }

  ghost predicate Connected(t: Table) {
    forall c :: c in t.connections ==>
      t.connections[c] != {} && forall u :: u in t.connections[c] ==> Live(t, u) && t.pairs[u].key.connection == c
  }

  ghost predicate Distinct(s: seq<nat>) {
    forall i, j :: 0 <= i < j < |s| ==> s[i] != s[j]
  }

  ghost predicate Expiring(t: Table) {
    Distinct(t.expiry) && forall u :: u in t.expiry ==> Live(t, u)
  }

  ghost predicate Counted(t: Table) {
    t.count == |t.relaySide| == |t.clientSide|
  }

  ghost predicate Valid(t: Table) {
    Sides(t) && AllFound(t) && Connected(t) && Expiring(t) && Counted(t)
  }

  /** The list is in the order the pairs expire, and none expires later than one lifetime from now. */
  ghost predicate Ordered(t: Table, clock: int, ttl: int) {
    && (forall u :: u in t.expiry ==> u < |t.pairs| && t.pairs[u].expiresAt <= clock + ttl)
    && (forall i, j :: 0 <= i < j < |t.expiry| && t.expiry[i] < |t.pairs| && t.expiry[j] < |t.pairs| ==>
          t.pairs[t.expiry[i]].expiresAt <= t.pairs[t.expiry[j]].expiresAt)
  }

  // ---- Taking pairs out --------------------------------------------------------------------

  function Sieve(s: seq<nat>, out: set<nat>): (r: seq<nat>) {
    if s == [] then []
    else
      var rest := Sieve(s[..|s| - 1], out);
      if s[|s| - 1] in out then rest else rest + [s[|s| - 1]]
  }

  lemma {:induction false} SieveMembers(s: seq<nat>, out: set<nat>)
    ensures forall u :: u in Sieve(s, out) <==> u in s && u !in out
    ensures Distinct(s) ==> Distinct(Sieve(s, out))
  {
    if s != [] {
      var n := |s| - 1;
      SieveMembers(s[..n], out);
      MemberAppend(s[..n], s[n]);
      assert s == s[..n] + [s[n]];
      MemberAppend(Sieve(s[..n], out), s[n]);
    }
  }

  lemma {:induction false} SieveOrder(t: Table, s: seq<nat>, out: set<nat>)
    requires forall i :: 0 <= i < |s| ==> s[i] < |t.pairs|
    requires forall i, j :: 0 <= i < j < |s| ==> t.pairs[s[i]].expiresAt <= t.pairs[s[j]].expiresAt
    ensures forall i :: 0 <= i < |Sieve(s, out)| ==> Sieve(s, out)[i] in s
    ensures forall i, j :: 0 <= i < j < |Sieve(s, out)| ==>
              t.pairs[Sieve(s, out)[i]].expiresAt <= t.pairs[Sieve(s, out)[j]].expiresAt
  {
    SieveMembers(s, out);
    assert forall i :: 0 <= i < |Sieve(s, out)| ==> Sieve(s, out)[i] in Sieve(s, out);
    if s != [] {
      var n := |s| - 1;
      SieveOrder(t, s[..n], out);
    }
  }

  /** The table without some of its pairs. */
  ghost function RemovedAll(t: Table, out: set<nat>): (r: Table) {
    Table(
      seq(|t.pairs|, i requires 0 <= i < |t.pairs| => if i in out then t.pairs[i].(removed := true) else t.pairs[i]),
      map id | id in t.relaySide && t.relaySide[id] !in out :: t.relaySide[id],
      map k | k in t.clientSide && t.clientSide[k] !in out :: t.clientSide[k],
      map c | c in t.connections && t.connections[c] - out != {} :: t.connections[c] - out,
      Sieve(t.expiry, out),
      if t.count >= |out| then t.count - |out| else 0)
  }

  lemma RemovedPair(t: Table, out: set<nat>, u: nat)
    ensures |RemovedAll(t, out).pairs| == |t.pairs|
    ensures u < |t.pairs| ==>
              RemovedAll(t, out).pairs[u] == if u in out then t.pairs[u].(removed := true) else t.pairs[u]
    ensures Live(RemovedAll(t, out), u) <==> Live(t, u) && u !in out
  {
  }

  ghost function Kept<K(!new)>(m: map<K, nat>, out: set<nat>): (r: map<K, nat>) {
    map k | k in m && m[k] !in out :: m[k]
  }

  ghost predicate Reaches<K(!new)>(m: map<K, nat>, u: nat) {
    exists k :: k in m && m[k] == u
  }

  ghost predicate Injective<K(!new)>(m: map<K, nat>) {
    forall j, k :: j in m && k in m && m[j] == m[k] ==> j == k
  }

  lemma KeptWithout<K(!new)>(m: map<K, nat>, out: set<nat>, k: K)
    requires Injective(m) && k in m && m[k] in out
    ensures Injective(m - {k}) && Kept(m - {k}, out - {m[k]}) == Kept(m, out)
  {
  }

  lemma ReachesWithout<K(!new)>(m: map<K, nat>, k: K, v: nat)
    requires k in m && Reaches(m, v) && m[k] != v
    ensures Reaches(m - {k}, v)
  {
    var j :| j in m && m[j] == v;
    assert j in m - {k};
  }

  /** Dropping n values of an injective map drops n keys. */
  lemma {:induction false} KeptCount<K(!new)>(m: map<K, nat>, out: set<nat>)
    requires Injective(m) && forall u :: u in out ==> Reaches(m, u)
    ensures |Kept(m, out)| == |m| - |out|
    decreases out
  {
    if out == {} {
      assert Kept(m, out) == m;
    } else {
      var u :| u in out;
      assert Reaches(m, u);
      var k :| k in m && m[k] == u;
      DropKey(m, k);
      hide Injective, Kept;
      forall v | v in out - {u} ensures Reaches(m - {k}, v) {
        ReachesWithout(m, k, v);
      }
      hide Reaches;
      KeptWithout(m, out, k);
      KeptCount(m - {k}, out - {u});
    }
  }

  lemma DropKey<K, V>(m: map<K, V>, k: K)
    requires k in m
    ensures |m - {k}| == |m| - 1
  {
    assert (m - {k}).Keys == m.Keys - {k};
  }

  lemma RemovedCount(t: Table, out: set<nat>)
    requires Sides(t) && AllFound(t) && Counted(t) && forall u :: u in out ==> Live(t, u)
    ensures Counted(RemovedAll(t, out))
  {
    forall u | u in out ensures Reaches(t.relaySide, u) && Reaches(t.clientSide, u) {
      assert Live(t, u) && Found(t, u);
    }
    KeptCount(t.relaySide, out);
    KeptCount(t.clientSide, out);
  }

  lemma RemovedSides(t: Table, out: set<nat>)
    requires Sides(t)
    ensures Sides(RemovedAll(t, out))
  {
    var r := RemovedAll(t, out);
    forall id | id in r.relaySide ensures Live(r, r.relaySide[id]) && r.pairs[r.relaySide[id]].relayId == id {
      RemovedPair(t, out, t.relaySide[id]);
    }
    forall k | k in r.clientSide ensures Live(r, r.clientSide[k]) && r.pairs[r.clientSide[k]].key == k {
      RemovedPair(t, out, t.clientSide[k]);
    }
  }

  lemma FoundStays(t: Table, out: set<nat>, u: nat)
    requires u < |t.pairs| && Found(t, u) && u !in out
    ensures u < |RemovedAll(t, out).pairs| && Found(RemovedAll(t, out), u)
  {
    hide Sieve;
    SieveMembers(t.expiry, out);
    RemovedPair(t, out, u);
    assert u in t.connections[t.pairs[u].key.connection] - out;
  }

  lemma RemovedFound(t: Table, out: set<nat>)
    requires AllFound(t)
    ensures AllFound(RemovedAll(t, out))
  {
    hide RemovedAll, Found;
    var r := RemovedAll(t, out);
    forall u | Live(r, u) ensures Found(r, u) {
      RemovedPair(t, out, u);
      FoundStays(t, out, u);
    }
  }

  lemma RemovedConnected(t: Table, out: set<nat>)
    requires Connected(t)
    ensures Connected(RemovedAll(t, out))
  {
    var r := RemovedAll(t, out);
    forall c, u | c in r.connections && u in r.connections[c] ensures Live(r, u) && r.pairs[u].key.connection == c {
      RemovedPair(t, out, u);
    }
  }

  lemma RemovedExpiring(t: Table, out: set<nat>)
    requires Expiring(t)
    ensures Expiring(RemovedAll(t, out))
  {
    SieveMembers(t.expiry, out);
    var r := RemovedAll(t, out);
    forall u | u in r.expiry ensures Live(r, u) {
      RemovedPair(t, out, u);
    }
  }

  /** Taking out live pairs keeps the table valid, and touches no other pair. */
  lemma RemovedKeeps(t: Table, out: set<nat>)
    requires Valid(t) && forall u :: u in out ==> Live(t, u)
    ensures Valid(RemovedAll(t, out))
  {
    hide Sides, AllFound, Connected, Expiring, Counted, RemovedAll, Live;
    RemovedSides(t, out);
    RemovedFound(t, out);
    RemovedConnected(t, out);
    RemovedExpiring(t, out);
    RemovedCount(t, out);
  }

  lemma RemovedOrdered(t: Table, out: set<nat>, clock: int, ttl: int)
    requires Ordered(t, clock, ttl)
    ensures Ordered(RemovedAll(t, out), clock, ttl)
  {
    var r := RemovedAll(t, out);
    SieveMembers(t.expiry, out);
    assert forall i :: 0 <= i < |t.expiry| ==> t.expiry[i] in t.expiry;
    SieveOrder(t, t.expiry, out);
    hide Sieve;
    forall u | u in r.expiry ensures u < |r.pairs| && r.pairs[u].expiresAt <= clock + ttl {
      RemovedPair(t, out, u);
    }
    forall i, j | 0 <= i < j < |r.expiry| && r.expiry[i] < |r.pairs| && r.expiry[j] < |r.pairs|
      ensures r.pairs[r.expiry[i]].expiresAt <= r.pairs[r.expiry[j]].expiresAt
    {
      RemovedPair(t, out, r.expiry[i]);
      RemovedPair(t, out, r.expiry[j]);
    }
  }

  // ---- Touching and adding -----------------------------------------------------------------

  /** A pair's place in the expiry list is renewed: at the end when it is complete, nowhere otherwise. */
  function Listed(t: Table, u: nat, completed: bool, expiresAt: int): (r: Table)
    requires u < |t.pairs|
  {
    t.(pairs := t.pairs[u := t.pairs[u].(completed := completed, expiresAt := expiresAt)],
       expiry := Sieve(t.expiry, {u}) + if completed then [u] else [])
  }

  function Touch(t: Table, u: nat, now: int, ttl: int): (r: Table)
    requires u < |t.pairs|
  {
    if t.pairs[u].removed then t
    else Listed(t, u, t.pairs[u].completed, if t.pairs[u].completed then now + ttl else 0)
  }

  lemma ListedMembers(t: Table, u: nat, completed: bool, expiresAt: int)
    requires u < |t.pairs|
    ensures forall v :: v in Listed(t, u, completed, expiresAt).expiry <==>
              (v in t.expiry && v != u) || (v == u && completed)
    ensures Distinct(t.expiry) ==> Distinct(Listed(t, u, completed, expiresAt).expiry)
  {
    SieveMembers(t.expiry, {u});
    MemberAppend(Sieve(t.expiry, {u}), u);
    var r := Listed(t, u, completed, expiresAt);
    assert Sieve(t.expiry, {u}) + [] == Sieve(t.expiry, {u});
    hide Sieve;
    if Distinct(t.expiry) && completed {
      assert forall i :: 0 <= i < |r.expiry| - 1 ==> r.expiry[i] in Sieve(t.expiry, {u});
    }
  }

  lemma ListedPair(t: Table, u: nat, completed: bool, expiresAt: int, v: nat)
    requires u < |t.pairs|
    ensures var r := Listed(t, u, completed, expiresAt);
            && |r.pairs| == |t.pairs| && (Live(r, v) <==> Live(t, v))
            && (v < |t.pairs| ==>
                r.pairs[v] == if v == u then t.pairs[v].(completed := completed, expiresAt := expiresAt)
                    else t.pairs[v])
            && r.relaySide == t.relaySide && r.clientSide == t.clientSide && r.connections == t.connections
               && r.count == t.count
  {
    hide Sieve;
  }

  lemma ListedSides(t: Table, u: nat, completed: bool, expiresAt: int)
    requires u < |t.pairs| && Sides(t)
    ensures Sides(Listed(t, u, completed, expiresAt))
  {
    hide Listed;
    var r := Listed(t, u, completed, expiresAt);
    ListedPair(t, u, completed, expiresAt, u);
    forall id | id in r.relaySide ensures Live(r, r.relaySide[id]) && r.pairs[r.relaySide[id]].relayId == id {
      ListedPair(t, u, completed, expiresAt, t.relaySide[id]);
    }
    forall k | k in r.clientSide ensures Live(r, r.clientSide[k]) && r.pairs[r.clientSide[k]].key == k {
      ListedPair(t, u, completed, expiresAt, t.clientSide[k]);
    }
  }

  lemma LiveIsPair(t: Table, u: nat)
    ensures Live(t, u) ==> u < |t.pairs|
  {
  }

  lemma ListedFound(t: Table, u: nat, completed: bool, expiresAt: int)
    requires u < |t.pairs| && AllFound(t)
    ensures AllFound(Listed(t, u, completed, expiresAt))
  {
    var r := Listed(t, u, completed, expiresAt);
    ListedMembers(t, u, completed, expiresAt);
    hide Listed, Live;
    forall v: nat | Live(r, v) ensures Found(r, v) {
      ListedPair(t, u, completed, expiresAt, v);
      LiveIsPair(t, v);
      assert Found(t, v);
    }
  }

  lemma ListedConnected(t: Table, u: nat, completed: bool, expiresAt: int)
    requires u < |t.pairs| && Connected(t)
    ensures Connected(Listed(t, u, completed, expiresAt))
  {
    hide Listed;
    var r := Listed(t, u, completed, expiresAt);
    ListedPair(t, u, completed, expiresAt, u);
    forall c, v | c in r.connections && v in r.connections[c] ensures Live(r, v) && r.pairs[v].key.connection == c {
      ListedPair(t, u, completed, expiresAt, v);
    }
  }

  lemma ListedExpiring(t: Table, u: nat, completed: bool, expiresAt: int)
    requires Live(t, u) && Expiring(t)
    ensures Expiring(Listed(t, u, completed, expiresAt))
  {
    ListedMembers(t, u, completed, expiresAt);
    var r := Listed(t, u, completed, expiresAt);
    hide Listed, Live, Distinct;
    LiveIsPair(t, u);
    forall v | v in r.expiry ensures Live(r, v) {
      ListedPair(t, u, completed, expiresAt, v);
    }
  }

  lemma ListedKeeps(t: Table, u: nat, completed: bool, expiresAt: int)
    requires Valid(t) && Live(t, u)
    ensures Valid(Listed(t, u, completed, expiresAt))
  {
    ListedPair(t, u, completed, expiresAt, u);
    hide Sides, AllFound, Connected, Expiring, Listed;
    ListedSides(t, u, completed, expiresAt);
    ListedFound(t, u, completed, expiresAt);
    ListedConnected(t, u, completed, expiresAt);
    ListedExpiring(t, u, completed, expiresAt);
  }

  lemma ListedOrdered(t: Table, u: nat, completed: bool, clock: int, now: int, ttl: int)
    requires Ordered(t, clock, ttl) && u < |t.pairs| && clock <= now
    ensures Ordered(Listed(t, u, completed, if completed then now + ttl else 0), now, ttl)
  {
    hide Sieve;
    var r := Listed(t, u, completed, if completed then now + ttl else 0);
    var rest := Sieve(t.expiry, {u});
    SieveMembers(t.expiry, {u});
    assert forall i :: 0 <= i < |t.expiry| ==> t.expiry[i] in t.expiry;
    SieveOrder(t, t.expiry, {u});
    assert forall i :: 0 <= i < |rest| ==> rest[i] in rest;
    forall v | v in r.expiry ensures v < |r.pairs| && r.pairs[v].expiresAt <= now + ttl {
      assert v in rest || v == u;
    }
    forall i, j | 0 <= i < j < |r.expiry| && r.expiry[i] < |r.pairs| && r.expiry[j] < |r.pairs|
      ensures r.pairs[r.expiry[i]].expiresAt <= r.pairs[r.expiry[j]].expiresAt
    {
      assert r.expiry[i] == rest[i] && rest[i] in rest && rest[i] != u;
      assert j < |rest| ==> r.expiry[j] == rest[j] && rest[j] in rest;
    }
  }

  /** A new pair, not complete. */
  function Added(t: Table, b: Binding): (r: Table) {
    var n := |t.pairs|;
    var others := if b.key.connection in t.connections then t.connections[b.key.connection] else {};
    Table(t.pairs + [Pair(b.relayId, b.key, b.relayEntry, b.clientEntry, b.total, false, 0, false)],
        t.relaySide[b.relayId := n], t.clientSide[b.key := n],
          t.connections[b.key.connection := others + {n}], t.expiry, t.count + 1)
  }

  lemma AddedPair(t: Table, b: Binding, u: nat)
    ensures var r := Added(t, b);
            && (u < |t.pairs| ==> u < |r.pairs| && r.pairs[u] == t.pairs[u])
            && (Live(r, u) <==> Live(t, u) || u == |t.pairs|)
  {
  }

  lemma AddedFound(t: Table, b: Binding)
    requires AllFound(t) && Expiring(t) && b.relayId !in t.relaySide && b.key !in t.clientSide
    ensures AllFound(Added(t, b))
  {
    var r := Added(t, b);
    forall u: nat | Live(r, u) ensures Found(r, u) {
      AddedPair(t, b, u);
      if u < |t.pairs| {
        assert Found(t, u);
      } else {
        assert u !in t.expiry;
      }
    }
  }

  lemma AddedSides(t: Table, b: Binding)
    requires Sides(t)
    ensures Sides(Added(t, b))
  {
    var r := Added(t, b);
    forall id | id in r.relaySide ensures Live(r, r.relaySide[id]) && r.pairs[r.relaySide[id]].relayId == id {
      AddedPair(t, b, r.relaySide[id]);
    }
    forall k | k in r.clientSide ensures Live(r, r.clientSide[k]) && r.pairs[r.clientSide[k]].key == k {
      AddedPair(t, b, r.clientSide[k]);
    }
  }

  lemma AddedConnected(t: Table, b: Binding)
    requires Connected(t)
    ensures Connected(Added(t, b))
  {
    var r := Added(t, b);
    forall c, u | c in r.connections && u in r.connections[c] ensures Live(r, u) && r.pairs[u].key.connection == c {
      AddedPair(t, b, u);
      assert u == |t.pairs| || (c in t.connections && u in t.connections[c]);
    }
    assert |t.pairs| in r.connections[b.key.connection];
  }

  lemma AddedKeeps(t: Table, b: Binding)
    requires Valid(t) && b.relayId !in t.relaySide && b.key !in t.clientSide
    ensures Valid(Added(t, b))
  {
    hide AllFound, Sides, Connected, Expiring, Counted, Added;
    AddedFound(t, b);
    AddedSides(t, b);
    AddedConnected(t, b);
    AddedExpiring(t, b);
    AddedCounted(t, b);
  }

  lemma AddedExpiring(t: Table, b: Binding)
    requires Expiring(t)
    ensures Expiring(Added(t, b))
  {
    var r := Added(t, b);
    forall u | u in r.expiry ensures Live(r, u) {
      AddedPair(t, b, u);
    }
  }

  lemma AddedCounted(t: Table, b: Binding)
    requires Counted(t) && b.relayId !in t.relaySide && b.key !in t.clientSide
    ensures Counted(Added(t, b))
  {
  }

  lemma AddedOrdered(t: Table, b: Binding, clock: int, now: int, ttl: int)
    requires Ordered(t, clock, ttl) && clock <= now
    ensures Ordered(Added(t, b), now, ttl)
  {
    var r := Added(t, b);
    assert forall i :: 0 <= i < |t.expiry| ==> t.expiry[i] in t.expiry;
    assert forall u :: 0 <= u < |t.pairs| ==> r.pairs[u] == t.pairs[u];
  }

  // ---- Expiry ------------------------------------------------------------------------------

  /** How far the front of the list is due. */
  function DueLength(t: Table, now: int, k: nat): (n: nat)
    requires k <= |t.expiry|
    ensures k <= n <= |t.expiry|
    ensures forall i :: k <= i < n ==> t.expiry[i] < |t.pairs| && t.pairs[t.expiry[i]].expiresAt <= now
    ensures n < |t.expiry| && t.expiry[n] < |t.pairs| ==> t.pairs[t.expiry[n]].expiresAt > now
    decreases |t.expiry| - k
  {
    if k < |t.expiry| && t.expiry[k] < |t.pairs| && t.pairs[t.expiry[k]].expiresAt <= now then DueLength(t, now, k + 1)
        else k
  }

  function Members(s: seq<nat>): (r: set<nat>) { set u | u in s }

  ghost function Due(t: Table, now: int): (r: set<nat>) { Members(t.expiry[..DueLength(t, now, 0)]) }

  ghost function Expire(t: Table, now: int): (r: Table) { RemovedAll(t, Due(t, now)) }

  ghost predicate Overdue(t: Table, now: int, u: nat) {
    Live(t, u) && t.pairs[u].completed && t.pairs[u].expiresAt <= now
  }

  lemma NotYetDue(t: Table, now: int, clock: int, ttl: int, i: nat)
    requires Ordered(t, clock, ttl) && i < |t.expiry| && forall u :: u in t.expiry ==> u < |t.pairs|
    ensures t.expiry[i] < |t.pairs|
    ensures DueLength(t, now, 0) <= i <==> t.pairs[t.expiry[i]].expiresAt > now
  {
    var n := DueLength(t, now, 0);
    assert forall j :: 0 <= j < |t.expiry| ==> t.expiry[j] in t.expiry;
    if n < i {
      assert t.pairs[t.expiry[n]].expiresAt <= t.pairs[t.expiry[i]].expiresAt;
    }
  }

  lemma DueAt(t: Table, now: int, i: nat)
    requires Distinct(t.expiry) && i < |t.expiry|
    ensures t.expiry[i] in Due(t, now) <==> i < DueLength(t, now, 0)
  {
    var n := DueLength(t, now, 0);
    if i < n {
      assert t.expiry[..n][i] == t.expiry[i];
    } else {
      assert forall j :: 0 <= j < n ==> t.expiry[..n][j] != t.expiry[i];
    }
  }

  /** With a clock that does not go back, the due pairs are all the overdue ones. */
  lemma DueIsOverdue(t: Table, now: int, clock: int, ttl: int)
    requires Valid(t) && Ordered(t, clock, ttl)
    ensures forall u :: u in Due(t, now) <==> Overdue(t, now, u)
  {
    DueIsListed(t, now);
    forall u: nat ensures u in Due(t, now) <==> Overdue(t, now, u) {
      if Live(t, u) { assert Found(t, u); }
      if u in t.expiry {
        var i :| 0 <= i < |t.expiry| && t.expiry[i] == u;
        hide Due, DueLength, Sides, AllFound, Connected;
        DueAt(t, now, i);
        NotYetDue(t, now, clock, ttl, i);
      }
    }
  }

  lemma DueIsListed(t: Table, now: int)
    ensures forall u :: u in Due(t, now) ==> u in t.expiry
  {
  }

  lemma ExpireKeeps(t: Table, now: int, clock: int, ttl: int)
    requires Valid(t) && Ordered(t, clock, ttl)
    ensures Valid(Expire(t, now)) && Ordered(Expire(t, now), clock, ttl)
    ensures forall u :: Live(Expire(t, now), u) <==> Live(t, u) && !Overdue(t, now, u)
    ensures forall u :: !Overdue(Expire(t, now), now, u)
  {
    DueIsListed(t, now);
    DueIsOverdue(t, now, clock, ttl);
    assert forall u :: u in Due(t, now) ==> Live(t, u);
    RemovedKeeps(t, Due(t, now));
    RemovedOrdered(t, Due(t, now), clock, ttl);
    var r := Expire(t, now);
    hide Due, RemovedAll, Valid, Ordered;
    forall u
      ensures Live(r, u) <==> Live(t, u) && !Overdue(t, now, u)
      ensures !Overdue(r, now, u)
    {
      RemovedPair(t, Due(t, now), u);
    }
  }
}
