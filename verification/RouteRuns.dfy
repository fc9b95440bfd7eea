/** The operations of the route table, and what holds over whole runs of them.

    Each operation is shown to keep the table valid, in order of expiry and within its size, and
    all but completion and purge to lose no unfinished pair. Time is a parameter of each operation
    and does not go back in a run. */
module RouteRuns {
  import opened Sequences
  import opened Bytes
  import opened RouteTable

  // ---- Operations --------------------------------------------------------------------------

  lemma {:induction false} SieveShorter(s: seq<nat>, out: set<nat>)
    ensures |Sieve(s, out)| <= |s|
    ensures (exists i :: 0 <= i < |s| && s[i] in out) ==> |Sieve(s, out)| < |s|
  {
    if s != [] {
      var n := |s| - 1;
      SieveShorter(s[..n], out);
      if i :| 0 <= i < |s| && s[i] in out {
        assert i < n ==> s[..n][i] in out;
      }
    }
  }

  /** Drops the oldest finished pairs until there is room, if there are enough of them. */
  ghost function Room(t: Table, max: nat): (r: (Table, bool))
    decreases |t.expiry|
  {
    if t.count < max then (t, true)
    else if t.expiry == [] then (t, false)
    else
      SieveShorter(t.expiry, {t.expiry[0]});
      Room(RemovedAll(t, {t.expiry[0]}), max)
  }

  ghost function Lookup<K>(t: Table, side: map<K, nat>, k: K, now: int, ttl: int): (r: Table) {
    if k in side && side[k] < |t.pairs| then Touch(t, side[k], now, ttl) else t
  }

  predicate SamePair(t: Table, b: Binding) {
    && b.relayId in t.relaySide && b.key in t.clientSide
    && t.relaySide[b.relayId] == t.clientSide[b.key] < |t.pairs|
    && t.pairs[t.relaySide[b.relayId]].relayId == b.relayId
    && t.pairs[t.relaySide[b.relayId]].key == b.key
    && t.pairs[t.relaySide[b.relayId]].total == b.total
  }

  /** Binds two free IDs, or finds the pair that already binds exactly these. */
  ghost function Bind(t: Table, b: Binding, now: int, ttl: int, max: nat): (r: (Table, Option<nat>)) {
    var e := Expire(t, now);
    if SamePair(e, b) then (Touch(e, e.relaySide[b.relayId], now, ttl), Some(e.relaySide[b.relayId]))
    else if b.relayId in e.relaySide || b.key in e.clientSide then (e, None)
    else
      var (room, ok) := Room(e, max);
      if ok then (Added(room, b), Some(|room.pairs|)) else (room, None)
  }

  ghost function Complete(t: Table, u: nat, now: int, ttl: int): (r: Table) {
    if !Live(t, u) then t else Expire(Listed(t, u, true, now + ttl), now)
  }

  ghost function Purge(t: Table, connection: seq<byte>): (r: Table) {
    if connection == [] || connection !in t.connections then t else RemovedAll(t, t.connections[connection])
  }

  /** What the pump towards the clients binds for an unknown ID: the client's leg has allocated an ID, and
      the way back leads to the relay's leg under the ID of the frame. */
  function Outward(id: uint64, dest: Endpoint, newId: uint64, relay: Endpoint, total: uint32): (b: Binding) {
    Binding(id, Entry(dest, newId), Key(dest.connection, newId), Entry(relay, id), total)
  }

  /** What the pump towards the relay binds for an unknown ID: the relay's leg has allocated an ID, and the
      way back leads to the client's leg under the ID of the frame. */
  function Inward(client: Endpoint, id: uint64, relay: Endpoint, newId: uint64, total: uint32): (b: Binding) {
    Binding(newId, Entry(client, id), Key(client.connection, id), Entry(relay, newId), total)
  }

  /** The lookups, the two pump calls that bind, completion and purge. */
  datatype Op =
    | RelayGet(id: uint64)
    | ClientGet(k: Key)
    | FromRelay(id: uint64, dest: Endpoint, newId: uint64, relay: Endpoint, total: uint32)
    | FromClient(client: Endpoint, id: uint64, relay: Endpoint, newId: uint64, total: uint32)
    | CompletePair(u: nat)
    | PurgeConnection(connection: seq<byte>)

  ghost function Step(t: Table, op: Op, now: int, ttl: int, max: nat): (r: Table) {
    match op
    case RelayGet(id) => var e := Expire(t, now); Lookup(e, e.relaySide, id, now, ttl)
    case ClientGet(k) => var e := Expire(t, now); Lookup(e, e.clientSide, k, now, ttl)
    case FromRelay(id, dest, newId, relay, total) =>
      Bind(t, Outward(id, dest, newId, relay, total), now, ttl, max).0
    case FromClient(client, id, relay, newId, total) =>
      Bind(t, Inward(client, id, relay, newId, total), now, ttl, max).0
    case CompletePair(u) => Complete(t, u, now, ttl)
    case PurgeConnection(c) => Purge(t, c)
  }

  // ---- Every operation ---------------------------------------------------------------------

  ghost predicate Inv(t: Table, clock: int, ttl: int, max: nat) {
    Valid(t) && Ordered(t, clock, ttl) && t.count <= max
  }

  predicate Unfinished(t: Table, u: nat) { Live(t, u) && !t.pairs[u].completed }

  predicate SameBinding(p: Pair, q: Pair) {
    && q.relayId == p.relayId && q.key == p.key && q.relayEntry == p.relayEntry && q.clientEntry == p.clientEntry
    && q.total == p.total
  }

  /** The pair is still there, unfinished, and binds what it did. */
  predicate Stays(t: Table, r: Table, u: nat)
    requires u < |t.pairs|
  {
    Unfinished(r, u) && SameBinding(t.pairs[u], r.pairs[u])
  }

  /** No unfinished pair is lost. */
  ghost predicate Spares(t: Table, r: Table) {
    forall u: nat :: Unfinished(t, u) ==> Stays(t, r, u)
  }

  ghost predicate Clean(t: Table, now: int) {
    forall u: nat :: !Overdue(t, now, u)
  }

  /** An operation at `now` keeps the invariant, leaves no overdue pair and loses no unfinished one. */
  ghost predicate Good(t: Table, r: Table, now: int, ttl: int, max: nat) {
    Inv(r, now, ttl, max) && Clean(r, now) && Spares(t, r)
  }

  lemma GoodCompose(t: Table, r: Table, s: Table, now: int, ttl: int, max: nat)
    requires Spares(t, r) && Good(r, s, now, ttl, max)
    ensures Good(t, s, now, ttl, max)
  {
    hide Inv, Clean;
  }

  lemma LaterOrdered(t: Table, clock: int, now: int, ttl: int)
    requires Ordered(t, clock, ttl) && clock <= now
    ensures Ordered(t, now, ttl)
  {
  }

  lemma ExpireIsGood(t: Table, clock: int, now: int, ttl: int, max: nat)
    requires Inv(t, clock, ttl, max) && clock <= now
    ensures Good(t, Expire(t, now), now, ttl, max)
  {
    hide Valid, Ordered, Due, Spares, RemovedAll, Overdue;
    ExpireKeeps(t, now, clock, ttl);
    LaterOrdered(Expire(t, now), clock, now, ttl);
    RemovedShrinks(t, Due(t, now));
    ExpireIsSparing(t, clock, now, ttl);
  }

  lemma ExpireIsSparing(t: Table, clock: int, now: int, ttl: int)
    requires Valid(t) && Ordered(t, clock, ttl)
    ensures Spares(t, Expire(t, now))
  {
    hide Valid, Ordered, Due, RemovedAll;
    DueIsOverdue(t, now, clock, ttl);
    RemovedIsSparing(t, Due(t, now), now);
  }

  lemma ListedIsSparing(t: Table, u: nat, expiresAt: int)
    requires Live(t, u)
    ensures Spares(t, Listed(t, u, t.pairs[u].completed, expiresAt))
  {
    hide Listed;
    forall v: nat | Unfinished(t, v) ensures Stays(t, Listed(t, u, t.pairs[u].completed, expiresAt), v) {
      ListedPair(t, u, t.pairs[u].completed, expiresAt, v);
    }
  }

  lemma ListedIsClean(t: Table, u: nat, completed: bool, now: int, ttl: int)
    requires Live(t, u) && Clean(t, now) && ttl > 0
    ensures Clean(Listed(t, u, completed, if completed then now + ttl else 0), now)
  {
    var at := if completed then now + ttl else 0;
    hide Listed;
    forall v: nat ensures !Overdue(Listed(t, u, completed, at), now, v) {
      ListedPair(t, u, completed, at, v);
      assert !Overdue(t, now, v);
    }
  }

  lemma TouchIsGood(t: Table, u: nat, now: int, ttl: int, max: nat)
    requires Inv(t, now, ttl, max) && Clean(t, now) && Live(t, u) && ttl > 0
    ensures Good(t, Touch(t, u, now, ttl), now, ttl, max)
  {
    var at := if t.pairs[u].completed then now + ttl else 0;
    ListedKeeps(t, u, t.pairs[u].completed, at);
    ListedOrdered(t, u, t.pairs[u].completed, now, now, ttl);
    ListedPair(t, u, t.pairs[u].completed, at, u);
    ListedIsSparing(t, u, at);
    ListedIsClean(t, u, t.pairs[u].completed, now, ttl);
    hide Listed, Valid, Ordered, Clean, Spares;
  }

  lemma LookupIsGood<K>(t: Table, side: map<K, nat>, k: K, now: int, ttl: int, max: nat)
    requires Inv(t, now, ttl, max) && Clean(t, now) && ttl > 0 && (k in side ==> Live(t, side[k]))
    ensures Good(t, Lookup(t, side, k, now, ttl), now, ttl, max)
  {
    hide Inv, Clean, Touch;
    if k in side {
      TouchIsGood(t, side[k], now, ttl, max);
    }
  }

  lemma HasKey<K, V>(m: map<K, V>, k: K)
    requires k in m
    ensures |m| > 0
  {
    assert m.Keys != {};
  }

  lemma OldestIsFinished(t: Table)
    requires Valid(t) && t.expiry != []
    ensures Live(t, t.expiry[0]) && t.pairs[t.expiry[0]].completed && t.count > 0
  {
    var u := t.expiry[0];
    assert u in t.expiry;
    assert Found(t, u);
    hide Sides, Connected;
    HasKey(t.relaySide, t.pairs[u].relayId);
  }

  lemma RemovedIsSparing(t: Table, out: set<nat>, now: int)
    requires forall u :: u in out ==> u < |t.pairs| && t.pairs[u].completed
    ensures Spares(t, RemovedAll(t, out)) && (Clean(t, now) ==> Clean(RemovedAll(t, out), now))
  {
    hide RemovedAll;
    var r := RemovedAll(t, out);
    forall u: nat ensures (Overdue(r, now, u) ==> Overdue(t, now, u)) && (Unfinished(t, u) ==> Stays(t, r, u)) {
      RemovedPair(t, out, u);
    }
  }

  lemma RemovedShrinks(t: Table, out: set<nat>)
    ensures var r := RemovedAll(t, out);
            && (forall id :: id in r.relaySide ==> id in t.relaySide)
               && (forall k :: k in r.clientSide ==> k in t.clientSide)
            && r.count <= t.count && (|out| == 1 && t.count > 0 ==> r.count == t.count - 1)
  {
    hide Sieve;
  }

  lemma EvictIsGood(t: Table, now: int, ttl: int, max: nat)
    requires Inv(t, now, ttl, max) && Clean(t, now) && t.expiry != []
    ensures var r := RemovedAll(t, {t.expiry[0]}); Good(t, r, now, ttl, max) && r.count == t.count - 1
  {
    hide RemovedAll, Valid, Ordered, Clean, Spares;
    OldestIsFinished(t);
    var out := {t.expiry[0]};
    RemovedKeeps(t, out);
    RemovedOrdered(t, out, now, ttl);
    RemovedIsSparing(t, out, now);
    RemovedShrinks(t, out);
  }

  /** There is room exactly unless the table is full of unfinished pairs; no unfinished pair is lost. */
  lemma RoomIsGood(t: Table, now: int, ttl: int, max: nat)
    requires Inv(t, now, ttl, max) && Clean(t, now) && max > 0
    ensures var (r, ok) := Room(t, max);
            && Good(t, r, now, ttl, max) && (ok ==> r.count < max)
            && (forall id :: id in r.relaySide ==> id in t.relaySide)
               && (forall k :: k in r.clientSide ==> k in t.clientSide)
            && (!ok ==> r == t) && (!ok <==> t.count == max && forall u: nat :: Live(t, u) ==> Unfinished(t, u))
  {
    if t.count >= max && t.expiry != [] {
      OldestIsFinished(t);
      EvictIsGood(t, now, ttl, max);
      RemovedShrinks(t, {t.expiry[0]});
      hide RemovedAll, Inv, Clean, Spares;
      assert Room(t, max) == (RemovedAll(t, {t.expiry[0]}), true);
    } else {
      forall u: nat | Live(t, u) && t.expiry == [] ensures Unfinished(t, u) {
        assert Found(t, u);
      }
    }
  }

  lemma SideIsLive(t: Table)
    requires Valid(t)
    ensures forall id :: id in t.relaySide ==> Live(t, t.relaySide[id])
    ensures forall k :: k in t.clientSide ==> Live(t, t.clientSide[k])
  {
    hide AllFound, Connected, Live;
  }

  lemma AddIsGood(t: Table, b: Binding, now: int, ttl: int, max: nat)
    requires Inv(t, now, ttl, max) && Clean(t, now) && t.count < max && b.relayId !in t.relaySide
             && b.key !in t.clientSide
    ensures Good(t, Added(t, b), now, ttl, max)
  {
    AddedKeeps(t, b);
    AddedOrdered(t, b, now, now, ttl);
    assert Added(t, b).count == t.count + 1;
    AddIsSparing(t, b, now);
    hide Valid, Ordered, Clean, Spares;
  }

  lemma AddIsSparing(t: Table, b: Binding, now: int)
    requires Clean(t, now)
    ensures Spares(t, Added(t, b)) && Clean(Added(t, b), now)
  {
    var r := Added(t, b);
    forall u: nat ensures !Overdue(r, now, u) && (Unfinished(t, u) ==> Stays(t, r, u)) {
      AddedPair(t, b, u);
      assert !Overdue(t, now, u);
    }
  }

  /** Both IDs lead to the pair. */
  ghost predicate Binds(t: Table, u: nat, b: Binding) {
    && Live(t, u) && t.pairs[u].relayId == b.relayId && t.pairs[u].key == b.key && t.pairs[u].total == b.total
    && b.relayId in t.relaySide && t.relaySide[b.relayId] == u && b.key in t.clientSide && t.clientSide[b.key] == u
  }

  /** One of the IDs is bound otherwise. */
  ghost predicate Conflict(t: Table, b: Binding) {
    && (exists u: nat :: Live(t, u) && (t.pairs[u].relayId == b.relayId || t.pairs[u].key == b.key))
    && !exists u: nat ::
         Live(t, u) && t.pairs[u].relayId == b.relayId && t.pairs[u].key == b.key && t.pairs[u].total == b.total
  }

  lemma BindIsGood(t: Table, b: Binding, clock: int, now: int, ttl: int, max: nat)
    requires Inv(t, clock, ttl, max) && clock <= now && ttl > 0 && max > 0
    ensures Good(t, Bind(t, b, now, ttl, max).0, now, ttl, max)
  {
    ExpireIsGood(t, clock, now, ttl, max);
    var e := Expire(t, now);
    hide Expire, Touch, Added;
    SideIsLive(e);
    hide Valid, Ordered;
    if SamePair(e, b) {
      TouchIsGood(e, e.relaySide[b.relayId], now, ttl, max);
      GoodCompose(t, e, Touch(e, e.relaySide[b.relayId], now, ttl), now, ttl, max);
    } else if b.relayId !in e.relaySide && b.key !in e.clientSide {
      RoomIsGood(e, now, ttl, max);
      hide Inv, Clean, Spares;
      var (room, ok) := Room(e, max);
      GoodCompose(t, e, room, now, ttl, max);
      if ok {
        AddIsGood(room, b, now, ttl, max);
        GoodCompose(t, room, Added(room, b), now, ttl, max);
      }
    }
  }

  lemma TouchBinds(t: Table, b: Binding, now: int, ttl: int)
    requires Valid(t) && SamePair(t, b)
    ensures var u := t.relaySide[b.relayId]; Binds(Touch(t, u, now, ttl), u, b)
  {
    SideIsLive(t);
    hide Valid, Listed;
    var u := t.relaySide[b.relayId];
    ListedPair(t, u, t.pairs[u].completed, if t.pairs[u].completed then now + ttl else 0, u);
  }

  lemma AddBinds(t: Table, b: Binding)
    ensures Binds(Added(t, b), |t.pairs|, b)
  {
  }

  /** A pair that is free on both sides is bound, unless the table is full of unfinished pairs; an
      existing pair is found; anything else is refused. */
  lemma BindOutcome(t: Table, b: Binding, clock: int, now: int, ttl: int, max: nat)
    requires Inv(t, clock, ttl, max) && clock <= now && ttl > 0 && max > 0
    ensures var (r, bound) := Bind(t, b, now, ttl, max);
            && (bound.Some? ==> Binds(r, bound.value, b))
            && (bound.None? <==> Conflict(Expire(t, now), b)
                                 || (b.relayId !in Expire(t, now).relaySide && b.key !in Expire(t, now).clientSide
                                     && !Room(Expire(t, now), max).1))
  {
    hide Expire, Touch, Added, Room, Valid, Ordered, Conflict, Binds, Clean, Spares, SamePair;
    ExpireIsGood(t, clock, now, ttl, max);
    var e := Expire(t, now);
    ConflictIs(e, b);
    SameIsBound(e, b);
    if SamePair(e, b) {
      TouchBinds(e, b, now, ttl);
    } else if b.relayId !in e.relaySide && b.key !in e.clientSide {
      AddBinds(Room(e, max).0, b);
    }
  }

  lemma SameIsBound(t: Table, b: Binding)
    ensures SamePair(t, b) ==> b.relayId in t.relaySide && t.relaySide[b.relayId] < |t.pairs|
  {
  }

  lemma ConflictIs(t: Table, b: Binding)
    requires Valid(t)
    ensures Conflict(t, b) <==> (b.relayId in t.relaySide || b.key in t.clientSide) && !SamePair(t, b)
  {
    hide Connected, Expiring, Counted;
    assert forall u: nat :: Live(t, u) ==> Found(t, u);
    if b.relayId in t.relaySide { assert Live(t, t.relaySide[b.relayId]); }
    if b.key in t.clientSide { assert Live(t, t.clientSide[b.key]); }
  }

  /** Completing a pair keeps it for one more lifetime, and loses no unfinished one. */
  lemma CompleteIsGood(t: Table, u: nat, clock: int, now: int, ttl: int, max: nat)
    requires Inv(t, clock, ttl, max) && clock <= now && ttl > 0 && Live(t, u)
    ensures var r := Complete(t, u, now, ttl);
            && Inv(r, now, ttl, max) && Clean(r, now)
            && Live(r, u) && r.pairs[u].completed && SameBinding(t.pairs[u], r.pairs[u])
            && forall v: nat :: v != u && Unfinished(t, v) ==> Stays(t, r, v)
  {
    hide Listed, Valid, Ordered, Expire, Clean;
    var l := Listed(t, u, true, now + ttl);
    ListedKeeps(t, u, true, now + ttl);
    ListedOrdered(t, u, true, clock, now, ttl);
    ListedPair(t, u, true, now + ttl, u);
    ExpireIsGood(l, now, now, ttl, max);
    ExpireKeepsLive(l, now, ttl, u);
    forall v: nat | v != u && Unfinished(t, v) ensures Stays(t, Expire(l, now), v) {
      ListedPair(t, u, true, now + ttl, v);
      assert Unfinished(l, v) && Stays(l, Expire(l, now), v);
    }
  }

  lemma ExpireKeepsLive(t: Table, now: int, ttl: int, u: nat)
    requires Valid(t) && Ordered(t, now, ttl) && Live(t, u) && t.pairs[u].expiresAt > now
    ensures u < |Expire(t, now).pairs| && Live(Expire(t, now), u) && Expire(t, now).pairs[u] == t.pairs[u]
  {
    ExpireKeeps(t, now, now, ttl);
    RemovedPair(t, Due(t, now), u);
    hide RemovedAll, Valid, Ordered, Due;
  }

  /** Purging a connection takes out exactly its pairs. */
  lemma PurgeIsExact(t: Table, c: seq<byte>, clock: int, now: int, ttl: int, max: nat)
    requires Inv(t, clock, ttl, max) && clock <= now && c != []
    ensures Inv(Purge(t, c), now, ttl, max)
    ensures forall u: nat :: Live(Purge(t, c), u) <==> Live(t, u) && t.pairs[u].key.connection != c
    ensures |Purge(t, c).pairs| == |t.pairs| && forall u: nat :: Live(Purge(t, c), u) ==>
              Purge(t, c).pairs[u] == t.pairs[u]
  {
    LaterOrdered(t, clock, now, ttl);
    if c in t.connections {
      var out := t.connections[c];
      RemovedKeeps(t, out);
      RemovedOrdered(t, out, now, ttl);
      RemovedShrinks(t, out);
      RemovedPair(t, out, 0);
      forall u: nat
        ensures (Live(RemovedAll(t, out), u) <==> Live(t, u) && t.pairs[u].key.connection != c)
        ensures Live(RemovedAll(t, out), u) ==> RemovedAll(t, out).pairs[u] == t.pairs[u]
      {
        RemovedPair(t, out, u);
        if Live(t, u) { assert Found(t, u); }
      }
    } else {
      forall u: nat | Live(t, u) ensures t.pairs[u].key.connection != c {
        assert Found(t, u);
      }
    }
  }

  /** Every operation keeps the invariant. */
  lemma StepKeeps(t: Table, op: Op, clock: int, now: int, ttl: int, max: nat)
    requires Inv(t, clock, ttl, max) && clock <= now && ttl > 0 && max > 0
    ensures Inv(Step(t, op, now, ttl, max), now, ttl, max)
    ensures !op.PurgeConnection? && !(op.CompletePair? && !Live(t, op.u)) ==> Clean(Step(t, op, now, ttl, max), now)
    ensures !op.PurgeConnection? && !op.CompletePair? ==> Spares(t, Step(t, op, now, ttl, max))
  {
    match op
    case RelayGet(id) =>
      ExpireIsGood(t, clock, now, ttl, max);
      var e := Expire(t, now);
      hide Expire, Lookup;
      SideIsLive(e);
      LookupIsGood(e, e.relaySide, id, now, ttl, max);
      hide Inv, Clean;
      GoodCompose(t, e, Lookup(e, e.relaySide, id, now, ttl), now, ttl, max);
    case ClientGet(k) =>
      ExpireIsGood(t, clock, now, ttl, max);
      var e := Expire(t, now);
      hide Expire, Lookup;
      SideIsLive(e);
      LookupIsGood(e, e.clientSide, k, now, ttl, max);
      hide Inv, Clean;
      GoodCompose(t, e, Lookup(e, e.clientSide, k, now, ttl), now, ttl, max);
    case FromRelay(id, dest, newId, relay, total) =>
      BindIsGood(t, Outward(id, dest, newId, relay, total), clock, now, ttl, max);
    case FromClient(client, id, relay, newId, total) =>
      BindIsGood(t, Inward(client, id, relay, newId, total), clock, now, ttl, max);
    case CompletePair(u) =>
      LaterOrdered(t, clock, now, ttl);
      if Live(t, u) { CompleteIsGood(t, u, clock, now, ttl, max); }
    case PurgeConnection(c) =>
      LaterOrdered(t, clock, now, ttl);
      if c != [] { PurgeIsExact(t, c, clock, now, ttl, max); }
  }

  // ---- Whole runs --------------------------------------------------------------------------

  /** A run: tables, operations, and a clock that does not go back. */
  ghost predicate Run(ts: seq<Table>, ops: seq<Op>, times: seq<int>, ttl: int, max: nat) {
    && ttl > 0 && max > 0
    && |ts| == |ops| + 1 == |times|
    && ts[0] == EMPTY
    && (forall i, j :: 0 <= i && j == i + 1 < |ts| ==> Steps(ts[i], ops[i], times[i], times[j], ttl, max, ts[j]))
  }

  ghost predicate Steps(t: Table, op: Op, clock: int, now: int, ttl: int, max: nat, r: Table) {
    clock <= now && r == Step(t, op, now, ttl, max)
  }

  lemma EmptyIsInv(clock: int, ttl: int, max: nat)
    ensures Inv(EMPTY, clock, ttl, max)
  {
  }

  lemma {:induction false} RunKeeps(ts: seq<Table>, ops: seq<Op>, times: seq<int>, ttl: int, max: nat, n: nat)
    requires Run(ts, ops, times, ttl, max) && n < |ts|
    ensures Inv(ts[n], times[n], ttl, max)
  {
    hide Inv, Step;
    if n == 0 {
      EmptyIsInv(times[0], ttl, max);
    } else {
      var m := n - 1;
      RunKeeps(ts, ops, times, ttl, max, m);
      assert Steps(ts[m], ops[m], times[m], times[n], ttl, max, ts[n]);
      StepKeeps(ts[m], ops[m], times[m], times[n], ttl, max);
    }
  }

  // ---- The way back ------------------------------------------------------------------------

  /** The entry of each side leads to the ID the other side is found under. */
  predicate IsMirror(p: Pair) {
    && p.relayEntry.dest.connection == p.key.connection && p.relayEntry.dstId == p.key.message
    && p.clientEntry.dstId == p.relayId
  }

  ghost predicate Mirrored(t: Table) {
    forall u :: 0 <= u < |t.pairs| ==> IsMirror(t.pairs[u])
  }

  /** The same pairs, up to their stage of life. */
  ghost predicate SameBindings(t: Table, r: Table) {
    |r.pairs| == |t.pairs| && forall u :: 0 <= u < |t.pairs| ==> SameBinding(t.pairs[u], r.pairs[u])
  }

  lemma SameIsMirrored(t: Table, r: Table)
    requires Mirrored(t) && SameBindings(t, r)
    ensures Mirrored(r)
  {
  }

  lemma RemovedIsSame(t: Table, out: set<nat>)
    ensures SameBindings(t, RemovedAll(t, out))
  {
    hide Sieve, Kept;
  }

  lemma TouchIsSame(t: Table, u: nat, now: int, ttl: int)
    requires u < |t.pairs|
    ensures SameBindings(t, Touch(t, u, now, ttl)) && SameBindings(t, Listed(t, u, true, now + ttl))
  {
    hide Sieve;
  }

  lemma ExpireIsSame(t: Table, now: int)
    ensures SameBindings(t, Expire(t, now))
  {
    hide RemovedAll, Due;
    RemovedIsSame(t, Due(t, now));
  }

  lemma {:induction false} RoomIsSame(t: Table, max: nat)
    ensures SameBindings(t, Room(t, max).0)
    decreases |t.expiry|
  {
    if t.count >= max && t.expiry != [] {
      SieveShorter(t.expiry, {t.expiry[0]});
      RemovedIsSame(t, {t.expiry[0]});
      RoomIsSame(RemovedAll(t, {t.expiry[0]}), max);
    }
  }

  predicate BindsMirror(b: Binding) {
    && b.relayEntry.dest.connection == b.key.connection && b.relayEntry.dstId == b.key.message
    && b.clientEntry.dstId == b.relayId
  }

  lemma BindMirrors(t: Table, b: Binding, now: int, ttl: int, max: nat)
    requires Mirrored(t) && BindsMirror(b)
    ensures Mirrored(Bind(t, b, now, ttl, max).0)
  {
    hide Expire, Touch, Room;
    var e := Expire(t, now);
    ExpireIsSame(t, now);
    if SamePair(e, b) {
      TouchIsSame(e, e.relaySide[b.relayId], now, ttl);
    } else {
      RoomIsSame(e, max);
    }
  }

  lemma StepMirrors(t: Table, op: Op, now: int, ttl: int, max: nat)
    requires Mirrored(t)
    ensures Mirrored(Step(t, op, now, ttl, max))
  {
    hide Expire, Touch, Bind, Mirrored, SameBindings, RemovedAll, Listed;
    var e := Expire(t, now);
    ExpireIsSame(t, now);
    SameIsMirrored(t, e);
    match op
    case RelayGet(id) =>
      if id in e.relaySide && e.relaySide[id] < |e.pairs| {
        TouchIsSame(e, e.relaySide[id], now, ttl);
        SameIsMirrored(e, Touch(e, e.relaySide[id], now, ttl));
      }
    case ClientGet(k) =>
      if k in e.clientSide && e.clientSide[k] < |e.pairs| {
        TouchIsSame(e, e.clientSide[k], now, ttl);
        SameIsMirrored(e, Touch(e, e.clientSide[k], now, ttl));
      }
    case FromRelay(id, dest, newId, relay, total) =>
      BindMirrors(t, Outward(id, dest, newId, relay, total), now, ttl, max);
    case FromClient(client, id, relay, newId, total) =>
      BindMirrors(t, Inward(client, id, relay, newId, total), now, ttl, max);
    case CompletePair(u) =>
      if Live(t, u) {
        TouchIsSame(t, u, now, ttl);
        var l := Listed(t, u, true, now + ttl);
        SameIsMirrored(t, l);
        ExpireIsSame(l, now);
        SameIsMirrored(l, Expire(l, now));
      }
    case PurgeConnection(c) =>
      if c != [] && c in t.connections {
        RemovedIsSame(t, t.connections[c]);
        SameIsMirrored(t, RemovedAll(t, t.connections[c]));
      }
  }

  lemma {:induction false} RunMirrors(ts: seq<Table>, ops: seq<Op>, times: seq<int>, ttl: int, max: nat, n: nat)
    requires Run(ts, ops, times, ttl, max) && n < |ts|
    ensures Mirrored(ts[n])
  {
    hide Step;
    if n > 0 {
      var m := n - 1;
      RunMirrors(ts, ops, times, ttl, max, m);
      assert Steps(ts[m], ops[m], times[m], times[n], ttl, max, ts[n]);
      hide Mirrored;
      StepMirrors(ts[m], ops[m], times[n], ttl, max);
    }
  }

  /** In every reachable table the entries stored by the pumps mirror each other: a frame that comes in
      under a relay ID goes out to a connection under an ID whose way back leads to that relay ID, and
      a frame that comes in from a connection goes out under an ID whose way back leads to that
      connection and ID. */
  lemma ThereAndBack(ts: seq<Table>, ops: seq<Op>, times: seq<int>, ttl: int, max: nat, n: nat)
    requires Run(ts, ops, times, ttl, max) && n < |ts|
    ensures var t := ts[n];
            && (forall id :: id in t.relaySide ==>
                  && t.relaySide[id] < |t.pairs|
                  && var e := t.pairs[t.relaySide[id]].relayEntry;
                     var back := Key(e.dest.connection, e.dstId);
                     && back in t.clientSide && t.clientSide[back] == t.relaySide[id]
                     && t.pairs[t.clientSide[back]].clientEntry.dstId == id)
            && (forall k :: k in t.clientSide ==>
                  && t.clientSide[k] < |t.pairs|
                  && var e := t.pairs[t.clientSide[k]].clientEntry;
                     && e.dstId in t.relaySide && t.relaySide[e.dstId] == t.clientSide[k]
                     && var back := t.pairs[t.relaySide[e.dstId]].relayEntry;
                        Key(back.dest.connection, back.dstId) == k)
  {
    RunKeeps(ts, ops, times, ttl, max, n);
    RunMirrors(ts, ops, times, ttl, max, n);
    var t := ts[n];
    SideIsLive(t);
    hide Run, Connected, Expiring, Counted;
    assert forall u: nat :: Live(t, u) ==> Found(t, u) && IsMirror(t.pairs[u]);
  }

  /** A pump that finds the pair it asks for in the table, and drops the entries it has made, goes on with
      entries to the same IDs, the same connection and back. */
  lemma BoundIsMirror(t: Table, b: Binding, clock: int, now: int, ttl: int, max: nat)
    requires Inv(t, clock, ttl, max) && clock <= now && ttl > 0 && max > 0 && Mirrored(t) && BindsMirror(b)
    ensures var (r, bound) := Bind(t, b, now, ttl, max);
            bound.Some? ==>
              && bound.value < |r.pairs|
              && var p := r.pairs[bound.value];
                 && p.relayEntry.dstId == b.relayEntry.dstId
                    && p.relayEntry.dest.connection == b.relayEntry.dest.connection
                 && p.clientEntry.dstId == b.clientEntry.dstId
  {
    hide Inv, Bind, Conflict;
    BindOutcome(t, b, clock, now, ttl, max);
    BindMirrors(t, b, now, ttl, max);
  }

  /** The count is exact on both sides and never above the limit. */
  lemma CountIsExact(ts: seq<Table>, ops: seq<Op>, times: seq<int>, ttl: int, max: nat, n: nat)
    requires Run(ts, ops, times, ttl, max) && n < |ts|
    ensures ts[n].count == |ts[n].relaySide| == |ts[n].clientSide| <= max
  {
    RunKeeps(ts, ops, times, ttl, max, n);
    hide Run;
  }

  /** No overdue pair remains after an operation that looks at the clock. */
  lemma NoOverdueRemains(ts: seq<Table>, ops: seq<Op>, times: seq<int>, ttl: int, max: nat, n: nat)
    requires Run(ts, ops, times, ttl, max) && n < |ops|
    requires !ops[n].PurgeConnection? && (ops[n].CompletePair? ==> Live(ts[n], ops[n].u))
    ensures Clean(ts[n + 1], times[n + 1])
  {
    hide Inv, Step, Clean;
    RunKeeps(ts, ops, times, ttl, max, n);
    var m := n + 1;
    assert Steps(ts[n], ops[n], times[n], times[m], ttl, max, ts[m]);
    StepKeeps(ts[n], ops[n], times[n], times[m], ttl, max);
  }

  lemma StepSpares(t: Table, op: Op, clock: int, now: int, ttl: int, max: nat, u: nat)
    requires Inv(t, clock, ttl, max) && clock <= now && ttl > 0 && max > 0 && Unfinished(t, u)
    requires op != CompletePair(u) && op != PurgeConnection(t.pairs[u].key.connection)
    ensures Stays(t, Step(t, op, now, ttl, max), u)
  {
    hide Inv, Expire, Lookup, Bind, Purge, Complete;
    match op
    case CompletePair(v) =>
      NotLive(t, v, now, ttl);
      if Live(t, v) { CompleteIsGood(t, v, clock, now, ttl, max); }
    case PurgeConnection(c) =>
      NoPurge(t);
      if c != [] { PurgeIsExact(t, c, clock, now, ttl, max); }
    case _ => StepKeeps(t, op, clock, now, ttl, max);
  }

  lemma NotLive(t: Table, u: nat, now: int, ttl: int)
    ensures !Live(t, u) ==> Complete(t, u, now, ttl) == t
  {
  }

  lemma NoPurge(t: Table)
    ensures Purge(t, []) == t
  {
  }

  lemma UnfinishedSteps(ts: seq<Table>, ops: seq<Op>, times: seq<int>, ttl: int, max: nat, n: nat, u: nat)
    requires Run(ts, ops, times, ttl, max) && n < |ops| && Unfinished(ts[n], u)
    requires ops[n] != CompletePair(u) && ops[n] != PurgeConnection(ts[n].pairs[u].key.connection)
    ensures Stays(ts[n], ts[n + 1], u)
  {
    hide Inv, Step, Unfinished, Stays;
    RunKeeps(ts, ops, times, ttl, max, n);
    var m := n + 1;
    assert Steps(ts[n], ops[n], times[n], times[m], ttl, max, ts[m]);
    StepSpares(ts[n], ops[n], times[n], times[m], ttl, max, u);
  }

  /** An unfinished pair stays, with its entries, until its own completion or the purge of its
      connection, however long that is. */
  lemma {:induction false} UnfinishedStays(ts: seq<Table>, ops: seq<Op>, times: seq<int>, ttl: int, max: nat, m: nat,
          n: nat, u: nat)
    requires Run(ts, ops, times, ttl, max) && m <= n < |ts| && Unfinished(ts[m], u)
    requires forall k :: m <= k < n ==>
               ops[k] != CompletePair(u) && ops[k] != PurgeConnection(ts[m].pairs[u].key.connection)
    ensures Stays(ts[m], ts[n], u)
  {
    hide Steps;
    if m < n {
      UnfinishedStays(ts, ops, times, ttl, max, m, n - 1, u);
      UnfinishedSteps(ts, ops, times, ttl, max, n - 1, u);
    }
  }
}
