/** How long a pair of the route table lives: what every operation does to every pair, and from that the life of a
    finished pair, which stays for one lifetime after it was last asked for. */
module RouteLifetimes {
  import opened Sequences
  import opened Bytes
  import opened RouteTable
  import opened RouteRuns

  /** What an operation binds, if it is one of the two that do. */
  function Bound(op: Op): (b: Option<Binding>) {
    match op
    case FromRelay(id, dest, newId, relay, total) => Some(Outward(id, dest, newId, relay, total))
    case FromClient(client, id, relay, newId, total) => Some(Inward(client, id, relay, newId, total))
    case _ => None
  }

  /** The operation is about this pair: asks for one of its IDs, binds just what it binds, or completes it. */
  predicate AsksFor(op: Op, u: nat, p: Pair) {
    match op
    case RelayGet(id) => p.relayId == id
    case ClientGet(k) => p.key == k
    case CompletePair(v) => u == v
    case PurgeConnection(_) => false
    case _ => p.relayId == Bound(op).value.relayId && p.key == Bound(op).value.key && p.total == Bound(op).value.total
  }

  /** A binding of two free IDs finds the table full, so that the oldest finished pair has to go. */
  ghost predicate Evicts(t: Table, b: Binding, now: int, max: nat, u: nat) {
    var e := Expire(t, now);
    && (forall v: nat :: Live(t, v) && !Overdue(t, now, v) ==>
          t.pairs[v].relayId != b.relayId && t.pairs[v].key != b.key)
    && e.count >= max && e.expiry != [] && e.expiry[0] == u
  }

  /** The pair leaves the table: it is overdue when the operation looks at the clock, is evicted, or is purged. */
  ghost predicate Leaves(t: Table, op: Op, now: int, max: nat, u: nat) {
    match op
    case PurgeConnection(c) => c != [] && u < |t.pairs| && t.pairs[u].key.connection == c
    case CompletePair(v) => Live(t, v) && u != v && Overdue(t, now, u)
    case RelayGet(_) => Overdue(t, now, u)
    case ClientGet(_) => Overdue(t, now, u)
    case _ => Overdue(t, now, u) || Evicts(t, Bound(op).value, now, max, u)
  }

  /** The pair as the operation leaves it. */
  function Renewed(p: Pair, op: Op, u: nat, now: int, ttl: int): (q: Pair) {
    if !AsksFor(op, u, p) then p
    else
      var completed := p.completed || op.CompletePair?;
      p.(completed := completed, expiresAt := if completed then now + ttl else 0)
  }

  lemma ExpireExactly(t: Table, clock: int, now: int, ttl: int, max: nat, u: nat)
    requires Inv(t, clock, ttl, max) && clock <= now && Live(t, u)
    ensures var e := Expire(t, now);
            && Inv(e, now, ttl, max) && Clean(e, now) && |e.pairs| == |t.pairs|
            && (Live(e, u) <==> !Overdue(t, now, u)) && (Live(e, u) ==> e.pairs[u] == t.pairs[u])
  {
    ExpireIsGood(t, clock, now, ttl, max);
    hide Valid, Ordered, Due, RemovedAll, Clean, Spares;
    ExpireKeeps(t, now, clock, ttl);
    RemovedPair(t, Due(t, now), u);
  }

  lemma TouchExactly(t: Table, v: nat, now: int, ttl: int, u: nat)
    requires Live(t, v) && Live(t, u)
    ensures var r := Touch(t, v, now, ttl);
            && Live(r, u)
            && r.pairs[u] ==
               if u == v then t.pairs[u].(expiresAt := if t.pairs[u].completed then now + ttl else 0) else t.pairs[u]
  {
    ListedPair(t, v, t.pairs[v].completed, if t.pairs[v].completed then now + ttl else 0, u);
    hide Listed;
  }

  lemma FoundByIds(t: Table, u: nat)
    requires Valid(t) && Live(t, u)
    ensures t.pairs[u].relayId in t.relaySide && t.relaySide[t.pairs[u].relayId] == u
    ensures t.pairs[u].key in t.clientSide && t.clientSide[t.pairs[u].key] == u
    ensures forall id :: id in t.relaySide && t.relaySide[id] == u ==> id == t.pairs[u].relayId
    ensures forall k :: k in t.clientSide && t.clientSide[k] == u ==> k == t.pairs[u].key
  {
    assert Found(t, u);
    hide AllFound, Connected, Expiring, Counted;
  }

  lemma LookupExactly<K>(t: Table, side: map<K, nat>, k: K, now: int, ttl: int, u: nat, mine: K)
    requires Live(t, u) && (k in side ==> Live(t, side[k])) && mine in side && side[mine] == u
    requires forall j :: j in side && side[j] == u ==> j == mine
    ensures var r := Lookup(t, side, k, now, ttl);
            && Live(r, u)
            && r.pairs[u] ==
               if k == mine then t.pairs[u].(expiresAt := if t.pairs[u].completed then now + ttl else 0) else t.pairs[u]
  {
    hide Touch;
    if k in side { TouchExactly(t, side[k], now, ttl, u); }
  }

  /** Of a pair that was live. */
  ghost predicate Follows(t: Table, r: Table, op: Op, now: int, ttl: int, max: nat, u: nat) {
    && u < |t.pairs|
    && (Live(r, u) <==> !Leaves(t, op, now, max, u))
    && (Live(r, u) ==> r.pairs[u] == Renewed(t.pairs[u], op, u, now, ttl))
  }

  lemma InvIsValid(t: Table, clock: int, ttl: int, max: nat)
    requires Inv(t, clock, ttl, max)
    ensures Valid(t)
  {
  }

  /** In a table that has just expired what is due. */
  lemma GetExactly(t: Table, op: Op, now: int, ttl: int, u: nat)
    requires Valid(t) && (op.RelayGet? || op.ClientGet?)
    ensures var r := if op.RelayGet? then Lookup(t, t.relaySide, op.id, now, ttl)
                     else Lookup(t, t.clientSide, op.k, now, ttl);
            && (Live(r, u) <==> Live(t, u))
            && (Live(t, u) ==> r.pairs[u] == Renewed(t.pairs[u], op, u, now, ttl))
  {
    hide Valid, Lookup;
    SideIsLive(t);
    if Live(t, u) {
      FoundByIds(t, u);
      match op
      case RelayGet(id) => LookupExactly(t, t.relaySide, id, now, ttl, u, t.pairs[u].relayId);
      case ClientGet(k) => LookupExactly(t, t.clientSide, k, now, ttl, u, t.pairs[u].key);
    } else {
      LookupDead(t, op, now, ttl, u);
    }
  }

  lemma LookupDead(t: Table, op: Op, now: int, ttl: int, u: nat)
    requires !Live(t, u) && (op.RelayGet? || op.ClientGet?)
    ensures op.RelayGet? ==> !Live(Lookup(t, t.relaySide, op.id, now, ttl), u)
    ensures op.ClientGet? ==> !Live(Lookup(t, t.clientSide, op.k, now, ttl), u)
  {
    hide Touch;
    match op
    case RelayGet(id) =>
      if id in t.relaySide && t.relaySide[id] < |t.pairs| { TouchDead(t, t.relaySide[id], now, ttl, u); }
    case ClientGet(k) =>
      if k in t.clientSide && t.clientSide[k] < |t.pairs| { TouchDead(t, t.clientSide[k], now, ttl, u); }
  }

  lemma TouchDead(t: Table, v: nat, now: int, ttl: int, u: nat)
    requires v < |t.pairs| && !Live(t, u)
    ensures !Live(Touch(t, v, now, ttl), u)
  {
    ListedPair(t, v, t.pairs[v].completed, if t.pairs[v].completed then now + ttl else 0, u);
    hide Listed;
  }

  lemma GetFollows(t: Table, op: Op, clock: int, now: int, ttl: int, max: nat, u: nat)
    requires Inv(t, clock, ttl, max) && clock <= now && Live(t, u) && (op.RelayGet? || op.ClientGet?)
    ensures Follows(t, Step(t, op, now, ttl, max), op, now, ttl, max, u)
  {
    hide Inv, Expire, Lookup, Clean, Renewed, Overdue;
    ExpireExactly(t, clock, now, ttl, max, u);
    var e := Expire(t, now);
    InvIsValid(e, now, ttl, max);
    GetExactly(e, op, now, ttl, u);
  }

  lemma CompleteFollows(t: Table, v: nat, clock: int, now: int, ttl: int, max: nat, u: nat)
    requires Inv(t, clock, ttl, max) && clock <= now && Live(t, u) && ttl > 0
    ensures Follows(t, Step(t, CompletePair(v), now, ttl, max), CompletePair(v), now, ttl, max, u)
  {
    hide Listed, Expire, Valid, Ordered, Clean;
    if Live(t, v) {
      var l := Listed(t, v, true, now + ttl);
      ListedKeeps(t, v, true, now + ttl);
      ListedOrdered(t, v, true, clock, now, ttl);
      ListedPair(t, v, true, now + ttl, u);
      assert Inv(l, now, ttl, max);
      hide Inv;
      ExpireExactly(l, now, now, ttl, max, u);
    }
  }

  lemma PurgeFollows(t: Table, c: seq<byte>, clock: int, now: int, ttl: int, max: nat, u: nat)
    requires Inv(t, clock, ttl, max) && clock <= now && Live(t, u)
    ensures Follows(t, Step(t, PurgeConnection(c), now, ttl, max), PurgeConnection(c), now, ttl, max, u)
  {
    hide Inv, Purge;
    NoPurge(t);
    if c != [] { PurgeIsExact(t, c, clock, now, ttl, max); }
  }

  // ---- Binding -----------------------------------------------------------------------------

  lemma FreeIds(t: Table, b: Binding)
    requires Valid(t)
    ensures b.relayId !in t.relaySide && b.key !in t.clientSide <==>
              forall v: nat :: Live(t, v) ==> t.pairs[v].relayId != b.relayId && t.pairs[v].key != b.key
  {
    hide Connected, Expiring, Counted;
    assert forall v: nat :: Live(t, v) ==> Found(t, v);
    if b.relayId in t.relaySide { assert Live(t, t.relaySide[b.relayId]); }
    if b.key in t.clientSide { assert Live(t, t.clientSide[b.key]); }
  }

  lemma SameIsAsked(t: Table, b: Binding, u: nat)
    requires Valid(t) && Live(t, u)
    ensures t.pairs[u].relayId == b.relayId && t.pairs[u].key == b.key && t.pairs[u].total == b.total <==>
              SamePair(t, b) && t.relaySide[b.relayId] == u
  {
    FoundByIds(t, u);
    hide Valid;
  }

  lemma RoomExactly(t: Table, max: nat, u: nat)
    requires Valid(t) && t.count <= max && max > 0
    ensures var r := Room(t, max).0;
            && |r.pairs| == |t.pairs|
            && (Live(r, u) <==> Live(t, u) && !(t.count >= max && t.expiry != [] && t.expiry[0] == u))
            && (Live(r, u) ==> r.pairs[u] == t.pairs[u])
  {
    if t.count >= max && t.expiry != [] {
      OldestIsFinished(t);
      RemovedShrinks(t, {t.expiry[0]});
      RemovedPair(t, {t.expiry[0]}, u);
      hide RemovedAll, Valid;
      assert Room(t, max) == (RemovedAll(t, {t.expiry[0]}), true);
    }
  }

  /** In a table that has just expired what is due. */
  ghost function BindNow(t: Table, b: Binding, now: int, ttl: int, max: nat): (r: Table) {
    if SamePair(t, b) then Touch(t, t.relaySide[b.relayId], now, ttl)
    else if b.relayId in t.relaySide || b.key in t.clientSide then t
    else
      var (room, ok) := Room(t, max);
      if ok then Added(room, b) else room
  }

  lemma BindExactly(t: Table, b: Binding, now: int, ttl: int, max: nat, u: nat)
    requires Valid(t) && t.count <= max && max > 0 && u < |t.pairs|
    ensures var r := BindNow(t, b, now, ttl, max);
            var free := b.relayId !in t.relaySide && b.key !in t.clientSide;
            && (Live(r, u) <==> Live(t, u) && !(free && t.count >= max && t.expiry != [] && t.expiry[0] == u))
            && (Live(r, u) ==>
                  r.pairs[u] ==
                  if t.pairs[u].relayId == b.relayId && t.pairs[u].key == b.key && t.pairs[u].total == b.total
                  then t.pairs[u].(expiresAt := if t.pairs[u].completed then now + ttl else 0) else t.pairs[u])
  {
    hide Touch, Room, Added, Valid, SamePair;
    SideIsLive(t);
    SameIsBound(t, b);
    if Live(t, u) { SameIsAsked(t, b, u); }
    FreeIds(t, b);
    if SamePair(t, b) {
      if Live(t, u) {
        TouchExactly(t, t.relaySide[b.relayId], now, ttl, u);
      } else {
        TouchDead(t, t.relaySide[b.relayId], now, ttl, u);
      }
    } else {
      RoomExactly(t, max, u);
      AddedPair(Room(t, max).0, b, u);
    }
  }

  lemma ExpiredAll(t: Table, clock: int, now: int, ttl: int, max: nat)
    requires Inv(t, clock, ttl, max) && clock <= now
    ensures var e := Expire(t, now);
            && |e.pairs| == |t.pairs|
            && forall v: nat ::
                 (Live(e, v) <==> Live(t, v) && !Overdue(t, now, v)) && (Live(e, v) ==> e.pairs[v] == t.pairs[v])
  {
    var e := Expire(t, now);
    hide Inv, Expire, Clean;
    RemovedLength(t, now);
    forall v: nat
      ensures (Live(e, v) <==> Live(t, v) && !Overdue(t, now, v)) && (Live(e, v) ==> e.pairs[v] == t.pairs[v]) {
      if Live(t, v) { ExpireExactly(t, clock, now, ttl, max, v); } else { StaysDead(t, now, v); }
    }
  }

  lemma RemovedLength(t: Table, now: int)
    ensures |Expire(t, now).pairs| == |t.pairs|
  {
    RemovedPair(t, Due(t, now), 0);
    hide RemovedAll, Due;
  }

  lemma StaysDead(t: Table, now: int, v: nat)
    requires !Live(t, v)
    ensures !Live(Expire(t, now), v)
  {
    RemovedPair(t, Due(t, now), v);
    hide RemovedAll, Due;
  }

  /** The IDs are free once what is overdue has left. */
  lemma FreeAfterExpiry(t: Table, b: Binding, clock: int, now: int, ttl: int, max: nat)
    requires Inv(t, clock, ttl, max) && clock <= now
    ensures var e := Expire(t, now);
            (forall v: nat :: Live(t, v) && !Overdue(t, now, v) ==>
               t.pairs[v].relayId != b.relayId && t.pairs[v].key != b.key)
            <==> (forall v: nat :: Live(e, v) ==> e.pairs[v].relayId != b.relayId && e.pairs[v].key != b.key)
  {
    hide Inv, Expire, Overdue;
    ExpiredAll(t, clock, now, ttl, max);
  }

  lemma EvictsAfterExpiry(t: Table, b: Binding, clock: int, now: int, ttl: int, max: nat, u: nat)
    requires Inv(t, clock, ttl, max) && clock <= now
    ensures var e := Expire(t, now);
            Evicts(t, b, now, max, u) <==>
              && b.relayId !in e.relaySide && b.key !in e.clientSide && e.count >= max && e.expiry != []
              && e.expiry[0] == u
  {
    hide Inv, Expire, Clean, Spares, Overdue, Valid;
    ExpireIsGood(t, clock, now, ttl, max);
    FreeAfterExpiry(t, b, clock, now, ttl, max);
    InvIsValid(Expire(t, now), now, ttl, max);
    FreeIds(Expire(t, now), b);
  }

  lemma BindUnfolds(t: Table, b: Binding, now: int, ttl: int, max: nat)
    ensures Bind(t, b, now, ttl, max).0 == BindNow(Expire(t, now), b, now, ttl, max)
  {
    hide Expire, Touch, Room, Added;
  }

  lemma BindFollows(t: Table, op: Op, clock: int, now: int, ttl: int, max: nat, u: nat)
    requires Inv(t, clock, ttl, max) && clock <= now && Live(t, u) && max > 0 && Bound(op).Some?
    ensures Follows(t, Step(t, op, now, ttl, max), op, now, ttl, max, u)
  {
    hide Inv, Expire, Bind, BindNow, Evicts, Overdue, Clean;
    var b := Bound(op).value;
    ExpireExactly(t, clock, now, ttl, max, u);
    EvictsAfterExpiry(t, b, clock, now, ttl, max, u);
    BindUnfolds(t, b, now, ttl, max);
    var e := Expire(t, now);
    InvCounts(e, now, ttl, max);
    BindExactly(e, b, now, ttl, max, u);
  }

  lemma InvCounts(t: Table, clock: int, ttl: int, max: nat)
    requires Inv(t, clock, ttl, max)
    ensures Valid(t) && t.count <= max
  {
  }

  /** Every operation and every pair: a pair leaves exactly when it is overdue at an operation that looks at the
      clock, is the oldest finished one where room is needed, or is purged; it is otherwise as it was, except that
      one that is asked for expires a lifetime from now if it is finished. */
  lemma StepFollows(t: Table, op: Op, clock: int, now: int, ttl: int, max: nat, u: nat)
    requires Inv(t, clock, ttl, max) && clock <= now && Live(t, u) && ttl > 0 && max > 0
    ensures Follows(t, Step(t, op, now, ttl, max), op, now, ttl, max, u)
  {
    hide Inv, Step, Follows;
    match op
    case RelayGet(_) => GetFollows(t, op, clock, now, ttl, max, u);
    case ClientGet(_) => GetFollows(t, op, clock, now, ttl, max, u);
    case CompletePair(v) => CompleteFollows(t, v, clock, now, ttl, max, u);
    case PurgeConnection(c) => PurgeFollows(t, c, clock, now, ttl, max, u);
    case _ => BindFollows(t, op, clock, now, ttl, max, u);
  }

  /** Only the finished pair that would expire first is evicted, and only from a full table. */
  lemma EvictedIsOldest(t: Table, b: Binding, clock: int, now: int, ttl: int, max: nat, u: nat, v: nat)
    requires Inv(t, clock, ttl, max) && clock <= now && Evicts(t, b, now, max, u)
    ensures Live(t, u) && t.pairs[u].completed && t.count == max
    ensures Live(t, v) && t.pairs[v].completed && !Overdue(t, now, v) ==> t.pairs[u].expiresAt <= t.pairs[v].expiresAt
  {
    ExpireIsGood(t, clock, now, ttl, max);
    ExpiredAll(t, clock, now, ttl, max);
    RemovedShrinks(t, Due(t, now));
    hide RemovedAll, Due, Clean, Spares;
    var e := Expire(t, now);
    OldestIsFinished(e);
    if Live(e, v) && e.pairs[v].completed {
      assert Found(e, v);
      var i :| 0 <= i < |e.expiry| && e.expiry[i] == v;
      assert i > 0 ==> e.pairs[e.expiry[0]].expiresAt <= e.pairs[e.expiry[i]].expiresAt;
    }
  }

  // ---- Whole runs --------------------------------------------------------------------------

  lemma RunFollows(ts: seq<Table>, ops: seq<Op>, times: seq<int>, ttl: int, max: nat, n: nat, u: nat)
    requires Run(ts, ops, times, ttl, max) && n < |ops| && Live(ts[n], u)
    ensures Follows(ts[n], ts[n + 1], ops[n], times[n + 1], ttl, max, u) && times[n] <= times[n + 1]
  {
    hide Inv, Step, Follows;
    RunKeeps(ts, ops, times, ttl, max, n);
    var m := n + 1;
    assert Steps(ts[n], ops[n], times[n], times[m], ttl, max, ts[m]);
    StepFollows(ts[n], ops[n], times[n], times[m], ttl, max, u);
  }

  /** Nothing takes the pair away but time. */
  ghost predicate Unharmed(ts: seq<Table>, ops: seq<Op>, max: nat, c: seq<byte>, m: nat, n: nat)
    requires m <= n <= |ops| < |ts|
  {
    forall k :: m <= k < n ==> ops[k] != PurgeConnection(c) && (Bound(ops[k]).Some? ==> ts[k].count < max)
  }

  lemma StampBound(t: Table, clock: int, ttl: int, max: nat, u: nat)
    requires Inv(t, clock, ttl, max) && Live(t, u) && t.pairs[u].completed
    ensures t.pairs[u].expiresAt <= clock + ttl
  {
    assert Found(t, u);
    hide Sides, Connected, Expiring, Counted, AllFound;
  }

  lemma NoEviction(t: Table, b: Binding, now: int, max: nat, u: nat)
    requires t.count < max
    ensures !Evicts(t, b, now, max, u)
  {
    RemovedShrinks(t, Due(t, now));
    hide RemovedAll, Due;
  }

  lemma ClockGoesOn(ts: seq<Table>, ops: seq<Op>, times: seq<int>, ttl: int, max: nat, n: nat)
    requires Run(ts, ops, times, ttl, max) && n < |ops|
    ensures times[n] <= times[n + 1]
  {
    hide Step;
    var m := n + 1;
    assert Steps(ts[n], ops[n], times[n], times[m], ttl, max, ts[m]);
  }

  lemma FinishedFollows(t: Table, r: Table, op: Op, clock: int, now: int, ttl: int, max: nat, u: nat)
    requires Inv(t, clock, ttl, max) && clock <= now && ttl > 0 && Live(t, u) && t.pairs[u].completed
    requires Follows(t, r, op, now, ttl, max, u) && now < t.pairs[u].expiresAt
    requires op != PurgeConnection(t.pairs[u].key.connection) && (Bound(op).Some? ==> t.count < max)
    ensures Live(r, u) && r.pairs[u].completed && SameBinding(t.pairs[u], r.pairs[u])
    ensures r.pairs[u].expiresAt >= t.pairs[u].expiresAt
  {
    hide Inv, Evicts;
    StampBound(t, clock, ttl, max, u);
    if Bound(op).Some? { NoEviction(t, Bound(op).value, now, max, u); }
  }

  /** A finished pair stays, with its entries, as long as its time is not over, unless its connection is purged or the
      table becomes full. */
  lemma {:induction false} FinishedStays(ts: seq<Table>, ops: seq<Op>, times: seq<int>, ttl: int, max: nat, m: nat,
                                         n: nat, u: nat)
    requires Run(ts, ops, times, ttl, max) && m <= n < |ts| && Live(ts[m], u) && ts[m].pairs[u].completed
    requires Unharmed(ts, ops, max, ts[m].pairs[u].key.connection, m, n) && times[n] < ts[m].pairs[u].expiresAt
    ensures Live(ts[n], u) && ts[n].pairs[u].completed && SameBinding(ts[m].pairs[u], ts[n].pairs[u])
    ensures ts[n].pairs[u].expiresAt >= ts[m].pairs[u].expiresAt
    decreases n
  {
    hide Steps, Inv, Follows, Bound;
    if m < n {
      var k := n - 1;
      ClockGoesOn(ts, ops, times, ttl, max, k);
      FinishedStays(ts, ops, times, ttl, max, m, k, u);
      RunFollows(ts, ops, times, ttl, max, k, u);
      RunKeeps(ts, ops, times, ttl, max, k);
      FinishedFollows(ts[k], ts[n], ops[k], times[k], times[n], ttl, max, u);
    }
  }

  /** A finished pair that is asked for stays, with its entries, for one lifetime from then on. */
  lemma OneLifetime(ts: seq<Table>, ops: seq<Op>, times: seq<int>, ttl: int, max: nat, m: nat, n: nat, u: nat)
    requires Run(ts, ops, times, ttl, max) && m < n < |ts| && Live(ts[m], u) && Live(ts[m + 1], u)
    requires AsksFor(ops[m], u, ts[m].pairs[u]) && ts[m + 1].pairs[u].completed
    ensures ts[m + 1].pairs[u].expiresAt == times[m + 1] + ttl
    ensures Unharmed(ts, ops, max, ts[m].pairs[u].key.connection, m + 1, n) && times[n] < times[m + 1] + ttl ==>
              Live(ts[n], u) && SameBinding(ts[m].pairs[u], ts[n].pairs[u])
  {
    RunFollows(ts, ops, times, ttl, max, m, u);
    hide Run, Leaves;
    if Unharmed(ts, ops, max, ts[m].pairs[u].key.connection, m + 1, n) && times[n] < times[m + 1] + ttl {
      FinishedStays(ts, ops, times, ttl, max, m + 1, n, u);
    }
  }

  /** Once its time is over, a finished pair is gone after the next operation that looks at the clock, unless that very
      operation completes it again. */
  lemma ThenForgotten(ts: seq<Table>, ops: seq<Op>, times: seq<int>, ttl: int, max: nat, n: nat, u: nat)
    requires Run(ts, ops, times, ttl, max) && n < |ops| && Live(ts[n], u) && ts[n].pairs[u].completed
    requires ts[n].pairs[u].expiresAt <= times[n + 1] && !ops[n].PurgeConnection? && ops[n] != CompletePair(u)
    requires ops[n].CompletePair? ==> Live(ts[n], ops[n].u)
    ensures !Live(ts[n + 1], u)
  {
    RunFollows(ts, ops, times, ttl, max, n, u);
    hide Run, Evicts;
  }
}
