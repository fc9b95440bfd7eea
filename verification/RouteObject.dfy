/** The route registry as an object that changes its maps in place. */
module RouteObject {
  import opened Sequences
  import opened Bytes
  import opened RouteTable
  import opened RouteRuns

  // ---- Removing one at a time --------------------------------------------------------------

  lemma {:induction false} SieveTwice(s: seq<nat>, a: set<nat>, b: set<nat>)
    ensures Sieve(Sieve(s, a), b) == Sieve(s, a + b)
  {
    if s != [] {
      var n := |s| - 1;
      SieveTwice(s[..n], a, b);
      var rest := Sieve(s[..n], a);
      assert (rest + [s[n]])[..|rest|] == rest;
    }
  }

  lemma {:induction false} SieveNone(s: seq<nat>, out: set<nat>)
    requires forall i :: 0 <= i < |s| ==> s[i] !in out
    ensures Sieve(s, out) == s
  {
    if s != [] {
      SieveNone(s[..|s| - 1], out);
    }
  }

  lemma {:induction false} SieveConcat(a: seq<nat>, b: seq<nat>, out: set<nat>)
    ensures Sieve(a + b, out) == Sieve(a, out) + Sieve(b, out)
  {
    if b == [] {
      assert a + b == a;
    } else {
      var n := |b| - 1;
      SieveConcat(a, b[..n], out);
      assert (a + b)[..|a + b| - 1] == a + b[..n];
    }
  }

  lemma {:induction false} SieveAll(s: seq<nat>, out: set<nat>)
    requires forall i :: 0 <= i < |s| ==> s[i] in out
    ensures Sieve(s, out) == []
  {
    if s != [] {
      SieveAll(s[..|s| - 1], out);
    }
  }

  lemma SplitMembers(s: seq<nat>, k: nat)
    requires Distinct(s) && k <= |s|
    ensures forall i :: 0 <= i < k ==> s[..k][i] in Members(s[..k])
    ensures forall i :: 0 <= i < |s| - k ==> s[k..][i] !in Members(s[..k])
  {
    forall i | 0 <= i < |s| - k ensures s[k..][i] !in s[..k] {
      assert forall j :: 0 <= j < k ==> s[..k][j] == s[j] != s[k + i];
    }
  }

  /** Taking out the first k of a list leaves the rest. */
  lemma SievePrefix(s: seq<nat>, k: nat)
    requires Distinct(s) && k <= |s|
    ensures Sieve(s, Members(s[..k])) == s[k..]
  {
    hide Sieve, Members;
    SplitMembers(s, k);
    var out := Members(s[..k]);
    SieveConcat(s[..k], s[k..], out);
    SieveAll(s[..k], out);
    SieveNone(s[k..], out);
    assert s == s[..k] + s[k..];
    assert [] + s[k..] == s[k..];
  }

  lemma RemovedMaps(t: Table, a: set<nat>, b: set<nat>)
    ensures var x, y := RemovedAll(RemovedAll(t, a), b), RemovedAll(t, a + b);
            x.pairs == y.pairs && x.relaySide == y.relaySide && x.clientSide == y.clientSide
                && x.connections == y.connections
  {
    hide Sieve;
    assert forall c :: c in t.connections ==> t.connections[c] - a - b == t.connections[c] - (a + b);
  }

  lemma RemovedTwice(t: Table, a: set<nat>, b: set<nat>)
    requires a !! b
    ensures RemovedAll(RemovedAll(t, a), b) == RemovedAll(t, a + b)
  {
    RemovedMaps(t, a, b);
    SieveTwice(t.expiry, a, b);
    assert |a + b| == |a| + |b|;
    hide Sieve;
  }

  lemma RemovedNone(t: Table)
    ensures RemovedAll(t, {}) == t || exists c :: c in t.connections && t.connections[c] == {}
  {
    SieveNone(t.expiry, {});
    hide Sieve;
    var r := RemovedAll(t, {});
    assert r.pairs == t.pairs;
    assert r.relaySide == t.relaySide && r.clientSide == t.clientSide;
    if forall c :: c in t.connections ==> t.connections[c] != {} {
      assert forall c :: c in t.connections ==> t.connections[c] - {} == t.connections[c];
      assert r.connections == t.connections;
    }
  }

  lemma MembersGrow(s: seq<nat>, k: nat)
    requires Distinct(s) && k < |s|
    ensures Members(s[..k + 1]) == Members(s[..k]) + {s[k]} && s[k] !in Members(s[..k])
  {
    assert s[..k + 1] == s[..k] + [s[k]];
  }

  class RouteRegistry {
    const ttl: int
    const max: nat
    var pairs: seq<Pair>
    var relaySide: map<uint64, nat>
    var clientSide: map<Key, nat>
    var connections: map<seq<byte>, set<nat>>
    var expiry: seq<nat>
    var count: nat

    ghost function View(): (t: Table)
      reads this
    {
      Table(pairs, relaySide, clientSide, connections, expiry, count)
    }

    /** Limits that are not positive are replaced by the defaults. */
    constructor (ttl: int, max: int)
      ensures this.ttl == (if ttl <= 0 then 90_000_000_000 else ttl) && this.max == (if max <= 0 then 131072 else max)
      ensures View() == EMPTY
    {
      this.ttl := if ttl <= 0 then 90_000_000_000 else ttl;
      this.max := if max <= 0 then 131072 else max;
      pairs, relaySide, clientSide, connections, expiry, count := [], map[], map[], map[], [], 0;
    }

    /** A pair that was removed before is left alone. */
    method RemovePair(u: nat)
      requires Valid(View()) && u < |pairs|
      modifies this
      ensures View() == if Live(old(View()), u) then RemovedAll(old(View()), {u}) else old(View())
      ensures Valid(View())
    {
      hide Valid, RemovedAll, Sieve;
      if pairs[u].removed { return; }
      ghost var t := View();
      LiveIsFound(t, u);
      RemovedKeeps(t, {u});
      var p := pairs[u];
      relaySide := relaySide - {p.relayId};
      clientSide := clientSide - {p.key};
      expiry := Sieve(expiry, {u});
      var others := connections[p.key.connection] - {u};
      if others == {} {
        connections := connections - {p.key.connection};
      } else {
        connections := connections[p.key.connection := others];
      }
      pairs := pairs[u := p.(removed := true)];
      if count > 0 {
        count := count - 1;
      }
    }

    /** Removes from the front of the list while it is due. Every listed pair is complete, so nothing
        else has to be skipped. */
    method ExpirePairs(now: int)
      requires Valid(View())
      modifies this
      ensures View() == Expire(old(View()), now) && Valid(View())
    {
      hide Valid, RemovedAll, Sieve, Due;
      ghost var t := View();
      ghost var k := 0;
      NothingExpired(t, now);
      while expiry != []
        invariant k <= |t.expiry| && expiry == t.expiry[k..] && Valid(View())
        invariant View() == RemovedAll(t, Members(t.expiry[..k]))
        invariant DueLength(t, now, k) == DueLength(t, now, 0)
        decreases |t.expiry| - k
      {
        var u := expiry[0];
        FrontIsLive(View(), t, k);
        if pairs[u].expiresAt > now { break; }
        RemovePair(u);
        ExpireOne(t, k, u);
        k := k + 1;
      }
      DueIsPrefix(t, now);
    }

    method TouchPair(u: nat, now: int)
      requires u < |pairs|
      modifies this
      ensures View() == Touch(old(View()), u, now, ttl)
      ensures old(Valid(View())) ==> Valid(View())
    {
      hide Sieve, Valid;
      TouchKeepsValid(View(), u, now, ttl);
      if pairs[u].removed { return; }
      expiry := Sieve(expiry, {u});
      if !pairs[u].completed {
        pairs := pairs[u := pairs[u].(expiresAt := 0)];
        assert expiry + [] == expiry;
      } else {
        pairs := pairs[u := pairs[u].(expiresAt := now + ttl)];
        expiry := expiry + [u];
      }
    }

    method GetRelay(id: uint64, now: int) returns (r: Option<Entry>)
      requires Valid(View())
      modifies this
      ensures View() == Step(old(View()), RelayGet(id), now, ttl, max) && Valid(View())
      ensures var e := Expire(old(View()), now);
              r == if id in e.relaySide && e.relaySide[id] < |e.pairs| then Some(e.pairs[e.relaySide[id]].relayEntry)
                  else None
    {
      hide Valid, Expire, Touch;
      ExpirePairs(now);
      LiveSides(View());
      if id !in relaySide { return None; }
      var u := relaySide[id];
      r := Some(pairs[u].relayEntry);
      TouchPair(u, now);
    }

    method GetClient(k: Key, now: int) returns (r: Option<Entry>)
      requires Valid(View())
      modifies this
      ensures View() == Step(old(View()), ClientGet(k), now, ttl, max) && Valid(View())
      ensures var e := Expire(old(View()), now);
              r == if k in e.clientSide && e.clientSide[k] < |e.pairs| then Some(e.pairs[e.clientSide[k]].clientEntry)
                  else None
    {
      hide Valid, Expire, Touch;
      ExpirePairs(now);
      LiveSides(View());
      if k !in clientSide { return None; }
      var u := clientSide[k];
      r := Some(pairs[u].clientEntry);
      TouchPair(u, now);
    }

    /** Evicts finished pairs, oldest first, until there is room. */
    method MakeRoom() returns (ok: bool)
      requires Valid(View())
      modifies this
      ensures (View(), ok) == Room(old(View()), max) && Valid(View())
    {
      while count >= max
        invariant Valid(View()) && Room(View(), max) == Room(old(View()), max)
        decreases |expiry|
      {
        hide Valid, RemovedAll, Sieve;
        if expiry == [] { return false; }
        var u := expiry[0];
        SieveShorter(expiry, {u});
        RemovedParts(View(), {u});
        OldestIsFinished(View());
        RemovePair(u);
      }
      ok := true;
    }

    /** Binds two IDs with the entries of the caller, or finds the pair that already binds them. */
    method BindIds(b: Binding, now: int) returns (u: Option<nat>)
      requires Valid(View())
      modifies this
      ensures (View(), u) == Bind(old(View()), b, now, ttl, max) && Valid(View())
    {
      hide Valid, Expire, Touch, Room;
      ExpirePairs(now);
      LiveSides(View());
      if b.relayId in relaySide || b.key in clientSide {
        if b.relayId in relaySide && b.key in clientSide && relaySide[b.relayId] == clientSide[b.key] {
          var n := relaySide[b.relayId];
          if pairs[n].relayId == b.relayId && pairs[n].key == b.key && pairs[n].total == b.total {
            TouchPair(n, now);
            return Some(n);
          }
        }
        return None;
      }
      RoomShrinks(View(), max);
      var ok := MakeRoom();
      if !ok { return None; }
      AddedKeeps(View(), b);
      var n := |pairs|;
      pairs := pairs + [Pair(b.relayId, b.key, b.relayEntry, b.clientEntry, b.total, false, 0, false)];
      relaySide, clientSide := relaySide[b.relayId := n], clientSide[b.key := n];
      count := count + 1;
      var others := if b.key.connection in connections then connections[b.key.connection] else {};
      connections := connections[b.key.connection := others + {n}];
      u := Some(n);
    }

    /** The pump towards the clients asks for the entry of an ID, and binds a new one if there is none. */
    method RouteToClient(id: uint64, dest: Endpoint, newId: uint64, relay: Endpoint, total: uint32, now: int)
      returns (r: Option<Entry>)
      requires Valid(View()) && Mirrored(View())
      modifies this
      ensures Valid(View()) && Mirrored(View())
      ensures var t := Step(old(View()), RelayGet(id), now, ttl, max);
              View() == if id in Expire(old(View()), now).relaySide then t
                        else Step(t, FromRelay(id, dest, newId, relay, total), now, ttl, max)
      ensures r.Some? ==> IsMirrorEntry(View(), id, r.value)
    {
      hide Valid, Expire, Touch, Bind, Mirrored;
      ghost var t := View();
      StepMirrors(t, RelayGet(id), now, ttl, max);
      r := GetRelay(id, now);
      ghost var v := View();
      FoundOrNot(t, id, now, ttl, max);
      LiveSides(v);
      if r.None? {
        var b := Outward(id, dest, newId, relay, total);
        BindMirrors(v, b, now, ttl, max);
        var u := BindIds(b, now);
        if u.None? { return None; }
        BoundIsThere(v, b, now, ttl, max);
        r := Some(pairs[u.value].relayEntry);
      }
      EntryIsMirror(View(), id);
    }

    /** The pump towards the relay does the same, but binds only for the first frame of a message. */
    method RouteToRelay(client: Endpoint, id: uint64, relay: Endpoint, newId: uint64, total: uint32, first: bool,
                        now: int)
      returns (r: Option<Entry>)
      requires Valid(View()) && Mirrored(View())
      modifies this
      ensures Valid(View()) && Mirrored(View())
      ensures var k := Key(client.connection, id);
              var t := Step(old(View()), ClientGet(k), now, ttl, max);
              View() == if k in Expire(old(View()), now).clientSide || !first then t
                        else Step(t, FromClient(client, id, relay, newId, total), now, ttl, max)
      ensures r.Some? ==> IsReturnEntry(View(), Key(client.connection, id), r.value)
    {
      hide Valid, Expire, Touch, Bind, Mirrored;
      var k := Key(client.connection, id);
      ghost var t := View();
      StepMirrors(t, ClientGet(k), now, ttl, max);
      r := GetClient(k, now);
      ghost var v := View();
      KeyFoundOrNot(t, k, now, ttl, max);
      LiveSides(v);
      if r.None? {
        if !first { return; }
        var b := Inward(client, id, relay, newId, total);
        BindMirrors(v, b, now, ttl, max);
        var u := BindIds(b, now);
        if u.None? { return None; }
        KeyIsThere(v, b, now, ttl, max);
        r := Some(pairs[u.value].clientEntry);
      }
      ReturnIsMirror(View(), k);
    }

    method CompleteRoute(u: nat, now: int)
      requires Valid(View()) && u < |pairs|
      modifies this
      ensures View() == Complete(old(View()), u, now, ttl) && Valid(View())
    {
      hide Valid, Expire, Touch, Listed;
      if pairs[u].removed { return; }
      ListedKeeps(View(), u, true, now + ttl);
      MarkedTouch(View(), u, now, ttl);
      pairs := pairs[u := pairs[u].(completed := true)];
      TouchPair(u, now);
      ExpirePairs(now);
    }

    method PurgeRoutes(connection: seq<byte>)
      requires Valid(View())
      modifies this
      ensures View() == Purge(old(View()), connection) && Valid(View())
    {
      hide Valid, RemovedAll;
      if connection == [] || connection !in connections { return; }
      ghost var t := View();
      var rest := connections[connection];
      ghost var done: set<nat> := {};
      NonePurged(t);
      while rest != {}
        invariant connection in t.connections && done + rest == t.connections[connection] && done !! rest
        invariant View() == RemovedAll(t, done) && Valid(View()) && Valid(t)
        decreases rest
      {
        var u :| u in rest;
        PurgeOne(t, connection, done, u);
        RemovePair(u);
        done := done + {u};
        rest := rest - {u};
      }
      assert done == t.connections[connection];
    }
  }

  /** The entry of a relay ID, from whose destination the way back leads to that ID. */
  ghost predicate IsMirrorEntry(t: Table, id: uint64, e: Entry) {
    && id in t.relaySide && t.relaySide[id] < |t.pairs| && t.pairs[t.relaySide[id]].relayEntry == e
    && var back := Key(e.dest.connection, e.dstId);
       back in t.clientSide && t.clientSide[back] == t.relaySide[id] && t.pairs[t.relaySide[id]].clientEntry.dstId == id
  }

  lemma EntryIsMirror(t: Table, id: uint64)
    requires Valid(t) && Mirrored(t)
    ensures id in t.relaySide ==>
              t.relaySide[id] < |t.pairs| && IsMirrorEntry(t, id, t.pairs[t.relaySide[id]].relayEntry)
  {
    hide Connected, Expiring, Counted;
    if id in t.relaySide {
      assert Live(t, t.relaySide[id]) && Found(t, t.relaySide[id]);
      assert IsMirror(t.pairs[t.relaySide[id]]);
    }
  }

  /** The entry of a client's ID, from whose destination the way back leads to that client and ID. */
  ghost predicate IsReturnEntry(t: Table, k: Key, e: Entry) {
    && k in t.clientSide && t.clientSide[k] < |t.pairs| && t.pairs[t.clientSide[k]].clientEntry == e
    && e.dstId in t.relaySide && t.relaySide[e.dstId] == t.clientSide[k]
    && var back := t.pairs[t.clientSide[k]].relayEntry; Key(back.dest.connection, back.dstId) == k
  }

  lemma ReturnIsMirror(t: Table, k: Key)
    requires Valid(t) && Mirrored(t)
    ensures k in t.clientSide ==>
              t.clientSide[k] < |t.pairs| && IsReturnEntry(t, k, t.pairs[t.clientSide[k]].clientEntry)
  {
    hide Connected, Expiring, Counted;
    if k in t.clientSide {
      assert Live(t, t.clientSide[k]) && Found(t, t.clientSide[k]);
      assert IsMirror(t.pairs[t.clientSide[k]]);
    }
  }

  lemma KeyFoundOrNot(t: Table, k: Key, now: int, ttl: int, max: nat)
    requires Valid(t)
    ensures var e, r := Expire(t, now), Step(t, ClientGet(k), now, ttl, max);
            && (k in e.clientSide <==> k in r.clientSide)
            && (k in e.clientSide ==>
                  && e.clientSide[k] == r.clientSide[k]
                     && (e.clientSide[k] < |e.pairs| <==> r.clientSide[k] < |r.pairs|)
                  && (e.clientSide[k] < |e.pairs| ==>
                      r.pairs[r.clientSide[k]].clientEntry == e.pairs[e.clientSide[k]].clientEntry))
  {
    hide Valid, Expire, Sieve;
  }

  lemma KeyIsThere(t: Table, b: Binding, now: int, ttl: int, max: nat)
    requires Valid(t)
    ensures var (r, bound) := Bind(t, b, now, ttl, max);
            bound.Some? ==> b.key in r.clientSide && r.clientSide[b.key] == bound.value < |r.pairs|
  {
    hide Valid, Expire, Sieve, Room;
  }

  /** Looking an ID up changes no entry. */
  lemma FoundOrNot(t: Table, id: uint64, now: int, ttl: int, max: nat)
    requires Valid(t)
    ensures var e, r := Expire(t, now), Step(t, RelayGet(id), now, ttl, max);
            && (id in e.relaySide <==> id in r.relaySide)
            && (id in e.relaySide ==>
                  && e.relaySide[id] == r.relaySide[id]
                     && (e.relaySide[id] < |e.pairs| <==> r.relaySide[id] < |r.pairs|)
                  && (e.relaySide[id] < |e.pairs| ==>
                      r.pairs[r.relaySide[id]].relayEntry == e.pairs[e.relaySide[id]].relayEntry))
  {
    hide Valid, Expire, Sieve;
  }

  lemma BoundIsThere(t: Table, b: Binding, now: int, ttl: int, max: nat)
    requires Valid(t)
    ensures var (r, bound) := Bind(t, b, now, ttl, max);
            bound.Some? ==> b.relayId in r.relaySide && r.relaySide[b.relayId] == bound.value < |r.pairs|
  {
    hide Valid, Expire, Sieve, Room;
  }

  /** The table after one pair was taken out by hand. */
  function TakenOut(t: Table, u: nat): (r: Table)
    requires u < |t.pairs| && t.pairs[u].key.connection in t.connections
  {
    var p := t.pairs[u];
    var others := t.connections[p.key.connection] - {u};
    Table(t.pairs[u := p.(removed := true)], t.relaySide - {p.relayId}, t.clientSide - {p.key},
          if others == {} then t.connections - {p.key.connection} else t.connections[p.key.connection := others],
          Sieve(t.expiry, {u}), if t.count > 0 then t.count - 1 else 0)
  }

  lemma LiveIsFound(t: Table, u: nat)
    requires Valid(t) && Live(t, u)
    ensures u < |t.pairs| && t.pairs[u].key.connection in t.connections && TakenOut(t, u) == RemovedAll(t, {u})
  {
    assert Found(t, u);
    hide Valid, RemovedAll, Sieve, TakenOut;
    RemovedOne(t, u);
  }

  lemma KeptOne<K(!new)>(m: map<K, nat>, k: K, u: nat)
    requires k in m && m[k] == u && forall j :: j in m && m[j] == u ==> j == k
    ensures Kept(m, {u}) == m - {k}
  {
  }

  lemma ConnectionsOne(t: Table, u: nat)
    requires Connected(t) && Live(t, u) && t.pairs[u].key.connection in t.connections
    ensures RemovedAll(t, {u}).connections == TakenOut(t, u).connections
  {
    hide Sieve;
    var c := t.pairs[u].key.connection;
    assert forall d :: d in t.connections && d != c ==>
        u !in t.connections[d] && t.connections[d] - {u} == t.connections[d];
  }

  lemma RemovedOne(t: Table, u: nat)
    requires Valid(t) && Live(t, u) && Found(t, u)
    ensures TakenOut(t, u) == RemovedAll(t, {u})
  {
    hide Sieve, RemovedAll, Kept, AllFound, Expiring, Counted;
    ConnectionsOne(t, u);
    hide Connected;
    KeptOne(t.relaySide, t.pairs[u].relayId, u);
    KeptOne(t.clientSide, t.pairs[u].key, u);
    RemovedParts(t, {u});
    assert RemovedAll(t, {u}).pairs == TakenOut(t, u).pairs;
  }

  lemma RemovedParts(t: Table, out: set<nat>)
    ensures var r := RemovedAll(t, out);
            && r.relaySide == Kept(t.relaySide, out) && r.clientSide == Kept(t.clientSide, out)
            && r.expiry == Sieve(t.expiry, out) && r.count == (if t.count >= |out| then t.count - |out| else 0)
            && |r.pairs| == |t.pairs|
            && forall i :: 0 <= i < |t.pairs| ==>
               r.pairs[i] == if i in out then t.pairs[i].(removed := true) else t.pairs[i]
  {
    hide Sieve;
  }

  lemma NothingExpired(t: Table, now: int)
    requires Valid(t)
    ensures t == RemovedAll(t, Members(t.expiry[..0])) && t.expiry == t.expiry[0..]
  {
    assert Members(t.expiry[..0]) == {};
    RemovedNone(t);
  }

  lemma FrontIsLive(r: Table, t: Table, k: nat)
    requires Valid(t) && Valid(r) && k < |t.expiry| && r == RemovedAll(t, Members(t.expiry[..k]))
             && r.expiry == t.expiry[k..]
    ensures Live(r, r.expiry[0]) && r.expiry[0] == t.expiry[k] < |t.pairs|
            && r.pairs[t.expiry[k]] == t.pairs[t.expiry[k]]
  {
    assert r.expiry[0] in r.expiry;
    RemovedPair(t, Members(t.expiry[..k]), t.expiry[k]);
    MembersGrow(t.expiry, k);
    hide RemovedAll, Sides, AllFound, Connected, Members;
  }

  lemma ExpireOne(t: Table, k: nat, u: nat)
    requires Valid(t) && k < |t.expiry| && u == t.expiry[k]
    ensures var out := Members(t.expiry[..k]);
            && RemovedAll(RemovedAll(t, out), {u}) == RemovedAll(t, Members(t.expiry[..k + 1]))
            && RemovedAll(t, Members(t.expiry[..k + 1])).expiry == t.expiry[k + 1..]
            && Valid(RemovedAll(t, Members(t.expiry[..k + 1])))
  {
    var out := Members(t.expiry[..k]);
    MembersGrow(t.expiry, k);
    RemovedTwice(t, out, {u});
    SievePrefix(t.expiry, k + 1);
    RemovedParts(t, Members(t.expiry[..k + 1]));
    assert forall v :: v in Members(t.expiry[..k + 1]) ==> v in t.expiry;
    RemovedKeeps(t, Members(t.expiry[..k + 1]));
    hide RemovedAll, Sides, AllFound, Connected, Members, Sieve;
  }

  lemma DueIsPrefix(t: Table, now: int)
    ensures Expire(t, now) == RemovedAll(t, Members(t.expiry[..DueLength(t, now, 0)]))
  {
  }

  lemma LiveSides(t: Table)
    requires Valid(t)
    ensures forall id :: id in t.relaySide ==> t.relaySide[id] < |t.pairs|
    ensures forall k :: k in t.clientSide ==> t.clientSide[k] < |t.pairs|
  {
    SideIsLive(t);
    hide Valid;
  }

  lemma TouchKeepsValid(t: Table, u: nat, now: int, ttl: int)
    requires u < |t.pairs|
    ensures Valid(t) ==> Valid(Touch(t, u, now, ttl))
  {
    hide Valid, Listed;
    if Valid(t) && Live(t, u) {
      ListedKeeps(t, u, t.pairs[u].completed, if t.pairs[u].completed then now + ttl else 0);
    }
  }

  /** Making room binds no ID. */
  lemma {:induction false} RoomShrinks(t: Table, max: nat)
    ensures var r := Room(t, max).0; r.relaySide.Keys <= t.relaySide.Keys && r.clientSide.Keys <= t.clientSide.Keys
    decreases |t.expiry|
  {
    if t.count >= max && t.expiry != [] {
      var out := {t.expiry[0]};
      SieveShorter(t.expiry, out);
      RemovedParts(t, out);
      hide RemovedAll, Sieve;
      RoomShrinks(RemovedAll(t, out), max);
    }
  }

  lemma NonePurged(t: Table)
    requires Valid(t)
    ensures t == RemovedAll(t, {})
  {
    RemovedNone(t);
  }

  lemma MarkedTouch(t: Table, u: nat, now: int, ttl: int)
    requires Live(t, u)
    ensures Touch(t.(pairs := t.pairs[u := t.pairs[u].(completed := true)]), u, now, ttl) ==
              Listed(t, u, true, now + ttl)
  {
    hide Sieve;
  }

  lemma MembersAreLive(t: Table, connection: seq<byte>)
    requires Valid(t) && connection in t.connections
    ensures forall v :: v in t.connections[connection] ==> Live(t, v)
  {
    hide Sides, AllFound, Expiring, Counted, Live;
  }

  lemma PurgeOne(t: Table, connection: seq<byte>, done: set<nat>, u: nat)
    requires Valid(t) && connection in t.connections && done <= t.connections[connection]
             && u in t.connections[connection] - done
    ensures Live(RemovedAll(t, done), u)
    ensures RemovedAll(RemovedAll(t, done), {u}) == RemovedAll(t, done + {u}) && Valid(RemovedAll(t, done + {u}))
  {
    hide Valid, RemovedAll, Live;
    MembersAreLive(t, connection);
    RemovedPair(t, done, u);
    RemovedTwice(t, done, {u});
    RemovedKeeps(t, done + {u});
  }
}
