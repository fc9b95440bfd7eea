/** The order of a bucket of the Kademlia table: every operation states exactly which nodes it lists, in which order and
    with which health, and in every run the first node of a bucket is the one that has been silent longest. */
module NodeRecency {
  import opened Sequences
  import opened Distance
  import opened NodeBucket
  import T = RoutingTable

  // ---- Lists and health --------------------------------------------------------------------

  /** The nodes with another ID, in their order. */
  function Others(s: seq<Node>, id: string): (r: seq<Node>) {
    if s == [] then []
    else
      var n := |s| - 1;
      Others(s[..n], id) + if s[n].id == id then [] else [s[n]]
  }

  lemma {:induction false} OthersOfNone(s: seq<Node>, id: string)
    requires forall i :: 0 <= i < |s| ==> s[i].id != id
    ensures Others(s, id) == s
  {
    if s != [] {
      OthersOfNone(s[..|s| - 1], id);
    }
  }

  lemma {:induction false} WithoutIsOthers(s: seq<Node>, i: nat)
    requires Unique(s) && i < |s|
    ensures Without(s, i) == Others(s, s[i].id)
  {
    var n := |s| - 1;
    if i == n {
      OthersOfNone(s[..n], s[n].id);
      assert Without(s, n) == s[..n];
    } else {
      WithoutIsOthers(s[..n], i);
      assert Without(s, i) == Without(s[..n], i) + [s[n]];
    }
  }

  /** The health of a node that was active at a time: no failures, and healthy since it first was. */
  function Refreshed(h: Health, at: int): (r: Health) {
    Health(h.rtt, if h.healthySince == 0 then at else h.healthySince, at, 0, false)
  }

  // ---- Every operation on a bucket ---------------------------------------------------------

  /** A node that is active goes to the end of the list, with its health refreshed; nothing else changes. */
  lemma TouchExactly(b: Bucket, id: string, at: int)
    requires Exact(b)
    ensures !Lists(b.nodes, id) ==> TouchIn(b, id, at) == b
    ensures Lists(b.nodes, id) ==>
              && id in b.health
              && exists x :: x in b.nodes && x.id == id &&
                   TouchIn(b, id, at) ==
                   Bucket(Others(b.nodes, id) + [x], b.health[id := Refreshed(b.health[id], at)], b.cache)
  {
    Found(b.nodes, id);
    if Lists(b.nodes, id) {
      var i := Find(b.nodes, id);
      WithoutIsOthers(b.nodes, i);
      assert b.nodes[i] in b.nodes;
    }
    hide Find, Others, Unique;
  }

  /** What the cache holds after a node was put into it: last, if it was there or there is room. */
  function Cached(cache: seq<Node>, x: Node, max: nat): (r: seq<Node>) {
    if Lists(cache, x.id) then Others(cache, x.id) + [x] else if |cache| < max then cache + [x] else cache
  }

  lemma PushExactly(cache: seq<Node>, x: Node, max: nat)
    requires Unique(cache)
    ensures PushCache(cache, x, max) == Cached(cache, x, max)
  {
    Found(cache, x.id);
    if Lists(cache, x.id) { WithoutIsOthers(cache, Find(cache, x.id)); }
    hide Find, Others, Unique;
  }

  /** A node that is added goes to the end: with its health refreshed if it is listed, as a new one if there is room,
      and otherwise into the cache only. */
  lemma AddExactly(b: Bucket, x: Node, now: int, max: nat)
    requires Exact(b) && Unique(b.cache)
    ensures AddTo(b, x, now, max) ==
            if Lists(b.nodes, x.id) then
              Bucket(Others(b.nodes, x.id) + [x], b.health[x.id := Refreshed(HealthOf(b, x.id), now)], b.cache)
            else if |b.nodes| < max then
              Bucket(b.nodes + [x], b.health[x.id := Health(0, now, now, 0, false)], b.cache)
            else Bucket(b.nodes, b.health, Cached(b.cache, x, max))
  {
    Found(b.nodes, x.id);
    PushExactly(b.cache, x, max);
    if Lists(b.nodes, x.id) { WithoutIsOthers(b.nodes, Find(b.nodes, x.id)); }
    hide Find, Others, Unique, PushCache, Cached;
  }

  /** A node that is removed leaves the list, and the oldest cached one comes in at the end. */
  lemma RemoveExactly(b: Bucket, id: string, now: int)
    requires Exact(b)
    ensures var nodes, health := Others(b.nodes, id), b.health - {id};
            RemoveFrom(b, id, now) ==
            if !Lists(b.nodes, id) then b
            else if b.cache == [] then Bucket(nodes, health, [])
            else Bucket(nodes + [b.cache[0]], health[b.cache[0].id := Health(0, now, now, 0, false)], b.cache[1..])
  {
    Found(b.nodes, id);
    if Lists(b.nodes, id) { WithoutIsOthers(b.nodes, Find(b.nodes, id)); }
    hide Find, Others, Unique;
  }

  /** What settling a probe does to a node that is still listed and was not active since it was read: one that answered
      is active, one that did not is suspected, or leaves the list once it failed often enough. */
  lemma SettleExactly(b: Bucket, head: Node, h: Health, answered: bool, now: int, failures: nat)
    requires Exact(b)
    ensures var r, n := SettleHead(b, head, h, answered, now, failures), (h.failures + 1) % 256;
            var worse := Health(h.rtt, h.healthySince, h.lastSuccess, n, true);
            r ==
            if !Lists(b.nodes, head.id) || HealthOf(b, head.id).lastSuccess != h.lastSuccess then (b, false)
            else if answered then
              (Bucket(Others(b.nodes, head.id) + [head], b.health[head.id := Refreshed(h, now)], b.cache), false)
            else if n < failures then (Bucket(b.nodes, b.health[head.id := worse], b.cache), false)
            else (Bucket(Others(b.nodes, head.id), b.health - {head.id}, b.cache), true)
  {
    Found(b.nodes, head.id);
    if Lists(b.nodes, head.id) { WithoutIsOthers(b.nodes, Find(b.nodes, head.id)); }
    hide Find, Others, Unique;
  }

  /** The first cached node that answers, or the length. */
  function FirstAnswering(cache: seq<Node>, probe: Node -> bool): (i: nat)
    ensures i <= |cache| && (i < |cache| ==> probe(cache[i])) && forall j :: 0 <= j < i ==> !probe(cache[j])
  {
    if cache == [] then 0
    else if probe(cache[0]) then 0
    else
      var i := FirstAnswering(cache[1..], probe);
      assert forall j :: 0 < j < i + 1 ==> cache[j] == cache[1..][j - 1];
      i + 1
  }

  /** A free place is taken by the first cached node that answers, as a new one; those before it are given up. */
  lemma {:induction false} RefillExactly(b: Bucket, probe: Node -> bool, now: int, max: nat)
    requires |b.nodes| < max
    ensures var i := FirstAnswering(b.cache, probe);
            Refill(b, probe, now, max) ==
            if i == |b.cache| then Bucket(b.nodes, b.health, [])
            else
              var x := b.cache[i];
              Bucket(b.nodes + [x], b.health[x.id := Health(0, now, now, 0, false)], b.cache[i + 1..])
    decreases |b.cache|
  {
    if b.cache != [] && !probe(b.cache[0]) {
      RefillExactly(b.(cache := b.cache[1..]), probe, now, max);
    }
  }

  /** A maintenance that nothing disturbs does nothing unless the first node has been silent for the given time or never
      was active; otherwise it settles a probe of it, and fills the place of one it took out. */
  lemma MaintainExactly(b: Bucket, now: int, stale: int, failures: nat, probe: Node -> bool, max: nat)
    requires Exact(b) && |b.nodes| <= max
    ensures var r := MaintainIn(b, now, stale, failures, probe, max);
            if b.nodes == [] then r == b
            else
              var head, h := b.nodes[0], HealthOf(b, b.nodes[0].id);
              if h.lastSuccess != 0 && now - h.lastSuccess < stale then r == b
              else if probe(head) then
                r == Bucket(Others(b.nodes, head.id) + [head], b.health[head.id := Refreshed(h, now)], b.cache)
              else if (h.failures + 1) % 256 < failures then
                var worse := Health(h.rtt, h.healthySince, h.lastSuccess, (h.failures + 1) % 256, true);
                r == Bucket(b.nodes, b.health[head.id := worse], b.cache)
              else r == Refill(Bucket(Others(b.nodes, head.id), b.health - {head.id}, b.cache), probe, now, max)
  {
    if b.nodes != [] {
      var head := b.nodes[0];
      SettleExactly(b, head, HealthOf(b, head.id), probe(head), now, failures);
      assert Lists(b.nodes, head.id);
    }
    hide SettleHead, Others, Lists, Exact, Refill;
  }

  // ---- The longest silent node -------------------------------------------------------------

  /** In the order of their last activity, none later than the clock. */
  ghost predicate Ascends(s: seq<Node>, health: map<string, Health>, clock: int) {
    && (forall i :: 0 <= i < |s| ==> s[i].id in health && health[s[i].id].lastSuccess <= clock)
    && forall i, j :: 0 <= i < j < |s| ==> health[s[i].id].lastSuccess <= health[s[j].id].lastSuccess
  }

  /** The positions of one list in another. */
  predicate Picks(f: seq<nat>, r: seq<Node>, s: seq<Node>) {
    && |f| == |r| && (forall i :: 0 <= i < |r| ==> f[i] < |s| && r[i] == s[f[i]])
    && forall i, j :: 0 <= i < j < |r| ==> f[i] < f[j]
  }

  /** A shorter list of the same nodes in the same order. */
  ghost predicate Thins(r: seq<Node>, s: seq<Node>) { exists f: seq<nat> :: Picks(f, r, s) }

  lemma ThinAscends(r: seq<Node>, s: seq<Node>, health: map<string, Health>, clock: int)
    requires Thins(r, s) && Ascends(s, health, clock)
    ensures Ascends(r, health, clock)
  {
    var f: seq<nat> :| Picks(f, r, s);
  }

  lemma ThinGrows(r: seq<Node>, s: seq<Node>, x: Node)
    requires Thins(r, s)
    ensures Thins(r, s + [x]) && Thins(r + [x], s + [x])
  {
    var f: seq<nat> :| Picks(f, r, s);
    assert Picks(f, r, s + [x]);
    assert Picks(f + [|s|], r + [x], s + [x]);
  }

  lemma {:induction false} OthersThin(s: seq<Node>, id: string)
    ensures Thins(Others(s, id), s)
  {
    if s == [] {
      assert Picks([], Others(s, id), s);
    } else {
      var n := |s| - 1;
      OthersThin(s[..n], id);
      hide Thins;
      ThinGrows(Others(s[..n], id), s[..n], s[n]);
      assert s == s[..n] + [s[n]];
      assert Others(s, id) == if s[n].id == id then Others(s[..n], id) else Others(s[..n], id) + [s[n]];
    }
  }

  lemma {:induction false} OthersDiffer(s: seq<Node>, id: string)
    ensures forall i :: 0 <= i < |Others(s, id)| ==> Others(s, id)[i].id != id
  {
    if s != [] {
      OthersDiffer(s[..|s| - 1], id);
    }
  }

  /** The other nodes keep their order when the health of one changes. */
  lemma OthersAscend(s: seq<Node>, health: map<string, Health>, changed: map<string, Health>, clock: int, id: string)
    requires Ascends(s, health, clock) && forall k :: k in health && k != id ==> k in changed && changed[k] == health[k]
    ensures Ascends(Others(s, id), changed, clock)
  {
    OthersThin(s, id);
    OthersDiffer(s, id);
    hide Others, Thins;
    ThinAscends(Others(s, id), s, health, clock);
  }

  /** A node that was active last is listed last. */
  lemma MovedAscends(s: seq<Node>, health: map<string, Health>, clock: int, x: Node, h: Health, at: int)
    requires Ascends(s, health, clock) && clock <= at && h.lastSuccess == at
    ensures Ascends(Others(s, x.id) + [x], health[x.id := h], at)
  {
    OthersAscend(s, health, health[x.id := h], clock, x.id);
    hide Others;
  }

  ghost predicate InOrder(b: Bucket, clock: int) { Ascends(b.nodes, b.health, clock) }

  lemma LaterInOrder(b: Bucket, clock: int, at: int)
    requires InOrder(b, clock) && clock <= at
    ensures InOrder(b, at)
  {
  }

  lemma TouchInOrder(b: Bucket, id: string, clock: int, at: int)
    requires Exact(b) && InOrder(b, clock) && clock <= at
    ensures InOrder(TouchIn(b, id, at), at)
  {
    hide Exact, Ascends, Others, TouchIn, Lists;
    LaterInOrder(b, clock, at);
    TouchExactly(b, id, at);
    if Lists(b.nodes, id) {
      var x :| x in b.nodes && x.id == id &&
               TouchIn(b, id, at) ==
               Bucket(Others(b.nodes, id) + [x], b.health[id := Refreshed(b.health[id], at)], b.cache);
      MovedAscends(b.nodes, b.health, clock, x, Refreshed(b.health[id], at), at);
    }
  }

  lemma AddInOrder(b: Bucket, x: Node, clock: int, now: int, max: nat)
    requires Exact(b) && Unique(b.cache) && InOrder(b, clock) && clock <= now
    ensures InOrder(AddTo(b, x, now, max), now)
  {
    LaterInOrder(b, clock, now);
    AddExactly(b, x, now, max);
    if !Lists(b.nodes, x.id) { OthersOfNone(b.nodes, x.id); }
    hide Exact, Ascends, Others, AddTo, Lists, Unique, Cached;
    MovedAscends(b.nodes, b.health, clock, x, Refreshed(HealthOf(b, x.id), now), now);
    MovedAscends(b.nodes, b.health, clock, x, Health(0, now, now, 0, false), now);
  }

  lemma RemoveInOrder(b: Bucket, id: string, clock: int, now: int)
    requires Exact(b) && b.cache == [] && InOrder(b, clock) && clock <= now
    ensures InOrder(RemoveFrom(b, id, now), now)
  {
    hide Exact, Ascends, Others, RemoveFrom, Lists;
    LaterInOrder(b, clock, now);
    RemoveExactly(b, id, now);
    OthersAscend(b.nodes, b.health, b.health - {id}, now, id);
  }

  lemma WorseAscends(s: seq<Node>, health: map<string, Health>, clock: int, id: string, h: Health)
    requires Ascends(s, health, clock) && id in health && health[id].lastSuccess == h.lastSuccess
    ensures Ascends(s, health[id := h], clock)
  {
  }

  lemma SettleInOrder(b: Bucket, head: Node, h: Health, answered: bool, clock: int, now: int, failures: nat)
    requires Exact(b) && InOrder(b, clock) && clock <= now
    ensures InOrder(SettleHead(b, head, h, answered, now, failures).0, now)
  {
    LaterInOrder(b, clock, now);
    SettleExactly(b, head, h, answered, now, failures);
    assert Lists(b.nodes, head.id) ==> head.id in b.health;
    hide Exact, Ascends, Others, SettleHead, Lists;
    MovedAscends(b.nodes, b.health, clock, head, Refreshed(h, now), now);
    OthersAscend(b.nodes, b.health, b.health - {head.id}, now, head.id);
    if Lists(b.nodes, head.id) && HealthOf(b, head.id).lastSuccess == h.lastSuccess {
      var n := (h.failures + 1) % 256;
      WorseAscends(b.nodes, b.health, now, head.id, Health(h.rtt, h.healthySince, h.lastSuccess, n, true));
    }
  }

  // ---- The table ---------------------------------------------------------------------------

  lemma {:induction false} SideThins(local: int, nodes: seq<Node>, mid: int, near: bool)
    ensures Thins(T.Side(local, nodes, mid, near), nodes)
  {
    hide T.IsNear;
    if nodes == [] {
      assert Picks([], T.Side(local, nodes, mid, near), nodes);
    } else {
      var n := |nodes| - 1;
      SideThins(local, nodes[..n], mid, near);
      hide Thins;
      ThinGrows(T.Side(local, nodes[..n], mid, near), nodes[..n], nodes[n]);
      assert nodes == nodes[..n] + [nodes[n]];
    }
  }

  lemma HalfInOrder(t: T.Table, k: T.KBucket, mid: int, near: bool, clock: int)
    requires InOrder(k.bucket, clock)
    ensures InOrder(T.Half(t, k, mid, near), clock)
  {
    var nodes := T.Side(t.local, k.bucket.nodes, mid, near);
    SideThins(t.local, k.bucket.nodes, mid, near);
    ThinAscends(nodes, k.bucket.nodes, k.bucket.health, clock);
    forall i | 0 <= i < |nodes| ensures Lists(nodes, nodes[i].id) { }
    hide Thins, T.Side, Lists;
  }

  ghost predicate AllInOrder(t: T.Table, clock: int) {
    forall i :: 0 <= i < |t.buckets| ==> InOrder(t.buckets[i].bucket, clock)
  }

  lemma BucketInOrder(t: T.Table, i: nat, b: Bucket, clock: int, now: int)
    requires i < |t.buckets| && AllInOrder(t, clock) && clock <= now && InOrder(b, now)
    ensures AllInOrder(T.WithBucket(t, i, b), now)
  {
    forall j | 0 <= j < |t.buckets| ensures InOrder(t.buckets[j].bucket, now) {
      LaterInOrder(t.buckets[j].bucket, clock, now);
    }
    hide InOrder;
  }

  lemma SplitInOrder(t: T.Table, i: nat, clock: int)
    requires i < |t.buckets| && AllInOrder(t, clock)
    ensures AllInOrder(T.Split(t, i), clock)
  {
    hide InOrder, T.Split, T.Half, T.MidPoint;
    var k := t.buckets[i];
    HalfInOrder(t, k, T.MidPoint(k), true, clock);
    HalfInOrder(t, k, T.MidPoint(k), false, clock);
    T.SplitParts(t, i);
  }

  lemma BucketIsExact(t: T.Table, i: nat)
    requires T.Valid(t) && i < |t.buckets|
    ensures var b := t.buckets[i].bucket; Exact(b) && b.cache == [] && Unique(b.cache)
  {
    T.FineAt(t, i);
    hide T.Valid;
  }

  lemma StepInOrder(t: T.Table, op: T.Op, clock: int, now: int)
    requires T.Valid(t) && AllInOrder(t, clock) && clock <= now && (op.Clear? || op.now == now)
    ensures AllInOrder(T.Step(t, op), now)
  {
    hide T.Valid, InOrder, T.IndexFor, T.Split, AddTo, RemoveFrom, TouchIn, SettleHead, Exact, Unique;
    forall j | 0 <= j < |t.buckets| ensures InOrder(t.buckets[j].bucket, now) {
      LaterInOrder(t.buckets[j].bucket, clock, now);
    }
    match op
    case Add(x, _) =>
      var i := T.IndexFor(t, x.id);
      if i < |t.buckets| {
        var b := t.buckets[i].bucket;
        BucketIsExact(t, i);
        AddInOrder(b, x, clock, now, t.max);
        BucketInOrder(t, i, AddTo(b, x, now, t.max), clock, now);
        SplitInOrder(T.WithBucket(t, i, AddTo(b, x, now, t.max)), i, now);
      }
    case Remove(id, _) =>
      var i := T.IndexFor(t, id);
      if i < |t.buckets| {
        BucketIsExact(t, i);
        RemoveInOrder(t.buckets[i].bucket, id, clock, now);
        BucketInOrder(t, i, RemoveFrom(t.buckets[i].bucket, id, now), clock, now);
      }
    case Touch(id, _) =>
      var i := T.IndexFor(t, id);
      if i < |t.buckets| {
        BucketIsExact(t, i);
        TouchInOrder(t.buckets[i].bucket, id, clock, now);
        BucketInOrder(t, i, TouchIn(t.buckets[i].bucket, id, now), clock, now);
      }
    case Settle(i, head, h, answered, _, failures) =>
      if i < |t.buckets| {
        BucketIsExact(t, i);
        SettleInOrder(t.buckets[i].bucket, head, h, answered, clock, now, failures);
        BucketInOrder(t, i, SettleHead(t.buckets[i].bucket, head, h, answered, now, failures).0, clock, now);
      }
    case Clear => NewInOrder(t.local, t.max, now);
  }

  lemma NewInOrder(local: int, max: nat, clock: int)
    ensures AllInOrder(T.NewTable(local, max), clock)
  {
  }

  /** The times of the calls, which do not go back. */
  ghost predicate Timed(ops: seq<T.Op>, times: seq<int>) {
    && |times| == |ops| && (forall i :: 0 <= i < |ops| ==> ops[i].Clear? || ops[i].now == times[i])
    && forall i, j :: 0 <= i < j < |times| ==> times[i] <= times[j]
  }

  lemma {:induction false} RunInOrder(local: int, max: nat, ops: seq<T.Op>, times: seq<int>)
    requires Timed(ops, times) && ops != []
    ensures AllInOrder(T.After(T.NewTable(local, max), ops), times[|times| - 1])
  {
    hide AllInOrder, T.Step;
    var n := |ops| - 1;
    T.RunKeeps(local, max, ops[..n]);
    if n == 0 {
      NewInOrder(local, max, times[0]);
      StepInOrder(T.NewTable(local, max), ops[0], times[0], times[0]);
      assert ops[..0] == [];
    } else {
      RunInOrder(local, max, ops[..n], times[..n]);
      StepInOrder(T.After(T.NewTable(local, max), ops[..n]), ops[n], times[n - 1], times[n]);
    }
  }

  /** In every run with a clock that does not go back, the first node of a bucket, the one a maintenance probes, has
      been silent at least as long as any other of its bucket. */
  lemma FirstIsLongestSilent(local: int, max: nat, ops: seq<T.Op>, times: seq<int>, i: nat, j: nat)
    requires Timed(ops, times) && i < |T.After(T.NewTable(local, max), ops).buckets|
    requires j < |T.After(T.NewTable(local, max), ops).buckets[i].bucket.nodes|
    ensures var b := T.After(T.NewTable(local, max), ops).buckets[i].bucket;
            HealthOf(b, b.nodes[0].id).lastSuccess <= HealthOf(b, b.nodes[j].id).lastSuccess
  {
    if ops != [] { RunInOrder(local, max, ops, times); }
  }

  // ---- Which bucket changes ----------------------------------------------------------------

  /** The bucket is the one for the ID: it covers the distance of the number the ID writes. */
  predicate IsFor(t: T.Table, i: nat, id: string) {
    i < |t.buckets| && Parse(id).Some? && t.buckets[i].lo <= Xor(t.local, Parse(id).value) <= t.buckets[i].hi
  }

  lemma ForIsIndex(t: T.Table, i: nat, id: string)
    requires T.Tiles(t.buckets)
    ensures IsFor(t, i, id) <==> i < |t.buckets| && T.IndexFor(t, id) == i
  {
    if IsFor(t, i, id) {
      var d := Xor(t.local, Parse(id).value);
      T.OneCovers(t.buckets, T.FindFrom(t.buckets, d, 0), i, d);
    }
    hide Xor, Parse, T.Tiles;
  }

  /** A removal, an activity and a settled probe change exactly their bucket. */
  lemma OneBucketChanges(t: T.Table, op: T.Op, j: nat)
    requires T.Valid(t) && j < |t.buckets| && (op.Remove? || op.Touch? || op.Settle?)
    ensures var r, k := T.Step(t, op), t.buckets[j];
            |r.buckets| == |t.buckets| && r.local == t.local && r.max == t.max &&
            match op
            case Remove(id, now) =>
              r.buckets[j] == if IsFor(t, j, id) then T.KBucket(k.lo, k.hi, RemoveFrom(k.bucket, id, now)) else k
            case Touch(id, now) =>
              r.buckets[j] == if IsFor(t, j, id) then T.KBucket(k.lo, k.hi, TouchIn(k.bucket, id, now)) else k
            case Settle(i, head, h, answered, now, failures) =>
              var b := SettleHead(k.bucket, head, h, answered, now, failures).0;
              r.buckets[j] == if i == j then T.KBucket(k.lo, k.hi, b) else k
            case _ => true
  {
    if op.Remove? || op.Touch? { ForIsIndex(t, j, op.id); }
    hide T.Tiles, T.Fine, T.IndexFor, RemoveFrom, TouchIn, SettleHead, IsFor;
  }

  /** Half of a bucket: its nodes up to the middle, or beyond, with their health and nothing cached. */
  ghost predicate IsHalf(t: T.Table, b: Bucket, mid: int, near: bool, half: Bucket) {
    && half.cache == [] && Thins(half.nodes, b.nodes)
    && (forall x :: x in half.nodes <==>
          x in b.nodes && near == (Parse(x.id).Some? && Xor(t.local, Parse(x.id).value) <= mid))
    && (forall id :: id in half.health <==> Lists(half.nodes, id) && id in b.health)
    && forall id :: id in half.health ==> half.health[id] == b.health[id]
  }

  lemma HalfIsHalf(t: T.Table, k: T.KBucket, mid: int, near: bool)
    requires Exact(k.bucket)
    ensures IsHalf(t, k.bucket, mid, near, T.Half(t, k, mid, near))
  {
    T.SideMembers(t.local, k.bucket.nodes, mid, near);
    SideThins(t.local, k.bucket.nodes, mid, near);
    hide T.Side, Thins, Lists, Unique, Xor, Parse;
  }

  /** The bucket with this content is cut in the middle of its range. */
  ghost predicate CutInTwo(t: T.Table, i: nat, b: Bucket, r: seq<T.KBucket>)
    requires i < |t.buckets|
  {
    var k := t.buckets[i];
    var mid := (k.lo + k.hi) / 2;
    && |r| == |t.buckets| + 1 && r[..i] == t.buckets[..i] && r[i + 2..] == t.buckets[i + 1..]
    && (r[i].lo, r[i].hi, r[i + 1].lo, r[i + 1].hi) == (k.lo, mid, mid + 1, k.hi)
    && IsHalf(t, b, mid, true, r[i].bucket) && IsHalf(t, b, mid, false, r[i + 1].bucket)
  }

  lemma SplitCuts(t: T.Table, i: nat, b: Bucket)
    requires i < |t.buckets| && Exact(b)
    ensures CutInTwo(t, i, b, T.Split(T.WithBucket(t, i, b), i).buckets)
  {
    hide IsHalf, T.Half, Exact, T.Split;
    var s, k := T.WithBucket(t, i, b), t.buckets[i];
    HalfIsHalf(s, s.buckets[i], T.MidPoint(k), true);
    HalfIsHalf(s, s.buckets[i], T.MidPoint(k), false);
    SameHalf(s, t, b);
    T.SplitParts(s, i);
  }

  lemma SameHalf(s: T.Table, t: T.Table, b: Bucket)
    requires s.local == t.local
    ensures forall mid, near, half :: IsHalf(s, b, mid, near, half) <==> IsHalf(t, b, mid, near, half)
  {
  }

  /** An addition changes exactly the bucket for the node; that bucket is cut in the middle of its range exactly when it
      is full afterwards, and each half has the nodes of its distances, in their order and with their health. */
  lemma AddChanges(t: T.Table, x: Node, now: int, i: nat)
    requires T.Valid(t) && IsFor(t, i, x.id)
    ensures var r, k := T.Step(t, T.Add(x, now)).buckets, t.buckets[i];
            var b := AddTo(k.bucket, x, now, t.max);
            if |b.nodes| < t.max then r == t.buckets[i := T.KBucket(k.lo, k.hi, b)] else CutInTwo(t, i, b, r)
  {
    hide T.Tiles, T.Fine, T.IndexFor, AddTo, CutInTwo, T.Split, Xor, Parse;
    var k := t.buckets[i];
    T.FineAt(t, i);
    ForIsIndex(t, i, x.id);
    AddKeeps(k.bucket, x, now, t.max);
    SplitCuts(t, i, AddTo(k.bucket, x, now, t.max));
  }

  /** A node that no bucket is for is not added. */
  lemma NowhereIsNotAdded(t: T.Table, x: Node, now: int)
    requires T.Valid(t) && forall i :: 0 <= i < |t.buckets| ==> !IsFor(t, i, x.id)
    ensures T.Step(t, T.Add(x, now)) == t
  {
    ForIsIndex(t, T.IndexFor(t, x.id), x.id);
    hide T.IndexFor, T.Fine, T.Tiles;
  }
}
