/** A bucket of nodes, least recently active first, with a cache of replacements. */
module NodeBucket {
  import opened Sequences

  /** A node; only its ID matters here. */
  datatype Node = Node(id: string, contact: nat)

  /** Times count from one; zero is no time. */
  datatype Health = Health(rtt: int, healthySince: int, lastSuccess: int, failures: nat, suspect: bool)

  datatype Bucket = Bucket(nodes: seq<Node>, health: map<string, Health>, cache: seq<Node>)

  const EMPTY := Bucket([], map[], [])

  function NewHealth(now: int): (h: Health) { Health(0, now, now, 0, false) }

  function Healthy(h: Health, now: int): (r: Health) {
    h.(lastSuccess := now, healthySince := if h.healthySince == 0 then now else h.healthySince,
       failures := 0, suspect := false)
  }

  function HealthOf(b: Bucket, id: string): (h: Health) {
    if id in b.health then b.health[id] else Health(0, 0, 0, 0, false)
  }

  // ---- Lists of nodes ----------------------------------------------------------------------

  predicate Unique(s: seq<Node>) {
    forall i, j :: 0 <= i < j < |s| ==> s[i].id != s[j].id
  }

  predicate Lists(s: seq<Node>, id: string) {
    exists i :: 0 <= i < |s| && s[i].id == id
  }

  /** The first position of an ID, or the length. */
  function Find(s: seq<Node>, id: string): (i: nat)
    ensures i <= |s| && (i < |s| ==> s[i].id == id) && forall j :: 0 <= j < i ==> s[j].id != id
  {
    if s == [] then 0 else if s[0].id == id then 0
    else
      var i := Find(s[1..], id);
      assert forall j :: 0 < j < i + 1 ==> s[j] == s[1..][j - 1];
      i + 1
  }

  lemma Found(s: seq<Node>, id: string)
    ensures Lists(s, id) <==> Find(s, id) < |s|
  {
  }

  lemma AppendUnique(s: seq<Node>, x: Node)
    ensures Unique(s) && !Lists(s, x.id) ==> Unique(s + [x])
    ensures forall id :: Lists(s + [x], id) <==> Lists(s, id) || id == x.id
  {
    var r := s + [x];
    assert r[|s|] == x;
    forall id ensures Lists(r, id) <==> Lists(s, id) || id == x.id {
      if Lists(s, id) {
        var i :| 0 <= i < |s| && s[i].id == id;
        assert r[i].id == id;
      }
    }
  }

  /** Taking out one node takes out no other ID, whether or not the IDs are unique. */
  lemma WithoutLists(s: seq<Node>, i: nat)
    requires i < |s|
    ensures |Without(s, i)| == |s| - 1
    ensures forall id :: Lists(s, id) && id != s[i].id ==> Lists(Without(s, i), id)
    ensures forall id :: Lists(Without(s, i), id) ==> Lists(s, id)
  {
    var r := Without(s, i);
    assert |r| == |s| - 1;
    assert forall j :: 0 <= j < |r| ==> r[j] == if j < i then s[j] else s[j + 1];
    hide Without;
    forall id ensures (Lists(s, id) && id != s[i].id ==> Lists(r, id)) && (Lists(r, id) ==> Lists(s, id)) {
      if Lists(s, id) && id != s[i].id {
        var j :| 0 <= j < |s| && s[j].id == id;
        assert r[if j < i then j else j - 1].id == id;
      }
      if Lists(r, id) {
        var j :| 0 <= j < |r| && r[j].id == id;
        assert s[if j < i then j else j + 1].id == id;
      }
    }
  }

  lemma WithoutUnique(s: seq<Node>, i: nat)
    requires i < |s| && Unique(s)
    ensures Unique(Without(s, i)) && |Without(s, i)| == |s| - 1
    ensures forall id :: Lists(Without(s, i), id) <==> Lists(s, id) && id != s[i].id
  {
    WithoutLists(s, i);
    var r := Without(s, i);
    assert forall j :: 0 <= j < |r| ==> r[j] == if j < i then s[j] else s[j + 1];
    assert Unique(r);
    assert !Lists(r, s[i].id);
    hide Without, Unique, Lists;
  }

  /** A node that is active again goes to the end. */
  function ToEnd(s: seq<Node>, i: nat, x: Node): (r: seq<Node>)
    requires i < |s|
  {
    Without(s, i) + [x]
  }

  lemma ToEndLists(s: seq<Node>, i: nat, x: Node)
    requires i < |s| && x.id == s[i].id
    ensures |ToEnd(s, i, x)| == |s|
    ensures forall id :: Lists(ToEnd(s, i, x), id) <==> Lists(s, id)
  {
    WithoutLists(s, i);
    AppendUnique(Without(s, i), x);
    assert Lists(s, s[i].id);
    hide Lists, Without, Unique;
  }

  lemma ToEndUnique(s: seq<Node>, i: nat, x: Node)
    requires i < |s| && Unique(s) && x.id == s[i].id
    ensures Unique(ToEnd(s, i, x)) && |ToEnd(s, i, x)| == |s|
    ensures forall id :: Lists(ToEnd(s, i, x), id) <==> Lists(s, id)
  {
    WithoutUnique(s, i);
    AppendUnique(Without(s, i), x);
    hide Unique, Without;
    assert Lists(s, s[i].id);
  }

  // ---- Operations --------------------------------------------------------------------------

  function PushCache(cache: seq<Node>, x: Node, max: nat): (r: seq<Node>) {
    var i := Find(cache, x.id);
    if i < |cache| then ToEnd(cache, i, x) else if |cache| >= max then cache else cache + [x]
  }

  function AddTo(b: Bucket, x: Node, now: int, max: nat): (r: Bucket) {
    var i := Find(b.nodes, x.id);
    if i < |b.nodes| then b.(nodes := ToEnd(b.nodes, i, x), health := b.health[x.id := Healthy(HealthOf(b, x.id), now)])
    else if |b.nodes| < max then b.(nodes := b.nodes + [x], health := b.health[x.id := NewHealth(now)])
    else b.(cache := PushCache(b.cache, x, max))
  }

  /** Takes a node out of the list. */
  function Dropped(b: Bucket, i: nat): (r: Bucket)
    requires i < |b.nodes|
  {
    b.(nodes := Without(b.nodes, i), health := b.health - {b.nodes[i].id})
  }

  function Listing(b: Bucket, x: Node, now: int): (r: Bucket) {
    b.(nodes := b.nodes + [x], health := b.health[x.id := NewHealth(now)])
  }

  /** A removed node is replaced from the cache. */
  function RemoveFrom(b: Bucket, id: string, now: int): (r: Bucket) {
    var i := Find(b.nodes, id);
    if i == |b.nodes| then b
    else
      var d := Dropped(b, i);
      if d.cache == [] then d else Listing(d, d.cache[0], now).(cache := d.cache[1..])
  }

  function TouchIn(b: Bucket, id: string, at: int): (r: Bucket) {
    var i := Find(b.nodes, id);
    if i == |b.nodes| then b
    else b.(nodes := ToEnd(b.nodes, i, b.nodes[i]), health := b.health[id := Healthy(HealthOf(b, id), at)])
  }

  /** The node has been silent for too long. */
  predicate IsDue(h: Health, now: int, stale: int) { h.lastSuccess == 0 || now - h.lastSuccess >= stale }

  /** What becomes of a node that was probed while the bucket was free to change: if it is gone, or has been
      active since, nothing; otherwise it goes to the end, is suspected, or after enough failures is
      taken out, which the second result tells. Node and health are as they were before the probe. */
  function SettleHead(b: Bucket, head: Node, h: Health, answered: bool, now: int, failures: nat): (r: (Bucket, bool)) {
    var i := Find(b.nodes, head.id);
    if i == |b.nodes| || HealthOf(b, head.id).lastSuccess != h.lastSuccess then (b, false)
    else if answered then (b.(nodes := ToEnd(b.nodes, i, head), health := b.health[head.id := Healthy(h, now)]), false)
    else
      var worse := h.(failures := (h.failures + 1) % 256, suspect := true);
      if worse.failures < failures then (b.(health := b.health[head.id := worse]), false) else (Dropped(b, i), true)
  }

  /** A cached node that answered is listed if there is a place; nobody looks whether it is listed already. */
  function SettleCandidate(b: Bucket, x: Node, now: int, max: nat): (r: (Bucket, bool)) {
    if |b.nodes| < max then (Listing(b, x, now), true) else (b, false)
  }

  function Pushed(b: Bucket, x: Node, max: nat): (r: Bucket) { b.(cache := PushCache(b.cache, x, max)) }

  /** With nothing in between: the first cached node that answers takes the free place; those before it are
      given up. */
  function Refill(b: Bucket, probe: Node -> bool, now: int, max: nat): (r: Bucket)
    decreases |b.cache|
  {
    if b.cache == [] then b
    else
      var x := b.cache[0];
      var rest := b.(cache := b.cache[1..]);
      if !probe(x) then Refill(rest, probe, now, max)
      else
        var (s, placed) := SettleCandidate(rest, x, now, max);
        if placed then s else Pushed(s, x, max)
  }

  /** Probes the least recently active node when it has been silent for too long, with nothing in between. */
  function MaintainIn(b: Bucket, now: int, stale: int, failures: nat, probe: Node -> bool, max: nat): (r: Bucket) {
    if b.nodes == [] || !IsDue(HealthOf(b, b.nodes[0].id), now, stale) then b
    else
      var head := b.nodes[0];
      var (s, removed) := SettleHead(b, head, HealthOf(b, head.id), probe(head), now, failures);
      if removed then Refill(s, probe, now, max) else s
  }

  // ---- The invariant -----------------------------------------------------------------------

  /** IDs are unique and are the health keys. */
  ghost predicate Exact(b: Bucket) {
    Unique(b.nodes) && forall id :: id in b.health <==> Lists(b.nodes, id)
  }

  /** The list is exact, the sizes hold, and a cached node is not listed. */
  ghost predicate Proper(b: Bucket, max: nat) {
    && Exact(b) && |b.nodes| <= max
    && Unique(b.cache) && |b.cache| <= max
    && forall id :: Lists(b.cache, id) ==> !Lists(b.nodes, id)
  }

  /** Besides, a node waits in the cache only while the bucket is full. */
  ghost predicate Valid(b: Bucket, max: nat) { Proper(b, max) && (b.cache != [] ==> |b.nodes| == max) }

  lemma PushLists(cache: seq<Node>, x: Node, max: nat)
    ensures Lists(PushCache(cache, x, max), x.id) <==> Lists(cache, x.id) || |cache| < max
    ensures !Lists(cache, x.id) && |cache| >= max ==> PushCache(cache, x, max) == cache
  {
    Found(cache, x.id);
    var i := Find(cache, x.id);
    hide Find, ToEnd;
    if i < |cache| { ToEndLists(cache, i, x); }
    AppendUnique(cache, x);
    hide Unique, Lists;
  }

  lemma PushKeeps(cache: seq<Node>, x: Node, max: nat)
    requires Unique(cache) && |cache| <= max
    ensures var r := PushCache(cache, x, max);
            && Unique(r) && |r| <= max
            && (forall id :: Lists(r, id) ==> Lists(cache, id) || id == x.id)
            && (forall id :: Lists(cache, id) ==> Lists(r, id))
  {
    Found(cache, x.id);
    var i := Find(cache, x.id);
    hide Find, Unique, ToEnd;
    if i < |cache| {
      ToEndUnique(cache, i, x);
    } else {
      AppendUnique(cache, x);
    }
  }

  lemma AddKeeps(b: Bucket, x: Node, now: int, max: nat)
    requires Valid(b, max)
    ensures Valid(AddTo(b, x, now, max), max)
    ensures forall id :: Lists(AddTo(b, x, now, max).nodes, id) <==>
              Lists(b.nodes, id) || (id == x.id && |b.nodes| < max)
    ensures Lists(b.nodes, x.id) || |b.nodes| < max ==> AddTo(b, x, now, max).cache == b.cache
  {
    Found(b.nodes, x.id);
    hide Find, Unique, ToEnd, Lists, PushCache;
    var i := Find(b.nodes, x.id);
    if i < |b.nodes| {
      ToEndUnique(b.nodes, i, x);
    } else if |b.nodes| < max {
      AppendUnique(b.nodes, x);
      NothingListed();
    } else {
      PushKeeps(b.cache, x, max);
    }
  }

  lemma NothingListed()
    ensures forall id :: !Lists([], id)
  {
  }

  lemma DropKeeps(b: Bucket, i: nat)
    requires Exact(b) && i < |b.nodes|
    ensures var d := Dropped(b, i);
            && Exact(d) && |d.nodes| == |b.nodes| - 1 && d.cache == b.cache
            && (forall id :: Lists(d.nodes, id) <==> Lists(b.nodes, id) && id != b.nodes[i].id)
  {
    WithoutUnique(b.nodes, i);
    hide Unique, Lists, Without;
  }

  lemma FirstOf(s: seq<Node>)
    requires s != [] && Unique(s)
    ensures Unique(s[1..]) && Lists(s, s[0].id) && !Lists(s[1..], s[0].id)
    ensures forall id :: Lists(s, id) <==> Lists(s[1..], id) || id == s[0].id
  {
    assert s == [s[0]] + s[1..];
    forall id ensures Lists(s, id) <==> Lists(s[1..], id) || id == s[0].id {
      if Lists(s[1..], id) {
        var i :| 0 <= i < |s[1..]| && s[1..][i].id == id;
        assert s[i + 1].id == id;
      }
      if Lists(s, id) && id != s[0].id {
        var i :| 0 <= i < |s| && s[i].id == id;
        assert s[1..][i - 1].id == id;
      }
    }
  }

  /** A bucket with one place free, and what waits for it. */
  ghost predicate Short(b: Bucket, max: nat) {
    Proper(b, max) && |b.nodes| < max && (b.cache != [] ==> |b.nodes| == max - 1)
  }

  /** Listing a candidate keeps the list exact and apart from the cache exactly when nobody has listed or
      cached its ID meanwhile. */
  lemma PlacedExactly(b: Bucket, x: Node, now: int, max: nat)
    requires Proper(b, max) && |b.nodes| < max
    ensures Proper(SettleCandidate(b, x, now, max).0, max) <==> !Lists(b.nodes, x.id) && !Lists(b.cache, x.id)
  {
    AppendUnique(b.nodes, x);
    if Lists(b.nodes, x.id) { TwiceListed(b.nodes, x); }
    hide Unique, Lists;
  }

  lemma TwiceListed(s: seq<Node>, x: Node)
    requires Lists(s, x.id)
    ensures !Unique(s + [x])
  {
    var i :| 0 <= i < |s| && s[i].id == x.id;
    var r := s + [x];
    assert r[i].id == r[|s|].id;
  }

  /** Putting a candidate back into the cache keeps it apart from the list exactly when nobody has listed its
      ID meanwhile or the cache has no room for it. */
  lemma PushedExactly(b: Bucket, x: Node, max: nat)
    requires Proper(b, max)
    ensures Proper(Pushed(b, x, max), max) <==> !Lists(b.nodes, x.id) || |b.cache| == max
  {
    PushKeeps(b.cache, x, max);
    PushLists(b.cache, x, max);
    hide Unique, Lists, PushCache;
  }

  lemma ListingKeeps(b: Bucket, now: int, max: nat)
    requires Short(b, max) && b.cache != []
    ensures Valid(Listing(b, b.cache[0], now).(cache := b.cache[1..]), max)
  {
    FirstOf(b.cache);
    AppendUnique(b.nodes, b.cache[0]);
    hide Unique, Lists;
  }

  lemma {:induction false} RefillKeeps(b: Bucket, probe: Node -> bool, now: int, max: nat)
    requires Short(b, max)
    ensures Valid(Refill(b, probe, now, max), max)
    decreases |b.cache|
  {
    hide Unique, Lists, PushCache;
    if b.cache != [] {
      FirstOf(b.cache);
      if probe(b.cache[0]) {
        ListingKeeps(b, now, max);
      } else {
        RefillKeeps(b.(cache := b.cache[1..]), probe, now, max);
      }
    }
  }

  lemma RemoveKeeps(b: Bucket, id: string, now: int, max: nat)
    requires Valid(b, max)
    ensures Valid(RemoveFrom(b, id, now), max)
    ensures forall j :: Lists(RemoveFrom(b, id, now).nodes, j) <==>
              (Lists(b.nodes, j) && j != id) || (Lists(b.nodes, id) && b.cache != [] && j == b.cache[0].id)
  {
    Found(b.nodes, id);
    var i := Find(b.nodes, id);
    hide Find, Unique, Lists, Dropped;
    if i < |b.nodes| {
      DropKeeps(b, i);
      var d := Dropped(b, i);
      if d.cache != [] {
        ListingKeeps(d, now, max);
        AppendUnique(d.nodes, d.cache[0]);
      }
    }
  }

  lemma TouchKeeps(b: Bucket, id: string, at: int, max: nat)
    requires Valid(b, max)
    ensures Valid(TouchIn(b, id, at), max) && forall j :: Lists(TouchIn(b, id, at).nodes, j) <==> Lists(b.nodes, j)
    ensures Lists(b.nodes, id) ==>
              var r := TouchIn(b, id, at); r.nodes[|r.nodes| - 1].id == id && r.health[id].failures == 0
  {
    TouchedLast(b, id, at);
    Found(b.nodes, id);
    var i := Find(b.nodes, id);
    hide Find, Unique, ToEnd, Lists;
    if i < |b.nodes| { ToEndUnique(b.nodes, i, b.nodes[i]); }
  }

  lemma TouchedLast(b: Bucket, id: string, at: int)
    ensures Lists(b.nodes, id) ==>
              var r := TouchIn(b, id, at);
              r.nodes != [] && r.nodes[|r.nodes| - 1].id == id && id in r.health && r.health[id].failures == 0
  {
    Found(b.nodes, id);
    hide Find;
  }

  lemma {:induction false} RefillLists(b: Bucket, probe: Node -> bool, now: int, max: nat)
    requires |b.nodes| < max
    ensures var r := Refill(b, probe, now, max);
            && (forall j :: Lists(b.nodes, j) ==> Lists(r.nodes, j))
            && (forall j :: Lists(r.nodes, j) && !Lists(b.nodes, j) ==>
                exists x :: x in b.cache && x.id == j && probe(x))
    decreases |b.cache|
  {
    hide Lists, PushCache;
    if b.cache != [] {
      var x := b.cache[0];
      assert x in b.cache;
      if probe(x) {
        AppendUnique(b.nodes, x);
      } else {
        RefillLists(b.(cache := b.cache[1..]), probe, now, max);
        assert forall y :: y in b.cache[1..] ==> y in b.cache;
      }
    }
  }

  /** Settling a probe, whatever happened to the list meanwhile, keeps it exact and leaves the cache alone. It
      loses exactly the probed node, and exactly when that is still listed, did not answer, failed often
      enough and was not active since. */
  lemma HeadSettles(b: Bucket, head: Node, h: Health, answered: bool, now: int, failures: nat)
    requires Exact(b)
    ensures var (r, removed) := SettleHead(b, head, h, answered, now, failures);
            && Exact(r) && r.cache == b.cache && |r.nodes| == |b.nodes| - (if removed then 1 else 0)
            && (removed <==>
                && Lists(b.nodes, head.id) && !answered && (h.failures + 1) % 256 >= failures
                && HealthOf(b, head.id).lastSuccess == h.lastSuccess)
            && (forall j :: Lists(r.nodes, j) <==> Lists(b.nodes, j) && !(removed && j == head.id))
  {
    Found(b.nodes, head.id);
    var i := Find(b.nodes, head.id);
    hide Unique, ToEnd, Lists, Dropped, Find;
    if i < |b.nodes| {
      ToEndUnique(b.nodes, i, head);
      DropKeeps(b, i);
    }
  }

  /** A maintenance with nothing in between loses at most the least recently active node, and only when it was
      due, did not answer, and failed often enough; a node that comes in was cached and answered. */
  lemma MaintainLoses(b: Bucket, now: int, stale: int, failures: nat, probe: Node -> bool, max: nat, j: string)
    requires Valid(b, max)
    ensures var r := MaintainIn(b, now, stale, failures, probe, max);
            && (Lists(b.nodes, j) && !Lists(r.nodes, j) ==>
                  var h := HealthOf(b, b.nodes[0].id);
                  && j == b.nodes[0].id && !probe(b.nodes[0]) && IsDue(h, now, stale)
                     && (h.failures + 1) % 256 >= failures)
            && (Lists(r.nodes, j) && !Lists(b.nodes, j) ==> exists x :: x in b.cache && x.id == j && probe(x))
  {
    hide Unique, Lists, SettleHead, Refill;
    if b.nodes != [] {
      var head := b.nodes[0];
      HeadSettles(b, head, HealthOf(b, head.id), probe(head), now, failures);
      var (s, removed) := SettleHead(b, head, HealthOf(b, head.id), probe(head), now, failures);
      if removed { RefillLists(s, probe, now, max); }
    }
  }

  /** A maintenance with nothing in between keeps the bucket valid. */
  lemma MaintainKeeps(b: Bucket, now: int, stale: int, failures: nat, probe: Node -> bool, max: nat)
    requires Valid(b, max)
    ensures Valid(MaintainIn(b, now, stale, failures, probe, max), max)
  {
    hide Unique, Lists, SettleHead, Refill;
    if b.nodes != [] {
      var head := b.nodes[0];
      HeadSettles(b, head, HealthOf(b, head.id), probe(head), now, failures);
      var (s, removed) := SettleHead(b, head, HealthOf(b, head.id), probe(head), now, failures);
      if removed { RefillKeeps(s, probe, now, max); }
    }
  }

  // ---- The object --------------------------------------------------------------------------

  class StoreNode {
    const max: nat
    var nodes: seq<Node>
    var health: map<string, Health>
    var cache: seq<Node>

    ghost function View(): (b: Bucket)
      reads this
    {
      Bucket(nodes, health, cache)
    }

    constructor (max: nat)
      ensures this.max == max && View() == EMPTY
    {
      this.max, nodes, health, cache := max, [], map[], [];
    }

    method AddNode(x: Node, now: int)
      modifies this
      ensures View() == AddTo(old(View()), x, now, max)
    {
      var i := Search(nodes, x.id);
      if i < |nodes| {
        nodes := nodes[..i] + nodes[i + 1..];
        nodes := nodes + [x];
        health := health[x.id := Healthy(if x.id in health then health[x.id] else Health(0, 0, 0, 0, false), now)];
        return;
      }
      if |nodes| < max {
        nodes := nodes + [x];
        health := health[x.id := NewHealth(now)];
        return;
      }
      Push(x);
    }

    method Push(x: Node)
      modifies this`cache
      ensures cache == PushCache(old(cache), x, max)
    {
      var i := Search(cache, x.id);
      if i < |cache| {
        cache := cache[..i] + cache[i + 1..];
        cache := cache + [x];
        return;
      }
      if |cache| >= max { return; }
      cache := cache + [x];
    }

    method Pop() returns (x: Option<Node>)
      modifies this`cache
      ensures old(cache) == [] ==> x == None && cache == []
      ensures old(cache) != [] ==> x == Some(old(cache)[0]) && cache == old(cache)[1..]
    {
      if |cache| == 0 { return None; }
      x := Some(cache[0]);
      cache := cache[1..];
    }

    method RemoveNode(id: string, now: int)
      modifies this
      ensures View() == RemoveFrom(old(View()), id, now)
    {
      var i := Search(nodes, id);
      if i == |nodes| { return; }
      nodes := nodes[..i] + nodes[i + 1..];
      health := health - {id};
      var x := Pop();
      if x.Some? {
        nodes := nodes + [x.value];
        health := health[x.value.id := NewHealth(now)];
      }
    }

    method Touch(id: string, at: int) returns (ok: bool)
      modifies this
      ensures ok == Lists(old(nodes), id) && View() == TouchIn(old(View()), id, at)
    {
      Found(nodes, id);
      var i := Search(nodes, id);
      if i == |nodes| { return false; }
      var n := nodes[i];
      nodes := nodes[..i] + nodes[i + 1..];
      nodes := nodes + [n];
      health := health[id := Healthy(if id in health then health[id] else Health(0, 0, 0, 0, false), at)];
      ok := true;
    }

    /** Reads the node to probe and its health, if it is due; the bucket is then free to change. */
    method DueHead(now: int, stale: int) returns (due: Option<(Node, Health)>)
      ensures due == if nodes == [] || !IsDue(HealthOf(View(), nodes[0].id), now, stale) then None
                     else Some((nodes[0], HealthOf(View(), nodes[0].id)))
    {
      if |nodes| == 0 { return None; }
      var head := nodes[0];
      var h := if head.id in health then health[head.id] else Health(0, 0, 0, 0, false);
      if h.lastSuccess != 0 && now - h.lastSuccess < stale { return None; }
      due := Some((head, h));
    }

    /** Settles the probe of a node that was read earlier; tells whether it was taken out. */
    method Settle(head: Node, h: Health, answered: bool, now: int, failures: nat) returns (removed: bool)
      modifies this
      ensures (View(), removed) == SettleHead(old(View()), head, h, answered, now, failures)
    {
      var i := Search(nodes, head.id);
      var current := if head.id in health then health[head.id] else Health(0, 0, 0, 0, false);
      if i == |nodes| || current.lastSuccess != h.lastSuccess { return false; }
      if answered {
        health := health[head.id := Healthy(h, now)];
        nodes := nodes[..i] + nodes[i + 1..];
        nodes := nodes + [head];
        return false;
      }
      var worse := h.(failures := (h.failures + 1) % 256, suspect := true);
      health := health[head.id := worse];
      if worse.failures < failures { return false; }
      Overwrite(old(health), head.id, worse, worse);
      nodes := nodes[..i] + nodes[i + 1..];
      health := health - {head.id};
      removed := true;
    }

    /** Settles the probe of a cached node that answered. */
    method Place(x: Node, now: int) returns (placed: bool)
      modifies this
      ensures (View(), placed) == SettleCandidate(old(View()), x, now, max)
    {
      if |nodes| >= max { return false; }
      nodes := nodes + [x];
      health := health[x.id := NewHealth(now)];
      placed := true;
    }

    /** All steps, with nothing in between. */
    method Maintain(now: int, stale: int, failures: nat, probe: Node -> bool)
      modifies this
      ensures View() == MaintainIn(old(View()), now, stale, failures, probe, max)
    {
      hide SettleHead, Refill;
      var due := DueHead(now, stale);
      if due.Some? {
        var removed := Settle(due.value.0, due.value.1, probe(due.value.0), now, failures);
        if removed { Replace(now, probe); }
      }
    }

    /** Offers the free place to the cached nodes in turn. */
    method Replace(now: int, probe: Node -> bool)
      modifies this
      ensures View() == Refill(old(View()), probe, now, max)
    {
      while cache != []
        invariant Refill(View(), probe, now, max) == Refill(old(View()), probe, now, max)
        decreases |cache|
      {
        var x := Pop();
        if probe(x.value) {
          var placed := Place(x.value, now);
          if !placed { Push(x.value); }
          return;
        }
      }
    }
  }

  method Search(s: seq<Node>, id: string) returns (i: nat)
    ensures i == Find(s, id)
  {
    i := 0;
    while i < |s| && s[i].id != id
      invariant i <= |s| && forall j :: 0 <= j < i ==> s[j].id != id
    {
      i := i + 1;
    }
  }
}
