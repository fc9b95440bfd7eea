/** The Kademlia routing table: buckets that tile the distances and split when they fill up. */
module RoutingTable {
  import opened Sequences
  import opened Sorting
  import opened Distance
  import B = NodeBucket
  import R = BucketRuns

  type Node = B.Node

  /** The largest distance, 2^256 - 1. */
  const TOP := 0xFFFF_FFFF_FFFF_FFFF_FFFF_FFFF_FFFF_FFFF_FFFF_FFFF_FFFF_FFFF_FFFF_FFFF_FFFF_FFFF

  datatype KBucket = KBucket(lo: int, hi: int, bucket: B.Bucket)

  datatype Table = Table(local: int, max: nat, buckets: seq<KBucket>)

  function NewTable(local: int, max: nat): (t: Table) { Table(local, max, [KBucket(0, TOP, B.EMPTY)]) }

  predicate Covers(k: KBucket, d: int) { k.lo <= d <= k.hi }

  /** How far a node is; an ID that is no number is nowhere. */
  function DistanceOf(local: int, id: string): (d: Option<int>) {
    match Parse(id)
    case None => None
    case Some(n) => Some(Xor(local, n))
  }

  // ---- Tiling ------------------------------------------------------------------------------

  /** The ranges follow each other without gap or overlap from zero to the top. */
  ghost predicate Tiles(s: seq<KBucket>) {
    && s != [] && s[0].lo == 0 && s[|s| - 1].hi == TOP
    && (forall i :: 0 <= i < |s| ==> s[i].lo <= s[i].hi + 1)
    && (forall i, j :: 0 <= i && j == i + 1 < |s| ==> s[j].lo == s[i].hi + 1)
  }

  lemma {:induction false} Ascending(s: seq<KBucket>, i: nat, j: nat)
    requires Tiles(s) && i < j < |s|
    ensures s[i].hi < s[j].lo
  {
    if i + 1 < j {
      var k := j - 1;
      Ascending(s, i, k);
      assert s[j].lo == s[k].hi + 1;
    }
  }

  /** Two buckets never cover the same distance. */
  lemma OneCovers(s: seq<KBucket>, i: nat, j: nat, d: int)
    requires Tiles(s) && i < |s| && j < |s| && Covers(s[i], d) && Covers(s[j], d)
    ensures i == j
  {
    if i < j { Ascending(s, i, j); }
    if j < i { Ascending(s, j, i); }
  }

  /** The first bucket from i on that covers a distance, or the length. */
  function FindFrom(s: seq<KBucket>, d: int, i: nat): (n: nat)
    requires i <= |s|
    ensures i <= n <= |s| && (n < |s| ==> Covers(s[n], d)) && forall j :: i <= j < n ==> !Covers(s[j], d)
    decreases |s| - i
  {
    if i == |s| || Covers(s[i], d) then i else FindFrom(s, d, i + 1)
  }

  /** Every distance is covered, and nothing else is. */
  lemma {:induction false} SomeCovers(s: seq<KBucket>, d: int, i: nat)
    requires Tiles(s) && i < |s| && s[i].lo <= d <= TOP
    ensures FindFrom(s, d, i) < |s|
    decreases |s| - i
  {
    if !Covers(s[i], d) {
      var j := i + 1;
      assert j < |s|;
      assert s[j].lo == s[i].hi + 1;
      SomeCovers(s, d, j);
    }
  }

  lemma OutsideIsUncovered(s: seq<KBucket>, d: int)
    requires Tiles(s) && !(0 <= d <= TOP)
    ensures FindFrom(s, d, 0) == |s|
  {
    var n := FindFrom(s, d, 0);
    if n < |s| {
      if n > 0 { Ascending(s, 0, n); }
      if n < |s| - 1 { Ascending(s, n, |s| - 1); }
    }
  }

  /** Exactly the distances of 256 bits are covered. */
  lemma CoveredExactly(s: seq<KBucket>, d: int)
    requires Tiles(s)
    ensures FindFrom(s, d, 0) < |s| <==> 0 <= d <= TOP
  {
    if 0 <= d <= TOP {
      SomeCovers(s, d, 0);
    } else {
      OutsideIsUncovered(s, d);
    }
  }

  // ---- Splitting ---------------------------------------------------------------------------

  predicate IsNear(local: int, mid: int, x: Node) {
    DistanceOf(local, x.id).Some? && DistanceOf(local, x.id).value <= mid
  }

  /** The nodes on one side of the middle, in order. */
  function Side(local: int, nodes: seq<Node>, mid: int, near: bool): (r: seq<Node>) {
    if nodes == [] then []
    else
      var n := |nodes| - 1;
      var rest := Side(local, nodes[..n], mid, near);
      if IsNear(local, mid, nodes[n]) == near then rest + [nodes[n]] else rest
  }

  /** The health of the nodes on one side. */
  function SideHealth(nodes: seq<Node>, health: map<string, B.Health>): (r: map<string, B.Health>) {
    map id | id in health && B.Lists(nodes, id) :: health[id]
  }

  function Half(t: Table, k: KBucket, mid: int, near: bool): (r: B.Bucket) {
    var nodes := Side(t.local, k.bucket.nodes, mid, near);
    B.Bucket(nodes, SideHealth(nodes, k.bucket.health), [])
  }

  function MidPoint(k: KBucket): (mid: int) { (k.lo + k.hi) / 2 }

  function Split(t: Table, i: nat): (r: Table)
    requires i < |t.buckets|
  {
    var k := t.buckets[i];
    var mid := MidPoint(k);
    t.(buckets := t.buckets[..i] + [KBucket(k.lo, mid, Half(t, k, mid, true)),
        KBucket(mid + 1, k.hi, Half(t, k, mid, false))]
                  + t.buckets[i + 1..])
  }

  lemma {:induction false} SideMembers(local: int, nodes: seq<Node>, mid: int, near: bool)
    requires B.Unique(nodes)
    ensures var r := Side(local, nodes, mid, near);
            && B.Unique(r) && |r| <= |nodes|
            && forall x :: x in r <==> x in nodes && IsNear(local, mid, x) == near
  {
    if nodes != [] {
      var n := |nodes| - 1;
      SideMembers(local, nodes[..n], mid, near);
      hide IsNear;
      var rest := Side(local, nodes[..n], mid, near);
      MemberAppend(nodes[..n], nodes[n]);
      MemberAppend(rest, nodes[n]);
      assert nodes == nodes[..n] + [nodes[n]];
      assert !B.Lists(rest, nodes[n].id) by { NotListed(nodes, rest, n); }
      B.AppendUnique(rest, nodes[n]);
    }
  }

  lemma NotListed(nodes: seq<Node>, rest: seq<Node>, n: nat)
    requires B.Unique(nodes) && n < |nodes| && forall x :: x in rest ==> x in nodes[..n]
    ensures !B.Lists(rest, nodes[n].id)
  {
    forall i | 0 <= i < |rest| ensures rest[i].id != nodes[n].id {
      assert rest[i] in nodes[..n];
      var j :| 0 <= j < n && nodes[j] == rest[i];
    }
  }

  // ---- The invariant -----------------------------------------------------------------------

  /** A bucket of the table: valid, with nothing cached, and every node at a distance it covers. */
  ghost predicate Fine(local: int, max: nat, k: KBucket) {
    && B.Valid(k.bucket, max)
    && k.bucket.cache == []
    && forall x :: x in k.bucket.nodes ==> DistanceOf(local, x.id).Some? && Covers(k, DistanceOf(local, x.id).value)
  }

  ghost predicate Valid(t: Table) {
    Tiles(t.buckets) && forall i :: 0 <= i < |t.buckets| ==> Fine(t.local, t.max, t.buckets[i])
  }

  ghost predicate Listed(t: Table, id: string) {
    exists i :: 0 <= i < |t.buckets| && B.Lists(t.buckets[i].bucket.nodes, id)
  }

  lemma NewIsValid(local: int, max: nat)
    ensures Valid(NewTable(local, max))
  {
    B.NothingListed();
    assert B.Valid(B.EMPTY, max);
  }

  lemma ListedNode(s: seq<Node>, id: string) returns (x: Node)
    requires B.Lists(s, id)
    ensures x in s && x.id == id
  {
    var i :| 0 <= i < |s| && s[i].id == id;
    x := s[i];
  }

  lemma MemberListed(s: seq<Node>, x: Node)
    requires x in s
    ensures B.Lists(s, x.id)
  {
    var i :| 0 <= i < |s| && s[i] == x;
    assert s[i].id == x.id;
  }

  /** An ID is listed only in the bucket that covers its distance; so no ID is listed in two. */
  lemma ListedWhereCovered(t: Table, id: string, i: nat)
    requires Valid(t) && i < |t.buckets| && B.Lists(t.buckets[i].bucket.nodes, id)
    ensures DistanceOf(t.local, id).Some? && FindFrom(t.buckets, DistanceOf(t.local, id).value, 0) == i
  {
    var x := ListedNode(t.buckets[i].bucket.nodes, id);
    assert Fine(t.local, t.max, t.buckets[i]);
    hide B.Valid, B.Lists, Parse, Xor;
    var d := DistanceOf(t.local, id).value;
    OneCovers(t.buckets, FindFrom(t.buckets, d, 0), i, d);
  }

  lemma SideLists(local: int, nodes: seq<Node>, mid: int, id: string)
    requires B.Unique(nodes)
    ensures B.Lists(nodes, id) <==>
              B.Lists(Side(local, nodes, mid, true), id) || B.Lists(Side(local, nodes, mid, false), id)
  {
    SideMembers(local, nodes, mid, true);
    SideMembers(local, nodes, mid, false);
    hide IsNear, Side, B.Lists, B.Unique;
    var near, far := Side(local, nodes, mid, true), Side(local, nodes, mid, false);
    if B.Lists(nodes, id) {
      var x := ListedNode(nodes, id);
      if IsNear(local, mid, x) { MemberListed(near, x); } else { MemberListed(far, x); }
    }
    if B.Lists(near, id) {
      var x := ListedNode(near, id);
      MemberListed(nodes, x);
    }
    if B.Lists(far, id) {
      var x := ListedNode(far, id);
      MemberListed(nodes, x);
    }
  }

  lemma HalfFine(t: Table, k: KBucket, near: bool)
    requires B.Valid(k.bucket, t.max)
    requires forall x :: x in k.bucket.nodes ==>
               DistanceOf(t.local, x.id).Some? && Covers(k, DistanceOf(t.local, x.id).value)
    ensures var mid := MidPoint(k);
            Fine(t.local, t.max, if near then KBucket(k.lo, mid, Half(t, k, mid, true))
                else KBucket(mid + 1, k.hi, Half(t, k, mid, false)))
  {
    var mid := MidPoint(k);
    var nodes := Side(t.local, k.bucket.nodes, mid, near);
    SideMembers(t.local, k.bucket.nodes, mid, near);
    forall id ensures B.Lists(nodes, id) ==> B.Lists(k.bucket.nodes, id) {
      SideLists(t.local, k.bucket.nodes, mid, id);
    }
    B.NothingListed();
    hide B.Unique, B.Lists, Side, Parse, Xor;
  }

  lemma SplitParts(t: Table, i: nat)
    requires i < |t.buckets|
    ensures var k, r := t.buckets[i], Split(t, i).buckets;
            && |r| == |t.buckets| + 1
            && r[i] == KBucket(k.lo, MidPoint(k), Half(t, k, MidPoint(k), true))
            && r[i + 1] == KBucket(MidPoint(k) + 1, k.hi, Half(t, k, MidPoint(k), false))
            && (forall j :: 0 <= j < i ==> r[j] == t.buckets[j])
            && (forall j :: i + 1 < j < |r| ==> r[j] == t.buckets[j - 1])
  {
    hide Half, MidPoint;
  }

  /** A tile cut in two. */
  lemma CutTiles(s: seq<KBucket>, r: seq<KBucket>, i: nat, mid: int)
    requires Tiles(s) && i < |s| && |r| == |s| + 1 && s[i].lo <= mid + 1 && mid <= s[i].hi
    requires r[i].lo == s[i].lo && r[i].hi == mid && r[i + 1].lo == mid + 1 && r[i + 1].hi == s[i].hi
    requires forall j :: 0 <= j < i ==> r[j] == s[j]
    requires forall j :: i + 1 < j < |r| ==> r[j] == s[j - 1]
    ensures Tiles(r)
  {
    forall a, b | 0 <= a && b == a + 1 < |r| ensures r[b].lo == r[a].hi + 1 {
      if b <= i {
        assert s[b].lo == s[a].hi + 1;
      } else if a > i {
        var c, d := a - 1, b - 1;
        assert s[d].lo == s[c].hi + 1;
      }
    }
  }

  lemma SplitTiles(t: Table, i: nat)
    requires Tiles(t.buckets) && i < |t.buckets|
    ensures Tiles(Split(t, i).buckets)
  {
    var mid := MidPoint(t.buckets[i]);
    assert t.buckets[i].lo <= mid + 1 && mid <= t.buckets[i].hi;
    hide Split, Half, Tiles, MidPoint;
    SplitParts(t, i);
    CutTiles(t.buckets, Split(t, i).buckets, i, mid);
  }

  /** A split keeps the table valid and lists exactly the same nodes. */
  lemma SplitKeeps(t: Table, i: nat)
    requires Tiles(t.buckets) && i < |t.buckets| && B.Valid(t.buckets[i].bucket, t.max)
    requires forall j :: 0 <= j < |t.buckets| && j != i ==> Fine(t.local, t.max, t.buckets[j])
    requires var k := t.buckets[i]; forall x :: x in k.bucket.nodes ==>
               DistanceOf(t.local, x.id).Some? && Covers(k, DistanceOf(t.local, x.id).value)
    ensures Valid(Split(t, i)) && forall id :: Listed(Split(t, i), id) <==> Listed(t, id)
  {
    SplitTiles(t, i);
    var k := t.buckets[i];
    HalfFine(t, k, true);
    HalfFine(t, k, false);
    var r := Split(t, i);
    SplitParts(t, i);
    forall id ensures Listed(r, id) <==> Listed(t, id) {
      SideLists(t.local, k.bucket.nodes, MidPoint(k), id);
      SplitLists(t, i, id);
    }
    hide Fine, Tiles, Half;
  }

  lemma SplitLists(t: Table, i: nat, id: string)
    requires i < |t.buckets|
    requires var k := t.buckets[i];
             B.Lists(k.bucket.nodes, id) <==>
                 B.Lists(Half(t, k, MidPoint(k), true).nodes, id) || B.Lists(Half(t, k, MidPoint(k), false).nodes, id)
    ensures Listed(Split(t, i), id) <==> Listed(t, id)
  {
    hide B.Lists, Half, Split, MidPoint;
    var r := Split(t, i);
    SplitParts(t, i);
    if Listed(t, id) {
      var j :| 0 <= j < |t.buckets| && B.Lists(t.buckets[j].bucket.nodes, id);
      if j < i { assert B.Lists(r.buckets[j].bucket.nodes, id); }
      if j > i { assert B.Lists(r.buckets[j + 1].bucket.nodes, id); }
    }
    if Listed(r, id) {
      var j :| 0 <= j < |r.buckets| && B.Lists(r.buckets[j].bucket.nodes, id);
      if j < i { assert B.Lists(t.buckets[j].bucket.nodes, id); }
      if j > i + 1 { assert B.Lists(t.buckets[j - 1].bucket.nodes, id); }
    }
  }

  // ---- Operations --------------------------------------------------------------------------

  function WithBucket(t: Table, i: nat, b: B.Bucket): (r: Table)
    requires i < |t.buckets|
  {
    t.(buckets := t.buckets[i := t.buckets[i].(bucket := b)])
  }

  /** The index of the bucket for an ID, or the number of buckets. */
  function IndexFor(t: Table, id: string): (i: nat)
    ensures i <= |t.buckets|
  {
    var d := DistanceOf(t.local, id);
    if d.None? then |t.buckets| else FindFrom(t.buckets, d.value, 0)
  }

  /** Adds a node to its bucket, and splits the bucket when it is full afterwards. */
  function AddNode(t: Table, x: Node, now: int): (r: Table) {
    var i := IndexFor(t, x.id);
    if i == |t.buckets| then t
    else
      var b := B.AddTo(t.buckets[i].bucket, x, now, t.max);
      var s := WithBucket(t, i, b);
      if |b.nodes| >= t.max then Split(s, i) else s
  }

  function RemoveNode(t: Table, id: string, now: int): (r: Table) {
    var i := IndexFor(t, id);
    if i == |t.buckets| then t else WithBucket(t, i, B.RemoveFrom(t.buckets[i].bucket, id, now))
  }

  function TouchNode(t: Table, id: string, at: int): (r: Table) {
    var i := IndexFor(t, id);
    if i == |t.buckets| then t else WithBucket(t, i, B.TouchIn(t.buckets[i].bucket, id, at))
  }

  /** Settles a probe in one bucket. The node and its health were read earlier; the table is held for reading
      only meanwhile, so nodes may have been touched and other probes settled. */
  function SettleAt(t: Table, i: nat, head: Node, h: B.Health, answered: bool, now: int, failures: nat): (r: Table) {
    if i >= |t.buckets| then t
    else WithBucket(t, i, B.SettleHead(t.buckets[i].bucket, head, h, answered, now, failures).0)
  }

  lemma SameTiles(t: Table, i: nat, b: B.Bucket)
    requires i < |t.buckets| && Tiles(t.buckets)
    ensures Tiles(WithBucket(t, i, b).buckets)
  {
  }

  /** Changing one bucket, without adding a node it does not cover, keeps the table valid. */
  lemma BucketKeeps(t: Table, i: nat, b: B.Bucket)
    requires Valid(t) && i < |t.buckets| && B.Valid(b, t.max) && b.cache == []
    requires forall id :: B.Lists(b.nodes, id) ==> B.Lists(t.buckets[i].bucket.nodes, id) || IndexFor(t, id) == i
    ensures Valid(WithBucket(t, i, b))
  {
    SameTiles(t, i, b);
    var r := WithBucket(t, i, b);
    forall x | x in b.nodes
      ensures DistanceOf(t.local, x.id).Some? && Covers(r.buckets[i], DistanceOf(t.local, x.id).value) {
      MemberListed(b.nodes, x);
      CoveredAt(t, i, x.id);
    }
    hide B.Valid, B.Lists, DistanceOf, Tiles;
  }

  lemma CoveredAt(t: Table, i: nat, id: string)
    requires Valid(t) && i < |t.buckets| && (B.Lists(t.buckets[i].bucket.nodes, id) || IndexFor(t, id) == i)
    ensures DistanceOf(t.local, id).Some? && Covers(t.buckets[i], DistanceOf(t.local, id).value)
  {
    if B.Lists(t.buckets[i].bucket.nodes, id) {
      ListedWhereCovered(t, id, i);
    }
  }

  lemma WithBucketListed(t: Table, i: nat, b: B.Bucket, id: string)
    requires Valid(t) && i < |t.buckets|
    ensures Listed(WithBucket(t, i, b), id) <==>
              B.Lists(b.nodes, id) || (Listed(t, id) && !B.Lists(t.buckets[i].bucket.nodes, id))
  {
    var r := WithBucket(t, i, b);
    hide B.Lists, Tiles, Fine;
    if Listed(r, id) {
      var j :| 0 <= j < |r.buckets| && B.Lists(r.buckets[j].bucket.nodes, id);
      if j != i {
        assert B.Lists(t.buckets[j].bucket.nodes, id);
        if B.Lists(t.buckets[i].bucket.nodes, id) {
          ListedWhereCovered(t, id, i);
          ListedWhereCovered(t, id, j);
          assert false;
        }
      }
    }
    if B.Lists(b.nodes, id) { assert B.Lists(r.buckets[i].bucket.nodes, id); }
    if Listed(t, id) && !B.Lists(t.buckets[i].bucket.nodes, id) {
      var j :| 0 <= j < |t.buckets| && B.Lists(t.buckets[j].bucket.nodes, id);
      assert B.Lists(r.buckets[j].bucket.nodes, id);
    }
  }

  lemma ChangedCovers(t: Table, i: nat, b: B.Bucket)
    requires Valid(t) && i < |t.buckets|
    requires forall id :: B.Lists(b.nodes, id) ==> B.Lists(t.buckets[i].bucket.nodes, id) || IndexFor(t, id) == i
    ensures var k := t.buckets[i].(bucket := b);
            forall x :: x in k.bucket.nodes ==>
                DistanceOf(t.local, x.id).Some? && Covers(k, DistanceOf(t.local, x.id).value)
  {
    hide Valid, DistanceOf;
    forall x | x in b.nodes
      ensures DistanceOf(t.local, x.id).Some? && Covers(t.buckets[i], DistanceOf(t.local, x.id).value) {
      MemberListed(b.nodes, x);
      CoveredAt(t, i, x.id);
    }
  }

  lemma FineAt(t: Table, i: nat)
    requires Valid(t) && i < |t.buckets|
    ensures B.Valid(t.buckets[i].bucket, t.max) && t.buckets[i].bucket.cache == [] && Tiles(t.buckets)
  {
    assert Fine(t.local, t.max, t.buckets[i]);
  }

  lemma ListedAt(t: Table, i: nat, id: string)
    requires i < |t.buckets| && B.Lists(t.buckets[i].bucket.nodes, id)
    ensures Listed(t, id)
  {
  }

  /** The bucket that a node was added to, before a split. */
  lemma AddedBucket(t: Table, x: Node, now: int)
    requires Valid(t) && IndexFor(t, x.id) < |t.buckets|
    ensures var i := IndexFor(t, x.id);
            var before := t.buckets[i].bucket;
            var b := B.AddTo(before, x, now, t.max);
            && B.Valid(b, t.max)
            && (|b.nodes| < t.max ==> b.cache == [])
            && (forall id :: B.Lists(b.nodes, id) ==> B.Lists(before.nodes, id) || IndexFor(t, id) == i)
            && (forall id :: Listed(WithBucket(t, i, b), id) <==>
                  Listed(t, id) || (id == x.id && |before.nodes| < t.max))
  {
    var i := IndexFor(t, x.id);
    var before := t.buckets[i].bucket;
    FineAt(t, i);
    B.AddKeeps(before, x, now, t.max);
    AddedSize(before, x, now, t.max);
    var b := B.AddTo(before, x, now, t.max);
    hide B.Valid, B.Lists, B.AddTo, Valid, IndexFor, Listed;
    forall id ensures Listed(WithBucket(t, i, b), id) <==> Listed(t, id) || (id == x.id && |before.nodes| < t.max) {
      WithBucketListed(t, i, b, id);
      if B.Lists(before.nodes, id) { ListedAt(t, i, id); }
    }
  }

  lemma AddedSize(b: B.Bucket, x: Node, now: int, max: nat)
    requires B.Valid(b, max)
    ensures |B.AddTo(b, x, now, max).nodes| < max ==> |b.nodes| < max
  {
    B.Found(b.nodes, x.id);
    hide B.Find, B.Lists;
  }

  /** Adding a node keeps the table valid and loses no node. The new node is listed exactly when it was
      already, or when its distance is in range and its bucket was not full. */
  lemma AddKeeps(t: Table, x: Node, now: int)
    requires Valid(t)
    ensures Valid(AddNode(t, x, now))
    ensures var i := IndexFor(t, x.id);
            forall id :: Listed(AddNode(t, x, now), id) <==>
              Listed(t, id) || (id == x.id && i < |t.buckets| && |t.buckets[i].bucket.nodes| < t.max)
  {
    hide B.Valid, B.Lists, B.AddTo, IndexFor, Listed, Split, Fine, Tiles;
    var i := IndexFor(t, x.id);
    if i < |t.buckets| {
      AddedBucket(t, x, now);
      FineAt(t, i);
      var b := B.AddTo(t.buckets[i].bucket, x, now, t.max);
      var s := WithBucket(t, i, b);
      if |b.nodes| >= t.max {
        SameTiles(t, i, b);
        ChangedCovers(t, i, b);
        SplitKeeps(s, i);
      } else {
        BucketKeeps(t, i, b);
      }
    }
  }

  lemma RemoveKeeps(t: Table, id: string, now: int)
    requires Valid(t)
    ensures Valid(RemoveNode(t, id, now))
    ensures forall j :: Listed(RemoveNode(t, id, now), j) <==> Listed(t, j) && j != id
  {
    hide B.Valid, B.Lists, B.RemoveFrom, IndexFor, Listed, Fine, Tiles;
    var i := IndexFor(t, id);
    if i < |t.buckets| {
      FineAt(t, i);
      B.RemoveKeeps(t.buckets[i].bucket, id, now, t.max);
      var b := B.RemoveFrom(t.buckets[i].bucket, id, now);
      B.NothingListed();
      NoCache(t.buckets[i].bucket, id, now);
      BucketKeeps(t, i, b);
      forall j ensures Listed(RemoveNode(t, id, now), j) <==> Listed(t, j) && j != id {
        WithBucketListed(t, i, b, j);
        if B.Lists(t.buckets[i].bucket.nodes, j) { ListedAt(t, i, j); }
        if Listed(t, id) { ListedAtIndex(t, id); }
      }
    } else {
      if Listed(t, id) { ListedAtIndex(t, id); }
    }
  }

  lemma NoCache(b: B.Bucket, id: string, now: int)
    requires b.cache == []
    ensures B.RemoveFrom(b, id, now).cache == []
  {
  }

  /** A listed ID is listed in the bucket the table looks in. */
  lemma ListedAtIndex(t: Table, id: string)
    requires Valid(t) && Listed(t, id)
    ensures IndexFor(t, id) < |t.buckets| && B.Lists(t.buckets[IndexFor(t, id)].bucket.nodes, id)
  {
    var j :| 0 <= j < |t.buckets| && B.Lists(t.buckets[j].bucket.nodes, id);
    ListedWhereCovered(t, id, j);
  }

  lemma TouchKeeps(t: Table, id: string, at: int)
    requires Valid(t)
    ensures Valid(TouchNode(t, id, at)) && forall j :: Listed(TouchNode(t, id, at), j) <==> Listed(t, j)
  {
    hide B.Valid, B.Lists, B.TouchIn, IndexFor, Listed, Fine, Tiles;
    var i := IndexFor(t, id);
    if i < |t.buckets| {
      FineAt(t, i);
      B.TouchKeeps(t.buckets[i].bucket, id, at, t.max);
      var b := B.TouchIn(t.buckets[i].bucket, id, at);
      TouchCache(t.buckets[i].bucket, id, at);
      BucketKeeps(t, i, b);
      forall j ensures Listed(TouchNode(t, id, at), j) <==> Listed(t, j) {
        WithBucketListed(t, i, b, j);
        if B.Lists(t.buckets[i].bucket.nodes, j) { ListedAt(t, i, j); }
      }
    }
  }

  lemma TouchCache(b: B.Bucket, id: string, at: int)
    ensures B.TouchIn(b, id, at).cache == b.cache
  {
  }

  /** Settling a probe keeps the table valid and loses exactly a node of that bucket that did not answer, failed
      often enough and was not active since. */
  lemma SettleKeeps(t: Table, i: nat, head: Node, h: B.Health, answered: bool, now: int, failures: nat)
    requires Valid(t)
    ensures var r := SettleAt(t, i, head, h, answered, now, failures);
            && Valid(r)
            && forall j :: Listed(r, j) <==>
                 && Listed(t, j)
                 && !(&& j == head.id && i < |t.buckets| && B.Lists(t.buckets[i].bucket.nodes, j) && !answered
                      && (h.failures + 1) % 256 >= failures
                      && B.HealthOf(t.buckets[i].bucket, j).lastSuccess == h.lastSuccess)
  {
    hide B.Lists, B.SettleHead, B.Unique, IndexFor, Fine, Tiles, Listed;
    if i < |t.buckets| {
      FineAt(t, i);
      var before := t.buckets[i].bucket;
      B.HeadSettles(before, head, h, answered, now, failures);
      var b := B.SettleHead(before, head, h, answered, now, failures).0;
      B.NothingListed();
      BucketKeeps(t, i, b);
      hide B.Valid, Valid;
      forall j ensures Listed(WithBucket(t, i, b), j) <==>
          B.Lists(b.nodes, j) || (Listed(t, j) && !B.Lists(before.nodes, j)) {
        WithBucketListed(t, i, b, j);
      }
      forall j | B.Lists(before.nodes, j) ensures Listed(t, j) { ListedAt(t, i, j); }
    }
  }

  // ---- Whole runs --------------------------------------------------------------------------

  datatype Op =
    | Add(x: Node, now: int)
    | Remove(id: string, now: int)
    | Touch(id: string, now: int)
    | Settle(i: nat, head: Node, h: B.Health, answered: bool, now: int, failures: nat)
    | Clear

  function Step(t: Table, op: Op): (r: Table) {
    match op
    case Add(x, now) => AddNode(t, x, now)
    case Remove(id, now) => RemoveNode(t, id, now)
    case Touch(id, now) => TouchNode(t, id, now)
    case Settle(i, head, h, answered, now, failures) => SettleAt(t, i, head, h, answered, now, failures)
    case Clear => NewTable(t.local, t.max)
  }

  function After(t: Table, ops: seq<Op>): (r: Table) {
    if ops == [] then t else Step(After(t, ops[..|ops| - 1]), ops[|ops| - 1])
  }

  /** After any run the buckets tile all distances and every bucket is as it should be. */
  lemma {:induction false} RunKeeps(local: int, max: nat, ops: seq<Op>)
    ensures Valid(After(NewTable(local, max), ops))
  {
    hide Valid, AddNode, RemoveNode, TouchNode, SettleAt;
    if ops == [] {
      NewIsValid(local, max);
    } else {
      RunKeeps(local, max, ops[..|ops| - 1]);
      var t := After(NewTable(local, max), ops[..|ops| - 1]);
      match ops[|ops| - 1]
      case Add(x, now) => AddKeeps(t, x, now);
      case Remove(id, now) => RemoveKeeps(t, id, now);
      case Touch(id, now) => TouchKeeps(t, id, now);
      case Settle(i, head, h, answered, now, failures) => SettleKeeps(t, i, head, h, answered, now, failures);
      case Clear => NewIsValid(t.local, t.max);
    }
  }

  /** Why the buckets of a table are safe from the collisions of a lone bucket: a node is cached only when its
      bucket is full, and then the bucket is split before the table is released, which drops the cache. So
      a maintenance that has taken a node out finds nothing to put in its place and ends at once. */
  lemma NothingToRefill(local: int, max: nat, ops: seq<Op>, i: nat, refills: map<nat, R.Refilling>, n: nat)
    requires i < |After(NewTable(local, max), ops).buckets| && n in refills && refills[n].Seeking?
    ensures var b := After(NewTable(local, max), ops).buckets[i].bucket;
            R.Step(R.World(b, refills), R.Seek(n), max) == R.World(b, refills - {n})
  {
    RunKeeps(local, max, ops);
    FineAt(After(NewTable(local, max), ops), i);
  }

  // ---- Finding the closest nodes -----------------------------------------------------------

  function NodesFrom(s: seq<KBucket>): (r: seq<Node>) {
    if s == [] then [] else NodesFrom(s[..|s| - 1]) + s[|s| - 1].bucket.nodes
  }

  /** All nodes of all buckets, and no other. */
  lemma {:induction false} NodesExactly(s: seq<KBucket>, x: Node)
    ensures x in NodesFrom(s) <==> exists i :: 0 <= i < |s| && x in s[i].bucket.nodes
  {
    if s != [] {
      var n := |s| - 1;
      NodesExactly(s[..n], x);
      assert NodesFrom(s) == NodesFrom(s[..n]) + s[n].bucket.nodes;
      hide NodesFrom;
      if x in NodesFrom(s[..n]) {
        var i :| 0 <= i < n && x in s[..n][i].bucket.nodes;
        assert x in s[i].bucket.nodes;
      }
    }
  }

  function DistanceTo(target: int, x: Node): (d: int) {
    match Parse(x.id)
    case None => target
    case Some(n) => Xor(target, n)
  }

  class DhtTable {
    const local: int
    const max: nat
    var buckets: seq<KBucket>

    ghost function View(): (t: Table)
      reads this
    {
      Table(local, max, buckets)
    }

    constructor (local: int, max: nat)
      ensures this.local == local && this.max == max && View() == NewTable(local, max)
    {
      this.local, this.max, buckets := local, max, [KBucket(0, TOP, B.EMPTY)];
    }

    method FindBucket(id: string) returns (i: nat)
      ensures i == IndexFor(View(), id)
    {
      i := 0;
      var d := DistanceOf(local, id);
      if d.None? { return |buckets|; }
      while i < |buckets| && !Covers(buckets[i], d.value)
        invariant i <= |buckets| && FindFrom(buckets, d.value, i) == FindFrom(buckets, d.value, 0)
      {
        i := i + 1;
      }
    }

    method AddPeer(x: Node, now: int)
      modifies this
      ensures View() == AddNode(old(View()), x, now)
    {
      hide B.AddTo, Split, IndexFor;
      var i := FindBucket(x.id);
      if i == |buckets| { return; }
      var b := B.AddTo(buckets[i].bucket, x, now, max);
      buckets := buckets[i := buckets[i].(bucket := b)];
      if |b.nodes| >= max { SplitBucket(i); }
    }

    /** Deals the nodes of a bucket to two new ones and puts these in its place. */
    method SplitBucket(i: nat)
      requires i < |buckets|
      modifies this
      ensures View() == Split(old(View()), i)
    {
      hide IsNear;
      var k := buckets[i];
      var mid := MidPoint(k);
      var near, far := [], [];
      for n := 0 to |k.bucket.nodes|
        invariant near == Side(local, k.bucket.nodes[..n], mid, true)
                  && far == Side(local, k.bucket.nodes[..n], mid, false)
        invariant buckets == old(buckets)
      {
        var x := k.bucket.nodes[n];
        assert k.bucket.nodes[..n + 1][..n] == k.bucket.nodes[..n];
        if IsNear(local, mid, x) {
          near := near + [x];
        } else {
          far := far + [x];
        }
      }
      assert k.bucket.nodes[..|k.bucket.nodes|] == k.bucket.nodes;
      var left := KBucket(k.lo, mid, B.Bucket(near, SideHealth(near, k.bucket.health), []));
      var right := KBucket(mid + 1, k.hi, B.Bucket(far, SideHealth(far, k.bucket.health), []));
      buckets := buckets[..i] + [left, right] + buckets[i + 1..];
    }

    method RemovePeer(id: string, now: int)
      modifies this
      ensures View() == RemoveNode(old(View()), id, now)
    {
      hide B.RemoveFrom, IndexFor;
      var i := FindBucket(id);
      if i == |buckets| { return; }
      buckets := buckets[i := buckets[i].(bucket := B.RemoveFrom(buckets[i].bucket, id, now))];
    }

    /** The nearest nodes, nearest first, as many as asked for or there are; `rest` lists the others, which
        are no nearer. */
    method FindClosest(id: string, count: nat) returns (r: seq<Node>, ghost rest: seq<Node>)
      ensures Parse(id).None? ==> r == []
      ensures Parse(id).Some? ==>
                && multiset(r + rest) == multiset(NodesFrom(buckets))
                && SortedBy(r + rest, (x: Node) => DistanceTo(Parse(id).value, x))
                && |r| == if count < |NodesFrom(buckets)| then count else |NodesFrom(buckets)|
    {
      r, rest := [], [];
      var target := Parse(id);
      if target.None? { return; }
      var all := [];
      for i := 0 to |buckets|
        invariant all == NodesFrom(buckets[..i])
      {
        assert buckets[..i + 1][..i] == buckets[..i];
        all := all + buckets[i].bucket.nodes;
      }
      assert buckets[..|buckets|] == buckets;
      var key := (x: Node) => DistanceTo(target.value, x);
      var sorted := SortBy(all, key);
      SameLength(sorted, all);
      var n := if count < |sorted| then count else |sorted|;
      r := sorted[..n];
      rest := sorted[n..];
      assert r + rest == sorted;
    }
  }

  /** Only IDs that write the same number are at the same distance. */
  lemma DistancesDiffer(target: int, x: Node, y: Node)
    requires Parse(x.id).Some? && Parse(y.id).Some? && DistanceTo(target, x) == DistanceTo(target, y)
    ensures Parse(x.id) == Parse(y.id)
  {
    XorInjective(target, Parse(x.id).value, Parse(y.id).value);
  }

  ghost predicate DistancesTell(target: int, s: seq<Node>) {
    forall i, j :: 0 <= i < |s| && 0 <= j < |s| && DistanceTo(target, s[i]) == DistanceTo(target, s[j]) ==> s[i] == s[j]
  }

  lemma NearestAgree(target: int, a: seq<Node>, b: seq<Node>)
    requires SortedBy(a, (x: Node) => DistanceTo(target, x)) && SortedBy(b, (x: Node) => DistanceTo(target, x))
    requires multiset(a) == multiset(b) && DistancesTell(target, a) && a != [] && b != []
    ensures a[0] == b[0]
  {
    SameMembers(a, b, 0);
    SameMembers(b, a, 0);
    var i :| 0 <= i < |b| && b[i] == a[0];
    var j :| 0 <= j < |a| && a[j] == b[0];
    var key := (x: Node) => DistanceTo(target, x);
    assert key(a[0]) <= key(a[j]) && key(b[0]) <= key(b[i]);
    assert DistanceTo(target, a[0]) == DistanceTo(target, a[j]);
  }

  lemma {:induction false} OrderIsUnique(target: int, a: seq<Node>, b: seq<Node>)
    requires SortedBy(a, (x: Node) => DistanceTo(target, x)) && SortedBy(b, (x: Node) => DistanceTo(target, x))
    requires multiset(a) == multiset(b) && DistancesTell(target, a)
    ensures a == b
  {
    SameLength(a, b);
    if a != [] {
      NearestAgree(target, a, b);
      SameTails(a, b);
      OrderIsUnique(target, a[1..], b[1..]);
    }
  }

  lemma {:induction false} NodesAreListed(s: seq<KBucket>, local: int, max: nat, x: Node)
    requires (forall i :: 0 <= i < |s| ==> Fine(local, max, s[i])) && x in NodesFrom(s)
    ensures Parse(x.id).Some?
  {
    var n := |s| - 1;
    if x in s[n].bucket.nodes {
      assert Fine(local, max, s[n]);
    } else {
      NodesAreListed(s[..n], local, max, x);
    }
  }

  /** The nearest nodes do not depend on how equal distances are sorted, as long as no two listed IDs
      write the same number: any two orders of all nodes by distance are the same. */
  lemma ClosestIsUnique(t: Table, target: int, a: seq<Node>, b: seq<Node>)
    requires Valid(t) && multiset(a) == multiset(NodesFrom(t.buckets)) && multiset(b) == multiset(NodesFrom(t.buckets))
    requires SortedBy(a, (x: Node) => DistanceTo(target, x)) && SortedBy(b, (x: Node) => DistanceTo(target, x))
    requires forall x, y :: x in NodesFrom(t.buckets) && y in NodesFrom(t.buckets) && Parse(x.id) == Parse(y.id) ==>
               x == y
    ensures a == b
  {
    hide Parse, DistanceTo, SortedBy, Tiles, Fine;
    forall i, j | 0 <= i < |a| && 0 <= j < |a| && DistanceTo(target, a[i]) == DistanceTo(target, a[j])
      ensures a[i] == a[j] {
      SameMembers(a, NodesFrom(t.buckets), i);
      SameMembers(a, NodesFrom(t.buckets), j);
      NodesAreListed(t.buckets, t.local, t.max, a[i]);
      NodesAreListed(t.buckets, t.local, t.max, a[j]);
      DistancesDiffer(target, a[i], a[j]);
    }
    OrderIsUnique(target, a, b);
  }
}
