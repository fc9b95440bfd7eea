/** One bucket under concurrent calls. A maintenance holds the lock only to settle an answer: it probes the
    least recently active node and then one cached node after the other while the bucket is free to change,
    so each locked section is a step of its own here. */
module BucketRuns {
  import opened Sequences
  import opened NodeBucket

  /** A maintenance that has taken a node out: it looks for a cached one, waits for the answer of one it took
      out of the cache, or has found the bucket full and is about to put that one back. */
  datatype Refilling = Seeking | Asking(x: Node) | Returning(x: Node)

  datatype World = World(bucket: Bucket, refills: map<nat, Refilling>)

  const START := World(EMPTY, map[])

  /** `Probed` settles the probe of a node that was read at any earlier time. */
  datatype Op =
    | Add(x: Node, now: int)
    | Remove(id: string, now: int)
    | Touch(id: string, at: int)
    | Probed(t: nat, head: Node, h: Health, answered: bool, now: int, failures: nat)
    | Seek(t: nat)
    | Answer(t: nat, answered: bool, now: int)
    | Return(t: nat)

  predicate Enabled(w: World, op: Op) {
    match op
    case Probed(t, _, _, _, _, _) => t !in w.refills
    case Seek(t) => t in w.refills && w.refills[t].Seeking?
    case Answer(t, _, _) => t in w.refills && w.refills[t].Asking?
    case Return(t) => t in w.refills && w.refills[t].Returning?
    case _ => true
  }

  function Step(w: World, op: Op, max: nat): (r: World)
    requires Enabled(w, op)
  {
    var b := w.bucket;
    match op
    case Add(x, now) => w.(bucket := AddTo(b, x, now, max))
    case Remove(id, now) => w.(bucket := RemoveFrom(b, id, now))
    case Touch(id, at) => w.(bucket := TouchIn(b, id, at))
    case Probed(t, head, h, answered, now, failures) =>
      var (s, removed) := SettleHead(b, head, h, answered, now, failures);
      World(s, if removed then w.refills[t := Seeking] else w.refills)
    case Seek(t) =>
      if b.cache == [] then w.(refills := w.refills - {t})
      else World(b.(cache := b.cache[1..]), w.refills[t := Asking(b.cache[0])])
    case Answer(t, answered, now) =>
      var x := w.refills[t].x;
      if !answered then w.(refills := w.refills[t := Seeking])
      else
        var (s, placed) := SettleCandidate(b, x, now, max);
        World(s, if placed then w.refills - {t} else w.refills[t := Returning(x)])
    case Return(t) => World(Pushed(b, w.refills[t].x, max), w.refills - {t})
  }

  // ---- The invariant -----------------------------------------------------------------------

  predicate Carries(s: Refilling, id: string) { !s.Seeking? && s.x.id == id }

  /** The ID is neither listed nor cached at the moment: a maintenance has it in hand. */
  ghost predicate Held(refills: map<nat, Refilling>, id: string) {
    exists t :: t in refills && Carries(refills[t], id)
  }

  ghost predicate HeldOnce(refills: map<nat, Refilling>) {
    forall t, u, id :: t in refills && u in refills && Carries(refills[t], id) && Carries(refills[u], id) ==> t == u
  }

  /** What a maintenance has in hand is nowhere else. */
  ghost predicate Apart(w: World) {
    HeldOnce(w.refills) && forall id :: Held(w.refills, id) ==> !Lists(w.bucket.nodes, id) && !Lists(w.bucket.cache, id)
  }

  /** While a node is cached, every free place is owed to a maintenance. */
  ghost predicate Owed(w: World, max: nat) { w.bucket.cache != [] ==> |w.bucket.nodes| + |w.refills| >= max }

  ghost predicate Inv(w: World, max: nat) { Proper(w.bucket, max) && Apart(w) && Owed(w, max) }

  /** The two calls that do harm, as can be seen before they are made: an unlisted node is added that is cached
      although there is room, or that a maintenance has in hand; or a candidate is put back after the
      place it did not get became free again. */
  ghost predicate Collides(w: World, op: Op, max: nat) {
    match op
    case Add(x, _) =>
      && !Lists(w.bucket.nodes, x.id)
      && if |w.bucket.nodes| < max then Lists(w.bucket.cache, x.id) || Held(w.refills, x.id)
         else Held(w.refills, x.id) && |w.bucket.cache| < max
    case Return(_) => |w.bucket.nodes| + |w.refills| - 1 < max
    case _ => false
  }

  // ---- Refills -----------------------------------------------------------------------------

  lemma Ended(refills: map<nat, Refilling>, t: nat)
    requires t in refills && HeldOnce(refills)
    ensures var r := refills - {t};
            && |r| == |refills| - 1 && HeldOnce(r)
            && forall id :: Held(r, id) <==> Held(refills, id) && !Carries(refills[t], id)
  {
    hide Carries;
    var r := refills - {t};
    assert r.Keys == refills.Keys - {t};
    forall id ensures Held(r, id) <==> Held(refills, id) && !Carries(refills[t], id) {
      if Held(refills, id) && !Carries(refills[t], id) {
        var u :| u in refills && Carries(refills[u], id);
        assert u in r && Carries(r[u], id);
      }
    }
  }

  lemma SetHolds(refills: map<nat, Refilling>, t: nat, s: Refilling, id: string)
    requires HeldOnce(refills)
    ensures Held(refills[t := s], id) <==>
              Carries(s, id) || (Held(refills, id) && !(t in refills && Carries(refills[t], id)))
  {
    hide Carries;
    var r := refills[t := s];
    if Carries(s, id) { assert t in r && Carries(r[t], id); }
    if Held(refills, id) && !(t in refills && Carries(refills[t], id)) {
      var u :| u in refills && Carries(refills[u], id);
      assert u in r && Carries(r[u], id);
    }
  }

  lemma Set(refills: map<nat, Refilling>, t: nat, s: Refilling)
    requires HeldOnce(refills)
    requires forall id :: Carries(s, id) && Held(refills, id) ==> t in refills && Carries(refills[t], id)
    ensures var r := refills[t := s];
            && |r| == |refills| + (if t in refills then 0 else 1) && HeldOnce(r)
            && forall id ::
                 Held(r, id) <==> Carries(s, id) || (Held(refills, id) && !(t in refills && Carries(refills[t], id)))
  {
    hide Carries;
    var r := refills[t := s];
    assert r.Keys == refills.Keys + {t};
    assert HeldOnce(r);
    hide Held, HeldOnce;
    forall id
      ensures Held(r, id) <==> Carries(s, id) || (Held(refills, id) && !(t in refills && Carries(refills[t], id))) {
      SetHolds(refills, t, s, id);
    }
  }

  lemma HoldsIt(refills: map<nat, Refilling>, t: nat)
    requires t in refills && !refills[t].Seeking?
    ensures Held(refills, refills[t].x.id)
  {
    assert Carries(refills[t], refills[t].x.id);
  }

  lemma CarriesOne(s: Refilling)
    ensures forall id :: Carries(s, id) <==> !s.Seeking? && id == s.x.id
  {
  }

  // ---- Every step --------------------------------------------------------------------------

  lemma AddExactly(w: World, x: Node, now: int, max: nat)
    requires Inv(w, max)
    ensures Inv(Step(w, Add(x, now), max), max) <==> !Collides(w, Add(x, now), max)
  {
    Found(w.bucket.nodes, x.id);
    var b := w.bucket;
    var i := Find(b.nodes, x.id);
    hide Find, Unique, ToEnd, Lists, PushCache, Held, HeldOnce;
    if i < |b.nodes| {
      ToEndUnique(b.nodes, i, x);
    } else if |b.nodes| < max {
      AppendUnique(b.nodes, x);
    } else {
      PushKeeps(b.cache, x, max);
      PushLists(b.cache, x, max);
    }
  }

  lemma RemoveStep(w: World, id: string, now: int, max: nat)
    requires Inv(w, max)
    ensures Inv(Step(w, Remove(id, now), max), max)
  {
    var b := w.bucket;
    Found(b.nodes, id);
    var i := Find(b.nodes, id);
    hide Find, Unique, Lists, Dropped, Held, HeldOnce;
    if i < |b.nodes| {
      DropKeeps(b, i);
      if b.cache != [] {
        FirstOf(b.cache);
        AppendUnique(Dropped(b, i).nodes, b.cache[0]);
      }
    }
  }

  lemma TouchStep(w: World, id: string, at: int, max: nat)
    requires Inv(w, max)
    ensures Inv(Step(w, Touch(id, at), max), max)
  {
    var b := w.bucket;
    Found(b.nodes, id);
    var i := Find(b.nodes, id);
    hide Find, Unique, ToEnd, Lists, Held, HeldOnce;
    if i < |b.nodes| { ToEndUnique(b.nodes, i, b.nodes[i]); }
  }

  lemma ProbedStep(w: World, op: Op, max: nat)
    requires Inv(w, max) && op.Probed? && Enabled(w, op)
    ensures Inv(Step(w, op, max), max)
  {
    hide Unique, Lists, SettleHead, Held, HeldOnce;
    HeadSettles(w.bucket, op.head, op.h, op.answered, op.now, op.failures);
    CarriesOne(Seeking);
    hide Carries;
    Set(w.refills, op.t, Seeking);
  }

  lemma SeekStep(w: World, t: nat, max: nat)
    requires Inv(w, max) && Enabled(w, Seek(t))
    ensures Inv(Step(w, Seek(t), max), max)
  {
    hide Unique, Lists, Held, HeldOnce;
    var b := w.bucket;
    CarriesOne(w.refills[t]);
    if b.cache == [] {
      Ended(w.refills, t);
    } else {
      CarriesOne(Asking(b.cache[0]));
      hide Carries;
      FirstOf(b.cache);
      Set(w.refills, t, Asking(b.cache[0]));
    }
  }

  lemma AnswerStep(w: World, t: nat, answered: bool, now: int, max: nat)
    requires Inv(w, max) && Enabled(w, Answer(t, answered, now))
    ensures Inv(Step(w, Answer(t, answered, now), max), max)
  {
    hide Unique, Lists, Held, HeldOnce, Proper;
    var x := w.refills[t].x;
    HoldsIt(w.refills, t);
    CarriesOne(w.refills[t]);
    CarriesOne(Seeking);
    CarriesOne(Returning(x));
    hide Carries;
    Set(w.refills, t, Seeking);
    Set(w.refills, t, Returning(x));
    Ended(w.refills, t);
    if |w.bucket.nodes| < max {
      PlacedExactly(w.bucket, x, now, max);
      AppendUnique(w.bucket.nodes, x);
    }
  }

  lemma ReturnExactly(w: World, t: nat, max: nat)
    requires Inv(w, max) && Enabled(w, Return(t))
    ensures Inv(Step(w, Return(t), max), max) <==> !Collides(w, Return(t), max)
  {
    var x, b := w.refills[t].x, w.bucket;
    assert |b.cache| <= max && Unique(b.cache);
    hide Unique, Lists, Held, HeldOnce, Proper, PushCache;
    HoldsIt(w.refills, t);
    CarriesOne(w.refills[t]);
    hide Carries;
    Ended(w.refills, t);
    PushedExactly(b, x, max);
    PushKeeps(b.cache, x, max);
    PushFills(b.cache, x, max);
  }

  lemma PushFills(cache: seq<Node>, x: Node, max: nat)
    requires |cache| <= max
    ensures PushCache(cache, x, max) == [] <==> max == 0
  {
    hide Find;
  }

  /** A step keeps the list exact, the cache apart from it and what is in hand apart from both, exactly when it
      does not collide. */
  lemma StepKeepsExactly(w: World, op: Op, max: nat)
    requires Inv(w, max) && Enabled(w, op)
    ensures Inv(Step(w, op, max), max) <==> !Collides(w, op, max)
  {
    hide Inv, Step;
    match op
    case Add(x, now) => AddExactly(w, x, now, max);
    case Remove(id, now) => RemoveStep(w, id, now, max);
    case Touch(id, at) => TouchStep(w, id, at, max);
    case Probed(_, _, _, _, _, _) => ProbedStep(w, op, max);
    case Seek(t) => SeekStep(w, t, max);
    case Answer(t, answered, now) => AnswerStep(w, t, answered, now, max);
    case Return(t) => ReturnExactly(w, t, max);
  }

  // ---- Whole runs --------------------------------------------------------------------------

  ghost predicate Steps(w: World, op: Op, x: World, max: nat) { Enabled(w, op) && x == Step(w, op, max) }

  ghost predicate Path(ws: seq<World>, ops: seq<Op>, max: nat) {
    |ws| == |ops| + 1 && forall i, j :: 0 <= i && j == i + 1 < |ws| ==> Steps(ws[i], ops[i], ws[j], max)
  }

  ghost predicate Run(ws: seq<World>, ops: seq<Op>, max: nat) { Path(ws, ops, max) && ws[0] == START }

  /** In every run without a collision, whatever else happens during the probes: IDs are unique and are the
      health keys, what is listed, cached or in hand is in one place only, and once no maintenance is
      under way a node waits in the cache only while the bucket is full. */
  lemma {:induction false} RunKeeps(ws: seq<World>, ops: seq<Op>, max: nat, n: nat)
    requires Run(ws, ops, max) && n < |ws|
    requires forall k :: 0 <= k < n ==> !Collides(ws[k], ops[k], max)
    ensures Inv(ws[n], max)
    ensures ws[n].refills == map[] ==> Valid(ws[n].bucket, max)
  {
    hide Collides, Step, Proper, Apart;
    if n == 0 {
      StartIsInv(max);
    } else {
      var m := n - 1;
      RunKeeps(ws, ops, max, m);
      assert Steps(ws[m], ops[m], ws[n], max);
      StepKeepsExactly(ws[m], ops[m], max);
    }
    BoundedNodes(ws[n], max);
  }

  lemma StartIsInv(max: nat)
    ensures Inv(START, max)
  {
    NothingListed();
  }

  lemma BoundedNodes(w: World, max: nat)
    requires Inv(w, max)
    ensures |w.bucket.nodes| <= max
  {
  }

  /** What no interleaving breaks. */
  ghost predicate Bounded(b: Bucket, max: nat) {
    && |b.nodes| <= max && |b.cache| <= max && Unique(b.cache)
    && forall id :: id in b.health ==> Lists(b.nodes, id)
  }

  lemma AddBounded(b: Bucket, x: Node, now: int, max: nat)
    requires Bounded(b, max)
    ensures Bounded(AddTo(b, x, now, max), max)
  {
    Found(b.nodes, x.id);
    var i := Find(b.nodes, x.id);
    hide Find, Unique, ToEnd, Lists, PushCache;
    if i < |b.nodes| { ToEndLists(b.nodes, i, x); }
    AppendUnique(b.nodes, x);
    PushKeeps(b.cache, x, max);
  }

  lemma DropBounded(b: Bucket, i: nat, max: nat)
    requires Bounded(b, max) && i < |b.nodes|
    ensures Bounded(Dropped(b, i), max) && |Dropped(b, i).nodes| == |b.nodes| - 1
  {
    WithoutLists(b.nodes, i);
    hide Unique, Lists, Without;
  }

  lemma ListingBounded(b: Bucket, x: Node, now: int, max: nat)
    requires Bounded(b, max) && |b.nodes| < max
    ensures Bounded(Listing(b, x, now), max)
  {
    AppendUnique(b.nodes, x);
    hide Unique, Lists;
  }

  lemma PopBounded(b: Bucket, max: nat)
    requires Bounded(b, max) && b.cache != []
    ensures Bounded(b.(cache := b.cache[1..]), max)
  {
    FirstOf(b.cache);
    hide Unique, Lists;
  }

  lemma RemoveBounded(b: Bucket, id: string, now: int, max: nat)
    requires Bounded(b, max)
    ensures Bounded(RemoveFrom(b, id, now), max)
  {
    var i := Find(b.nodes, id);
    hide Find, Bounded, Dropped;
    if i < |b.nodes| {
      DropBounded(b, i, max);
      var d := Dropped(b, i);
      if d.cache != [] {
        PopBounded(d, max);
        SizeBounded(b, max);
        ListingBounded(d.(cache := d.cache[1..]), d.cache[0], now, max);
      }
    }
  }

  lemma SizeBounded(b: Bucket, max: nat)
    requires Bounded(b, max)
    ensures |b.nodes| <= max
  {
  }

  lemma TouchBounded(b: Bucket, id: string, at: int, max: nat)
    requires Bounded(b, max)
    ensures Bounded(TouchIn(b, id, at), max)
  {
    Found(b.nodes, id);
    var i := Find(b.nodes, id);
    hide Find, Unique, ToEnd, Lists;
    if i < |b.nodes| { ToEndLists(b.nodes, i, b.nodes[i]); }
  }

  lemma HeadBounded(b: Bucket, head: Node, h: Health, answered: bool, now: int, failures: nat, max: nat)
    requires Bounded(b, max)
    ensures Bounded(SettleHead(b, head, h, answered, now, failures).0, max)
  {
    Found(b.nodes, head.id);
    var i := Find(b.nodes, head.id);
    hide Find, Unique, ToEnd, Lists, Dropped;
    if i < |b.nodes| {
      ToEndLists(b.nodes, i, head);
      DropBounded(b, i, max);
    }
  }

  lemma StepBounded(w: World, op: Op, max: nat)
    requires Enabled(w, op) && Bounded(w.bucket, max)
    ensures Bounded(Step(w, op, max).bucket, max)
  {
    hide Bounded, AddTo, RemoveFrom, TouchIn, SettleHead, Listing, PushCache;
    var b := w.bucket;
    match op
    case Add(x, now) => AddBounded(b, x, now, max);
    case Remove(id, now) => RemoveBounded(b, id, now, max);
    case Touch(id, at) => TouchBounded(b, id, at, max);
    case Probed(_, head, h, answered, now, failures) => HeadBounded(b, head, h, answered, now, failures, max);
    case Seek(t) => if b.cache != [] { PopBounded(b, max); }
    case Answer(t, answered, now) => if |b.nodes| < max { ListingBounded(b, w.refills[t].x, now, max); }
    case Return(t) => PushBounded(b, w.refills[t].x, max);
  }

  lemma PushBounded(b: Bucket, x: Node, max: nat)
    requires Bounded(b, max)
    ensures Bounded(Pushed(b, x, max), max)
  {
    PushKeeps(b.cache, x, max);
    hide PushCache, Unique, Lists;
  }

  /** In every run at all, collisions included, the sizes hold, cached IDs are unique and there is no health
      of a node that is not listed. */
  lemma {:induction false} RunStaysBounded(ws: seq<World>, ops: seq<Op>, max: nat, n: nat)
    requires Run(ws, ops, max) && n < |ws|
    ensures Bounded(ws[n].bucket, max)
  {
    hide Bounded, Step;
    if n == 0 {
      StartIsBounded(max);
    } else {
      var m := n - 1;
      RunStaysBounded(ws, ops, max, m);
      assert Steps(ws[m], ops[m], ws[n], max);
      StepBounded(ws[m], ops[m], max);
    }
  }

  lemma StartIsBounded(max: nat)
    ensures Bounded(EMPTY, max)
  {
  }

  // ---- What a step loses and brings in -----------------------------------------------------

  /** In whatever state: a node leaves the list only by its removal, or by a probe it did not answer after enough
      failures (counted in 8 bits) and no activity since it was read; a node comes in only by being added,
      in place of a removed one as the oldest cached, or by its answer. */
  lemma StepLoses(w: World, op: Op, max: nat, j: string)
    requires Enabled(w, op)
    ensures var b, r := w.bucket, Step(w, op, max).bucket;
            && (Lists(b.nodes, j) && !Lists(r.nodes, j) ==>
                  || (op.Remove? && op.id == j)
                  || (op.Probed? && op.head.id == j && !op.answered && (op.h.failures + 1) % 256 >= op.failures
                      && HealthOf(b, j).lastSuccess == op.h.lastSuccess))
            && (Lists(r.nodes, j) && !Lists(b.nodes, j) ==>
                  || (op.Add? && op.x.id == j && |b.nodes| < max)
                  || (op.Remove? && Lists(b.nodes, op.id) && b.cache != [] && b.cache[0].id == j)
                  || (op.Answer? && op.answered && w.refills[op.t].x.id == j && |b.nodes| < max))
  {
    hide Find, ToEnd, Lists, Without, PushCache;
    var b := w.bucket;
    match op
    case Add(x, _) => Moved(b.nodes, x);
    case Remove(id, _) => Left(b, id);
    case Touch(id, _) =>
      var i := Find(b.nodes, id);
      if i < |b.nodes| { Moved(b.nodes, b.nodes[i]); }
    case Probed(_, head, _, _, _, _) =>
      Moved(b.nodes, head);
      Left(b, head.id);
    case Seek(_) =>
    case Answer(t, _, _) => AppendUnique(b.nodes, w.refills[t].x);
    case Return(_) =>
  }

  lemma Moved(s: seq<Node>, x: Node)
    ensures var i := Find(s, x.id);
            (i < |s| ==> forall id :: Lists(ToEnd(s, i, x), id) <==> Lists(s, id))
            && forall id :: Lists(s + [x], id) <==> Lists(s, id) || id == x.id
  {
    hide Find, ToEnd, Lists, Unique;
    var i := Find(s, x.id);
    if i < |s| { ToEndLists(s, i, x); }
    AppendUnique(s, x);
  }

  lemma Left(b: Bucket, id: string)
    ensures var i := Find(b.nodes, id);
            && (i < |b.nodes| <==> Lists(b.nodes, id))
            && (i < |b.nodes| ==>
                  && (forall j :: Lists(b.nodes, j) && j != id ==> Lists(Without(b.nodes, i), j))
                  && (forall j :: Lists(Without(b.nodes, i), j) ==> Lists(b.nodes, j))
                  && (b.cache != [] ==> forall j ::
                        Lists(Without(b.nodes, i) + [b.cache[0]], j) <==>
                          Lists(Without(b.nodes, i), j) || j == b.cache[0].id))
  {
    Found(b.nodes, id);
    hide Find, Without, Lists, Unique;
    var i := Find(b.nodes, id);
    if i < |b.nodes| {
      WithoutLists(b.nodes, i);
      if b.cache != [] { AppendUnique(Without(b.nodes, i), b.cache[0]); }
    }
  }

  // ---- A maintenance that nothing disturbs -------------------------------------------------

  predicate IsMaintenance(op: Op) { op.Probed? || op.Seek? || op.Answer? || op.Return? }

  lemma PathStarts(w: World, op: Op, ws: seq<World>, ops: seq<Op>, max: nat)
    requires Path(ws, ops, max) && Steps(w, op, ws[0], max)
    ensures Path([w] + ws, [op] + ops, max) && ([w] + ws)[|[op] + ops|] == ws[|ops|]
  {
    hide Steps;
    var vs, more := [w] + ws, [op] + ops;
    forall i, j | 0 <= i && j == i + 1 < |vs| ensures Steps(vs[i], more[i], vs[j], max) {
      if i > 0 {
        var k, l := i - 1, j - 1;
        assert Steps(ws[k], ops[k], ws[l], max);
      }
    }
  }

  lemma {:induction false} UndisturbedRefill(w: World, t: nat, probe: Node -> bool, now: int, max: nat)
    returns (ws: seq<World>, ops: seq<Op>)
    requires w.refills == map[t := Seeking]
    ensures Path(ws, ops, max) && ws[0] == w && ws[|ops|] == World(Refill(w.bucket, probe, now, max), map[])
    ensures forall k :: 0 <= k < |ops| ==> IsMaintenance(ops[k])
    decreases |w.bucket.cache|
  {
    hide PushCache, Listing;
    var b := w.bucket;
    var done: map<nat, Refilling> := map[];
    assert map[t := Seeking] - {t} == done;
    if b.cache == [] {
      ws, ops := [w, World(b, done)], [Seek(t)];
    } else {
      var x := b.cache[0];
      var y := World(b.(cache := b.cache[1..]), map[t := Asking(x)]);
      assert Steps(w, Seek(t), y, max);
      var z := Step(y, Answer(t, probe(x), now), max);
      assert map[t := Asking(x)] - {t} == done && map[t := Returning(x)] - {t} == done;
      if !probe(x) {
        ws, ops := UndisturbedRefill(z, t, probe, now, max);
      } else if |b.nodes| < max {
        ws, ops := [z], [];
      } else {
        ws, ops := [z, Step(z, Return(t), max)], [Return(t)];
      }
      hide Steps, Step;
      PathStarts(y, Answer(t, probe(x), now), ws, ops, max);
      PathStarts(w, Seek(t), [y] + ws, [Answer(t, probe(x), now)] + ops, max);
      ws, ops := [w] + ([y] + ws), [Seek(t)] + ([Answer(t, probe(x), now)] + ops);
    }
  }

  /** The steps of one maintenance with nothing in between are what a call does that nothing disturbs. */
  lemma Undisturbed(b: Bucket, now: int, stale: int, failures: nat, probe: Node -> bool, max: nat)
    returns (ws: seq<World>, ops: seq<Op>)
    ensures Path(ws, ops, max) && ws[0] == World(b, map[])
    ensures ws[|ops|] == World(MaintainIn(b, now, stale, failures, probe, max), map[])
    ensures forall k :: 0 <= k < |ops| ==> IsMaintenance(ops[k])
  {
    hide Refill, SettleHead;
    var w := World(b, map[]);
    if b.nodes == [] || !IsDue(HealthOf(b, b.nodes[0].id), now, stale) {
      ws, ops := [w], [];
    } else {
      var head := b.nodes[0];
      var op := Probed(0, head, HealthOf(b, head.id), probe(head), now, failures);
      var x := Step(w, op, max);
      if SettleHead(b, head, HealthOf(b, head.id), probe(head), now, failures).1 {
        ws, ops := UndisturbedRefill(x, 0, probe, now, max);
      } else {
        ws, ops := [x], [];
      }
      PathStarts(w, op, ws, ops, max);
      ws, ops := [w] + ws, [op] + ops;
    }
  }

  // ---- Runs with a collision ---------------------------------------------------------------

  const A := Node("a", 0)
  const B := Node("b", 0)
  const C := Node("c", 0)

  lemma RunGrows(ws: seq<World>, ops: seq<Op>, op: Op, max: nat)
    requires Run(ws, ops, max) && Enabled(ws[|ops|], op)
    ensures Run(ws + [Step(ws[|ops|], op, max)], ops + [op], max)
  {
    hide Step;
  }

  /** Goes on with a run to a known world. */
  lemma GoOn(ws: seq<World>, ops: seq<Op>, op: Op, max: nat, x: World) returns (vs: seq<World>, more: seq<Op>)
    requires Run(ws, ops, max) && Steps(ws[|ops|], op, x, max)
    ensures Run(vs, more, max) && vs[|more|] == x
  {
    RunGrows(ws, ops, op, max);
    vs, more := ws + [x], ops + [op];
  }

  lemma Begin(max: nat)
    ensures Run([START], [], max)
  {
  }

  const OLD := NewHealth(1)
  const NEW := NewHealth(2)

  /** Node A is dropped from a full bucket of two, and the maintenance takes C out of the cache. */
  lemma AskingWithTwo() returns (ws: seq<World>, ops: seq<Op>)
    ensures Run(ws, ops, 2) && ws[|ops|] == World(Bucket([B], map["b" := OLD], []), map[0 := Asking(C)])
  {
    Begin(2);
    hide Run;
    var both := map["a" := OLD, "b" := OLD];
    ws, ops := GoOn([START], [], Add(A, 1), 2, World(Bucket([A], map["a" := OLD], []), map[]));
    ws, ops := GoOn(ws, ops, Add(B, 1), 2, World(Bucket([A, B], both, []), map[]));
    ws, ops := GoOn(ws, ops, Add(C, 1), 2, World(Bucket([A, B], both, [C]), map[]));
    assert both - {"a"} == map["b" := OLD];
    var dropped := Bucket([B], map["b" := OLD], [C]);
    ws, ops := GoOn(ws, ops, Probed(0, A, OLD, false, 2, 1), 2, World(dropped, map[0 := Seeking]));
    ws, ops := GoOn(ws, ops, Seek(0), 2, World(Bucket([B], map["b" := OLD], []), map[0 := Asking(C)]));
  }

  /** A run that lists a node twice: while a maintenance waits for the answer of the cached node C, C is added and
      another node is removed. */
  lemma ListedTwice() returns (ws: seq<World>, ops: seq<Op>)
    ensures Run(ws, ops, 2) && ws[|ops|] == World(Bucket([C, C], map["c" := NEW], []), map[])
  {
    ws, ops := AskingWithTwo();
    hide Run;
    var both := map["b" := OLD, "c" := NEW];
    ws, ops := GoOn(ws, ops, Add(C, 2), 2, World(Bucket([B, C], both, []), map[0 := Asking(C)]));
    assert both - {"b"} == map["c" := NEW];
    ws, ops := GoOn(ws, ops, Remove("b", 2), 2, World(Bucket([C], map["c" := NEW], []), map[0 := Asking(C)]));
    ws, ops := GoOn(ws, ops, Answer(0, true, 2), 2, World(Bucket([C, C], map["c" := NEW], []), map[]));
  }

  /** The same in a bucket of one. */
  lemma AskingWithOne() returns (ws: seq<World>, ops: seq<Op>)
    ensures Run(ws, ops, 1) && ws[|ops|] == World(EMPTY, map[0 := Asking(C)])
  {
    Begin(1);
    hide Run;
    ws, ops := GoOn([START], [], Add(A, 1), 1, World(Bucket([A], map["a" := OLD], []), map[]));
    ws, ops := GoOn(ws, ops, Add(C, 1), 1, World(Bucket([A], map["a" := OLD], [C]), map[]));
    assert map["a" := OLD] - {"a"} == map[];
    ws, ops := GoOn(ws, ops, Probed(0, A, OLD, false, 2, 1), 1, World(Bucket([], map[], [C]), map[0 := Seeking]));
    ws, ops := GoOn(ws, ops, Seek(0), 1, World(EMPTY, map[0 := Asking(C)]));
  }

  lemma BroughtBack()
    ensures RemoveFrom(Bucket([C], map["c" := NEW], [C]), "c", 2) == Bucket([C], map["c" := NEW], [])
  {
    assert map["c" := NEW] - {"c"} == map[];
  }

  /** A run that lists a node and caches it too, so that removing it brings it back at once. */
  lemma ListedAndCached() returns (ws: seq<World>, ops: seq<Op>)
    ensures Run(ws, ops, 1) && ws[|ops|] == World(Bucket([C], map["c" := NEW], [C]), map[])
    ensures RemoveFrom(ws[|ops|].bucket, "c", 2) == Bucket([C], map["c" := NEW], [])
  {
    ws, ops := AskingWithOne();
    hide Run;
    ws, ops := GoOn(ws, ops, Add(C, 2), 1, World(Bucket([C], map["c" := NEW], []), map[0 := Asking(C)]));
    ws, ops := GoOn(ws, ops, Answer(0, true, 2), 1, World(Bucket([C], map["c" := NEW], []), map[0 := Returning(C)]));
    ws, ops := GoOn(ws, ops, Return(0), 1, World(Bucket([C], map["c" := NEW], [C]), map[]));
    BroughtBack();
    hide RemoveFrom;
  }

  /** A run after which a node waits in the cache of an empty bucket, without anyone adding it meanwhile: it is
      put back after the node that had taken its place was removed. */
  lemma CachedBesideRoom() returns (ws: seq<World>, ops: seq<Op>)
    ensures Run(ws, ops, 1) && ws[|ops|] == World(Bucket([], map[], [C]), map[])
  {
    ws, ops := AskingWithOne();
    hide Run;
    ws, ops := GoOn(ws, ops, Add(B, 2), 1, World(Bucket([B], map["b" := NEW], []), map[0 := Asking(C)]));
    ws, ops := GoOn(ws, ops, Answer(0, true, 2), 1, World(Bucket([B], map["b" := NEW], []), map[0 := Returning(C)]));
    assert map["b" := NEW] - {"b"} == map[];
    ws, ops := GoOn(ws, ops, Remove("b", 2), 1, World(EMPTY, map[0 := Returning(C)]));
    ws, ops := GoOn(ws, ops, Return(0), 1, World(Bucket([], map[], [C]), map[]));
  }
}
