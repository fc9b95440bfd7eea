/** What exactly a striped connection delivers: everything up to the first chunk that has not come, in every run, and
    what becomes of it when the buffer overflows or the connection closes. */
module StripedDelivery {
  import opened Sequences
  import opened Bytes
  import opened Reordering
  import opened StripedConnection

  // ---- Up to the first gap -----------------------------------------------------------------

  /** Only chunks that were pushed are delivered or wait. */
  ghost predicate Known(r: Reassembly, pushed: set<nat>) {
    && (forall s: nat :: s < r.next ==> s in pushed)
    && forall s :: s in r.pending ==> s in pushed
  }

  lemma PushKnown(r: Reassembly, s: nat, data: Chunk, pushed: set<nat>)
    requires Known(r, pushed)
    ensures Known(Push(r, s, data), pushed + {s})
  {
    hide Drain;
    if s == r.next {
      forall k: nat ensures var d := Drain(r.next + 1, r.pending);
                            && r.next + 1 <= d.next
                            && (r.next + 1 <= k < d.next ==> k in r.pending) && (k in d.pending ==> k in r.pending) {
        DrainKnown(r.next + 1, r.pending, k);
      }
    }
  }

  lemma StepKnown(w: World, e: Event)
    requires Enabled(w, e) && Known(w.reassembly, w.pushed)
    ensures Known(Step(w, e).reassembly, Step(w, e).pushed)
  {
    hide Push, IsCut;
    match e
    case Arrive(leg, s) => PushKnown(w.reassembly, s, w.chunks[s], w.pushed);
    case Replay(leg) =>
      var s := w.legs[leg].early[0];
      if s < |w.chunks| { PushKnown(w.reassembly, s, w.chunks[s], w.pushed); }
    case _ =>
  }

  lemma {:induction false} RunKnown(legs: nat, ws: seq<World>, es: seq<Event>, n: nat)
    requires Run(legs, ws, es) && n < |ws|
    ensures Known(ws[n].reassembly, ws[n].pushed)
  {
    if n > 0 {
      hide Known, Step, Enabled;
      var m := n - 1;
      RunKnown(legs, ws, es, m);
      assert Steps(ws[m], es[m], ws[n]);
      StepKnown(ws[m], es[m]);
    }
  }

  /** In every run, while nothing was closed or dropped, the reader has or may have exactly the chunks before the first
      one that was not pushed, and exactly the pushed ones behind it wait. */
  lemma UpToTheGap(legs: nat, ws: seq<World>, es: seq<Event>, n: nat)
    requires Run(legs, ws, es) && n < |ws| && !ws[n].reassembly.closed && !ws[n].reassembly.overflow
    ensures var w, r := ws[n], ws[n].reassembly;
            && (forall s: nat :: s < r.next ==> s in w.pushed) && r.next !in w.pushed
            && r.next <= |w.chunks| && w.taken + r.ready == Join(w.chunks[..r.next])
            && (forall s: nat :: s in r.pending <==> s in w.pushed && s > r.next)
            && forall s :: s in r.pending ==> s < |w.chunks| && r.pending[s] == w.chunks[s]
  {
    RunKeeps(legs, ws, es, n);
    RunKnown(legs, ws, es, n);
    hide Run, Join, EarlyAt;
  }

  // ---- Overflow ----------------------------------------------------------------------------

  /** The event brings this chunk to the reassembler. */
  ghost predicate Brings(w: World, e: Event, s: nat) {
    || (e.Arrive? && e.s == s && e.leg < |w.legs| && w.legs[e.leg].hooked && !w.legs[e.leg].closed)
    || (e.Replay? && e.leg < |w.legs| && w.legs[e.leg].early != [] && w.legs[e.leg].early[0] == s)
  }

  /** In every run a chunk is dropped for want of room exactly when it is new, is not the next one, and 4096 others
      wait already. */
  lemma OverflowsExactly(legs: nat, ws: seq<World>, es: seq<Event>, n: nat)
    requires Run(legs, ws, es) && n < |es| && !ws[n].reassembly.overflow
    ensures ws[n + 1].reassembly.overflow <==>
            && !ws[n].reassembly.closed && |ws[n].reassembly.pending| == 4096
            && exists s: nat :: Brings(ws[n], es[n], s) && s !in ws[n].pushed && s != ws[n].reassembly.next
  {
    var w, next := ws[n], n + 1;
    RunKeeps(legs, ws, es, n);
    assert Steps(w, es[n], ws[next]);
    if !w.reassembly.closed { UpToTheGap(legs, ws, es, n); }
    if es[n].Replay? { EarlyOf(w.legs, es[n].leg, w.legs[es[n].leg], w.legs[es[n].leg].early[0]); }
    hide Run, Join, EarlyAt, Drain, IsCut, Accounted, InOrder;
    if ws[next].reassembly.overflow {
      assert Brings(w, es[n], if es[n].Arrive? then es[n].s else w.legs[es[n].leg].early[0]);
    }
  }

  // ---- Reading and closing -----------------------------------------------------------------

  /** A read takes exactly the first bytes that are ready, as many as there is room for; without any it is told of an
      overflow, else of the end, else it waits. */
  lemma ReadsExactly(w: World, n: nat)
    ensures var r, x, got := w.reassembly, Step(w, ReadSome(n)), ReadUpTo(w.reassembly, n).1;
            && w.taken + r.ready == x.taken + x.reassembly.ready && x.reassembly == r.(ready := x.reassembly.ready)
            && |x.taken| - |w.taken| == (if n < |r.ready| then n else |r.ready|)
            && w.taken <= x.taken && (got.Bytes? ==> x.taken == w.taken + got.bytes)
            && (got.Bytes? <==> r.ready != []) && (got.Gone? <==> r.ready == [] && r.overflow)
            && (got.End? <==> r.ready == [] && !r.overflow && r.closed)
  {
    var r := w.reassembly;
    var k := if n < |r.ready| then n else |r.ready|;
    Associative(w.taken, r.ready[..k], r.ready[k..]);
    assert r.ready == r.ready[..k] + r.ready[k..];
  }

  /** Once the connection is closed it stays closed, and what was ready then is what the reader still gets. */
  lemma {:induction false} ClosedIsFinal(legs: nat, ws: seq<World>, es: seq<Event>, m: nat, n: nat)
    requires Run(legs, ws, es) && m < n < |ws| && es[m] == CloseReassembler
    ensures var c, r := ws[m], ws[n];
            r.reassembly.closed && r.reassembly.pending == map[]
            && r.taken + r.reassembly.ready == c.taken + c.reassembly.ready
    decreases n
  {
    var k := n - 1;
    assert Steps(ws[k], es[k], ws[n]);
    if m < k {
      ClosedIsFinal(legs, ws, es, m, k);
      if es[k].ReadSome? { ReadsExactly(ws[k], es[k].n); }
    }
    hide Run, Drain, IsCut;
  }

  // ---- Chunks that came early --------------------------------------------------------------

  ghost function Numbers(list: seq<Early>): (r: set<nat>) { set i | 0 <= i < |list| :: list[i].s }

  /** Replaying chunks that came before the connection was put together pushes every one of them. */
  lemma {:induction false} EarlyArePushed(chunks: seq<Chunk>, r: Reassembly, taken: seq<byte>, pushed: set<nat>,
                                          list: seq<Early>)
    requires InOrder(chunks, r, taken) && Accounted(r, pushed) && Known(r, pushed)
    requires forall i :: 0 <= i < |list| ==>
               list[i].s < |chunks| && list[i].data == chunks[list[i].s] && list[i].data != []
    ensures var x, all := PushAll(r, list), pushed + Numbers(list);
            InOrder(chunks, x, taken) && Accounted(x, all) && Known(x, all)
  {
    hide InOrder, Accounted, Known, Push;
    if list == [] {
      assert pushed + Numbers(list) == pushed;
    } else {
      var n := |list| - 1;
      EarlyArePushed(chunks, r, taken, pushed, list[..n]);
      var before := pushed + Numbers(list[..n]);
      PushKeeps(chunks, PushAll(r, list[..n]), taken, before, list[n].s);
      PushKnown(PushAll(r, list[..n]), list[n].s, list[n].data, before);
      assert before + {list[n].s} == pushed + Numbers(list);
    }
  }
}
