/** A connection striped over several legs: chunks are dealt out in turn and put back in order. */
module StripedConnection {
  import opened Sequences
  import opened Bytes
  import opened Reordering

  const CHUNK_SIZE := 32 * 1024
  const MAX_PENDING := 4096

  // ---- The reassembler ---------------------------------------------------------------------

  datatype Reassembly = Reassembly(next: nat, pending: map<nat, Chunk>, ready: seq<byte>, closed: bool, overflow: bool)

  const NEW := Reassembly(0, map[], [], false, false)

  function Push(r: Reassembly, s: nat, data: Chunk): (x: Reassembly) {
    if data == [] || r.closed || s < r.next then r
    else if s == r.next then
      var d := Drain(r.next + 1, r.pending);
      r.(next := d.next, pending := d.pending, ready := r.ready + data + d.bytes)
    else if s in r.pending then r
    else if |r.pending| >= MAX_PENDING then r.(overflow := true)
    else r.(pending := r.pending[s := data])
  }

  function Close(r: Reassembly): (x: Reassembly) { r.(closed := true, pending := map[]) }

  datatype Read = Bytes(bytes: seq<byte>) | Gone | End | Blocks

  /** What a reader with room for n bytes gets. */
  function ReadUpTo(r: Reassembly, n: nat): (x: (Reassembly, Read)) {
    var k := if n < |r.ready| then n else |r.ready|;
    if r.ready != [] then (r.(ready := r.ready[k..]), Bytes(r.ready[..k]))
    else if r.overflow then (r, Gone)
    else if r.closed then (r, End)
    else (r, Blocks)
  }

  /** The object: each call changes it as the functions above say. */
  class Reassembler {
    var next: nat
    var pending: map<nat, Chunk>
    var ready: seq<byte>
    var closed: bool
    var overflow: bool

    ghost function View(): (r: Reassembly)
      reads this
    {
      Reassembly(next, pending, ready, closed, overflow)
    }

    constructor ()
      ensures View() == NEW
    {
      next, pending, ready, closed, overflow := 0, map[], [], false, false;
    }

    method PushChunk(s: nat, data: Chunk)
      modifies this
      ensures View() == Push(old(View()), s, data)
    {
      if data == [] { return; }
      if closed { return; }
      if s < next { return; }
      if s == next {
        ready := ready + data;
        next := next + 1;
        next, pending, ready := DrainInto(next, pending, ready);
        return;
      }
      if s !in pending {
        if |pending| >= MAX_PENDING {
          overflow := true;
          return;
        }
        pending := pending[s := data];
      }
    }

    method ReadBytes(n: nat) returns (r: Read)
      modifies this
      ensures (View(), r) == ReadUpTo(old(View()), n)
    {
      if |ready| > 0 {
        var k := if n < |ready| then n else |ready|;
        r := Bytes(ready[..k]);
        ready := ready[k..];
        return;
      }
      if overflow { return Gone; }
      if closed { return End; }
      r := Blocks;
    }

    method CloseAll()
      modifies this
      ensures View() == Close(old(View()))
    {
      closed := true;
      pending := map[];
    }
  }

  // ---- Legs --------------------------------------------------------------------------------

  /** An incoming leg: chunks that arrive before the connection is put together wait in `early`, and are
      replayed in their order of arrival once it is. */
  datatype Leg = Leg(hooked: bool, early: seq<nat>, closed: bool)

  function Pick(legs: nat, s: nat): (leg: nat)
    requires legs > 0
    ensures leg < legs
  {
    s % legs
  }

  /** A chunk on its way: its number, its leg and its bytes. */
  datatype Sent = Sent(s: nat, leg: nat, data: Chunk)

  function Data(sent: seq<Sent>): (chunks: seq<Chunk>) {
    seq(|sent|, i requires 0 <= i < |sent| => sent[i].data)
  }

  class StripedWriter {
    var writeSeq: nat

    constructor ()
      ensures writeSeq == 0
    {
      writeSeq := 0;
    }

    /** Cuts a write into full chunks and a rest, with consecutive numbers, and deals them to the legs in turn; exactly
        a leg that fails ends the write, and its number is spent. */
    method WriteStriped(p: seq<byte>, legs: nat, fails: nat -> bool) returns (total: nat, ok: bool, sent: seq<Sent>)
      requires legs > 0
      modifies this
      ensures total <= |p| && Join(Data(sent)) == p[..total] && (ok <==> total == |p|)
      ensures forall i :: 0 <= i < |sent| ==>
                && sent[i].s == old(writeSeq) + i && sent[i].leg == sent[i].s % legs && !fails(sent[i].s)
                && 0 < |sent[i].data| <= 32 * 1024 && (i + 1 < |sent| || !ok ==> |sent[i].data| == 32 * 1024)
      ensures !ok ==> fails(old(writeSeq) + |sent|)
      ensures writeSeq == old(writeSeq) + |sent| + if ok then 0 else 1
    {
      total, sent := 0, [];
      assert Join(Data(sent)) == [] == p[..0];
      hide Join, Data;
      while total < |p|
        invariant total <= |p| && Join(Data(sent)) == p[..total] && writeSeq == old(writeSeq) + |sent|
        invariant forall i :: 0 <= i < |sent| ==>
                    && sent[i].s == old(writeSeq) + i && sent[i].leg == Pick(legs, sent[i].s) && !fails(sent[i].s)
                    && 0 < |sent[i].data| <= CHUNK_SIZE
                    && (i + 1 < |sent| || total < |p| ==> |sent[i].data| == CHUNK_SIZE)
      {
        var end := if |p| - total > CHUNK_SIZE then total + CHUNK_SIZE else |p|;
        var chunk := p[total..end];
        var s := writeSeq;
        writeSeq := writeSeq + 1;
        var leg := Pick(legs, s);
        if fails(s) { return total, false, sent; }
        DataGrows(sent, Sent(s, leg, chunk));
        assert p[..total] + chunk == p[..end];
        sent := sent + [Sent(s, leg, chunk)];
        total := end;
      }
      ok := true;
    }
  }

  lemma DataGrows(sent: seq<Sent>, x: Sent)
    ensures Join(Data(sent + [x])) == Join(Data(sent)) + x.data
  {
    assert Data(sent + [x]) == Data(sent) + [x.data];
    JoinConcat(Data(sent), [x.data]);
    JoinOne(x.data);
  }

  datatype Early = Early(s: nat, data: Chunk)

  /** Pushes a list of chunks in order. */
  function PushAll(r: Reassembly, list: seq<Early>): (x: Reassembly) {
    if list == [] then r else Push(PushAll(r, list[..|list| - 1]), list[|list| - 1].s, list[|list| - 1].data)
  }

  class IncomingLeg {
    const striped: bool
    var hook: Reassembler?
    var pending: seq<Early>
    var buf: seq<byte>
    var closed: bool

    constructor (striped: bool)
      ensures this.striped == striped && hook == null && pending == [] && buf == [] && !closed
    {
      this.striped, hook, pending, buf, closed := striped, null, [], [], false;
    }

    /** With a hook the chunk goes straight to the reassembler. Without one it is kept for later if the leg
        is one of several, and is read from the leg itself if it is the only one. */
    method DeliverSeq(s: nat, data: Chunk)
      modifies this`pending, this`buf, hook
      ensures pending == if hook == null && striped && data != [] && !closed then old(pending) + [Early(s, data)]
                else old(pending)
      ensures buf == if hook == null && !striped && !closed then old(buf) + data else old(buf)
      ensures hook != null ==> hook.View() == if closed then old(hook.View()) else Push(old(hook.View()), s, data)
    {
      if data == [] {
        assert buf + data == buf;
        return;
      }
      if closed { return; }
      if hook == null && striped {
        pending := pending + [Early(s, data)];
        return;
      }
      if hook != null {
        hook.PushChunk(s, data);
        return;
      }
      buf := buf + data;
    }

    /** Attaching the hook replays what came early, in its order. */
    method SetDeliverHook(r: Reassembler)
      modifies this`hook, this`pending, r
      ensures hook == r && pending == [] && r.View() == PushAll(old(r.View()), old(pending))
    {
      hook := r;
      var early := pending;
      pending := [];
      for i := 0 to |early|
        invariant hook == r && pending == [] && r.View() == PushAll(old(r.View()), early[..i])
      {
        assert early[..i + 1][..i] == early[..i];
        r.PushChunk(early[i].s, early[i].data);
      }
      assert early[..|early|] == early;
    }
  }

  /** `chunks` is everything written, `taken` everything read; `pushed` collects what reached the
      reassembler, and `arrived` what reached an open leg. */
  datatype World = World(
    chunks: seq<Chunk>,
    written: seq<byte>,
    legs: seq<Leg>,
    reassembly: Reassembly,
    taken: seq<byte>,
    arrived: set<nat>,
    pushed: set<nat>)

  datatype Event =
    | Write(p: seq<byte>, cut: seq<Chunk>)
    | Arrive(leg: nat, s: nat)
    | Attach(leg: nat)
    | Replay(leg: nat)
    | CloseLeg(leg: nat)
    | CloseReassembler
    | ReadSome(n: nat)

  /** Any chunk that was written may arrive on its leg at any time, any number of times. */
  ghost predicate Enabled(w: World, e: Event) {
    match e
    case Write(p, cut) => IsCut(cut, p, CHUNK_SIZE)
    case Arrive(leg, s) => leg < |w.legs| && s < |w.chunks| && Pick(|w.legs|, s) == leg
    case Attach(leg) => leg < |w.legs|
    case Replay(leg) => leg < |w.legs| && w.legs[leg].hooked && w.legs[leg].early != []
    case CloseLeg(leg) => leg < |w.legs|
    case CloseReassembler => true
    case ReadSome(_) => true
  }

  function Pushed(w: World, s: nat): (x: World)
    requires s < |w.chunks|
  {
    w.(reassembly := Push(w.reassembly, s, w.chunks[s]), pushed := w.pushed + {s})
  }

  ghost function Step(w: World, e: Event): (x: World)
    requires Enabled(w, e)
  {
    match e
    case Write(p, cut) => w.(chunks := w.chunks + cut, written := w.written + p)
    case Arrive(leg, s) =>
      if w.legs[leg].closed then w
      else if !w.legs[leg].hooked then
        w.(legs := w.legs[leg := w.legs[leg].(early := w.legs[leg].early + [s])], arrived := w.arrived + {s})
      else Pushed(w.(arrived := w.arrived + {s}), s)
    case Attach(leg) => w.(legs := w.legs[leg := w.legs[leg].(hooked := true)])
    case Replay(leg) =>
      var s := w.legs[leg].early[0];
      var x := w.(legs := w.legs[leg := w.legs[leg].(early := w.legs[leg].early[1..])]);
      if s < |w.chunks| then Pushed(x, s) else x
    case CloseLeg(leg) => w.(legs := w.legs[leg := w.legs[leg].(closed := true)])
    case CloseReassembler => w.(reassembly := Close(w.reassembly))
    case ReadSome(n) =>
      var (r, got) := ReadUpTo(w.reassembly, n);
      w.(reassembly := r, taken := w.taken + if got.Bytes? then got.bytes else [])
  }

  function Start(legs: nat): (w: World) {
    World([], [], seq(legs, _ => Leg(false, [], false)), NEW, [], {}, {})
  }

  // ---- The invariant -----------------------------------------------------------------------

  /** The reader got, and will get, the first `next` chunks; the rest waits behind a gap. */
  ghost predicate InOrder(chunks: seq<Chunk>, r: Reassembly, taken: seq<byte>) {
    && r.next <= |chunks|
    && taken + r.ready == Join(chunks[..r.next])
    && Waiting(r.pending, chunks, r.next)
    && r.next !in r.pending
    && |r.pending| <= MAX_PENDING
  }

  /** While nothing was closed or dropped, what was pushed is delivered or waits. */
  ghost predicate Accounted(r: Reassembly, pushed: set<nat>) {
    !r.closed && !r.overflow ==> forall s :: s in pushed ==> s < r.next || s in r.pending
  }

  ghost predicate Inv(w: World) {
    && w.legs != []
    && Join(w.chunks) == w.written
    && (forall i :: 0 <= i < |w.chunks| ==> w.chunks[i] != [])
    && InOrder(w.chunks, w.reassembly, w.taken)
    && Accounted(w.reassembly, w.pushed)
    && (forall s :: s in w.arrived ==> s in w.pushed || s in EarlyAt(w.legs))
    && (forall s :: s in EarlyAt(w.legs) ==> s < |w.chunks|)
  }

  /** What waits at the legs. */
  ghost function EarlyAt(legs: seq<Leg>): (r: set<nat>) {
    set i, s | 0 <= i < |legs| && s in legs[i].early :: s
  }

  lemma {:induction false} PushKeeps(chunks: seq<Chunk>, r: Reassembly, taken: seq<byte>, pushed: set<nat>, s: nat)
    requires InOrder(chunks, r, taken) && Accounted(r, pushed) && s < |chunks| && chunks[s] != []
    ensures var x := Push(r, s, chunks[s]); InOrder(chunks, x, taken) && Accounted(x, pushed + {s})
  {
    hide Join;
    if !r.closed && s == r.next {
      PushNext(chunks, r, taken);
    }
  }

  lemma PushNext(chunks: seq<Chunk>, r: Reassembly, taken: seq<byte>)
    requires InOrder(chunks, r, taken) && r.next < |chunks| && chunks[r.next] != [] && !r.closed
    ensures var x := Push(r, r.next, chunks[r.next]);
            InOrder(chunks, x, taken) && x.next > r.next && x.overflow == r.overflow && !x.closed
            && forall s :: s in r.pending ==> s < x.next || s in x.pending
  {
    hide Join, Drain;
    DrainReleases(r.next + 1, r.pending, chunks);
    BytesGrow(chunks, taken, r.ready, r.next, Drain(r.next + 1, r.pending).next);
  }

  // ---- Every step --------------------------------------------------------------------------

  lemma WriteKeeps(w: World, p: seq<byte>, cut: seq<Chunk>)
    requires Inv(w) && IsCut(cut, p, CHUNK_SIZE)
    ensures Inv(w.(chunks := w.chunks + cut, written := w.written + p))
  {
    hide Join, EarlyAt, Accounted;
    var all := w.chunks + cut;
    JoinConcat(w.chunks, cut);
    assert all[..w.reassembly.next] == w.chunks[..w.reassembly.next];
    assert forall i :: 0 <= i < |w.chunks| ==> all[i] == w.chunks[i];
    assert forall i :: |w.chunks| <= i < |all| ==> all[i] == cut[i - |w.chunks|];
  }

  lemma PushedKeeps(w: World, x: World, s: nat)
    requires Inv(w) && s < |w.chunks| && x == Pushed(w.(legs := x.legs, arrived := x.arrived), s) && x.legs != []
    requires forall k :: k in x.arrived ==> k in w.arrived || k == s
    requires forall k :: k in EarlyAt(w.legs) ==> k in EarlyAt(x.legs) || k == s
    requires forall k :: k in EarlyAt(x.legs) ==> k in EarlyAt(w.legs)
    ensures Inv(x)
  {
    hide Join, EarlyAt, Push, InOrder, Accounted;
    PushKeeps(w.chunks, w.reassembly, w.taken, w.pushed, s);
  }

  lemma EarlyOf(legs: seq<Leg>, i: nat, leg: Leg, s: nat)
    requires i < |legs|
    ensures s in EarlyAt(legs[i := leg]) <==>
              s in leg.early || exists j :: 0 <= j < |legs| && j != i && s in legs[j].early
    ensures s in EarlyAt(legs) <==> s in legs[i].early || exists j :: 0 <= j < |legs| && j != i && s in legs[j].early
  {
    var next := legs[i := leg];
    if s in leg.early { assert s in next[i].early; }
    if j :| 0 <= j < |legs| && j != i && s in legs[j].early { assert s in next[j].early; }
  }

  /** Legs change without a chunk being lost or made up at any of them. */
  lemma LegsKeep(w: World, legs: seq<Leg>, arrived: set<nat>)
    requires Inv(w) && legs != []
    requires forall s :: s in arrived ==> s in w.arrived || s in EarlyAt(legs)
    requires forall s :: s in EarlyAt(w.legs) ==> s in EarlyAt(legs)
    requires forall s :: s in EarlyAt(legs) ==> s < |w.chunks|
    ensures Inv(w.(legs := legs, arrived := arrived))
  {
    hide Join, EarlyAt, InOrder, Accounted;
  }

  lemma SameEarly(legs: seq<Leg>, i: nat, leg: Leg)
    requires i < |legs| && leg.early == legs[i].early
    ensures EarlyAt(legs[i := leg]) == EarlyAt(legs)
  {
    hide EarlyAt;
    forall s: nat ensures s in EarlyAt(legs[i := leg]) <==> s in EarlyAt(legs) {
      EarlyOf(legs, i, leg, s);
    }
  }

  lemma ArriveKeeps(w: World, leg: nat, s: nat)
    requires Inv(w) && Enabled(w, Arrive(leg, s))
    ensures Inv(Step(w, Arrive(leg, s)))
  {
    hide Join, EarlyAt, InOrder, Accounted, Push;
    if w.legs[leg].closed {
    } else if !w.legs[leg].hooked {
      var more := w.legs[leg].(early := w.legs[leg].early + [s]);
      MemberAppend(w.legs[leg].early, s);
      var legs := w.legs[leg := more];
      forall k: nat ensures k in EarlyAt(legs) <==> k in EarlyAt(w.legs) || k == s {
        EarlyOf(w.legs, leg, more, k);
      }
      LegsKeep(w, legs, w.arrived + {s});
    } else {
      PushedKeeps(w, Step(w, Arrive(leg, s)), s);
    }
  }

  lemma FirstAndRest<T>(s: seq<T>)
    requires s != []
    ensures forall x :: x in s <==> x == s[0] || x in s[1..]
  {
    assert s == [s[0]] + s[1..];
  }

  lemma ReplayKeeps(w: World, leg: nat)
    requires Inv(w) && Enabled(w, Replay(leg))
    ensures Inv(Step(w, Replay(leg)))
  {
    hide Join, EarlyAt, InOrder, Accounted, Push;
    var early := w.legs[leg].early;
    var s := early[0];
    var fewer := w.legs[leg].(early := early[1..]);
    var legs := w.legs[leg := fewer];
    FirstAndRest(early);
    EarlyOf(w.legs, leg, fewer, s);
    forall k: nat
      ensures (k in EarlyAt(w.legs) ==> k in EarlyAt(legs) || k == s) && (k in EarlyAt(legs) ==> k in EarlyAt(w.legs)) {
      EarlyOf(w.legs, leg, fewer, k);
    }
    var x := Step(w, Replay(leg));
    assert x.legs == legs;
    PushedKeeps(w, x, s);
  }

  lemma ReadKeeps(w: World, n: nat)
    requires Inv(w)
    ensures Inv(Step(w, ReadSome(n)))
  {
    hide Join, EarlyAt, Accounted;
    var r := w.reassembly;
    var k := if n < |r.ready| then n else |r.ready|;
    Associative(w.taken, r.ready[..k], r.ready[k..]);
    assert r.ready == r.ready[..k] + r.ready[k..];
    assert w.taken + [] == w.taken;
    assert Accounted(Step(w, ReadSome(n)).reassembly, w.pushed)
        by { AccountedSame(r, Step(w, ReadSome(n)).reassembly, w.pushed); }
  }

  lemma AccountedSame(r: Reassembly, x: Reassembly, pushed: set<nat>)
    requires Accounted(r, pushed) && x == r.(ready := x.ready)
    ensures Accounted(x, pushed)
  {
  }

  lemma StepKeeps(w: World, e: Event)
    requires Enabled(w, e) && Inv(w)
    ensures Inv(Step(w, e))
  {
    match e
    case Write(p, cut) => WriteKeeps(w, p, cut);
    case Arrive(leg, s) => ArriveKeeps(w, leg, s);
    case Attach(leg) =>
      SameEarly(w.legs, leg, w.legs[leg].(hooked := true));
      hide EarlyAt, Join, InOrder, Accounted;
    case Replay(leg) => ReplayKeeps(w, leg);
    case CloseLeg(leg) =>
      SameEarly(w.legs, leg, w.legs[leg].(closed := true));
      hide EarlyAt, Join, InOrder, Accounted;
    case CloseReassembler => hide EarlyAt, Join;
    case ReadSome(n) => ReadKeeps(w, n);
  }

  ghost predicate Steps(w: World, e: Event, x: World) { Enabled(w, e) && x == Step(w, e) }

  ghost predicate Run(legs: nat, ws: seq<World>, es: seq<Event>) {
    && legs > 0
    && |ws| == |es| + 1
    && ws[0] == Start(legs)
    && forall i, j :: 0 <= i && j == i + 1 < |ws| ==> Steps(ws[i], es[i], ws[j])
  }

  lemma {:induction false} RunKeeps(legs: nat, ws: seq<World>, es: seq<Event>, n: nat)
    requires Run(legs, ws, es) && n < |ws|
    ensures Inv(ws[n])
  {
    if n == 0 {
      assert Join(ws[0].chunks[..0]) == [];
    } else {
      hide Inv, Step, Enabled;
      var m := n - 1;
      RunKeeps(legs, ws, es, m);
      assert Steps(ws[m], es[m], ws[n]);
      StepKeeps(ws[m], es[m]);
    }
  }

  // ---- The results -------------------------------------------------------------------------

  /** In every run the reader has got a prefix of what was written. */
  lemma ReaderGetsPrefix(legs: nat, ws: seq<World>, es: seq<Event>, n: nat)
    requires Run(legs, ws, es) && n < |ws|
    ensures ws[n].taken + ws[n].reassembly.ready <= ws[n].written
    ensures ws[n].taken <= ws[n].written
  {
    RunKeeps(legs, ws, es, n);
    var w := ws[n];
    JoinPrefix(w.chunks, w.reassembly.next);
    hide Run, Join, Accounted, EarlyAt;
  }

  /** Once every chunk has arrived and no leg holds one back, all that was written is with the reader,
      unless something was closed or the reorder buffer overflowed. */
  lemma EverythingArrives(legs: nat, ws: seq<World>, es: seq<Event>, n: nat)
    requires Run(legs, ws, es) && n < |ws| && !ws[n].reassembly.closed && !ws[n].reassembly.overflow
    requires forall s :: 0 <= s < |ws[n].chunks| ==> s in ws[n].arrived
    requires forall i :: 0 <= i < |ws[n].legs| ==> ws[n].legs[i].early == []
    ensures ws[n].taken + ws[n].reassembly.ready == ws[n].written
  {
    RunKeeps(legs, ws, es, n);
    var w := ws[n];
    hide Run, Join;
    assert EarlyAt(w.legs) == {};
    if w.reassembly.next < |w.chunks| {
      NextIsMissing(w);
    }
    assert w.chunks[..|w.chunks|] == w.chunks;
  }

  /** The next chunk is never in the reorder buffer. */
  lemma NextIsMissing(w: World)
    requires Inv(w) && w.reassembly.next < |w.chunks| && !w.reassembly.closed && !w.reassembly.overflow
    ensures w.reassembly.next !in w.pushed
  {
    hide Join, EarlyAt;
  }

  /** The reorder buffer never holds the next chunk and never more than its limit. */
  lemma BufferIsBounded(legs: nat, ws: seq<World>, es: seq<Event>, n: nat)
    requires Run(legs, ws, es) && n < |ws|
    ensures ws[n].reassembly.next !in ws[n].reassembly.pending && |ws[n].reassembly.pending| <= MAX_PENDING
  {
    RunKeeps(legs, ws, es, n);
    hide Run, Join, EarlyAt;
  }
}
