/** A tunnel stream: numbered chunks, and a CLOSE that says how many there are. */
module TunnelStream {
  import opened Sequences
  import opened Bytes
  import opened Reordering

  datatype Stream = Stream(expected: nat, reorder: map<nat, Chunk>, buf: seq<byte>, closed: bool, final: Option<nat>)

  const NEW := Stream(0, map[], [], false, None)

  predicate Reached(st: Stream) { st.final.Some? && st.expected >= st.final.value }

  /** A chunk, and whether it completes a stream that is to be closed. */
  function Deliver(st: Stream, s: nat, data: Chunk): (r: (Stream, bool)) {
    if data == [] || st.closed || s < st.expected then (st, false)
    else
      var x :=
        if s == st.expected then
          var d := Drain(st.expected + 1, st.reorder);
          st.(expected := d.next, reorder := d.pending, buf := st.buf + data + d.bytes)
        else st.(reorder := st.reorder[s := data]);
      (x, Reached(x))
  }

  function DeliverClose(st: Stream, final: nat): (r: (Stream, bool)) {
    var x := st.(final := Some(final));
    (x, Reached(x))
  }

  datatype Read = Bytes(bytes: seq<byte>) | End | Blocks

  function ReadUpTo(st: Stream, n: nat): (r: (Stream, Read)) {
    var k := if n < |st.buf| then n else |st.buf|;
    if st.buf != [] then (st.(buf := st.buf[k..]), Bytes(st.buf[..k]))
    else if st.closed then (st, End)
    else (st, Blocks)
  }

  /** The object. */
  class TunnelStream {
    var expected: nat
    var reorder: map<nat, Chunk>
    var buf: seq<byte>
    var closed: bool
    var final: Option<nat>

    ghost function View(): (st: Stream)
      reads this
    {
      Stream(expected, reorder, buf, closed, final)
    }

    constructor ()
      ensures View() == NEW
    {
      expected, reorder, buf, closed, final := 0, map[], [], false, None;
    }

    method DeliverData(s: nat, data: Chunk)
      modifies this
      ensures var (st, reached) := Deliver(old(View()), s, data); View() == st.(closed := st.closed || reached)
    {
      if data == [] { return; }
      if closed { return; }
      if s < expected { return; }
      if s == expected {
        buf := buf + data;
        expected := expected + 1;
        expected, reorder, buf := DrainInto(expected, reorder, buf);
      } else {
        reorder := reorder[s := data];
      }
      if final.Some? && expected >= final.value { FinishClose(); }
    }

    method DeliverEnd(finalSeq: nat)
      modifies this
      ensures var (st, reached) := DeliverClose(old(View()), finalSeq); View() == st.(closed := st.closed || reached)
    {
      final := Some(finalSeq);
      if expected >= finalSeq { FinishClose(); }
    }

    method FinishClose()
      modifies this`closed
      ensures closed
    {
      closed := true;
    }

    method ReadBytes(n: nat) returns (r: Read)
      modifies this
      ensures (View(), r) == ReadUpTo(old(View()), n)
    {
      if |buf| > 0 {
        var k := if n < |buf| then n else |buf|;
        r := Bytes(buf[..k]);
        buf := buf[k..];
        return;
      }
      if closed { return End; }
      r := Blocks;
    }
  }

  // ---- A stream and its peer ---------------------------------------------------------------

  /** `finishing` is a close that was decided under the lock and not carried out yet. */
  datatype World = World(
    chunks: seq<Chunk>,
    written: seq<byte>,
    closeSent: bool,
    stream: Stream,
    finishing: bool,
    taken: seq<byte>,
    ended: bool,
    arrived: set<nat>)

  datatype Event =
    | Write(p: seq<byte>, cut: seq<Chunk>, size: nat)
    | SendClose
    | ArriveData(s: nat)
    | ArriveClose
    | Finish
    | ReadSome(n: nat)

  /** The peer closes after its last write; the CLOSE and every chunk arrive at any time, any number of
      times, in any order. */
  ghost predicate Enabled(w: World, e: Event) {
    match e
    case Write(p, cut, size) => !w.closeSent && IsCut(cut, p, size)
    case SendClose => true
    case ArriveData(s) => s < |w.chunks|
    case ArriveClose => w.closeSent
    case Finish => w.finishing
    case ReadSome(_) => true
  }

  ghost function Step(w: World, e: Event): (x: World)
    requires Enabled(w, e)
  {
    match e
    case Write(p, cut, _) => w.(chunks := w.chunks + cut, written := w.written + p)
    case SendClose => w.(closeSent := true)
    case ArriveData(s) =>
      var (st, reached) := Deliver(w.stream, s, w.chunks[s]);
      w.(stream := st, finishing := w.finishing || reached, arrived := w.arrived + {s})
    case ArriveClose =>
      var (st, reached) := DeliverClose(w.stream, |w.chunks|);
      w.(stream := st, finishing := w.finishing || reached)
    case Finish => w.(stream := w.stream.(closed := true))
    case ReadSome(n) =>
      var (st, got) := ReadUpTo(w.stream, n);
      w.(stream := st, taken := w.taken + (if got.Bytes? then got.bytes else []), ended := w.ended || got.End?)
  }

  const START := World([], [], false, NEW, false, [], false, {})

  ghost predicate InOrder(chunks: seq<Chunk>, st: Stream, taken: seq<byte>) {
    && st.expected <= |chunks|
    && taken + st.buf == Join(chunks[..st.expected])
    && Waiting(st.reorder, chunks, st.expected)
    && st.expected !in st.reorder
  }

  /** The end is known only once it is fixed; a close means that everything was received. */
  ghost predicate Ending(w: World) {
    && (w.stream.final.Some? ==> w.closeSent && w.stream.final.value == |w.chunks|)
    && (w.finishing || w.stream.closed ==> w.closeSent && w.stream.expected == |w.chunks|)
    && (Reached(w.stream) ==> w.finishing || w.stream.closed)
    && (w.ended ==> w.stream.closed && w.stream.buf == [])
  }

  ghost predicate Inv(w: World) {
    && Join(w.chunks) == w.written
    && (forall i :: 0 <= i < |w.chunks| ==> w.chunks[i] != [])
    && InOrder(w.chunks, w.stream, w.taken)
    && Ending(w)
    && forall s :: s in w.arrived ==> s < w.stream.expected || s in w.stream.reorder
  }

  lemma DeliverKeepsOrder(chunks: seq<Chunk>, st: Stream, taken: seq<byte>, s: nat)
    requires InOrder(chunks, st, taken) && s < |chunks| && chunks[s] != []
    ensures var (x, reached) := Deliver(st, s, chunks[s]);
            && InOrder(chunks, x, taken) && x.closed == st.closed && x.final == st.final && st.expected <= x.expected
            && (!st.closed ==> s < x.expected || s in x.reorder)
            && (forall k :: k in st.reorder ==> k < x.expected || k in x.reorder)
            && (reached ==> Reached(x)) && (Reached(x) ==> reached || Reached(st))
            && (st.closed ==> x == st)
  {
    hide Join, Drain;
    if !st.closed && s == st.expected {
      DrainReleases(st.expected + 1, st.reorder, chunks);
      BytesGrow(chunks, taken, st.buf, st.expected, Drain(st.expected + 1, st.reorder).next);
    }
  }

  lemma WriteKeeps(w: World, e: Event)
    requires Inv(w) && e.Write? && Enabled(w, e)
    ensures Inv(Step(w, e))
  {
    hide Join;
    var all := w.chunks + e.cut;
    JoinConcat(w.chunks, e.cut);
    assert all[..w.stream.expected] == w.chunks[..w.stream.expected];
    assert forall i :: 0 <= i < |w.chunks| ==> all[i] == w.chunks[i];
    assert forall i :: |w.chunks| <= i < |all| ==> all[i] == e.cut[i - |w.chunks|];
  }

  lemma ReadKeeps(w: World, n: nat)
    requires Inv(w)
    ensures Inv(Step(w, ReadSome(n)))
  {
    hide Join;
    var st := w.stream;
    var k := if n < |st.buf| then n else |st.buf|;
    Associative(w.taken, st.buf[..k], st.buf[k..]);
    assert st.buf == st.buf[..k] + st.buf[k..];
    assert w.taken + [] == w.taken;
  }

  lemma StepKeeps(w: World, e: Event)
    requires Enabled(w, e) && Inv(w)
    ensures Inv(Step(w, e))
  {
    hide Join;
    match e
    case Write(_, _, _) => WriteKeeps(w, e);
    case ArriveData(s) =>
      DeliverKeepsOrder(w.chunks, w.stream, w.taken, s);
      hide InOrder, Deliver;
    case ReadSome(n) => ReadKeeps(w, n);
    case _ =>
  }

  ghost predicate Steps(w: World, e: Event, x: World) { Enabled(w, e) && x == Step(w, e) }

  ghost predicate Run(ws: seq<World>, es: seq<Event>) {
    && |ws| == |es| + 1
    && ws[0] == START
    && forall i, j :: 0 <= i && j == i + 1 < |ws| ==> Steps(ws[i], es[i], ws[j])
  }

  lemma {:induction false} RunKeeps(ws: seq<World>, es: seq<Event>, n: nat)
    requires Run(ws, es) && n < |ws|
    ensures Inv(ws[n])
  {
    if n == 0 {
      assert Join(ws[0].chunks[..0]) == [];
    } else {
      hide Inv, Step, Enabled;
      var m := n - 1;
      RunKeeps(ws, es, m);
      assert Steps(ws[m], es[m], ws[n]);
      StepKeeps(ws[m], es[m]);
    }
  }

  // ---- The results -------------------------------------------------------------------------

  /** In every run the reader has got a prefix of what was written, and when it sees the end it has got
      everything, and nothing more will be written. */
  lemma EndMeansAll(ws: seq<World>, es: seq<Event>, n: nat)
    requires Run(ws, es) && n < |ws|
    ensures ws[n].taken <= ws[n].written
    ensures ws[n].ended ==> ws[n].taken == ws[n].written && ws[n].closeSent
  {
    RunKeeps(ws, es, n);
    var w := ws[n];
    JoinPrefix(w.chunks, w.stream.expected);
    assert w.chunks[..|w.chunks|] == w.chunks;
    hide Run, Join;
  }

  /** The stream closes only after every chunk was put into the reader's buffer. */
  lemma ClosedMeansReceived(ws: seq<World>, es: seq<Event>, n: nat)
    requires Run(ws, es) && n < |ws| && ws[n].stream.closed
    ensures ws[n].taken + ws[n].stream.buf == ws[n].written
  {
    RunKeeps(ws, es, n);
    var w := ws[n];
    assert w.chunks[..|w.chunks|] == w.chunks;
    hide Run, Join;
  }

  /** A CLOSE that has arrived is not forgotten. */
  lemma {:induction false} CloseIsNoted(ws: seq<World>, es: seq<Event>, m: nat, n: nat)
    requires Run(ws, es) && m < n < |ws| && es[m] == ArriveClose
    ensures ws[n].stream.final.Some?
    decreases n
  {
    var k := n - 1;
    assert Steps(ws[k], es[k], ws[n]);
    if m < k { CloseIsNoted(ws, es, m, k); }
    hide Run, Drain, IsCut;
  }

  /** Once the CLOSE and every chunk have arrived, in whatever order, the close is decided. */
  lemma ArrivedMeansClosing(ws: seq<World>, es: seq<Event>, m: nat, n: nat)
    requires Run(ws, es) && m < n < |ws| && es[m] == ArriveClose
    requires forall s :: 0 <= s < |ws[n].chunks| ==> s in ws[n].arrived
    ensures ws[n].finishing || ws[n].stream.closed
    ensures ws[n].taken + ws[n].stream.buf == ws[n].written
  {
    CloseIsNoted(ws, es, m, n);
    RunKeeps(ws, es, n);
    var w := ws[n];
    assert w.chunks[..|w.chunks|] == w.chunks;
    hide Run, Join;
    assert w.stream.expected < |w.chunks| ==> w.stream.expected in w.arrived;
  }

  // ---- Exactly what is delivered -----------------------------------------------------------

  /** Only chunks that arrived are delivered or wait. */
  ghost predicate Known(st: Stream, arrived: set<nat>) {
    && (forall s: nat :: s < st.expected ==> s in arrived)
    && forall s :: s in st.reorder ==> s in arrived
  }

  lemma DeliverKnown(st: Stream, s: nat, data: Chunk, arrived: set<nat>)
    requires Known(st, arrived)
    ensures Known(Deliver(st, s, data).0, arrived + {s})
  {
    hide Drain;
    if s == st.expected {
      forall k: nat ensures var d := Drain(st.expected + 1, st.reorder);
                            && st.expected + 1 <= d.next
                            && (st.expected + 1 <= k < d.next ==> k in st.reorder)
                            && (k in d.pending ==> k in st.reorder) {
        DrainKnown(st.expected + 1, st.reorder, k);
      }
    }
  }

  lemma {:induction false} RunKnown(ws: seq<World>, es: seq<Event>, n: nat)
    requires Run(ws, es) && n < |ws|
    ensures Known(ws[n].stream, ws[n].arrived)
  {
    if n > 0 {
      var m := n - 1;
      RunKnown(ws, es, m);
      assert Steps(ws[m], es[m], ws[n]);
      hide Run, Deliver, IsCut;
      if es[m].ArriveData? { DeliverKnown(ws[m].stream, es[m].s, ws[m].chunks[es[m].s], ws[m].arrived); }
    }
  }

  /** In every run the reader has or may have exactly the chunks before the first one that did not arrive, and exactly
      those behind it that arrived wait. */
  lemma UpToTheGap(ws: seq<World>, es: seq<Event>, n: nat)
    requires Run(ws, es) && n < |ws|
    ensures var w, st := ws[n], ws[n].stream;
            && (forall s: nat :: s < st.expected ==> s in w.arrived) && st.expected !in w.arrived
            && st.expected <= |w.chunks| && w.taken + st.buf == Join(w.chunks[..st.expected])
            && (forall s: nat :: s in st.reorder <==> s in w.arrived && s > st.expected)
            && forall s :: s in st.reorder ==> s < |w.chunks| && st.reorder[s] == w.chunks[s]
  {
    RunKeeps(ws, es, n);
    RunKnown(ws, es, n);
    hide Run, Join, Ending;
  }

  /** A read takes exactly the first bytes there are, as many as there is room for; without any it is told of the end
      exactly when the stream is closed. */
  lemma ReadsExactly(w: World, n: nat)
    ensures var st, x, got := w.stream, Step(w, ReadSome(n)), ReadUpTo(w.stream, n).1;
            && w.taken + st.buf == x.taken + x.stream.buf && x.stream == st.(buf := x.stream.buf)
            && |x.taken| - |w.taken| == (if n < |st.buf| then n else |st.buf|)
            && w.taken <= x.taken && (got.Bytes? ==> x.taken == w.taken + got.bytes)
            && (got.Bytes? <==> st.buf != []) && (got.End? <==> st.buf == [] && st.closed)
            && x.ended == (w.ended || (st.buf == [] && st.closed))
  {
    var st := w.stream;
    var k := if n < |st.buf| then n else |st.buf|;
    Associative(w.taken, st.buf[..k], st.buf[k..]);
    assert st.buf == st.buf[..k] + st.buf[k..];
  }
}
