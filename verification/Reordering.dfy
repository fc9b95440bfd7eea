/** Numbered chunks put back in order. */
module Reordering {
  import opened Sequences
  import opened Bytes

  type Chunk = seq<byte>

  // ---- Chunks end to end -------------------------------------------------------------------

  lemma {:induction false} JoinConcat(a: seq<Chunk>, b: seq<Chunk>)
    ensures Join(a + b) == Join(a) + Join(b)
  {
    if a == [] {
      assert a + b == b;
    } else {
      JoinConcat(a[1..], b);
      assert (a + b)[1..] == a[1..] + b;
      Associative(a[0], Join(a[1..]), Join(b));
    }
  }

  lemma JoinOne(c: Chunk)
    ensures Join([c]) == c
  {
    assert [c][1..] == [];
  }

  lemma JoinSlices(chunks: seq<Chunk>, i: nat, j: nat)
    requires i <= j <= |chunks|
    ensures Join(chunks[..j]) == Join(chunks[..i]) + Join(chunks[i..j])
  {
    assert chunks[..j] == chunks[..i] + chunks[i..j];
    JoinConcat(chunks[..i], chunks[i..j]);
  }

  lemma JoinPrefix(chunks: seq<Chunk>, i: nat)
    requires i <= |chunks|
    ensures Join(chunks[..i]) <= Join(chunks)
  {
    JoinSlices(chunks, i, |chunks|);
    assert chunks[..|chunks|] == chunks;
  }

  // ---- Draining ----------------------------------------------------------------------------

  datatype Release = Release(next: nat, pending: map<nat, Chunk>, bytes: seq<byte>)

  /** Takes the chunks that follow without a gap. */
  function Drain(next: nat, pending: map<nat, Chunk>): (r: Release)
    decreases |pending|
  {
    if next !in pending then Release(next, pending, [])
    else
      Smaller(pending, next);
      var r := Drain(next + 1, pending - {next});
      Release(r.next, r.pending, pending[next] + r.bytes)
  }

  lemma Smaller<K, V>(m: map<K, V>, k: K)
    requires k in m
    ensures |m - {k}| < |m|
  {
    assert (m - {k}).Keys == m.Keys - {k};
  }

  /** What waits are chunks of the stream that are not due yet. */
  ghost predicate Waiting(pending: map<nat, Chunk>, chunks: seq<Chunk>, next: nat) {
    forall s :: s in pending ==> next <= s < |chunks| && pending[s] == chunks[s]
  }

  /** Draining releases exactly the next chunks and leaves those behind the first gap. */
  lemma {:induction false} DrainReleases(next: nat, pending: map<nat, Chunk>, chunks: seq<Chunk>)
    requires Waiting(pending, chunks, next) && next <= |chunks|
    ensures var r := Drain(next, pending);
            && next <= r.next <= |chunks|
            && r.bytes == Join(chunks[next..r.next])
            && r.next !in r.pending && Waiting(r.pending, chunks, r.next)
            && |r.pending| <= |pending|
            && forall s :: s in pending ==> s < r.next || s in r.pending
    decreases |pending|
  {
    assert Join(chunks[next..next]) == [];
    hide Join;
    if next in pending {
      Smaller(pending, next);
      DrainReleases(next + 1, pending - {next}, chunks);
      var r := Drain(next + 1, pending - {next});
      JoinNext(chunks, next, r.next);
    }
  }

  /** Draining moves on only over chunks that wait, and makes none up. */
  lemma {:induction false} DrainKnown(next: nat, pending: map<nat, Chunk>, s: nat)
    ensures var r := Drain(next, pending);
            && next <= r.next
            && (next <= s < r.next ==> s in pending)
            && (s in r.pending ==> s in pending && r.pending[s] == pending[s])
    decreases |pending|
  {
    if next in pending {
      Smaller(pending, next);
      DrainKnown(next + 1, pending - {next}, s);
    }
  }

  lemma JoinNext(chunks: seq<Chunk>, i: nat, j: nat)
    requires i < j <= |chunks|
    ensures Join(chunks[i..j]) == chunks[i] + Join(chunks[i + 1..j])
  {
    assert chunks[i..j][1..] == chunks[i + 1..j];
  }

  /** What a reader has got and will get grows by exactly the chunks that are released. */
  lemma BytesGrow(chunks: seq<Chunk>, taken: seq<byte>, buf: seq<byte>, next: nat, end: nat)
    requires next < end <= |chunks| && taken + buf == Join(chunks[..next])
    ensures taken + (buf + chunks[next] + Join(chunks[next + 1..end])) == Join(chunks[..end])
  {
    hide Join;
    var data, bytes := chunks[next], Join(chunks[next + 1..end]);
    JoinSlices(chunks, next, end);
    JoinNext(chunks, next, end);
    assert buf + data + bytes == buf + (data + bytes);
    Associative(taken, buf, data + bytes);
  }

  /** The loop that moves chunks from the waiting map to the reader's buffer. */
  method DrainInto(next0: nat, pending0: map<nat, Chunk>, ready0: seq<byte>)
    returns (next: nat, pending: map<nat, Chunk>, ready: seq<byte>)
    ensures var r := Drain(next0, pending0); next == r.next && pending == r.pending && ready == ready0 + r.bytes
  {
    next, pending, ready := next0, pending0, ready0;
    while next in pending
      invariant Drain(next0, pending0).next == Drain(next, pending).next
      invariant Drain(next0, pending0).pending == Drain(next, pending).pending
      invariant ready + Drain(next, pending).bytes == ready0 + Drain(next0, pending0).bytes
      decreases |pending|
    {
      Smaller(pending, next);
      Associative(ready, pending[next], Drain(next + 1, pending - {next}).bytes);
      ready := ready + pending[next];
      pending := pending - {next};
      next := next + 1;
    }
  }

  // ---- Cutting what is written -------------------------------------------------------------

  /** A write as chunks of a given size: none is empty and together they are the write. */
  ghost predicate IsCut(chunks: seq<Chunk>, p: seq<byte>, size: nat) {
    && Join(chunks) == p
    && (forall i :: 0 <= i < |chunks| ==> 0 < |chunks[i]| <= size)
    && (forall i :: 0 <= i < |chunks| - 1 ==> |chunks[i]| == size)
  }

  method CutWrite(p: seq<byte>, size: nat) returns (chunks: seq<Chunk>)
    requires size > 0
    ensures IsCut(chunks, p, size)
  {
    chunks := [];
    var rest := p;
    assert Join(chunks) == [];
    hide Join;
    while |rest| > 0
      invariant Join(chunks) + rest == p
      invariant forall i :: 0 <= i < |chunks| ==> 0 < |chunks[i]| <= size
      invariant rest != [] ==> forall i :: 0 <= i < |chunks| ==> |chunks[i]| == size
      invariant forall i :: 0 <= i < |chunks| - 1 ==> |chunks[i]| == size
    {
      var chunk := if |rest| > size then rest[..size] else rest;
      JoinConcat(chunks, [chunk]);
      JoinOne(chunk);
      Associative(Join(chunks), chunk, rest[|chunk|..]);
      assert rest == chunk + rest[|chunk|..];
      chunks := chunks + [chunk];
      rest := rest[|chunk|..];
    }
  }
}
