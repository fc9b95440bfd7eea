/** What a file that replay accepts looks like, byte by byte: the header, frames each of which carries the
    digest of the one before it and its own, and at most a tail that no frame is complete in. */
module LogIntegrity {
  import opened Sequences
  import opened Bytes
  import opened WriteAheadLog
  import opened LogReplay

  /** What a frame is about. */
  datatype Piece = Piece(kind: byte, payload: seq<byte>)

  /** The digest at the end of a chain of frames. */
  function ChainEnd(c: Codec, ps: seq<Piece>): (d: Digest) {
    if ps == [] then ZERO_DIGEST
    else
      var n := |ps| - 1;
      c.digest(ps[n].kind, ChainEnd(c, ps[..n]), ps[n].payload)
  }

  /** A frame as the format lays it out: the length of the rest, the kind, the digest before it, the payload
      and the digest of these. */
  function Laid(c: Codec, p: Piece, previous: Digest): (b: seq<byte>) {
    BigEndian(1 + 32 + |p.payload| + 32, 4) + [p.kind] + previous + p.payload + c.digest(p.kind, previous, p.payload)
  }

  function FileOf(c: Codec, ps: seq<Piece>): (data: seq<byte>) {
    if ps == [] then HEADER
    else
      var n := |ps| - 1;
      FileOf(c, ps[..n]) + Laid(c, ps[n], ChainEnd(c, ps[..n]))
  }

  /** What frames mean, one after the other. */
  function MeaningOf(c: Codec, l: Limits, ps: seq<Piece>): (r: Option<Log>) {
    if ps == [] then Some(EMPTY_LOG)
    else
      var n := |ps| - 1;
      match MeaningOf(c, l, ps[..n])
      case None => None
      case Some(log) => Extend(c, l, log, ps[n].kind, ps[n].payload)
  }

  /** The length of the rest of a frame is one the limits allow. */
  predicate Allowed(l: Limits, length: nat) {
    65 <= length <= 0xFFFF_FFFF && (length <= 65 + l.maxBytes || length <= 65 + 32)
  }

  predicate AllAllowed(l: Limits, ps: seq<Piece>) {
    forall i :: 0 <= i < |ps| ==> Allowed(l, 65 + |ps[i].payload|)
  }

  /** No frame is complete here, and nothing is wrong with what is there. */
  predicate Unfinished(l: Limits, tail: seq<byte>) {
    |tail| < 4 || var length := FromBigEndian(tail[..4]); Allowed(l, length) && |tail| < 4 + length
  }

  ghost predicate Intact(c: Codec, l: Limits, data: seq<byte>, ps: seq<Piece>, log: Log) {
    && FileOf(c, ps) <= data && |FileOf(c, ps)| == log.size && AllAllowed(l, ps)
    && MeaningOf(c, l, ps) == Some(log) && log.lastHash == ChainEnd(c, ps)
    && Unfinished(l, data[|FileOf(c, ps)|..])
  }

  lemma BodyBound(l: Limits, n: nat)
    ensures FIXED_BODY <= n <= MaxBody(l) <==> Allowed(l, n)
  {
  }

  lemma LastPiece(c: Codec, l: Limits, ps: seq<Piece>, p: Piece)
    ensures var more := ps + [p];
            && ChainEnd(c, more) == c.digest(p.kind, ChainEnd(c, ps), p.payload)
            && FileOf(c, more) == FileOf(c, ps) + Laid(c, p, ChainEnd(c, ps))
            && (MeaningOf(c, l, ps).Some? ==>
                  MeaningOf(c, l, more) == Extend(c, l, MeaningOf(c, l, ps).value, p.kind, p.payload))
  {
    assert (ps + [p])[..|ps|] == ps;
  }

  lemma FrameIsWritten(l: Limits, data: seq<byte>, cursor: nat)
    requires cursor <= |data| && FrameAt(l, data, cursor).Frame?
    ensures var f := FrameAt(l, data, cursor);
            data[..f.end] ==
              data[..cursor] + (BigEndian(65 + |f.payload|, 4) + [f.kind] + f.previous + f.payload + f.stored)
  {
    var f := FrameAt(l, data, cursor);
    BigEndianWritesBack(data[cursor..cursor + 4]);
    assert FromBigEndian(data[cursor..cursor + 4]) == 65 + |f.payload|;
    var whole := data[cursor..cursor + 4] + [f.kind] + f.previous + f.payload + f.stored;
    assert data[..f.end] == data[..cursor] + whole;
  }

  lemma ShortIsUnfinished(l: Limits, data: seq<byte>, cursor: nat)
    requires cursor <= |data|
    ensures FrameAt(l, data, cursor) == Short <==> Unfinished(l, data[cursor..])
  {
    if |data| - cursor >= 4 {
      assert data[cursor..][..4] == data[cursor..cursor + 4];
      BodyBound(l, FromBigEndian(data[cursor..cursor + 4]));
    }
  }

  lemma {:induction false} PiecesFrom(c: Codec, l: Limits, data: seq<byte>, cursor: nat, log: Log, before: seq<Piece>)
    returns (ps: seq<Piece>)
    requires cursor <= |data| && log.size == cursor && ReplayFrom(c, l, data, cursor, log).Some?
    requires FileOf(c, before) == data[..cursor] && AllAllowed(l, before)
    requires MeaningOf(c, l, before) == Some(log) && log.lastHash == ChainEnd(c, before)
    ensures Intact(c, l, data, ps, ReplayFrom(c, l, data, cursor, log).value)
    decreases |data| - cursor
  {
    hide FrameAt, Extend, FileOf, MeaningOf, ChainEnd, Unfinished;
    match ReadFrame(c, l, data, cursor, log)
    case Torn =>
      ps := before;
      ShortIsUnfinished(l, data, cursor);
    case Corrupt =>
    case Whole(next, end) =>
      var f := FrameAt(l, data, cursor);
      var p := Piece(f.kind, f.payload);
      LastPiece(c, l, before, p);
      FrameIsWritten(l, data, cursor);
      BodyBound(l, 65 + |f.payload|);
      assert Extend(c, l, log, f.kind, f.payload) == Some(next);
      ExtendHash(c, l, log, f.kind, f.payload);
      ps := PiecesFrom(c, l, data, end, next, before + [p]);
  }

  lemma ExtendHash(c: Codec, l: Limits, log: Log, kind: byte, payload: seq<byte>)
    requires Extend(c, l, log, kind, payload).Some?
    ensures var r := Extend(c, l, log, kind, payload).value;
            r.lastHash == c.digest(kind, log.lastHash, payload) && r.size == log.size + 69 + |payload|
  {
    hide Apply;
  }

  lemma {:induction false} PiecesReplay(c: Codec, l: Limits, ps: seq<Piece>)
    requires AllAllowed(l, ps) && MeaningOf(c, l, ps).Some?
    ensures Complete(c, l, FileOf(c, ps)) && Replay(c, l, FileOf(c, ps)) == MeaningOf(c, l, ps)
    ensures MeaningOf(c, l, ps).value.lastHash == ChainEnd(c, ps) && MeaningOf(c, l, ps).value.size == |FileOf(c, ps)|
  {
    if ps == [] {
      assert HEADER[..HEADER_SIZE] == HEADER;
      assert ReadFrame(c, l, HEADER, HEADER_SIZE, EMPTY_LOG) == Torn;
    } else {
      var n := |ps| - 1;
      PiecesReplay(c, l, ps[..n]);
      var log := MeaningOf(c, l, ps[..n]).value;
      hide Extend, Replay;
      ExtendHash(c, l, log, ps[n].kind, ps[n].payload);
      assert Allowed(l, 65 + |ps[n].payload|);
      BodyBound(l, 65 + |ps[n].payload|);
      AppendExtends(c, l, FileOf(c, ps[..n]), ps[n].kind, ps[n].payload);
    }
  }

  /** Replay accepts a file exactly when it is the header, frames chained by their digests whose steps all make
      sense, and a tail in which no frame is complete; the log is what the frames mean. */
  lemma IntactExactly(c: Codec, l: Limits, data: seq<byte>, log: Log)
    ensures Replay(c, l, data) == Some(log) <==> exists ps :: Intact(c, l, data, ps, log)
  {
    if Replay(c, l, data) == Some(log) {
      var ps := PiecesFrom(c, l, data, HEADER_SIZE, EMPTY_LOG, []);
    }
    if ps :| Intact(c, l, data, ps, log) {
      IntactReplays(c, l, data, ps, log);
    }
  }

  lemma IntactReplays(c: Codec, l: Limits, data: seq<byte>, ps: seq<Piece>, log: Log)
    requires Intact(c, l, data, ps, log)
    ensures Replay(c, l, data) == Some(log)
  {
    hide MeaningOf, Unfinished, Replay, Extend, FrameAt, FileOf;
    PiecesReplay(c, l, ps);
    var file := FileOf(c, ps);
    var tail := data[|file|..];
    assert data == file + tail;
    ReplayAcross(c, l, file, tail);
    ShortIsUnfinished(l, data, |file|);
  }

  /** A complete file is nothing but its frames. */
  lemma CompleteIsPieces(c: Codec, l: Limits, data: seq<byte>) returns (ps: seq<Piece>)
    requires Complete(c, l, data)
    ensures data == FileOf(c, ps) && AllAllowed(l, ps) && MeaningOf(c, l, ps) == Replay(c, l, data)
  {
    var log := Replay(c, l, data).value;
    IntactExactly(c, l, data, log);
    ps :| Intact(c, l, data, ps, log);
    hide Replay, MeaningOf, FileOf, Unfinished, ChainEnd;
    assert data[..|data|] == data;
  }

  // ---- Damage ------------------------------------------------------------------------------

  lemma {:induction false} PiecesPrefix(c: Codec, l: Limits, ps: seq<Piece>, j: nat)
    requires j <= |ps| && AllAllowed(l, ps) && MeaningOf(c, l, ps).Some?
    ensures AllAllowed(l, ps[..j]) && MeaningOf(c, l, ps[..j]).Some? && FileOf(c, ps[..j]) <= FileOf(c, ps)
  {
    hide Extend, ChainEnd;
    if j == |ps| {
      assert ps[..j] == ps;
    } else {
      var n := |ps| - 1;
      PiecesPrefix(c, l, ps[..n], j);
      assert ps[..n][..j] == ps[..j];
    }
  }

  /** In whatever file follows the first frames of an accepted one, the next frame is read as corrupt if its kind,
      digest before it and payload are as they were and its own digest is not. */
  lemma WrongDigest(c: Codec, l: Limits, file: seq<byte>, log: Log, p: Piece, stored: Digest, rest: seq<byte>)
    requires Complete(c, l, file) && Replay(c, l, file) == Some(log) && Allowed(l, 65 + |p.payload|)
    requires stored != c.digest(p.kind, log.lastHash, p.payload)
    ensures var frame := BigEndian(65 + |p.payload|, 4) + [p.kind] + log.lastHash + p.payload + stored;
            Replay(c, l, file + (frame + rest)) == None
  {
    var head := BigEndian(65 + |p.payload|, 4) + [p.kind] + log.lastHash + p.payload;
    var data := file + (head + stored + rest);
    hide Replay, Extend;
    ReplayAcross(c, l, file, head + stored + rest);
    FrameReads(l, file, p, log.lastHash, stored, rest);
    hide FrameAt;
  }

  lemma FrameReads(l: Limits, file: seq<byte>, p: Piece, previous: Digest, stored: Digest, rest: seq<byte>)
    requires Allowed(l, 65 + |p.payload|)
    ensures var frame := BigEndian(65 + |p.payload|, 4) + [p.kind] + previous + p.payload + stored;
            FrameAt(l, file + (frame + rest), |file|) ==
              Frame(p.kind, previous, p.payload, stored, |file| + 69 + |p.payload|)
  {
    var length, n, k := BigEndian(65 + |p.payload|, 4), |file|, |p.payload|;
    var data := file + (length + [p.kind] + previous + p.payload + stored + rest);
    Capacities();
    BigEndianReadsBack(65 + k, 4);
    BodyBound(l, 65 + k);
    hide BigEndian, FromBigEndian, Allowed, MaxBody;
    assert data[n..n + 4] == length;
    assert data[n + 4] == p.kind;
    assert data[n + 5..n + 37] == previous;
    assert data[n + 37..n + 37 + k] == p.payload;
    assert data[n + 37 + k..n + 69 + k] == stored;
  }

  /** Two files that agree up to the last 32 bytes of a stretch and differ there. */
  lemma Swapped(file: seq<byte>, other: seq<byte>, start: seq<byte>, head: seq<byte>, digest: Digest, end: nat)
    requires end <= |file| && end <= |other| && file[..end] == start + (head + digest)
    requires other[..end - 32] == file[..end - 32] && other[end - 32..end] != file[end - 32..end]
    ensures other == start + ((head + other[end - 32..end]) + other[end..]) && other[end - 32..end] != digest
  {
    assert file[..end - 32] == file[..end][..end - 32] == start + head;
    assert file[end - 32..end] == file[..end][end - 32..] == digest;
    assert other == other[..end - 32] + other[end - 32..end] + other[end..];
  }

  /** Where a frame of a file lies. */
  lemma PieceLies(c: Codec, l: Limits, ps: seq<Piece>, j: nat)
    requires AllAllowed(l, ps) && MeaningOf(c, l, ps).Some? && j < |ps|
    ensures var start, end, log := FileOf(c, ps[..j]), |FileOf(c, ps[..j + 1])|, MeaningOf(c, l, ps[..j]);
            && log.Some? && Complete(c, l, start) && Replay(c, l, start) == log
            && end <= |FileOf(c, ps)| && FileOf(c, ps)[..end] == start + Laid(c, ps[j], log.value.lastHash)
  {
    hide MeaningOf, Replay, FileOf, Extend, ChainEnd, Laid, AllAllowed;
    PiecesPrefix(c, l, ps, j);
    PiecesPrefix(c, l, ps, j + 1);
    PiecesReplay(c, l, ps[..j]);
    assert ps[..j + 1] == ps[..j] + [ps[j]];
    LastPiece(c, l, ps[..j], ps[j]);
  }

  /** An accepted file in which the digest of any one frame is changed, whatever is behind it, is refused. */
  lemma DigestIsChecked(c: Codec, l: Limits, ps: seq<Piece>, j: nat, other: seq<byte>)
    requires AllAllowed(l, ps) && MeaningOf(c, l, ps).Some? && j < |ps|
    requires var file, end := FileOf(c, ps), |FileOf(c, ps[..j + 1])|;
             32 <= end <= |file| && end <= |other| && other[..end - 32] == file[..end - 32]
                 && other[end - 32..end] != file[end - 32..end]
    ensures Replay(c, l, other) == None
  {
    hide MeaningOf, Replay, FileOf, ChainEnd, BigEndian;
    PieceLies(c, l, ps, j);
    var start, p, file, end := FileOf(c, ps[..j]), ps[j], FileOf(c, ps), |FileOf(c, ps[..j + 1])|;
    var log := MeaningOf(c, l, ps[..j]).value;
    assert Allowed(l, 65 + |p.payload|);
    var head := BigEndian(65 + |p.payload|, 4) + [p.kind] + log.lastHash + p.payload;
    hide Complete;
    Swapped(file, other, start, head, c.digest(p.kind, log.lastHash, p.payload), end);
    WrongDigest(c, l, start, log, p, other[end - 32..end], other[end..]);
  }

  // ---- What the last digest binds ----------------------------------------------------------

  datatype Input = Input(kind: byte, previous: Digest, payload: seq<byte>)

  /** Two inputs with one digest, or one whose digest is that of no frame at all. */
  ghost predicate Broken(c: Codec, a: Input, b: Input) {
    || (a != b && c.digest(a.kind, a.previous, a.payload) == c.digest(b.kind, b.previous, b.payload))
    || c.digest(a.kind, a.previous, a.payload) == ZERO_DIGEST
  }

  /** The input of the last digest of a chain. */
  function LastInput(c: Codec, ps: seq<Piece>): (i: Input)
    requires ps != []
    ensures c.digest(i.kind, i.previous, i.payload) == ChainEnd(c, ps)
  {
    Input(ps[|ps| - 1].kind, ChainEnd(c, ps[..|ps| - 1]), ps[|ps| - 1].payload)
  }

  lemma SameLast(c: Codec, ps: seq<Piece>, qs: seq<Piece>)
    requires ps != [] && qs != [] && LastInput(c, ps) == LastInput(c, qs)
    ensures var m, n := |ps| - 1, |qs| - 1;
            ChainEnd(c, ps[..m]) == ChainEnd(c, qs[..n]) && (ps[..m] == qs[..n] ==> ps == qs)
  {
    hide ChainEnd;
    var m, n := |ps| - 1, |qs| - 1;
    assert ps == ps[..m] + [ps[m]] && qs == qs[..n] + [qs[n]];
  }

  /** Two chains with the same end are the same, or the digest is weak. */
  lemma {:induction false} ChainBinds(c: Codec, ps: seq<Piece>, qs: seq<Piece>) returns (a: Input, b: Input)
    requires ChainEnd(c, ps) == ChainEnd(c, qs)
    ensures ps == qs || Broken(c, a, b)
    decreases |ps|
  {
    hide LastInput;
    a := if ps != [] then LastInput(c, ps) else if qs != [] then LastInput(c, qs) else Input(0, ZERO_DIGEST, []);
    b := if qs != [] then LastInput(c, qs) else a;
    assert ps == [] ==> ChainEnd(c, ps) == ZERO_DIGEST;
    assert qs == [] ==> ChainEnd(c, qs) == ZERO_DIGEST;
    hide ChainEnd;
    if ps != [] && qs != [] && a == b {
      SameLast(c, ps, qs);
      a, b := ChainBinds(c, ps[..|ps| - 1], qs[..|qs| - 1]);
    }
  }

  /** Two accepted files whose logs end in the same digest have the same frames, byte for byte and in the same order,
      or they exhibit a weakness of the digest. */
  lemma LastDigestBindsFile(c: Codec, l: Limits, data: seq<byte>, other: seq<byte>) returns (a: Input, b: Input)
    requires Replay(c, l, data).Some? && Replay(c, l, other).Some?
    requires Replay(c, l, data).value.lastHash == Replay(c, l, other).value.lastHash
    ensures var x, y := Replay(c, l, data).value, Replay(c, l, other).value;
            || (x.size == y.size <= |data| && y.size <= |other| && data[..x.size] == other[..y.size] && x == y)
            || Broken(c, a, b)
  {
    var x, y := Replay(c, l, data).value, Replay(c, l, other).value;
    IntactExactly(c, l, data, x);
    IntactExactly(c, l, other, y);
    var ps :| Intact(c, l, data, ps, x);
    var qs :| Intact(c, l, other, qs, y);
    hide MeaningOf, Replay, FileOf, ChainEnd, Unfinished;
    a, b := ChainBinds(c, ps, qs);
  }

  // ---- Order within a channel --------------------------------------------------------------

  function EnqueuedBy(c: Codec, p: Piece, ch: Channel): (ids: seq<Digest>) {
    if p.kind != FRAME_ENQUEUE then []
    else
      match c.decode(p.payload)
      case None => []
      case Some(Decoded(e, id)) => if ChannelOf(e) == ch then [id] else []
  }

  function RemovedBy(log: Log, p: Piece, ch: Channel): (ids: seq<Digest>) {
    if p.kind != FRAME_REMOVE || |p.payload| != 32 then []
    else
      var i := IndexOf(log.items, p.payload);
      if i >= 0 && ChannelOf(log.items[i].envelope) == ch then [p.payload] else []
  }

  function AllEnqueued(c: Codec, ps: seq<Piece>, ch: Channel): (ids: seq<Digest>) {
    if ps == [] then [] else AllEnqueued(c, ps[..|ps| - 1], ch) + EnqueuedBy(c, ps[|ps| - 1], ch)
  }

  function AllRemoved(c: Codec, l: Limits, ps: seq<Piece>, ch: Channel): (ids: seq<Digest>) {
    if ps == [] then []
    else
      var n := |ps| - 1;
      AllRemoved(c, l, ps[..n], ch)
      + match MeaningOf(c, l, ps[..n]) case None => [] case Some(log) => RemovedBy(log, ps[n], ch)
  }

  lemma PieceAccounts(c: Codec, l: Limits, log: Log, p: Piece, ch: Channel)
    requires Extend(c, l, log, p.kind, p.payload).Some?
    ensures var r := Extend(c, l, log, p.kind, p.payload).value;
            InChannel(log.items, ch) + EnqueuedBy(c, p, ch) == RemovedBy(log, p, ch) + InChannel(r.items, ch)
  {
    hide Project, IndexOf;
    if p.kind == FRAME_ENQUEUE {
      var d := c.decode(p.payload).value;
      ProjectAppend(log.items, Entry(d.envelope, d.id, p.payload, FRAME_OVERHEAD + |p.payload|), IdIn(ch));
    } else {
      HeadRemoval(log.items, IndexOf(log.items, p.payload), ch);
    }
  }

  /** Whatever file replay accepts, also one that this queue never wrote, removes from each channel in the order of its
      enqueues: what it removed followed by what is live is what it enqueued. */
  lemma {:induction false} AcceptedIsFifo(c: Codec, l: Limits, ps: seq<Piece>, ch: Channel)
    requires MeaningOf(c, l, ps).Some?
    ensures AllEnqueued(c, ps, ch) == AllRemoved(c, l, ps, ch) + InChannel(MeaningOf(c, l, ps).value.items, ch)
  {
    hide Extend, InChannel, EnqueuedBy, RemovedBy;
    if ps == [] {
      NothingInChannel(ch);
    } else {
      var n := |ps| - 1;
      AcceptedIsFifo(c, l, ps[..n], ch);
      var log := MeaningOf(c, l, ps[..n]).value;
      var r := MeaningOf(c, l, ps).value;
      PieceAccounts(c, l, log, ps[n], ch);
      var (gone, live) := (AllRemoved(c, l, ps[..n], ch), InChannel(log.items, ch));
      assert [] + AllEnqueued(c, ps[..n], ch) == gone + live;
      GainsAndLosses([], AllEnqueued(c, ps[..n], ch), gone, live, EnqueuedBy(c, ps[n], ch), RemovedBy(log, ps[n], ch),
                     InChannel(r.items, ch));
      assert [] + AllEnqueued(c, ps, ch) == AllEnqueued(c, ps, ch);
    }
  }

  lemma NothingInChannel(ch: Channel)
    ensures InChannel([], ch) == []
  {
  }
}
