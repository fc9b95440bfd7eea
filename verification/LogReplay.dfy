/** Replay as the source runs it: one pass over the file with an append-only list of entries, an
    index of the live ones and a queue of identifiers for every channel. It computes the meaning
    that WriteAheadLog gives to a file with one ordered list. */
module LogReplay {
  import opened Sequences
  import opened Bytes
  import opened WriteAheadLog

  datatype Slot = Slot(entry: Entry, removed: bool)

  /** The entries still live, in the order in which they were enqueued. */
  function Live(slots: seq<Slot>): (items: seq<Entry>) {
    Project(slots, LiveEntry)
  }

  function LiveEntry(s: Slot): (r: Option<Entry>) {
    if s.removed then None else Some(s.entry)
  }

  /** The identifiers of one channel, in order. */
  function InChannel(items: seq<Entry>, ch: Channel): (ids: seq<Digest>) {
    Project(items, IdIn(ch))
  }

  function IdIn(ch: Channel): (pick: Entry -> Option<Digest>) {
    (e: Entry) => if ChannelOf(e.envelope) == ch then Some(e.id) else None
  }

  lemma LaterIsNotFirst(items: seq<Entry>, i: nat, k: nat)
    requires k < i < |items| && Distinct(items)
    requires ChannelOf(items[k].envelope) == ChannelOf(items[i].envelope)
    ensures var earlier := InChannel(items[..i], ChannelOf(items[i].envelope));
            earlier != [] && earlier[0] != items[i].id
  {
    var ch := ChannelOf(items[i].envelope);
    ProjectAround(items[..i], k, IdIn(ch));
    ProjectMember(items[..i], IdIn(ch), 0);
  }

  /** An entry may be removed exactly when its identifier is first in its channel's queue. */
  lemma HeadIsFirst(items: seq<Entry>, i: nat)
    requires i < |items| && Distinct(items)
    ensures var ids := InChannel(items, ChannelOf(items[i].envelope));
            ids != [] && (ids[0] == items[i].id <==> ChannelHead(items, i))
  {
    var ch := ChannelOf(items[i].envelope);
    hide Project;
    ProjectAround(items, i, IdIn(ch));
    if ChannelHead(items, i) {
      ProjectEmpty(items[..i], IdIn(ch));
    } else {
      var k :| 0 <= k < i && ChannelOf(items[k].envelope) == ch;
      LaterIsNotFirst(items, i, k);
    }
  }

  /** Removing a channel head drops the first identifier of that channel and touches no other. */
  lemma HeadRemoval(items: seq<Entry>, i: nat, ch: Channel)
    requires i < |items| && ChannelHead(items, i)
    ensures var ids, rest := InChannel(items, ch), InChannel(Without(items, i), ch);
            ids == if ch == ChannelOf(items[i].envelope) then [items[i].id] + rest else rest
  {
    hide Project;
    ProjectAround(items, i, IdIn(ch));
    if ch == ChannelOf(items[i].envelope) {
      ProjectEmpty(items[..i], IdIn(ch));
    }
  }

  function QueueOf(channels: map<Channel, seq<Digest>>, ch: Channel): (ids: seq<Digest>) {
    if ch in channels then channels[ch] else []
  }

  /** An index of the keys in a list, where a slot without a key is dead. */
  ghost predicate KeysIndexed<K>(keys: seq<Option<K>>, index: map<K, nat>) {
    && (forall k :: k in index ==> index[k] < |keys| && keys[index[k]] == Some(k))
    && (forall i :: 0 <= i < |keys| && keys[i].Some? ==> keys[i].value in index && index[keys[i].value] == i)
  }

  lemma KeyAdded<K>(keys: seq<Option<K>>, index: map<K, nat>, k: K)
    requires KeysIndexed(keys, index) && k !in index
    ensures KeysIndexed(keys + [Some(k)], index[k := |keys|]) && |index[k := |keys|]| == |index| + 1
  {
    assert index[k := |keys|].Keys == index.Keys + {k};
  }

  lemma KeyDropped<K>(keys: seq<Option<K>>, index: map<K, nat>, k: K)
    requires KeysIndexed(keys, index) && k in index
    ensures KeysIndexed(keys[index[k] := None], index - {k}) && |index - {k}| == |index| - 1
  {
    assert (index - {k}).Keys == index.Keys - {k};
  }

  function KeysOf(slots: seq<Slot>): (keys: seq<Option<Digest>>)
    ensures |keys| == |slots|
    ensures forall i :: 0 <= i < |slots| ==> keys[i] == if slots[i].removed then None else Some(slots[i].entry.id)
  {
    seq(|slots|, i requires 0 <= i < |slots| => if slots[i].removed then None else Some(slots[i].entry.id))
  }

  /** The index of live entries agrees with the list. */
  ghost predicate LiveIndexed(slots: seq<Slot>, live: map<Digest, nat>) {
    KeysIndexed(KeysOf(slots), live) && |live| == |Live(slots)|
  }

  /** The queue of every channel agrees with the ordered list. */
  ghost predicate ChannelsIndexed(items: seq<Entry>, channels: map<Channel, seq<Digest>>) {
    forall ch :: QueueOf(channels, ch) == InChannel(items, ch)
  }

  /** Where a live entry of the append-only list stands in the ordered list. */
  lemma LivePosition(slots: seq<Slot>, k: nat)
    requires k < |slots| && !slots[k].removed && Distinct(Live(slots))
    ensures var i := IndexOf(Live(slots), slots[k].entry.id);
            && i >= 0 && Live(slots)[i] == slots[k].entry
            && Live(slots[k := slots[k].(removed := true)]) == Without(Live(slots), i)
  {
    hide Project;
    var after := slots[k := slots[k].(removed := true)];
    ProjectAround(slots, k, LiveEntry);
    ProjectAround(after, k, LiveEntry);
    assert after[..k] == slots[..k] && after[k + 1..] == slots[k + 1..];
    var i := |Live(slots[..k])|;
    assert Live(slots)[i] == slots[k].entry;
    assert IndexOf(Live(slots), slots[k].entry.id) == i;
  }

  lemma LiveHasId(slots: seq<Slot>, live: map<Digest, nat>, id: Digest)
    requires LiveIndexed(slots, live) && Distinct(Live(slots))
    ensures id in live <==> IndexOf(Live(slots), id) >= 0
  {
    hide Project, IndexOf;
    if id in live {
      assert KeysOf(slots)[live[id]] == Some(id);
      LivePosition(slots, live[id]);
    }
    if IndexOf(Live(slots), id) >= 0 {
      ProjectMember(slots, LiveEntry, IndexOf(Live(slots), id));
      var k :| 0 <= k < |slots| && LiveEntry(slots[k]) == Some(Live(slots)[IndexOf(Live(slots), id)]);
      assert KeysOf(slots)[k] == Some(id);
    }
  }

  lemma LiveAdded(slots: seq<Slot>, live: map<Digest, nat>, e: Entry)
    requires LiveIndexed(slots, live) && e.id !in live
    ensures LiveIndexed(slots + [Slot(e, false)], live[e.id := |slots|])
    ensures Live(slots + [Slot(e, false)]) == Live(slots) + [e]
  {
    hide Project, KeysIndexed;
    ProjectAppend(slots, Slot(e, false), LiveEntry);
    KeyAdded(KeysOf(slots), live, e.id);
    assert KeysOf(slots + [Slot(e, false)]) == KeysOf(slots) + [Some(e.id)];
  }

  lemma LiveDropped(slots: seq<Slot>, live: map<Digest, nat>, id: Digest)
    requires LiveIndexed(slots, live) && Distinct(Live(slots)) && id in live
    ensures live[id] < |slots| && LiveIndexed(slots[live[id] := slots[live[id]].(removed := true)], live - {id})
  {
    var k := live[id];
    assert KeysOf(slots)[k] == Some(id);
    hide Project, KeysIndexed;
    LivePosition(slots, k);
    KeyDropped(KeysOf(slots), live, id);
    assert KeysOf(slots[k := slots[k].(removed := true)]) == KeysOf(slots)[k := None];
  }

  lemma ChannelsAdded(items: seq<Entry>, channels: map<Channel, seq<Digest>>, e: Entry)
    requires ChannelsIndexed(items, channels)
    ensures var key := ChannelOf(e.envelope);
            ChannelsIndexed(items + [e], channels[key := QueueOf(channels, key) + [e.id]])
  {
    forall ch ensures InChannel(items + [e], ch)
                   == InChannel(items, ch) + if ChannelOf(e.envelope) == ch then [e.id] else []
    {
      ProjectAppend(items, e, IdIn(ch));
    }
  }

  lemma ChannelsDropped(items: seq<Entry>, channels: map<Channel, seq<Digest>>, i: nat)
    requires ChannelsIndexed(items, channels) && i < |items| && ChannelHead(items, i)
    ensures var key := ChannelOf(items[i].envelope);
            && QueueOf(channels, key) != []
            && ChannelsIndexed(Without(items, i), channels[key := QueueOf(channels, key)[1..]])
  {
    var key := ChannelOf(items[i].envelope);
    HeadRemoval(items, i, key);
    forall ch ensures InChannel(Without(items, i), ch)
                   == if ch == key then InChannel(items, ch)[1..] else InChannel(items, ch)
    {
      HeadRemoval(items, i, ch);
    }
  }

  /** The log that the loop variables stand for. */
  function LogOf(slots: seq<Slot>, bytes: nat, lastHash: Digest, logBytes: nat, garbage: nat): (log: Log) {
    Log(Live(slots), bytes, lastHash, logBytes, garbage)
  }

  /** The loop variables of replay after the frames before the cursor. */
  datatype Scan = Scan(slots: seq<Slot>, live: map<Digest, nat>, channels: map<Channel, seq<Digest>>, bytes: nat,
      garbage: nat)

  ghost predicate ScanOk(c: Codec, l: Limits, s: Scan, log: Log) {
    && LogValid(c, l, log)
    && log.items == Live(s.slots) && log.bytes == s.bytes && log.garbage == s.garbage
    && LiveIndexed(s.slots, s.live)
    && ChannelsIndexed(log.items, s.channels)
  }

  method ScanEnqueue(c: Codec, l: Limits, s: Scan, payload: seq<byte>, ghost log: Log) returns (r: Option<Scan>)
    requires ScanOk(c, l, s, log) && FIXED_BODY + |payload| <= MAX_UINT32
    ensures r.Some? <==> Admit(c, l, log, payload).Some?
    ensures r.Some? ==> ScanOk(c, l, r.value, Extend(c, l, log, FRAME_ENQUEUE, payload).value)
  {
    hide Project, IndexOf, Sum, Sizes;
    var decoded := c.decode(payload);
    if decoded.None? { return None; }
    var id := decoded.value.id;
    LiveHasId(s.slots, s.live, id);
    if id in s.live || |s.live| >= l.maxItems || |payload| > l.maxBytes - s.bytes { return None; }
    var e := Entry(decoded.value.envelope, id, payload, FRAME_OVERHEAD + |payload|);
    LiveAdded(s.slots, s.live, e);
    ChannelsAdded(log.items, s.channels, e);
    ExtendKeepsValid(c, l, log, FRAME_ENQUEUE, payload);
    var key := ChannelOf(e.envelope);
    r := Some(Scan(s.slots + [Slot(e, false)], s.live[id := |s.slots|],
                   s.channels[key := QueueOf(s.channels, key) + [id]], s.bytes + |payload|, s.garbage));
  }

  method ScanRemove(c: Codec, l: Limits, s: Scan, payload: seq<byte>, ghost log: Log) returns (r: Option<Scan>)
    requires ScanOk(c, l, s, log)
    ensures r.Some? <==> Retire(log, payload).Some?
    ensures r.Some? ==> ScanOk(c, l, r.value, Extend(c, l, log, FRAME_REMOVE, payload).value)
  {
    hide Project, IndexOf, Sum, Sizes;
    if |payload| != 32 { return None; }
    LiveHasId(s.slots, s.live, payload);
    if payload !in s.live { return None; }
    var k := s.live[payload];
    assert KeysOf(s.slots)[k] == Some(payload);
    LivePosition(s.slots, k);
    ghost var i := IndexOf(log.items, payload);
    HeadIsFirst(log.items, i);
    var gone := s.slots[k].entry;
    var key := ChannelOf(gone.envelope);
    var queue := QueueOf(s.channels, key);
    if queue == [] || queue[0] != payload { return None; }
    LiveDropped(s.slots, s.live, payload);
    ChannelsDropped(log.items, s.channels, i);
    SizesWithout(log.items, i);
    ExtendKeepsValid(c, l, log, FRAME_REMOVE, payload);
    r := Some(Scan(s.slots[k := s.slots[k].(removed := true)], s.live - {payload}, s.channels[key := queue[1..]],
                   s.bytes - |gone.encoded|, s.garbage + gone.frameBytes + FRAME_OVERHEAD + |payload|));
  }

  /** One pass with three indexes computes the meaning of the file, and where its last whole
      frame ends. */
  method ReplayWal(c: Codec, l: Limits, encoded: seq<byte>) returns (r: Option<Log>, validBytes: nat)
    ensures r == Replay(c, l, encoded)
    ensures r.Some? ==> validBytes == r.value.size <= |encoded|
  {
    r, validBytes := None, 0;
    if |encoded| < HEADER_SIZE || encoded[..HEADER_SIZE] != HEADER { return; }
    var scan, cursor, lastHash := Scan([], map[], map[], 0, 0), HEADER_SIZE, ZERO_DIGEST;
    ghost var log := EMPTY_LOG;
    assert Sum(Sizes([])) == 0;
    while cursor < |encoded|
      invariant HEADER_SIZE <= cursor <= |encoded|
      invariant ScanOk(c, l, scan, log) && log.lastHash == lastHash && log.size == cursor
      invariant ReplayFrom(c, l, encoded, cursor, log) == Replay(c, l, encoded)
      decreases |encoded| - cursor
    {
      var f := FrameAt(l, encoded, cursor);
      if f.Short? { break; }
      if f.BadLength? || f.previous != lastHash || f.stored != c.digest(f.kind, f.previous, f.payload) { return; }
      var next: Option<Scan>;
      if f.kind == FRAME_ENQUEUE {
        next := ScanEnqueue(c, l, scan, f.payload, log);
      } else if f.kind == FRAME_REMOVE {
        next := ScanRemove(c, l, scan, f.payload, log);
      } else {
        return;
      }
      if next.None? { return; }
      log := Extend(c, l, log, f.kind, f.payload).value;
      scan, lastHash, cursor := next.value, f.stored, f.end;
    }
    r := Some(LogOf(scan.slots, scan.bytes, lastHash, cursor, scan.garbage));
    validBytes := cursor;
  }
}
