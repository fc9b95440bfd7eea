/** Which message may pass a billed connection, in which phase. */
module HoldbackRules {
  import opened Sequences
  import opened Bytes
  import M = MessageCodec

  const MAX_PRELUDES := 4
  const MAX_PRELUDE_BYTES := 16 * 1024
  const MAX_HANDSHAKE_BYTES := 64 * 1024
  const HANDSHAKE_ROUTE := Ascii("/p2p/handshake-info")
  const KEEP_ALIVE_ROUTE := Ascii("/ping")

  /** What a connection has been let through so far. */
  datatype Phase = Phase(noise: set<nat>, preludes: nat, handshake: bool, billing: bool, session: Option<Digest>)

  const NO_PHASE := Phase({}, 0, false, false, None)

  datatype Approval = Prelude(kind: nat) | HandshakeInfo(session: Digest) | KeepAlive | Billing(session: Digest)

  /** The public part of an end-to-end record. */
  datatype Inspection = Inspection(session: Digest, plaintext: nat)

  /** What is configured, and how records are inspected. */
  datatype Gate = Gate(billableRoute: seq<byte>, inspect: seq<byte> -> Option<Inspection>)

  /** The answer of the billing hook: it may ask to see the record again later. */
  datatype Answer = Accepted | Later | Denied

  datatype Ruling = Approve(approval: Approval) | Postpone | Refuse

  /** The six kinds of handshake message, told apart by their first bytes. */
  function ClassifyPrelude(payload: seq<byte>): (kind: Option<nat>)
    ensures kind.Some? ==> kind.value < 6
  {
    if |payload| < 9 || |payload| > MAX_PRELUDE_BYTES then None
    else if payload[..8] == Ascii("BNFSN2H1") then
      if |payload| != 74 || payload[8] != 2 then None else Some(0)
    else if payload[..8] == Ascii("BNFSN2M1") then
      if payload[8] < 1 || payload[8] > 3 then None else Some(payload[8])
    else if payload[..8] == Ascii("BNFSN2C1") then
      if payload[8] < 1 || payload[8] > 2 || |payload| < 25 then None else Some(3 + payload[8])
    else None
  }

  /** Exactly these payloads are preludes: a hello of 74 bytes, one of three handshake messages, or one of two
      confirmations of at least 25 bytes; none is longer than 16 KiB. */
  lemma PreludeExactly(payload: seq<byte>)
    ensures ClassifyPrelude(payload).Some? <==>
            && 9 <= |payload| <= 16 * 1024
            && (|| (payload[..8] == Ascii("BNFSN2H1") && payload[8] == 2 && |payload| == 74)
                || (payload[..8] == Ascii("BNFSN2M1") && payload[8] in {1, 2, 3})
                || (payload[..8] == Ascii("BNFSN2C1") && payload[8] in {1, 2} && |payload| >= 25))
  {
    MagicsDiffer();
    hide Ascii;
  }

  /** Two preludes are of one kind exactly when they begin with the same magic and type. */
  lemma PreludeKinds(a: seq<byte>, b: seq<byte>)
    requires ClassifyPrelude(a).Some? && ClassifyPrelude(b).Some?
    ensures ClassifyPrelude(a) == ClassifyPrelude(b) <==> a[..9] == b[..9]
  {
    MagicsDiffer();
    assert a[..9] == a[..8] + [a[8]] && b[..9] == b[..8] + [b[8]];
    assert a[..9][..8] == a[..8] && b[..9][..8] == b[..8];
    hide Ascii;
  }

  lemma MagicsDiffer()
    ensures Ascii("BNFSN2H1") != Ascii("BNFSN2M1") && Ascii("BNFSN2H1") != Ascii("BNFSN2C1")
    ensures Ascii("BNFSN2M1") != Ascii("BNFSN2C1")
  {
    assert Ascii("BNFSN2H1")[6] == 'H' as int && Ascii("BNFSN2M1")[6] == 'M' as int;
    assert Ascii("BNFSN2C1")[6] == 'C' as int;
  }

  function BillingFields(h: M.Header): (n: nat) {
    (if h.billingSession != ZERO_DIGEST then 1 else 0) + (if h.billingSequence != 0 then 1 else 0)
    + if h.billingBytes != 0 then 1 else 0
  }

  predicate SessionFits(p: Phase, session: Digest) { p.session == None || p.session == Some(session) }

  /** Decides about a whole message from the phase its connection is in. */
  function Validate(g: Gate, m: M.Message, connection: seq<byte>, p: Phase, answer: Answer): (r: Ruling) {
    var h := m.header;
    var n := BillingFields(h);
    if h.connectionId == [] || h.connectionId != connection then Refuse
    else if h.payloadLength != |m.payload| then Refuse
    else if n != 0 && n != 3 then Refuse
    else if h.route == [] then
      if n != 0 || p.billing || p.handshake then Refuse
      else
        var kind := ClassifyPrelude(m.payload);
        if kind.None? || kind.value in p.noise || p.preludes >= MAX_PRELUDES then Refuse
        else Approve(Prelude(kind.value))
    else if h.route == KEEP_ALIVE_ROUTE then
      if n != 0 || (!p.handshake && !p.billing) || p.session.None? then Refuse
      else
        var record := g.inspect(m.payload);
        if record.None? || record.value.plaintext != 0 || p.session != Some(record.value.session) then Refuse
        else Approve(KeepAlive)
    else if h.route == HANDSHAKE_ROUTE then
      if n != 0 || p.billing || p.handshake || |m.payload| > MAX_HANDSHAKE_BYTES then Refuse
      else
        var record := g.inspect(m.payload);
        if record.None? || !SessionFits(p, record.value.session) then Refuse
        else Approve(HandshakeInfo(record.value.session))
    else if g.billableRoute != [] && h.route == g.billableRoute then
      if n != 3 then Refuse
      else
        var record := g.inspect(m.payload);
        if record.None? || !SessionFits(p, record.value.session) then Refuse
        else match answer
          case Denied => Refuse
          case Later => Postpone
          case Accepted => Approve(Billing(record.value.session))
    else Refuse
  }

  function Advance(p: Phase, a: Approval): (q: Phase) {
    match a
    case Prelude(kind) => p.(noise := p.noise + {kind}, preludes := p.preludes + 1)
    case HandshakeInfo(session) => p.(handshake := true, session := Some(session))
    case KeepAlive => p
    case Billing(session) => p.(billing := true, session := Some(session))
  }

  predicate HasPhase(p: Phase) { p.preludes != 0 || p.handshake || p.billing || p.session.Some? }

  // ---- Histories ---------------------------------------------------------------------------

  /** What the rules allow next. */
  predicate Permitted(p: Phase, a: Approval) {
    match a
    case Prelude(kind) => kind < 6 && !p.billing && !p.handshake && kind !in p.noise && p.preludes < MAX_PRELUDES
    case HandshakeInfo(session) => !p.billing && !p.handshake && SessionFits(p, session)
    case KeepAlive => (p.handshake || p.billing) && p.session.Some?
    case Billing(session) => SessionFits(p, session)
  }

  lemma ValidatePermits(g: Gate, m: M.Message, connection: seq<byte>, p: Phase, answer: Answer)
    ensures Validate(g, m, connection, p, answer).Approve? ==>
              Permitted(p, Validate(g, m, connection, p, answer).approval)
  {
  }

  predicate Unbilled(h: M.Header) { h.billingSession == ZERO_DIGEST && h.billingSequence == 0 && h.billingBytes == 0 }

  predicate Billed(h: M.Header) { h.billingSession != ZERO_DIGEST && h.billingSequence != 0 && h.billingBytes != 0 }

  /** What an approval says about the message, whatever the phase. */
  predicate Deserves(g: Gate, m: M.Message, a: Approval, answer: Answer) {
    var h := m.header;
    match a
    case Prelude(kind) => h.route == [] && ClassifyPrelude(m.payload) == Some(kind) && Unbilled(h)
    case HandshakeInfo(session) =>
      && h.route == HANDSHAKE_ROUTE && Unbilled(h) && |m.payload| <= MAX_HANDSHAKE_BYTES
      && g.inspect(m.payload).Some? && g.inspect(m.payload).value.session == session
    case KeepAlive =>
      h.route == KEEP_ALIVE_ROUTE && Unbilled(h) && g.inspect(m.payload).Some?
          && g.inspect(m.payload).value.plaintext == 0
    case Billing(session) => Billable(g, m) && answer == Accepted && g.inspect(m.payload).value.session == session
  }

  /** A complete billed record; a route with a rule of its own is never billed, even if configured. */
  predicate Billable(g: Gate, m: M.Message) {
    var h := m.header;
    && h.route == g.billableRoute && h.route != [] && h.route != HANDSHAKE_ROUTE && h.route != KEEP_ALIVE_ROUTE
    && Billed(h) && g.inspect(m.payload).Some?
  }

  /** For every configuration: a message is approved exactly when it is meant for its connection, is as long
      as it says, and deserves an approval that the phase permits; for a keep-alive the session must also
      be the bound one. It is put off exactly when it could be billed and the billing hook asks for it. */
  lemma ApprovedExactly(g: Gate, m: M.Message, connection: seq<byte>, p: Phase, answer: Answer, a: Approval)
    ensures Validate(g, m, connection, p, answer) == Approve(a) <==>
            && m.header.connectionId == connection != [] && m.header.payloadLength == |m.payload|
            && Deserves(g, m, a, answer) && Permitted(p, a)
            && (a.KeepAlive? ==> p.session == Some(g.inspect(m.payload).value.session))
    ensures Validate(g, m, connection, p, answer) == Postpone <==>
            && m.header.connectionId == connection != [] && m.header.payloadLength == |m.payload|
            && Billable(g, m) && SessionFits(p, g.inspect(m.payload).value.session) && answer == Later
  {
    RoutesDiffer();
    hide ClassifyPrelude, Ascii;
  }

  lemma RoutesDiffer()
    ensures HANDSHAKE_ROUTE != KEEP_ALIVE_ROUTE && HANDSHAKE_ROUTE != [] && KEEP_ALIVE_ROUTE != []
  {
    assert |HANDSHAKE_ROUTE| == 19 && |KEEP_ALIVE_ROUTE| == 5;
  }

  function After(history: seq<Approval>): (p: Phase) {
    if history == [] then NO_PHASE else Advance(After(history[..|history| - 1]), history[|history| - 1])
  }

  predicate Legal(history: seq<Approval>) {
    forall i :: 0 <= i < |history| ==> Permitted(After(history[..i]), history[i])
  }

  lemma LegalGrows(history: seq<Approval>, a: Approval)
    requires Legal(history) && Permitted(After(history), a)
    ensures Legal(history + [a]) && After(history + [a]) == Advance(After(history), a)
  {
    var more := history + [a];
    assert more[..|history|] == history;
    forall i | 0 <= i < |more| ensures Permitted(After(more[..i]), more[i]) {
      assert i < |history| ==> more[..i] == history[..i];
    }
  }

  /** A history that leaves no mark is empty. */
  lemma {:induction false} PhaseRemembers(history: seq<Approval>)
    requires Legal(history)
    ensures history != [] ==> HasPhase(After(history))
  {
    if history != [] {
      var n := |history| - 1;
      assert Legal(history[..n]) by { LegalPrefix(history, n); }
      PhaseRemembers(history[..n]);
      assert Permitted(After(history[..n]), history[n]);
    }
  }

  lemma LegalPrefix(history: seq<Approval>, n: nat)
    requires Legal(history) && n <= |history|
    ensures Legal(history[..n])
  {
    forall i | 0 <= i < n ensures Permitted(After(history[..n][..i]), history[..n][i]) {
      assert history[..n][..i] == history[..i];
    }
  }

  /** The phase has the mark of an approval. */
  predicate Marked(p: Phase, a: Approval) {
    match a
    case Prelude(kind) => kind in p.noise
    case HandshakeInfo(session) => p.handshake && p.session == Some(session)
    case KeepAlive => true
    case Billing(session) => p.billing && p.session == Some(session)
  }

  lemma MarksStay(p: Phase, a: Approval, next: Approval)
    requires Permitted(p, next)
    ensures Marked(Advance(p, next), next)
    ensures Marked(p, a) ==> Marked(Advance(p, next), a)
  {
  }

  function Preludes(history: seq<Approval>): (n: nat) {
    if history == [] then 0 else Preludes(history[..|history| - 1]) + if history[|history| - 1].Prelude? then 1 else 0
  }

  lemma LastStep(history: seq<Approval>)
    requires Legal(history) && history != []
    ensures var n := |history| - 1;
            var before := After(history[..n]);
            && Legal(history[..n]) && Permitted(before, history[n]) && After(history) == Advance(before, history[n])
            && (before.preludes == Preludes(history[..n]) <= MAX_PRELUDES ==>
                  After(history).preludes == Preludes(history) <= MAX_PRELUDES)
  {
    LegalPrefix(history, |history| - 1);
  }

  /** Every approval left its mark. */
  ghost predicate AllMarked(p: Phase, history: seq<Approval>) {
    forall a :: a in history ==> Marked(p, a)
  }

  lemma AllMarkedGrows(p: Phase, history: seq<Approval>, next: Approval)
    requires AllMarked(p, history) && Permitted(p, next)
    ensures AllMarked(Advance(p, next), history + [next])
  {
    hide Marked, Permitted, Advance;
    forall a | a in history + [next] ensures Marked(Advance(p, next), a) {
      MarksStay(p, a, next);
    }
  }

  lemma {:induction false} PhaseTells(history: seq<Approval>)
    requires Legal(history)
    ensures AllMarked(After(history), history)
    ensures After(history).preludes == Preludes(history) <= MAX_PRELUDES
  {
    if history == [] {
      assert After(history) == NO_PHASE;
    } else {
      hide Legal, AllMarked, Permitted, After, Advance, Preludes;
      LastStep(history);
      var n := |history| - 1;
      PhaseTells(history[..n]);
      AllMarkedGrows(After(history[..n]), history[..n], history[n]);
      assert history == history[..n] + [history[n]];
    }
  }

  /** The phases are one-way: no handshake message repeats, there are at most four, none comes after the
      handshake information or a billed record; the handshake information comes at most once and
      before billing; and a session that is bound never changes. */
  lemma OneWay(history: seq<Approval>, i: nat, j: nat)
    requires Legal(history) && i < j < |history|
    ensures Preludes(history) <= MAX_PRELUDES
    ensures history[j].Prelude? ==> history[i] != history[j] && !history[i].HandshakeInfo? && !history[i].Billing?
    ensures history[j].HandshakeInfo? ==> !history[i].HandshakeInfo? && !history[i].Billing?
    ensures (history[i].HandshakeInfo? || history[i].Billing?) && (history[j].HandshakeInfo? || history[j].Billing?) ==>
              history[i].session == history[j].session
  {
    PhaseTells(history);
    LegalPrefix(history, j);
    PhaseTells(history[..j]);
    assert history[..j][i] == history[i] && history[i] in history[..j] && history[i] in history
        && history[j] in history;
    assert Permitted(After(history[..j]), history[j]);
    assert Marked(After(history[..j]), history[i]);
    assert Marked(After(history), history[i]) && Marked(After(history), history[j]);
    hide Legal, AllMarked, After, Preludes;
  }

  // ---- What passes unpaid ------------------------------------------------------------------

  function Handshakes(history: seq<Approval>): (n: nat) {
    if history == [] then 0
    else Handshakes(history[..|history| - 1]) + if history[|history| - 1].HandshakeInfo? then 1 else 0
  }

  lemma {:induction false} OneHandshake(history: seq<Approval>)
    requires Legal(history)
    ensures Handshakes(history) == if After(history).handshake then 1 else 0
  {
    if history != [] {
      LastStep(history);
      OneHandshake(history[..|history| - 1]);
    }
  }

  /** The messages were let through one after the other, each in the phase the earlier ones left. */
  predicate Passed(g: Gate, connection: seq<byte>, ms: seq<M.Message>, answers: seq<Answer>, history: seq<Approval>) {
    && |ms| == |answers| == |history|
    && forall i :: 0 <= i < |history| ==>
       Validate(g, ms[i], connection, After(history[..i]), answers[i]) == Approve(history[i])
  }

  /** The payload bytes of what was neither billed nor an empty keep-alive. */
  function UnpaidBytes(ms: seq<M.Message>, history: seq<Approval>): (n: nat)
    requires |ms| == |history|
  {
    if history == [] then 0
    else
      var k := |history| - 1;
      UnpaidBytes(ms[..k], history[..k]) + if history[k].Billing? || history[k].KeepAlive? then 0 else |ms[k].payload|
  }

  /** Nothing is unpaid at first; each prelude and each handshake information adds its payload, and nothing else
      does. */
  lemma UnpaidAdds(ms: seq<M.Message>, history: seq<Approval>, m: M.Message, a: Approval)
    requires |ms| == |history|
    ensures UnpaidBytes([], []) == 0
    ensures UnpaidBytes(ms + [m], history + [a]) ==
            UnpaidBytes(ms, history) + if a.Prelude? || a.HandshakeInfo? then |m.payload| else 0
  {
    assert (ms + [m])[..|ms|] == ms && (history + [a])[..|history|] == history;
  }

  lemma PreludeIsShort(payload: seq<byte>)
    requires ClassifyPrelude(payload).Some?
    ensures |payload| <= MAX_PRELUDE_BYTES
  {
    hide Ascii;
  }

  lemma UnpaidIsShort(g: Gate, m: M.Message, connection: seq<byte>, p: Phase, answer: Answer, a: Approval)
    requires Validate(g, m, connection, p, answer) == Approve(a)
    ensures a.Prelude? ==> |m.payload| <= MAX_PRELUDE_BYTES
    ensures a.HandshakeInfo? ==> |m.payload| <= MAX_HANDSHAKE_BYTES
    ensures a.KeepAlive? ==> g.inspect(m.payload).Some? && g.inspect(m.payload).value.plaintext == 0
    ensures a.Billing? ==> answer == Accepted
  {
    hide ClassifyPrelude, Ascii;
    ApprovedExactly(g, m, connection, p, answer, a);
    if a.Prelude? { PreludeIsShort(m.payload); }
  }

  lemma PassedPrefix(g: Gate, connection: seq<byte>, ms: seq<M.Message>, answers: seq<Answer>, history: seq<Approval>,
                     k: nat)
    requires Passed(g, connection, ms, answers, history) && k <= |history|
    ensures Passed(g, connection, ms[..k], answers[..k], history[..k])
  {
    hide Validate, After;
    forall i | 0 <= i < k
      ensures Validate(g, ms[..k][i], connection, After(history[..k][..i]), answers[..k][i]) == Approve(history[..k][i])
    {
      assert history[..k][..i] == history[..i];
    }
  }

  lemma {:induction false} PassedIsLegal(g: Gate, connection: seq<byte>, ms: seq<M.Message>, answers: seq<Answer>,
                                         history: seq<Approval>)
    requires Passed(g, connection, ms, answers, history)
    ensures Legal(history)
    ensures UnpaidBytes(ms, history) <= UnpaidBound(history)
  {
    hide Validate, Permitted, Legal, After, UnpaidBound, UnpaidBytes;
    if history == [] {
      NothingPassed(ms);
    } else {
      var k := |history| - 1;
      PassedLast(g, connection, ms, answers, history);
      PassedPrefix(g, connection, ms, answers, history, k);
      hide Passed;
      PassedIsLegal(g, connection, ms[..k], answers[..k], history[..k]);
      assert history == history[..k] + [history[k]];
      LegalGrows(history[..k], history[k]);
      BoundGrows(ms, history);
    }
  }

  lemma NothingPassed(ms: seq<M.Message>)
    requires |ms| == 0
    ensures Legal([]) && UnpaidBytes(ms, []) == 0
  {
  }

  function UnpaidBound(history: seq<Approval>): (n: nat) {
    Preludes(history) * MAX_PRELUDE_BYTES + Handshakes(history) * MAX_HANDSHAKE_BYTES
  }

  lemma BoundGrows(ms: seq<M.Message>, history: seq<Approval>)
    requires history != [] && |ms| == |history|
    requires var k := |history| - 1;
             && UnpaidBytes(ms[..k], history[..k]) <= UnpaidBound(history[..k])
             && (history[k].Prelude? ==> |ms[k].payload| <= MAX_PRELUDE_BYTES)
             && (history[k].HandshakeInfo? ==> |ms[k].payload| <= MAX_HANDSHAKE_BYTES)
    ensures UnpaidBytes(ms, history) <= UnpaidBound(history)
  {
  }

  lemma PassedLast(g: Gate, connection: seq<byte>, ms: seq<M.Message>, answers: seq<Answer>, history: seq<Approval>)
    requires Passed(g, connection, ms, answers, history) && history != []
    ensures |ms| == |answers| == |history|
    ensures var k := |history| - 1;
            && Permitted(After(history[..k]), history[k])
            && (history[k].Prelude? ==> |ms[k].payload| <= MAX_PRELUDE_BYTES)
            && (history[k].HandshakeInfo? ==> |ms[k].payload| <= MAX_HANDSHAKE_BYTES)
  {
    hide Validate, Permitted, After;
    var k := |history| - 1;
    ValidatePermits(g, ms[k], connection, After(history[..k]), answers[k]);
    UnpaidIsShort(g, ms[k], connection, After(history[..k]), answers[k], history[k]);
  }

  /** However many messages pass a connection, what passes it unpaid is at most 128 KiB, besides keep-alives
      whose plaintext is empty. */
  lemma UnpaidIsBounded(g: Gate, connection: seq<byte>, ms: seq<M.Message>, answers: seq<Answer>,
                        history: seq<Approval>)
    requires Passed(g, connection, ms, answers, history)
    ensures UnpaidBytes(ms, history) <= 4 * MAX_PRELUDE_BYTES + MAX_HANDSHAKE_BYTES == 128 * 1024
    ensures forall i :: 0 <= i < |history| ==>
              && (history[i].KeepAlive? ==>
                  g.inspect(ms[i].payload).Some? && g.inspect(ms[i].payload).value.plaintext == 0)
              && (history[i].Billing? ==> answers[i] == Accepted)
  {
    hide Validate;
    PassedIsLegal(g, connection, ms, answers, history);
    PhaseTells(history);
    OneHandshake(history);
    forall i | 0 <= i < |history|
      ensures history[i].KeepAlive? ==> g.inspect(ms[i].payload).Some? && g.inspect(ms[i].payload).value.plaintext == 0
      ensures history[i].Billing? ==> answers[i] == Accepted
    {
      UnpaidIsShort(g, ms[i], connection, After(history[..i]), answers[i], history[i]);
    }
  }
}
