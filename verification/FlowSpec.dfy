/** One TCP flow to port 443: sequence-number bookkeeping modulo 2^32 (section 3.4 of RFC 9293),
    the inspection budget, and the verdict kept for the rest of the flow. */
module FlowSpec {
  import opened Bytes
  import opened ClientHello
  import opened SniMachine
  import Hostnames

  const STREAM_LIMIT := 4096
  const FEED_CHUNK := 256
  const HOSTNAME_BUFFER := 256
  const INSPECTION_TIMEOUT := 15000
  const DECISION_TIMEOUT := 120000

  datatype Key = Key(sourceIpv4: U32, destinationIpv4: U32, sourcePort: U16, destinationPort: U16)

  datatype Segment = Segment(key: Key, sequence: U32, syn: bool, rst: bool, fin: bool, payload: seq<Byte>)

  type RuleNames = seq<seq<Byte>>

  /** Inspect: parser state, bytes fed, next sequence expected, sequence of the SYN if one was seen. */
  datatype Phase =
    | Inspect(machine: Machine, inspected: nat, next: U32, syn: Option<U32>)
    | Allow
    | Block

  datatype Flow = Flow(phase: Phase, lastSeen: U32)

  predicate LegalFlow(f: Flow) {
    f.phase.Inspect? ==> Inspecting(f.phase.machine, HOSTNAME_BUFFER) && f.phase.inspected < STREAM_LIMIT
  }

  // ----- the step of one flow -----

  /** apply_tls_parse_result on a completed parse. */
  function Judged(v: Verdict, rules: RuleNames): Phase {
    if v.ech || v.outcome != Found || Hostnames.Blocked(rules, v.hostname) then Block else Allow
  }

  /** feed_tls_stream, without its 256-byte chunks; `next'` is the sequence expected afterwards. */
  function Consume(p: Phase, payload: seq<Byte>, next': U32, rules: RuleNames): Phase
    requires p.Inspect? && p.inspected <= STREAM_LIMIT
  {
    var take := Min(STREAM_LIMIT - p.inspected, |payload|);
    match Run(p.machine, payload[..take], HOSTNAME_BUFFER)
    case Done(v) => Judged(v, rules)
    case Active(_, _, _) =>
      if p.inspected + take >= STREAM_LIMIT then Block
      else Inspect(Run(p.machine, payload[..take], HOSTNAME_BUFFER), p.inspected + take, next', p.syn)
  }

  function WithNext(p: Phase, next': U32): Phase {
    if p.Inspect? then p.(next := next') else p
  }

  lemma ConsumeNext(p: Phase, payload: seq<Byte>, next': U32, rules: RuleNames)
    requires p.Inspect? && p.inspected <= STREAM_LIMIT
    ensures Consume(p, payload, next', rules) == WithNext(Consume(p, payload, 0, rules), next')
  {
  }

  /** A payload at sequence `at` reaching an inspected flow: gap, retransmission or new bytes. */
  function Receive(p: Phase, at: U32, payload: seq<Byte>, rules: RuleNames): Phase
    requires p.Inspect? && p.inspected <= STREAM_LIMIT
  {
    if payload == [] then p
    else if 0 < Wrap(at - p.next) < TWO_31 then Block
    else
      var overlap := Wrap(p.next - at);
      if overlap >= |payload| then p
      else Consume(p, payload[overlap..], Wrap(p.next + |payload| - overlap), rules)
  }

  /** The three cases of a payload with bytes. */
  lemma ReceiveCases(p: Phase, at: U32, payload: seq<Byte>, rules: RuleNames)
    requires p.Inspect? && p.inspected <= STREAM_LIMIT && payload != []
    ensures var overlap := Wrap(p.next - at);
            Receive(p, at, payload, rules) ==
            if 0 < Wrap(at - p.next) < TWO_31 then Block
            else if overlap >= |payload| then p
            else Consume(p, payload[overlap..], Wrap(p.next + |payload[overlap..]|), rules)
  {
    hide Consume, Wrap;
    var overlap := Wrap(p.next - at);
    assert overlap < |payload| ==> p.next + |payload[overlap..]| == p.next + |payload| - overlap;
  }

  function PayloadSequence(s: Segment): U32 {
    Wrap(s.sequence + if s.syn then 1 else 0)
  }

  predicate SynRetransmission(f: Option<Flow>, s: Segment) {
    && f.Some? && f.value.phase.Inspect?
    && f.value.phase.syn == Some(s.sequence)
    && f.value.phase.next == Wrap(s.sequence + 1)
    && s.payload == []
  }

  /** Whether the segment needs a new table slot. */
  predicate Opens(f: Option<Flow>, s: Segment) {
    !s.rst && (if s.syn then !SynRetransmission(f, s) else f.None? && s.payload != [])
  }

  function Opening(s: Segment): Phase {
    if s.syn then Inspect(START, 0, Wrap(s.sequence + 1), Some(s.sequence))
    else Inspect(START, 0, PayloadSequence(s), None)
  }

  function AfterPayload(p: Phase, s: Segment, rules: RuleNames): Phase
    requires p.Inspect? ==> p.inspected < STREAM_LIMIT
  {
    if !p.Inspect? then p
    else
      var q := Receive(p, PayloadSequence(s), s.payload, rules);
      if s.fin && q.Inspect? then Block else q
  }

  /** What a segment leaves of a flow in phase `p`, and whether the segment is dropped. */
  function Handle(p: Phase, s: Segment, now: U32, rules: RuleNames): (Option<Flow>, bool)
    requires p.Inspect? ==> p.inspected < STREAM_LIMIT
  {
    var q := AfterPayload(p, s, rules);
    (if s.fin then None else Some(Flow(q, now)), q.Block?)
  }

  /** inspect_tls_tcp_segment for the flow's own slot: what remains of it, and whether the
      segment is dropped. A new flow is assumed to find a slot. */
  function FlowStep(f: Option<Flow>, s: Segment, now: U32, rules: RuleNames): (Option<Flow>, bool)
    requires f.Some? ==> LegalFlow(f.value)
  {
    if s.rst then (None, false)
    else if Opens(f, s) then Handle(Opening(s), s, now, rules)
    else if f.None? then (None, false)
    else Handle(f.value.phase, s, now, rules)
  }

  function Timeout(p: Phase): nat {
    if p.Inspect? then INSPECTION_TIMEOUT else DECISION_TIMEOUT
  }

  predicate TimedOut(f: Flow, now: U32) {
    Wrap(now - f.lastSeen) >= Timeout(f.phase)
  }

  function Expire(f: Option<Flow>, now: U32): Option<Flow> {
    if f.Some? && TimedOut(f.value, now) then None else f
  }

  // ----- what a byte stream says -----

  datatype Saying = Undecided | Hopeless | Host(name: seq<Byte>)

  function SayingOf(v: Verdict): Saying {
    if v.ech || v.outcome != Found then Hopeless else Host(v.hostname)
  }

  /** The stream's own verdict: read record layer first and handshake layer second from its
      first 4096 bytes, with no notion of segment, chunk or sequence number. */
  function Says(s: seq<Byte>): Saying {
    match StreamVerdict(s[..Min(STREAM_LIMIT, |s|)], HOSTNAME_BUFFER)
    case Some(v) => SayingOf(v)
    case None => if |s| >= STREAM_LIMIT then Hopeless else Undecided
  }

  datatype Decision = Pending | Forward | Drop

  function Decide(s: Saying, rules: RuleNames): Decision {
    match s
    case Undecided => Pending
    case Hopeless => Drop
    case Host(name) => if Hostnames.Blocked(rules, name) then Drop else Forward
  }

  function DecisionOf(p: Phase): Decision {
    match p
    case Inspect(_, _, _, _) => Pending
    case Allow => Forward
    case Block => Drop
  }

  lemma SaysByMachine(s: seq<Byte>)
    ensures var m := Run(START, s[..Min(STREAM_LIMIT, |s|)], HOSTNAME_BUFFER);
            Says(s) == if m.Done? then SayingOf(m.verdict)
                       else if |s| >= STREAM_LIMIT then Hopeless else Undecided
  {
    MachineIsStreamVerdict(s[..Min(STREAM_LIMIT, |s|)], HOSTNAME_BUFFER);
  }

  /** Once decided, more bytes change nothing. */
  lemma SaysStable(s: seq<Byte>, n: nat)
    requires n <= |s| && Says(s[..n]) != Undecided
    ensures Says(s) == Says(s[..n])
  {
    hide StreamVerdict, Run, Says;
    SaysByMachine(s);
    SaysByMachine(s[..n]);
    var k, l := Min(STREAM_LIMIT, n), Min(STREAM_LIMIT, |s|);
    assert s[..n][..k] == s[..k] == s[..l][..k];
    if Run(START, s[..k], HOSTNAME_BUFFER).Done? {
      RunSettled(START, s[..l], k, HOSTNAME_BUFFER);
    }
  }

  // ----- a flow in step with the first n bytes of a stream -----

  /** The phase reflects exactly s[..n], a decision having been taken under `rules`. */
  predicate InStep(p: Phase, s: seq<Byte>, n: nat, base: U32, rules: RuleNames)
    requires n <= |s|
  {
    && DecisionOf(p) == Decide(Says(s[..n]), rules)
    && (p.Inspect? ==>
          && n < STREAM_LIMIT && p.inspected == n
          && p.machine == Run(START, s[..n], HOSTNAME_BUFFER) && p.machine.Active?
          && p.next == Wrap(base + n))
  }

  lemma ConsumeInStep(p: Phase, s: seq<Byte>, n: nat, n': nat, base: U32, was: RuleNames, rules: RuleNames)
    requires n <= n' <= |s| && p.Inspect? && InStep(p, s, n, base, was)
    ensures InStep(Consume(p, s[n..n'], Wrap(base + n'), rules), s, n', base, rules)
  {
    hide Run, Says, StreamVerdict, Hostnames.Blocked;
    var payload := s[n..n'];
    var take := Min(STREAM_LIMIT - n, |payload|);
    assert s[..n + take] == s[..n] + payload[..take];
    RunAppend(START, s[..n], payload[..take], HOSTNAME_BUFFER);
    SaysByMachine(s[..n']);
    assert s[..n'][..n + take] == s[..n + take];
  }

  /** Registers `x` and `y` apart by a small distance hold it in their wrapped difference. */
  lemma WrapDifference(x: int, y: int)
    requires 0 <= x - y < TWO_32
    ensures Wrap(Wrap(x) - Wrap(y)) == x - y
  {
  }

  lemma WrapBehind(base: U32, n: nat, a: nat)
    requires a <= n < STREAM_LIMIT
    ensures !(0 < Wrap(Wrap(base + a) - Wrap(base + n)) < TWO_31)
  {
    hide Wrap;
    if a < n {
      WrapDifference(base + a + TWO_32, base + n);
      WrapTurn(base + a);
    } else {
      WrapDifference(base + n, base + n);
    }
  }

  lemma WrapTurn(x: int)
    ensures Wrap(x + TWO_32) == Wrap(x)
  {
  }

  lemma WrapSum(x: int, d: int)
    ensures Wrap(Wrap(x) + d) == Wrap(x + d)
  {
  }

  lemma WrapDistance(base: U32, n: nat, a: nat, l: nat)
    requires a <= n < STREAM_LIMIT
    ensures Wrap(Wrap(base + n) - Wrap(base + a)) == n - a
    ensures !(0 < Wrap(Wrap(base + a) - Wrap(base + n)) < TWO_31)
    ensures Wrap(Wrap(base + n) + l - (n - a)) == Wrap(base + a + l)
  {
    hide Wrap;
    WrapDifference(base + n, base + a);
    WrapBehind(base, n, a);
    WrapSum(base + n, l - (n - a));
    assert base + n + (l - (n - a)) == base + a + l;
    assert Wrap(base + n) + (l - (n - a)) == Wrap(base + n) + l - (n - a);
  }

  /** Offsets behind or at the expected one: the overlap is the true distance. */
  lemma ReceiveNew(p: Phase, n: nat, a: nat, base: U32, payload: seq<Byte>, rules: RuleNames)
    requires p.Inspect? && p.inspected <= STREAM_LIMIT && p.next == Wrap(base + n)
    requires a <= n < STREAM_LIMIT
    ensures Receive(p, Wrap(base + a), payload, rules) ==
            if a + |payload| <= n then p
            else Consume(p, payload[n - a..], Wrap(base + a + |payload|), rules)
  {
    hide Receive, Consume, Wrap;
    WrapDistance(base, n, a, |payload|);
    if payload != [] {
      ReceiveCases(p, Wrap(base + a), payload, rules);
      assert a + |payload| > n ==> p.next + |payload[n - a..]| == p.next + |payload| - (n - a);
    } else {
      ReceiveNothing(p, Wrap(base + a), rules);
    }
  }

  lemma ReceiveNothing(p: Phase, at: U32, rules: RuleNames)
    requires p.Inspect? && p.inspected <= STREAM_LIMIT
    ensures Receive(p, at, [], rules) == p
  {
  }

  /** While nothing is decided the rules in force do not matter. */
  lemma PendingAnyRules(p: Phase, s: seq<Byte>, n: nat, base: U32, was: RuleNames, rules: RuleNames)
    requires n <= |s| && p.Inspect? && InStep(p, s, n, base, was)
    ensures InStep(p, s, n, base, rules) && n < STREAM_LIMIT && p.next == Wrap(base + n)
  {
  }

  lemma ReceiveInStep(p: Phase, s: seq<Byte>, n: nat, a: nat, l: nat, base: U32, was: RuleNames, rules: RuleNames)
    requires a <= n <= |s| && a + l <= |s| && p.Inspect? && p.inspected == n && InStep(p, s, n, base, was)
    ensures var n' := if a + l > n then a + l else n;
            InStep(Receive(p, Wrap(base + a), s[a..a + l], rules), s, n', base, rules)
  {
    hide InStep, Receive, Consume, Run, Says;
    PendingAnyRules(p, s, n, base, was, rules);
    var payload, q := s[a..a + l], Receive(p, Wrap(base + a), s[a..a + l], rules);
    ReceiveNew(p, n, a, base, payload, rules);
    if a + l > n {
      assert payload[n - a..] == s[n..a + l];
      ConsumeInStep(p, s, n, a + l, base, rules, rules);
      assert q == Consume(p, s[n..a + l], Wrap(base + (a + l)), rules);
    } else {
      assert q == p;
    }
  }

  /** A segment that starts beyond the expected offset, by less than half the sequence space. */
  lemma ReceiveGap(p: Phase, n: nat, a: nat, base: U32, payload: seq<Byte>, rules: RuleNames)
    requires p.Inspect? && p.inspected <= STREAM_LIMIT && p.next == Wrap(base + n)
    requires n < a < n + TWO_31 && payload != []
    ensures Receive(p, Wrap(base + a), payload, rules) == Block
  {
    hide Receive, Consume;
    ReceiveCases(p, Wrap(base + a), payload, rules);
    GapDistance(base, n, a);
  }

  lemma GapDistance(base: U32, n: nat, a: nat)
    requires n < a < n + TWO_31
    ensures Wrap(Wrap(base + a) - Wrap(base + n)) == a - n
  {
    WrapDifference(base + a, base + n);
  }

  lemma FlowStepLegal(f: Option<Flow>, s: Segment, now: U32, rules: RuleNames)
    requires f.Some? ==> LegalFlow(f.value)
    ensures FlowStep(f, s, now, rules).0.Some? ==> LegalFlow(FlowStep(f, s, now, rules).0.value)
  {
    if !s.rst && (f.Some? || Opens(f, s)) {
      var p := if Opens(f, s) then Opening(s) else f.value.phase;
      if p.Inspect? {
        ReceiveLegal(p, PayloadSequence(s), s.payload, rules);
      }
    }
  }

  lemma ReceiveLegal(p: Phase, at: U32, payload: seq<Byte>, rules: RuleNames)
    requires p.Inspect? && LegalFlow(Flow(p, 0))
    ensures LegalFlow(Flow(Receive(p, at, payload, rules), 0))
  {
    var unseen := payload[Min(Wrap(p.next - at), |payload|)..];
    RunInspecting(p.machine, unseen[..Min(STREAM_LIMIT - p.inspected, |unseen|)], HOSTNAME_BUFFER);
  }
}
