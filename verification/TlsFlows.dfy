/** The fixed table of inspected TLS flows. */
module TlsFlows {
  import opened Bytes
  import opened ClientHello
  import opened SniMachine
  import opened SniParser
  import opened AccessRules
  import opened FlowSpec

  const FLOW_CAPACITY := 12

  datatype FlowState = Free | Inspecting | Allowed | Blocked

  datatype Slot = Vacant | Used(key: Key, flow: Flow)

  const NO_KEY := Key(0, 0, 0, 0)

  class TlsFlow {
    var state: FlowState
    var key: Key
    var nextSequence: U32
    var synSequence: U32
    var sawSyn: bool
    var inspectedBytes: nat
    var lastSeenMs: U32
    const parser: TlsSniParser

    ghost function Repr(): set<object> {
      {this} + parser.Repr()
    }

    ghost predicate Valid()
      reads Repr()
    {
      && parser.Valid() && this !in parser.Repr()
      && (state == Inspecting ==> !parser.finished && inspectedBytes < STREAM_LIMIT)
    }

    /** What the slot means; fields of a decided flow that are never read again are left out. */
    ghost function View(): Slot
      reads Repr()
      requires Valid()
    {
      match state
      case Free => Vacant
      case Inspecting =>
        Used(key, Flow(Inspect(parser.View(), inspectedBytes, nextSequence,
                               if sawSyn then Some(synSequence) else None), lastSeenMs))
      case Allowed => Used(key, Flow(Allow, lastSeenMs))
      case Blocked => Used(key, Flow(Block, lastSeenMs))
    }

    constructor ()
      ensures Valid() && fresh(Repr()) && View() == Vacant
    {
      parser := new TlsSniParser();
      state, key := Free, NO_KEY;
      nextSequence, synSequence, sawSyn, inspectedBytes, lastSeenMs := 0, 0, false, 0, 0;
    }

    /** clear_tls_flow. */
    method Clear()
      requires Valid()
      modifies Repr()
      ensures Valid() && View() == Vacant && inspectedBytes == 0
    {
      state, key := Free, NO_KEY;
      nextSequence, synSequence, sawSyn, inspectedBytes, lastSeenMs := 0, 0, false, 0, 0;
      parser.Init();
    }

    /** The writes of create_tls_flow and of its caller to a free slot. */
    method Start(k: Key, sequence: U32, syn: Option<U32>, now: U32)
      requires Valid()
      modifies Repr()
      ensures Valid() && View() == Used(k, Flow(Inspect(START, 0, sequence, syn), now))
    {
      Clear();
      state := Inspecting;
      key := k;
      lastSeenMs := now;
      parser.Init();
      sawSyn := syn.Some?;
      synSequence := if syn.Some? then syn.value else 0;
      nextSequence := sequence;
    }

    /** apply_tls_parse_result. */
    method ApplyParseResult(outcome: Outcome, hostname: seq<Byte>, rules: RuleTable)
      requires rules.Valid() && this !in rules.Repr() && state == Inspecting
      modifies this`state
      ensures outcome == NeedMore ==> state == Inspecting
      ensures outcome != NeedMore ==>
                Decided(Judged(Verdict(outcome, hostname, parser.echPresent), rules.View().hostnames), state)
    {
      if outcome == NeedMore {
        return;
      }
      if parser.echPresent || outcome == NoSni || outcome == Invalid {
        state := Blocked;
        return;
      }
      var blocked := rules.IsHostnameBlocked(hostname);
      state := if blocked then Blocked else Allowed;
    }

    /** One chunk through the parser, with the name it reports read as a C string. */
    method ParseChunk(chunk: seq<Byte>) returns (outcome: Outcome, hostname: seq<Byte>)
      requires parser.Valid() && this !in parser.Repr() && !parser.finished
      modifies parser.Repr()
      ensures parser.Valid()
      ensures match Run(old(parser.View()), chunk, HOSTNAME_BUFFER)
              case Active(_, _, _) =>
                && outcome == NeedMore && !parser.finished
                && parser.View() == Run(old(parser.View()), chunk, HOSTNAME_BUFFER)
              case Done(v) =>
                && outcome == v.outcome != NeedMore && parser.echPresent == v.ech
                && (outcome == Found ==> hostname == v.hostname)
    {
      hide Run;
      ghost var m := parser.View();
      RunHost(m, chunk, HOSTNAME_BUFFER);
      var parsedHostname := new Byte[HOSTNAME_BUFFER](_ => 0);
      outcome := parser.Feed(chunk, parsedHostname);
      if outcome == Found {
        ghost var host := Run(m, chunk, HOSTNAME_BUFFER).verdict.hostname;
        assert forall i | 0 <= i < |host| :: parsedHostname[..][i] == parsedHostname[..|host|][i] == host[i];
        UpToNulIs(parsedHostname[..], |host|);
        assert parsedHostname[..][..|host|] == host;
      }
      hostname := UpToNul(parsedHostname[..]);
    }

    /** One chunk through the parser and the policy. */
    method FeedChunk(chunk: seq<Byte>, rules: RuleTable)
      requires parser.Valid() && this !in parser.Repr() && state == Inspecting && !parser.finished
      requires rules.Valid() && rules.Repr() !! Repr()
      modifies this`state, parser.Repr()
      ensures parser.Valid()
      ensures match Run(old(parser.View()), chunk, HOSTNAME_BUFFER)
              case Active(_, _, _) =>
                && state == Inspecting && !parser.finished
                && parser.View() == Run(old(parser.View()), chunk, HOSTNAME_BUFFER)
              case Done(v) => Decided(Judged(v, rules.View().hostnames), state)
    {
      hide Run;
      var outcome, hostname := ParseChunk(chunk);
      ApplyParseResult(outcome, hostname, rules);
    }

    /** The loop state of feed_tls_stream after `offset` of the new bytes. */
    ghost predicate Fed(p: Phase, payload: seq<Byte>, offset: nat, names: RuleNames)
      requires p.Inspect? && p.inspected <= STREAM_LIMIT
      reads Repr()
    {
      && parser.Valid() && this !in parser.Repr() && offset <= |payload|
      && (if state == Inspecting then
            && !parser.finished && inspectedBytes == p.inspected + offset <= STREAM_LIMIT
            && Run(p.machine, payload[..offset], HOSTNAME_BUFFER) == parser.View()
          else Decided(Consume(p, payload, 0, names), state))
    }

    /** One turn of the loop of feed_tls_stream. */
    method FeedNext(payload: seq<Byte>, offset: nat, rules: RuleTable, ghost p: Phase) returns (offset': nat)
      requires p.Inspect? && p.inspected <= STREAM_LIMIT && offset < |payload| && state == Inspecting
      requires rules.Valid() && rules.Repr() !! Repr()
      requires Fed(p, payload, offset, rules.View().hostnames)
      modifies this`state, this`inspectedBytes, parser.Repr()
      ensures offset <= offset' <= |payload| && (state == Inspecting ==> offset < offset')
      ensures Fed(p, payload, offset', rules.View().hostnames)
    {
      if inspectedBytes >= STREAM_LIMIT {
        state := Blocked;
        return offset;
      }
      var chunkLength := Min(Min(|payload| - offset, FEED_CHUNK), STREAM_LIMIT - inspectedBytes);
      offset' := offset + chunkLength;
      FeedChunk(payload[offset..offset'], rules);
      inspectedBytes := inspectedBytes + chunkLength;
      ConsumeStretch(p, payload, offset, offset', 0, rules.View().hostnames);
    }

    /** feed_tls_stream: contiguous new bytes, in chunks of at most 256, within the budget. */
    method FeedStream(payload: seq<Byte>, rules: RuleTable)
      requires Valid() && state == Inspecting
      requires rules.Valid() && rules.Repr() !! Repr()
      modifies this`state, this`inspectedBytes, parser.Repr()
      ensures parser.Valid()
      ensures match Consume(old(View()).flow.phase, payload, 0, rules.View().hostnames)
              case Inspect(m, n, _, _) =>
                state == Inspecting && !parser.finished && parser.View() == m && inspectedBytes == n < STREAM_LIMIT
              case Allow => state == Allowed
              case Block => state == Blocked
    {
      ghost var p := View().flow.phase;
      var offset := 0;
      while offset < |payload| && state == Inspecting
        invariant rules.Valid() && Fed(p, payload, offset, rules.View().hostnames)
        decreases |payload| - offset, if state == Inspecting then 1 else 0
      {
        offset := FeedNext(payload, offset, rules, p);
      }
      assert state == Inspecting ==> payload[..offset] == payload;
      if state == Inspecting && inspectedBytes >= STREAM_LIMIT {
        state := Blocked;
      }
    }

    /** Feed contiguous new bytes and advance the expected sequence past them. */
    method FeedNew(unseen: seq<Byte>, rules: RuleTable)
      requires Valid() && state == Inspecting
      requires rules.Valid() && rules.Repr() !! Repr()
      modifies this`state, this`inspectedBytes, this`nextSequence, parser.Repr()
      ensures Valid() && state != Free
      ensures View() == Used(key, Flow(
                Consume(old(View()).flow.phase, unseen, Wrap(old(nextSequence) + |unseen|), rules.View().hostnames),
                lastSeenMs))
    {
      ConsumeNext(View().flow.phase, unseen, Wrap(nextSequence + |unseen|), rules.View().hostnames);
      FeedStream(unseen, rules);
      nextSequence := Wrap(nextSequence + |unseen|);
    }

    /** A payload that starts at sequence `at`. */
    method Receive(at: U32, payload: seq<Byte>, rules: RuleTable)
      requires Valid() && state == Inspecting && payload != [] && |payload| < 0x1_0000
      requires rules.Valid() && rules.Repr() !! Repr()
      modifies this`state, this`inspectedBytes, this`nextSequence, parser.Repr()
      ensures Valid() && state != Free
      ensures View() == Used(key, Flow(
                FlowSpec.Receive(old(View()).flow.phase, at, payload, rules.View().hostnames), lastSeenMs))
    {
      hide FlowSpec.Receive, Consume, Wrap;
      ReceiveCases(View().flow.phase, at, payload, rules.View().hostnames);
      var ahead := Wrap(at - nextSequence);
      if 0 < ahead < TWO_31 {
        state := Blocked;
      } else {
        var overlap := Wrap(nextSequence - at);
        if overlap < |payload| {
          FeedNew(payload[overlap..], rules);
        }
      }
    }

    /** The part of inspect_tls_tcp_segment that runs once the flow is known. */
    method Handle(s: Segment, now: U32, rules: RuleTable) returns (blocked: bool)
      requires Valid() && state != Free && key == s.key && |s.payload| < 0x1_0000
      requires rules.Valid() && rules.Repr() !! Repr()
      modifies Repr()
      ensures Valid()
      ensures var (f, dropped) := FlowSpec.Handle(old(View()).flow.phase, s, now, rules.View().hostnames);
              View() == Remaining(s.key, f) && blocked == dropped
    {
      lastSeenMs := now;
      if state == Allowed || state == Blocked {
        blocked := state == Blocked;
        if s.fin {
          Clear();
        }
        return;
      }
      if |s.payload| > 0 {
        Receive(PayloadSequence(s), s.payload, rules);
      }
      if s.fin && state == Inspecting {
        state := Blocked;
      }
      blocked := state == Blocked;
      if s.fin {
        Clear();
      }
    }
  }

  // ----- specification of the table -----

  function Remaining(k: Key, f: Option<Flow>): Slot {
    if f.Some? then Used(k, f.value) else Vacant
  }

  function ExpireSlot(s: Slot, now: U32): Slot {
    if s.Used? && TimedOut(s.flow, now) then Vacant else s
  }

  function ExpireAll(ss: seq<Slot>, now: U32): (r: seq<Slot>)
    ensures |r| == |ss|
  {
    seq(|ss|, i requires 0 <= i < |ss| => ExpireSlot(ss[i], now))
  }

  /** First slot at or after `i` that satisfies the test. */
  function FindFrom(ss: seq<Slot>, k: Key, i: nat): (r: Option<nat>)
    requires i <= |ss|
    ensures r.Some? ==> i <= r.value < |ss| && ss[r.value].Used? && ss[r.value].key == k
    ensures r.None? ==> forall j | i <= j < |ss| :: ss[j].Used? ==> ss[j].key != k
    decreases |ss| - i
  {
    if i == |ss| then None
    else if ss[i].Used? && ss[i].key == k then Some(i)
    else FindFrom(ss, k, i + 1)
  }

  function VacantFrom(ss: seq<Slot>, i: nat): (r: Option<nat>)
    requires i <= |ss|
    ensures r.Some? ==> i <= r.value < |ss| && ss[r.value].Vacant?
    ensures r.None? ==> forall j | i <= j < |ss| :: ss[j].Used?
    decreases |ss| - i
  {
    if i == |ss| then None else if ss[i].Vacant? then Some(i) else VacantFrom(ss, i + 1)
  }

  /** The flow stored under a key. */
  function Lookup(ss: seq<Slot>, k: Key): (f: Option<Flow>) {
    var i := FindFrom(ss, k, 0);
    if i.Some? then Some(ss[i.value].flow) else None
  }

  predicate LegalSlots(ss: seq<Slot>) {
    forall i | 0 <= i < |ss| :: ss[i].Used? ==> LegalFlow(ss[i].flow)
  }

  function Cleared(ss: seq<Slot>, k: Key): (r: seq<Slot>)
    ensures |r| == |ss|
  {
    var i := FindFrom(ss, k, 0);
    if i.Some? then ss[i.value := Vacant] else ss
  }

  function TableLookup(ss: seq<Slot>, k: Key, now: U32): Option<Flow> {
    Lookup(ExpireAll(ss, now), k)
  }

  /** The table when a new flow needs a slot and none is free, after time-outs and after the
      flow's own slot is cleared. */
  predicate Exhausted(ss: seq<Slot>, s: Segment, now: U32) {
    Opens(TableLookup(ss, s.key, now), s) && VacantFrom(Cleared(ExpireAll(ss, now), s.key), 0).None?
  }

  /** inspect_tls_tcp_segment on the slot array. */
  function TableStep(ss: seq<Slot>, s: Segment, now: U32, rules: RuleNames): (seq<Slot>, bool)
    requires LegalSlots(ss)
  {
    var live := ExpireAll(ss, now);
    var i := FindFrom(live, s.key, 0);
    var f := Lookup(live, s.key);
    var (f', dropped) := FlowStep(f, s, now, rules);
    if Opens(f, s) then
      var cleared := Cleared(live, s.key);
      var j := VacantFrom(cleared, 0);
      if j.None? then (cleared, true) else (cleared[j.value := Remaining(s.key, f')], dropped)
    else if i.None? then (live, dropped)
    else (live[i.value := Remaining(s.key, f')], dropped)
  }

  /** The table's step, case by case. */
  lemma TableStepCases(ss: seq<Slot>, s: Segment, now: U32, rules: RuleNames)
    requires LegalSlots(ss)
    ensures var live := ExpireAll(ss, now);
            var i, cleared := FindFrom(live, s.key, 0), Cleared(live, s.key);
            TableStep(ss, s, now, rules) ==
            if s.rst then (cleared, false)
            else if Opens(Lookup(live, s.key), s) then
              var j := VacantFrom(cleared, 0);
              var (f, dropped) := FlowSpec.Handle(Opening(s), s, now, rules);
              if j.None? then (cleared, true) else (cleared[j.value := Remaining(s.key, f)], dropped)
            else if i.None? then (live, false)
            else
              (ExpiredLegal(ss, now);
               var (f, dropped) := FlowSpec.Handle(live[i.value].flow.phase, s, now, rules);
               (live[i.value := Remaining(s.key, f)], dropped))
  {
    hide FlowSpec.Handle, Opening, TimedOut, SynRetransmission;
  }

  lemma ExpiredLegal(ss: seq<Slot>, now: U32)
    requires LegalSlots(ss)
    ensures LegalSlots(ExpireAll(ss, now))
  {
  }

  /** What running on to `o'` within the budget says about the whole payload. */
  lemma ConsumeStretch(p: Phase, payload: seq<Byte>, o: nat, o': nat, next': U32, rules: RuleNames)
    requires p.Inspect? && o <= o' <= |payload| && p.inspected + o' <= STREAM_LIMIT
    ensures Run(p.machine, payload[..o'], HOSTNAME_BUFFER)
         == Run(Run(p.machine, payload[..o], HOSTNAME_BUFFER), payload[o..o'], HOSTNAME_BUFFER)
    ensures var m := Run(p.machine, payload[..o'], HOSTNAME_BUFFER);
            m.Done? ==> Consume(p, payload, next', rules) == Judged(m.verdict, rules)
  {
    hide Run, Judged;
    RunStretch(p.machine, payload, o, o', HOSTNAME_BUFFER);
    var budget := payload[..Min(STREAM_LIMIT - p.inspected, |payload|)];
    assert budget[..o'] == payload[..o'];
    if Run(p.machine, payload[..o'], HOSTNAME_BUFFER).Done? {
      RunSettled(p.machine, budget, o', HOSTNAME_BUFFER);
    }
  }

  /** A decided phase as the stored state. */
  predicate Decided(p: Phase, state: FlowState) {
    match p
    case Inspect(_, _, _, _) => false
    case Allow => state == Allowed
    case Block => state == Blocked
  }
}
