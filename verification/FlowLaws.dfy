/** What single segments do to their flow, case by case, and that no data of any connection is ever
    forwarded behind the filter's back. */
module FlowLaws {
  import opened Bytes
  import opened SniMachine
  import opened FlowSpec
  import opened TlsFlows
  import opened FlowRuns

  // ----- segments that start a flow -----

  /** The flow has just taken in `s` from sequence number `base` on and stands where `s` puts it. */
  predicate HasTaken(f: Option<Flow>, s: seq<Byte>, base: U32, syn: Option<U32>, now: U32, rules: RuleNames) {
    && f.Some? && f.value.lastSeen == now && InStep(f.value.phase, s, |s|, base, rules)
    && (f.value.phase.Inspect? ==> f.value.phase.syn == syn)
  }

  /** A fresh flow meets a payload. */
  lemma FreshTakes(s: Segment, base: U32, syn: Option<U32>, now: U32, rules: RuleNames)
    requires base == PayloadSequence(s)
    ensures var (f, dropped) := Handle(Inspect(START, 0, base, syn), s.(fin := false), now, rules);
            HasTaken(f, s.payload, base, syn, now, rules) && (dropped <==> Decide(Says(s.payload), rules) == Drop)
  {
    hide Receive, Says, Run;
    var p := Inspect(START, 0, base, syn);
    StartInStep(s.payload, base, syn, rules);
    assert s.payload[0..0 + |s.payload|] == s.payload == s.payload[..|s.payload|];
    ReceiveInStep(p, s.payload, 0, 0, |s.payload|, base, rules, rules);
    ReceiveKeepsSyn(p, base, s.payload, rules);
  }

  lemma ReceiveKeepsSyn(p: Phase, at: U32, payload: seq<Byte>, rules: RuleNames)
    requires p.Inspect? && p.inspected <= STREAM_LIMIT
    ensures var q := Receive(p, at, payload, rules); q.Inspect? ==> q.syn == p.syn
  {
  }

  /** FIN: the flow is forgotten, and the segment dropped unless the bytes so far are allowed. */
  lemma FinSettles(f: Option<Flow>, s: Segment, now: U32, rules: RuleNames)
    requires (f.Some? ==> LegalFlow(f.value)) && s.fin && !s.rst
    ensures var g := FlowStep(f, s.(fin := false), now, rules).0;
            FlowStep(f, s, now, rules) == (None, g.Some? && g.value.phase != Allow)
  {
    hide Receive;
  }

  /** Data of a connection without a flow is inspected from its own sequence number on, and dropped
      exactly when it alone is to be dropped; with a FIN, unless it alone is allowed. */
  lemma UnknownDataInspected(s: Segment, now: U32, rules: RuleNames)
    requires !s.rst && !s.syn && s.payload != []
    ensures var (f, dropped) := FlowStep(None, s, now, rules);
            if s.fin then f == None && (dropped <==> Decide(Says(s.payload), rules) != Forward)
            else HasTaken(f, s.payload, s.sequence, None, now, rules)
                 && (dropped <==> Decide(Says(s.payload), rules) == Drop)
  {
    hide Handle, Says;
    assert s.payload[..|s.payload|] == s.payload;
    FreshTakes(s, s.sequence, None, now, rules);
    if s.fin {
      FinSettles(None, s, now, rules);
    }
    assert !s.fin ==> s.(fin := false) == s;
  }

  /** A SYN starts its flow over, data included, unless it repeats the one the flow started from. */
  lemma SynStartsOver(f: Option<Flow>, s: Segment, now: U32, rules: RuleNames)
    requires (f.Some? ==> LegalFlow(f.value)) && s.syn && !s.rst && !RepeatsSyn(f, s)
    ensures var (g, dropped) := FlowStep(f, s, now, rules);
            if s.fin then g == None && (dropped <==> Decide(Says(s.payload), rules) != Forward)
            else HasTaken(g, s.payload, Wrap(s.sequence + 1), Some(s.sequence), now, rules)
                 && (dropped <==> Decide(Says(s.payload), rules) == Drop)
  {
    hide Handle, Says;
    assert s.payload[..|s.payload|] == s.payload;
    FreshTakes(s, Wrap(s.sequence + 1), Some(s.sequence), now, rules);
    if s.fin {
      FinSettles(f, s, now, rules);
    }
    assert !s.fin ==> s.(fin := false) == s;
  }

  /** That one leaves the flow as it is; a RST ends it; an empty segment of an unknown one passes. */
  lemma NothingTaken(f: Option<Flow>, s: Segment, now: U32, rules: RuleNames)
    requires f.Some? ==> LegalFlow(f.value)
    ensures !s.rst && s.syn && !s.fin && RepeatsSyn(f, s) ==>
              FlowStep(f, s, now, rules) == (Some(f.value.(lastSeen := now)), false)
    ensures s.rst ==> FlowStep(f, s, now, rules) == (None, false)
    ensures f.None? && !s.syn && s.payload == [] ==> FlowStep(f, s, now, rules) == (None, false)
  {
  }

  // ----- segments of a known flow -----

  /** A decided flow keeps its verdict for every segment but a SYN or RST. */
  lemma VerdictKept(f: Flow, s: Segment, now: U32, rules: RuleNames)
    requires !f.phase.Inspect? && !s.syn && !s.rst
    ensures FlowStep(Some(f), s, now, rules)
         == (if s.fin then None else Some(f.(lastSeen := now)), f.phase == Block)
  {
  }

  /** An inspected flow takes in whatever is new of a segment at or behind the offset it expects. */
  lemma InspectedTakes(f: Flow, st: seq<Byte>, n: nat, base: U32, was: RuleNames, s: Segment, a: nat, now: U32,
                       rules: RuleNames)
    requires LegalFlow(f) && f.phase.Inspect? && n <= |st| && InStep(f.phase, st, n, base, was)
    requires !s.syn && !s.rst && !s.fin && s.sequence == Wrap(base + a)
    requires a <= n && a + |s.payload| <= |st| && s.payload == st[a..a + |s.payload|]
    ensures var n' := if a + |s.payload| > n then a + |s.payload| else n;
            var (g, dropped) := FlowStep(Some(f), s, now, rules);
            && g.Some? && g.value.lastSeen == now && InStep(g.value.phase, st, n', base, rules)
            && (dropped <==> Decide(Says(st[..n']), rules) == Drop)
  {
    hide Receive, Says, Run;
    ReceiveInStep(f.phase, st, n, a, |s.payload|, base, was, rules);
  }

  /** Data beyond the offset expected blocks the flow. */
  lemma GapBlocks(f: Flow, n: nat, base: U32, s: Segment, a: nat, now: U32, rules: RuleNames)
    requires LegalFlow(f) && f.phase.Inspect? && f.phase.next == Wrap(base + n)
    requires !s.syn && !s.rst && s.sequence == Wrap(base + a) && n < a < n + 0x8000_0000 && s.payload != []
    ensures FlowStep(Some(f), s, now, rules) == (if s.fin then None else Some(Flow(Block, now)), true)
  {
    hide Receive;
    ReceiveGap(f.phase, n, a, base, s.payload, rules);
  }

  /** A segment that starts 2^31 or more ahead on the sequence circle counts as one behind, and whatever of it ends
      at or before the expected offset is not fed again. */
  lemma BehindIgnored(f: Flow, s: Segment, now: U32, rules: RuleNames)
    requires LegalFlow(f) && f.phase.Inspect? && !s.syn && !s.rst && !s.fin
    requires 0x8000_0000 <= Wrap(s.sequence - f.phase.next)
    requires Wrap(s.sequence - f.phase.next) + |s.payload| <= 0x1_0000_0000
    ensures FlowStep(Some(f), s, now, rules) == (Some(f.(lastSeen := now)), false)
  {
    hide Receive;
    ReceiveBehind(f.phase, s.sequence, s.payload, rules);
  }

  lemma ReceiveBehind(p: Phase, at: U32, payload: seq<Byte>, rules: RuleNames)
    requires p.Inspect? && p.inspected <= STREAM_LIMIT
    requires 0x8000_0000 <= Wrap(at - p.next) && Wrap(at - p.next) + |payload| <= 0x1_0000_0000
    ensures Receive(p, at, payload, rules) == p
  {
    hide Receive, Consume;
    WrapNegated(p.next, at);
    if payload != [] {
      ReceiveCases(p, at, payload, rules);
    } else {
      ReceiveNothing(p, at, rules);
    }
  }

  // ----- time -----

  /** A flow is forgotten exactly when it was last seen 15 s (inspected) or 120 s (decided) ago or more,
      as long as less than a turn of the clock has passed. */
  lemma IdleFlowForgotten(f: Flow, last: nat, t: nat)
    requires f.lastSeen == Wrap(last) && last <= t < last + TWO_32
    ensures Expire(Some(f), Wrap(t))
         == if t - last >= (if f.phase.Inspect? then 15000 else 120000) then None else Some(f)
  {
    WrapElapsed(t, last);
  }

  // ----- no blind spot -----

  /** Nothing of the payload lies ahead of what the flow has been fed. */
  predicate Fed(p: Phase, s: Segment) {
    p.Inspect? && Wrap(p.next - (s.sequence + (if s.syn then 1 else 0) + |s.payload|)) <= TWO_31
  }

  lemma ReceiveFeeds(p: Phase, at: U32, payload: seq<Byte>, rules: RuleNames)
    requires p.Inspect? && p.inspected <= STREAM_LIMIT && payload != []
    ensures var q := Receive(p, at, payload, rules);
            q.Inspect? ==> Wrap(q.next - (at + |payload|)) <= TWO_31
  {
    var ahead, overlap := Wrap(at - p.next), Wrap(p.next - at);
    hide Run, Consume;
    ReceiveCases(p, at, payload, rules);
    if !(0 < ahead < TWO_31) {
      WrapNegated(at, p.next);
      if overlap >= |payload| {
        WrapLess(p.next, at, |payload|);
      } else {
        ConsumeNext(p, payload[overlap..], Wrap(p.next + |payload[overlap..]|), rules);
        WrapMeets(p.next, at, |payload|);
      }
    }
  }

  lemma WrapNegated(x: U32, y: U32)
    ensures Wrap(x - y) == if x == y then 0 else TWO_32 - Wrap(y - x)
  {
  }

  lemma WrapLess(x: U32, y: U32, d: nat)
    requires d <= Wrap(x - y)
    ensures Wrap(x - (y + d)) == Wrap(x - y) - d
  {
  }

  lemma WrapMeets(x: U32, y: U32, d: nat)
    requires Wrap(x - y) < d
    ensures Wrap(Wrap(x + (d - Wrap(x - y))) - (y + d)) == 0
  {
  }

  /** The end of the payload, from the register that holds its start. */
  lemma WrapEnd(n: int, x: nat, d: nat)
    requires x <= TWO_32
    ensures Wrap(n - (x + d)) == Wrap(n - (Wrap(x) + d))
  {
    if x == TWO_32 {
      WrapTurn(n - (x + d));
    }
  }

  lemma HandledIsFed(p: Phase, s: Segment, now: U32, rules: RuleNames)
    requires LegalFlow(Flow(p, now)) && s.payload != [] && !s.fin && !Handle(p, s, now, rules).1
    ensures var g := Handle(p, s, now, rules).0;
            g.Some? && g.value.lastSeen == now && (g.value.phase == Allow || Fed(g.value.phase, s))
  {
    hide Receive, Wrap;
    if p.Inspect? {
      var q := Receive(p, PayloadSequence(s), s.payload, rules);
      ReceiveFeeds(p, PayloadSequence(s), s.payload, rules);
      if q.Inspect? {
        WrapEnd(q.next, s.sequence + (if s.syn then 1 else 0), |s.payload|);
      }
    }
  }

  /** A forwarded segment with data leaves an allowed flow, or an inspected one that has been fed the
      data; with a FIN, only the former. */
  lemma ForwardedIsFed(f: Option<Flow>, s: Segment, now: U32, rules: RuleNames)
    requires (f.Some? ==> LegalFlow(f.value)) && !s.rst && s.payload != []
    requires !FlowStep(f, s, now, rules).1
    ensures var g := FlowStep(f, s.(fin := false), now, rules).0;
            && g.Some? && g.value.lastSeen == now
            && (g.value.phase == Allow || (!s.fin && Fed(g.value.phase, s)))
            && (!s.fin ==> FlowStep(f, s, now, rules).0 == g)
  {
    hide Handle, Fed;
    var t := s.(fin := false);
    if s.fin {
      FinSettles(f, s, now, rules);
      WithoutFin(f, s, now, rules);
    } else {
      assert t == s;
      HandledIsFed(if Opens(f, s) then Opening(s) else f.value.phase, s, now, rules);
    }
  }

  /** A segment with data always finds or makes a flow, if only until its FIN. */
  lemma WithoutFin(f: Option<Flow>, s: Segment, now: U32, rules: RuleNames)
    requires (f.Some? ==> LegalFlow(f.value)) && !s.rst && s.payload != []
    ensures var g := FlowStep(f, s.(fin := false), now, rules).0; g.Some? && g.value.lastSeen == now
  {
    hide Receive;
  }

  /** A segment that the table has no room for is dropped, its connection left without a flow. */
  lemma RefusedStep(ss: seq<Slot>, s: Segment, now: U32, rules: RuleNames, k: Key)
    requires LegalTable(ss) && Exhausted(ss, s, now)
    ensures var (ss', dropped) := TableStep(ss, s, now, rules);
            && LegalTable(ss') && dropped
            && Lookup(ss', k) == if k == s.key then None else Expire(Lookup(ss, k), now)
  {
    var live := ExpireAll(ss, now);
    ExpireLooksUp(ss, now, k);
    var i := FindFrom(live, s.key, 0);
    if i.Some? {
      PutLooksUp(live, i.value, s.key, None, k);
    }
  }

  lemma TableStepLegal(ss: seq<Slot>, s: Segment, now: U32, rules: RuleNames)
    requires LegalTable(ss)
    ensures LegalTable(TableStep(ss, s, now, rules).0)
  {
    hide TableStep, Exhausted;
    if Exhausted(ss, s, now) {
      RefusedStep(ss, s, now, rules, s.key);
    } else {
      StepLooksUp(ss, s, now, rules, s.key);
    }
  }

  /** The table after any events, full or not. */
  function TableAfter(ss: seq<Slot>, es: seq<Event>): (r: seq<Slot>)
    requires LegalTable(ss)
    ensures LegalTable(r)
    decreases |es|
  {
    if es == [] then ss
    else
      TableStepLegal(ss, es[0].segment, Now(es[0]), es[0].rules);
      TableAfter(TableStep(ss, es[0].segment, Now(es[0]), es[0].rules).0, es[1..])
  }

  /** After any run, full tables and RSTs included: a segment with data is forwarded only if its flow is
      then in the table, allowed or fed that data; with a FIN, only if the data leave it allowed. */
  lemma NoBlindSpot(es: seq<Event>, e: Event)
    requires e.segment.payload != [] && !e.segment.rst
    ensures var ss := TableAfter(EMPTY_TABLE, es);
            var (ss', dropped) := TableStep(ss, e.segment, Now(e), e.rules);
            var f := Lookup(ss', e.segment.key);
            var live := Lookup(TableStep(ss, e.segment.(fin := false), Now(e), e.rules).0, e.segment.key);
            !dropped ==>
              (if e.segment.fin then f.None? && live.Some? && live.value.phase == Allow
               else f.Some? && f.value.lastSeen == Now(e)
                    && (f.value.phase == Allow || Fed(f.value.phase, e.segment)))
  {
    hide TableStep, FlowStep, Fed;
    var ss, s := TableAfter(EMPTY_TABLE, es), e.segment;
    if !TableStep(ss, s, Now(e), e.rules).1 {
      ExhaustedWithoutFin(ss, s, Now(e));
      if Exhausted(ss, s, Now(e)) {
        RefusedStep(ss, s, Now(e), e.rules, s.key);
      } else {
        StepLooksUp(ss, s, Now(e), e.rules, s.key);
        StepLooksUp(ss, s.(fin := false), Now(e), e.rules, s.key);
        ForwardedIsFed(Expire(Lookup(ss, s.key), Now(e)), s, Now(e), e.rules);
        if s.fin {
          FinSettles(Expire(Lookup(ss, s.key), Now(e)), s, Now(e), e.rules);
        }
      }
    }
  }

  lemma ExhaustedWithoutFin(ss: seq<Slot>, s: Segment, now: U32)
    ensures Exhausted(ss, s.(fin := false), now) <==> Exhausted(ss, s, now)
  {
  }

  /** One segment leaves every other flow alone but for forgetting those idle too long. */
  lemma OthersOnlyAge(ss: seq<Slot>, s: Segment, t: nat, rules: RuleNames, k: Key, last: nat)
    requires LegalTable(ss) && k != s.key && Lookup(ss, k).Some?
    requires Lookup(ss, k).value.lastSeen == Wrap(last) && last <= t < last + TWO_32
    ensures var f := Lookup(ss, k).value;
            var limit := if f.phase.Inspect? then 15000 else 120000;
            Lookup(TableStep(ss, s, Wrap(t), rules).0, k) == if t - last >= limit then None else Some(f)
  {
    hide TableStep, Exhausted;
    if Exhausted(ss, s, Wrap(t)) {
      RefusedStep(ss, s, Wrap(t), rules, k);
    } else {
      StepLooksUp(ss, s, Wrap(t), rules, k);
    }
    IdleFlowForgotten(Lookup(ss, k).value, last, t);
  }
}
