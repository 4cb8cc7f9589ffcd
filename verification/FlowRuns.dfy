/** Whole runs of the flow table: every flow is treated as if it were alone, and as its byte
    stream alone dictates. */
module FlowRuns {
  import opened Bytes
  import opened SniMachine
  import opened FlowSpec
  import opened TlsFlows

  // ----- the slot array as a map from key to flow -----

  predicate DistinctKeys(ss: seq<Slot>) {
    forall i, j | 0 <= i < j < |ss| :: ss[i].Used? && ss[j].Used? ==> ss[i].key != ss[j].key
  }

  predicate LegalTable(ss: seq<Slot>) {
    LegalSlots(ss) && DistinctKeys(ss)
  }

  /** With distinct keys, a used slot is what its key looks up. */
  lemma LookupHolds(ss: seq<Slot>, k: Key, i: nat)
    requires DistinctKeys(ss) && i < |ss| && ss[i].Used? && ss[i].key == k
    ensures FindFrom(ss, k, 0) == Some(i) && Lookup(ss, k) == Some(ss[i].flow)
  {
  }

  lemma LookupMissing(ss: seq<Slot>, k: Key)
    requires forall i | 0 <= i < |ss| :: ss[i].Used? ==> ss[i].key != k
    ensures Lookup(ss, k) == None
  {
  }

  lemma ExpireLooksUp(ss: seq<Slot>, now: U32, k: Key)
    requires LegalTable(ss)
    ensures LegalTable(ExpireAll(ss, now))
    ensures Lookup(ExpireAll(ss, now), k) == Expire(Lookup(ss, k), now)
  {
    var live := ExpireAll(ss, now);
    var i := FindFrom(ss, k, 0);
    if i.Some? && live[i.value].Used? {
      LookupHolds(live, k, i.value);
    } else {
      assert forall j | 0 <= j < |ss| :: live[j].Used? ==> ss[j].Used? && live[j].key == ss[j].key;
      if i.Some? {
        assert forall j | 0 <= j < |ss| && j != i.value :: ss[j].Used? ==> ss[j].key != k;
      }
      LookupMissing(live, k);
    }
  }

  /** Writing the slot that belongs to `key`, or a vacant one, changes that key alone. */
  lemma PutLooksUp(ss: seq<Slot>, i: nat, key: Key, f: Option<Flow>, k: Key)
    requires LegalTable(ss) && i < |ss|
    requires (ss[i].Used? && ss[i].key == key) || (ss[i].Vacant? && Lookup(ss, key).None?)
    requires f.Some? ==> LegalFlow(f.value)
    ensures var r := ss[i := Remaining(key, f)];
            LegalTable(r) && Lookup(r, k) == if k == key then f else Lookup(ss, k)
  {
    var r := ss[i := Remaining(key, f)];
    assert FindFrom(ss, key, 0).None? ==> forall j | 0 <= j < |ss| :: ss[j].Used? ==> ss[j].key != key;
    assert forall j | 0 <= j < |ss| && j != i :: ss[j].Used? ==> ss[j].key != key;
    if k == key {
      if f.Some? {
        LookupHolds(r, k, i);
      } else {
        LookupMissing(r, k);
      }
    } else {
      var j := FindFrom(ss, k, 0);
      if j.Some? {
        LookupHolds(r, k, j.value);
      } else {
        LookupMissing(r, k);
      }
    }
  }

  /** One segment changes its own flow as if it were alone and only ages the others, unless the
      table has no room for it. */
  lemma StepLooksUp(ss: seq<Slot>, s: Segment, now: U32, rules: RuleNames, k: Key)
    requires LegalTable(ss) && !Exhausted(ss, s, now)
    ensures var (ss', dropped) := TableStep(ss, s, now, rules);
            var f := Expire(Lookup(ss, s.key), now);
            && LegalTable(ss')
            && (f.Some? ==> LegalFlow(f.value))
            && dropped == FlowStep(f, s, now, rules).1
            && Lookup(ss', k) == if k == s.key then FlowStep(f, s, now, rules).0 else Expire(Lookup(ss, k), now)
  {
    var live := ExpireAll(ss, now);
    ExpireLooksUp(ss, now, k);
    ExpireLooksUp(ss, now, s.key);
    var f := Lookup(live, s.key);
    var f' := FlowStep(f, s, now, rules).0;
    FlowStepLegal(f, s, now, rules);
    var i := FindFrom(live, s.key, 0);
    if Opens(f, s) {
      var cleared := Cleared(live, s.key);
      if i.Some? {
        PutLooksUp(live, i.value, s.key, None, k);
        PutLooksUp(live, i.value, s.key, None, s.key);
      }
      PutLooksUp(cleared, VacantFrom(cleared, 0).value, s.key, f', k);
    } else if i.Some? {
      PutLooksUp(live, i.value, s.key, f', k);
    }
  }

  /** The keys of the flows in the table. */
  function Keys(ss: seq<Slot>): set<Key> {
    set i | 0 <= i < |ss| && ss[i].Used? :: ss[i].key
  }

  lemma KeysOfLast(ss: seq<Slot>)
    requires ss != [] && DistinctKeys(ss)
    ensures var n := |ss| - 1;
            && DistinctKeys(ss[..n])
            && Keys(ss) == Keys(ss[..n]) + (if ss[n].Used? then {ss[n].key} else {})
            && (ss[n].Used? ==> ss[n].key !in Keys(ss[..n]))
  {
    var init := ss[..|ss| - 1];
    assert forall i | 0 <= i < |init| :: init[i] == ss[i];
  }

  predicate AllUsed(ss: seq<Slot>) {
    forall i | 0 <= i < |ss| :: ss[i].Used?
  }

  lemma AllUsedLast(ss: seq<Slot>)
    requires ss != []
    ensures AllUsed(ss) <==> AllUsed(ss[..|ss| - 1]) && ss[|ss| - 1].Used?
  {
    var init := ss[..|ss| - 1];
    assert forall i | 0 <= i < |init| :: init[i] == ss[i];
  }

  lemma {:induction false} CountKeys(ss: seq<Slot>)
    requires DistinctKeys(ss)
    ensures |Keys(ss)| <= |ss|
    ensures |Keys(ss)| == |ss| <==> AllUsed(ss)
    decreases |ss|
  {
    if ss == [] {
      assert Keys(ss) == {};
    } else {
      hide Keys, DistinctKeys, AllUsed;
      KeysOfLast(ss);
      AllUsedLast(ss);
      CountKeys(ss[..|ss| - 1]);
    }
  }

  lemma KeysCleared(ss: seq<Slot>, k: Key)
    requires LegalTable(ss)
    ensures Keys(Cleared(ss, k)) == Keys(ss) - {k} && DistinctKeys(Cleared(ss, k))
  {
    var cleared := Cleared(ss, k);
    var i := FindFrom(ss, k, 0);
    forall j | 0 <= j < |ss|
      ensures cleared[j].Used? ==> cleared[j] == ss[j] && cleared[j].key != k
      ensures ss[j].Used? && ss[j].key != k ==> cleared[j] == ss[j]
    {
      if i.Some? && j != i.value && ss[j].Used? {
        assert ss[j].key != ss[i.value].key;
      }
    }
    forall x | x in Keys(ss) && x != k ensures x in Keys(cleared) {
      var j :| 0 <= j < |ss| && ss[j].Used? && ss[j].key == x;
      assert cleared[j].key == x;
    }
    forall x | x in Keys(cleared) ensures x in Keys(ss) && x != k {
      var j :| 0 <= j < |cleared| && cleared[j].Used? && cleared[j].key == x;
      assert ss[j].key == x;
    }
  }

  /** The SYN that the inspected flow started from, met again before any byte of the stream. */
  predicate RepeatsSyn(f: Option<Flow>, g: Segment) {
    && f.Some? && f.value.phase.Inspect? && f.value.phase.syn == Some(g.sequence)
    && f.value.phase.next == (if g.sequence == 0xFFFF_FFFF then 0 else g.sequence + 1)
    && g.payload == []
  }

  /** Which segments need a new flow. */
  predicate NeedsFlow(f: Option<Flow>, g: Segment) {
    !g.rst && (if g.syn then !RepeatsSyn(f, g) else f.None? && g.payload != [])
  }

  lemma NeedsFlowOpens(f: Option<Flow>, g: Segment)
    ensures NeedsFlow(f, g) <==> Opens(f, g)
  {
  }

  /** A new flow is refused exactly when a SYN that is no repetition, or data of a connection without
      a flow, meets a table with as many other live flows as slots. */
  lemma ExhaustedMeansFull(ss: seq<Slot>, s: Segment, now: U32)
    requires LegalTable(ss)
    ensures var f := TableLookup(ss, s.key, now);
            Exhausted(ss, s, now) <==>
            NeedsFlow(f, s) && |Keys(ExpireAll(ss, now)) - {s.key}| == |ss|
  {
    var live := ExpireAll(ss, now);
    ExpireLooksUp(ss, now, s.key);
    KeysCleared(live, s.key);
    CountKeys(Cleared(live, s.key));
    hide Opens, NeedsFlow;
    NeedsFlowOpens(TableLookup(ss, s.key, now), s);
  }

  // ----- interleavings -----

  /** A segment met at unbounded time `time` (milliseconds) under the rules then in force. */
  datatype Event = Event(time: nat, segment: Segment, rules: RuleNames)

  function Now(e: Event): U32 {
    Wrap(e.time)
  }

  /** The answers the table gives to the segments of flow `k`. */
  function TableAnswers(ss: seq<Slot>, es: seq<Event>, k: Key): seq<bool>
    requires LegalTable(ss) && NeverExhausted(ss, es)
    decreases |es|
  {
    if es == [] then []
    else
      var e := es[0];
      StepLooksUp(ss, e.segment, Now(e), e.rules, k);
      var (ss', dropped) := TableStep(ss, e.segment, Now(e), e.rules);
      (if e.segment.key == k then [dropped] else []) + TableAnswers(ss', es[1..], k)
  }

  predicate NeverExhausted(ss: seq<Slot>, es: seq<Event>)
    requires LegalSlots(ss)
    decreases |es|
  {
    es == [] ||
    (var e := es[0];
     var ss' := TableStep(ss, e.segment, Now(e), e.rules).0;
     !Exhausted(ss, e.segment, Now(e)) && LegalSlots(ss') && NeverExhausted(ss', es[1..]))
  }

  function LoneStep(f: Option<Flow>, e: Event): (Option<Flow>, bool)
    requires f.Some? ==> LegalFlow(f.value)
  {
    FlowStep(Expire(f, Now(e)), e.segment, Now(e), e.rules)
  }

  /** The answers flow `k` gets with a table of its own that never sees the other segments. */
  function LoneAnswers(f: Option<Flow>, es: seq<Event>, k: Key): seq<bool>
    requires f.Some? ==> LegalFlow(f.value)
    decreases |es|
  {
    if es == [] then []
    else if es[0].segment.key != k then LoneAnswers(f, es[1..], k)
    else
      FlowStepLegal(Expire(f, Now(es[0])), es[0].segment, Now(es[0]), es[0].rules);
      var (f', dropped) := LoneStep(f, es[0]);
      [dropped] + LoneAnswers(f', es[1..], k)
  }

  predicate Ordered(es: seq<Event>, t: nat) {
    forall i | 0 <= i < |es| :: t <= es[i].time && (i > 0 ==> es[i - 1].time <= es[i].time)
  }

  /** Consecutive segments of flow `k` are less than 2^32 ms apart; `last` is the latest one. */
  predicate ShortGaps(es: seq<Event>, k: Key, last: Option<nat>)
    decreases |es|
  {
    es == [] ||
    (if es[0].segment.key != k then ShortGaps(es[1..], k, last)
     else (last.Some? ==> es[0].time < last.value + TWO_32) && ShortGaps(es[1..], k, Some(es[0].time)))
  }

  predicate Mentions(es: seq<Event>, k: Key)
    decreases |es|
  {
    es != [] && (es[0].segment.key == k || Mentions(es[1..], k))
  }

  /** The table has aged the flow out eagerly, or holds exactly what the lone run holds. */
  predicate Agree(g: Option<Flow>, f: Option<Flow>, last: Option<nat>, t: nat) {
    && (f.None? ==> g.None?)
    && (f.Some? ==>
          && last.Some? && last.value <= t && f.value.lastSeen == Wrap(last.value)
          && (g == f || (g.None? && t - last.value >= Timeout(f.value.phase))))
  }

  /** Within 2^32 ms the wrapped clocks measure the true distance. */
  lemma WrapElapsed(t: nat, last: nat)
    requires last <= t < last + TWO_32
    ensures Wrap(Wrap(t) - Wrap(last)) == t - last
  {
  }

  lemma {:induction false} NextMention(es: seq<Event>, k: Key, last: nat, t: nat)
    requires Mentions(es, k) && Ordered(es, t) && ShortGaps(es, k, Some(last))
    ensures t < last + TWO_32
    decreases |es|
  {
    if es[0].segment.key != k {
      assert forall i | 0 <= i < |es[1..]| :: es[1..][i] == es[i + 1];
      NextMention(es[1..], k, last, t);
    }
  }

  lemma {:induction false} NoMention(ss: seq<Slot>, f: Option<Flow>, es: seq<Event>, k: Key)
    requires LegalTable(ss) && NeverExhausted(ss, es) && (f.Some? ==> LegalFlow(f.value))
    requires !Mentions(es, k)
    ensures TableAnswers(ss, es, k) == LoneAnswers(f, es, k)
    decreases |es|
  {
    if es != [] {
      var e := es[0];
      StepLooksUp(ss, e.segment, Now(e), e.rules, k);
      NoMention(TableStep(ss, e.segment, Now(e), e.rules).0, f, es[1..], k);
    }
  }

  /** Eager expiry at another flow's segment keeps the two runs in agreement. */
  lemma AgreeOther(g: Option<Flow>, f: Option<Flow>, last: Option<nat>, t: nat, t': nat)
    requires Agree(g, f, last, t) && t <= t' && (last.Some? ==> t' < last.value + TWO_32)
    ensures Agree(Expire(g, Wrap(t')), f, last, t')
  {
  }

  /** At the flow's own segment both runs start from the same flow. */
  lemma AgreeOwn(g: Option<Flow>, f: Option<Flow>, last: Option<nat>, t: nat, t': nat)
    requires Agree(g, f, last, t) && t <= t' && (last.Some? ==> t' < last.value + TWO_32)
    ensures Expire(g, Wrap(t')) == Expire(f, Wrap(t'))
  {
  }

  lemma {:induction false} RunsAgree(
    ss: seq<Slot>, f: Option<Flow>, es: seq<Event>, k: Key, last: Option<nat>, t: nat)
    requires LegalTable(ss) && NeverExhausted(ss, es) && (f.Some? ==> LegalFlow(f.value))
    requires Ordered(es, t) && ShortGaps(es, k, last) && Agree(Lookup(ss, k), f, last, t)
    ensures TableAnswers(ss, es, k) == LoneAnswers(f, es, k)
    decreases |es|
  {
    if !Mentions(es, k) {
      NoMention(ss, f, es, k);
    } else {
      var e, rest := es[0], es[1..];
      assert Ordered(rest, e.time) by {
        assert forall i | 0 <= i < |rest| :: rest[i] == es[i + 1];
        OrderedFrom(es, t);
      }
      StepLooksUp(ss, e.segment, Now(e), e.rules, k);
      var ss' := TableStep(ss, e.segment, Now(e), e.rules).0;
      if e.segment.key == k {
        AgreeOwn(Lookup(ss, k), f, last, t, e.time);
        FlowStepLegal(Expire(f, Now(e)), e.segment, Now(e), e.rules);
        FlowStepSeen(Expire(f, Now(e)), e.segment, Now(e), e.rules);
        RunsAgree(ss', LoneStep(f, e).0, rest, k, Some(e.time), e.time);
      } else {
        if last.Some? {
          NextMention(rest, k, last.value, e.time);
        }
        AgreeOther(Lookup(ss, k), f, last, t, e.time);
        RunsAgree(ss', f, rest, k, last, e.time);
      }
    }
  }

  lemma {:induction false} OrderedFrom(es: seq<Event>, t: nat)
    requires Ordered(es, t) && es != []
    ensures forall i | 0 <= i < |es| :: es[0].time <= es[i].time
    decreases |es|
  {
    if |es| > 1 {
      var init := es[..|es| - 1];
      assert forall i | 0 <= i < |init| :: init[i] == es[i];
      OrderedFrom(init, t);
      assert init[|init| - 1].time <= es[|es| - 1].time;
      assert forall i | 0 <= i < |es| - 1 :: es[i] == init[i];
    }
  }

  /** A surviving flow was last seen now. */
  lemma FlowStepSeen(f: Option<Flow>, s: Segment, now: U32, rules: RuleNames)
    requires f.Some? ==> LegalFlow(f.value)
    ensures var f' := FlowStep(f, s, now, rules).0; f'.Some? ==> f'.value.lastSeen == now
  {
  }

  const EMPTY_TABLE: seq<Slot> := seq(12, _ => Vacant)

  /** In any interleaving that never runs out of slots, each flow is answered as if alone. */
  lemma NonInterference(es: seq<Event>, k: Key)
    requires NeverExhausted(EMPTY_TABLE, es)
    requires Ordered(es, 0) && ShortGaps(es, k, None)
    ensures TableAnswers(EMPTY_TABLE, es, k) == LoneAnswers(None, es, k)
  {
    RunsAgree(EMPTY_TABLE, None, es, k, None, 0);
  }

  // ----- one stream, cut and repeated in any way -----

  /** A data segment carrying stream bytes [offset, offset + length). */
  datatype Piece = Piece(offset: nat, length: nat, fin: bool, time: nat, rules: RuleNames)

  predicate Carries(s: seq<Byte>, p: Piece) {
    p.offset + p.length <= |s|
  }

  function Carry(s: seq<Byte>, base: U32, k: Key, p: Piece): Event
    requires Carries(s, p)
  {
    Event(p.time,
          Segment(k, Wrap(base + p.offset), false, false, p.fin, s[p.offset..p.offset + p.length]),
          p.rules)
  }

  predicate AllCarry(s: seq<Byte>, ps: seq<Piece>) {
    forall i | 0 <= i < |ps| :: Carries(s, ps[i])
  }

  function CarryAll(s: seq<Byte>, base: U32, k: Key, ps: seq<Piece>): seq<Event>
    requires AllCarry(s, ps)
    decreases |ps|
  {
    if ps == [] then [] else [Carry(s, base, k, ps[0])] + CarryAll(s, base, k, ps[1..])
  }

  function Extend(n: nat, p: Piece): nat {
    if p.offset + p.length > n then p.offset + p.length else n
  }

  /** No piece starts beyond what was received, none ends the flow, and none comes so late that
      the flow has timed out; s[..n] was received by time `last`. */
  predicate Steady(s: seq<Byte>, n: nat, last: nat, ps: seq<Piece>)
    requires n <= |s| && AllCarry(s, ps)
    decreases |ps|
  {
    ps == [] ||
    (var p := ps[0];
     && p.offset <= n && !p.fin
     && last <= p.time < last + (if Says(s[..n]) == Undecided then 15000 else 120000)
     && Steady(s, Extend(n, p), p.time, ps[1..]))
  }

  /** The rules a decision is or will be taken under, once piece `p` is in. */
  function DecisionRules(s: seq<Byte>, n: nat, rules: RuleNames, p: Piece): RuleNames
    requires n <= |s|
  {
    if Says(s[..n]) == Undecided then p.rules else rules
  }

  /** The answers the stream dictates: drop exactly when the bytes received so far say so. */
  function StreamAnswers(s: seq<Byte>, n: nat, rules: RuleNames, ps: seq<Piece>): seq<bool>
    requires n <= |s| && AllCarry(s, ps)
    decreases |ps|
  {
    if ps == [] then []
    else
      var n', r' := Extend(n, ps[0]), DecisionRules(s, n, rules, ps[0]);
      [Decide(Says(s[..n']), r') == Drop] + StreamAnswers(s, n', r', ps[1..])
  }

  lemma PhaseInStep(p: Phase, s: seq<Byte>, n: nat, base: U32, rules: RuleNames, k: Key, piece: Piece)
    requires n <= |s| && Carries(s, piece) && piece.offset <= n && !piece.fin
    requires InStep(p, s, n, base, rules) && LegalFlow(Flow(p, 0))
    ensures var q := AfterPayload(p, Carry(s, base, k, piece).segment, piece.rules);
            InStep(q, s, Extend(n, piece), base, DecisionRules(s, n, rules, piece))
  {
    hide Receive, Run, Says, Hostnames.Blocked;
    var n' := Extend(n, piece);
    if p.Inspect? {
      ReceiveInStep(p, s, n, piece.offset, piece.length, base, rules, piece.rules);
      assert Wrap(Wrap(base + piece.offset)) == Wrap(base + piece.offset);
    } else {
      assert s[..n'][..n] == s[..n];
      SaysStable(s[..n'], n);
    }
  }

  lemma PieceInStep(f: Flow, s: seq<Byte>, n: nat, base: U32, rules: RuleNames, k: Key, last: nat, p: Piece)
    requires n <= |s| && Carries(s, p) && LegalFlow(f)
    requires InStep(f.phase, s, n, base, rules) && f.lastSeen == Wrap(last)
    requires p.offset <= n && !p.fin && last <= p.time < last + Timeout(f.phase)
    ensures var n', r' := Extend(n, p), DecisionRules(s, n, rules, p);
            var (f', dropped) := LoneStep(Some(f), Carry(s, base, k, p));
            && f'.Some? && f'.value.lastSeen == Wrap(p.time)
            && InStep(f'.value.phase, s, n', base, r')
            && dropped == (Decide(Says(s[..n']), r') == Drop)
  {
    hide AfterPayload, Says, FlowStep, Run;
    WrapElapsed(p.time, last);
    PhaseInStep(f.phase, s, n, base, rules, k, p);
    StepIsAfterPayload(f, Carry(s, base, k, p));
  }

  /** A live flow and a segment that neither opens nor resets it. */
  lemma StepIsAfterPayload(f: Flow, e: Event)
    requires LegalFlow(f) && !TimedOut(f, Now(e)) && !e.segment.syn && !e.segment.rst
    ensures var q := AfterPayload(f.phase, e.segment, e.rules);
            LoneStep(Some(f), e) == (if e.segment.fin then None else Some(Flow(q, Now(e))), q.Block?)
  {
  }

  lemma {:induction false} PiecesAnswered(
    f: Flow, s: seq<Byte>, n: nat, base: U32, rules: RuleNames, k: Key, last: nat, ps: seq<Piece>)
    requires n <= |s| && AllCarry(s, ps) && LegalFlow(f)
    requires InStep(f.phase, s, n, base, rules) && f.lastSeen == Wrap(last)
    requires Steady(s, n, last, ps)
    ensures LoneAnswers(Some(f), CarryAll(s, base, k, ps), k) == StreamAnswers(s, n, rules, ps)
    decreases |ps|
  {
    if ps != [] {
      var p, rest := ps[0], ps[1..];
      var e := Carry(s, base, k, p);
      assert Timeout(f.phase) == if Says(s[..n]) == Undecided then 15000 else 120000;
      PieceInStep(f, s, n, base, rules, k, last, p);
      FlowStepLegal(Expire(Some(f), Now(e)), e.segment, Now(e), e.rules);
      assert CarryAll(s, base, k, ps)[1..] == CarryAll(s, base, k, rest);
      var f', r' := LoneStep(Some(f), e).0.value, DecisionRules(s, n, rules, p);
      PiecesAnswered(f', s, Extend(n, p), base, r', k, p.time, rest);
    }
  }

  /** The segment that starts a flow: a SYN (with or without data) or, mid-stream, first data. */
  predicate Starts(f: Option<Flow>, e: Event, s: seq<Byte>) {
    NeedsFlow(f, e.segment) && !e.segment.fin && e.segment.payload <= s
  }

  lemma StartInStep(s: seq<Byte>, base: U32, syn: Option<U32>, rules: RuleNames)
    ensures InStep(Inspect(START, 0, base, syn), s, 0, base, rules)
  {
  }

  lemma OpeningInStep(f: Option<Flow>, e: Event, s: seq<Byte>)
    requires (f.Some? ==> LegalFlow(f.value)) && Starts(f, e, s)
    ensures var l := |e.segment.payload|;
            var (f', dropped) := FlowStep(f, e.segment, Now(e), e.rules);
            && f'.Some? && f'.value.lastSeen == Now(e) && LegalFlow(f'.value)
            && InStep(f'.value.phase, s, l, PayloadSequence(e.segment), e.rules)
            && dropped == (Decide(Says(s[..l]), e.rules) == Drop)
  {
    hide Receive, Says, Run;
    var base, l := PayloadSequence(e.segment), |e.segment.payload|;
    var p := Opening(e.segment);
    FlowStepLegal(f, e.segment, Now(e), e.rules);
    StartInStep(s, base, p.syn, e.rules);
    assert e.segment.payload == s[0..0 + l];
    ReceiveInStep(p, s, 0, 0, l, base, e.rules, e.rules);
    assert FlowStep(f, e.segment, Now(e), e.rules) == Handle(p, e.segment, Now(e), e.rules);
  }

  /** Segmentation independence: from the segment that opens the flow, whatever the initial
      sequence number, cuts, overlaps and retransmissions, every answer is the one dictated by
      the stream prefix received by then. */
  lemma SegmentationIndependence(f: Option<Flow>, e: Event, s: seq<Byte>, ps: seq<Piece>)
    requires (f.Some? ==> LegalFlow(f.value)) && Starts(Expire(f, Now(e)), e, s)
    requires AllCarry(s, ps) && Steady(s, |e.segment.payload|, e.time, ps)
    ensures var k, l := e.segment.key, |e.segment.payload|;
            LoneAnswers(f, [e] + CarryAll(s, PayloadSequence(e.segment), k, ps), k) ==
            [Decide(Says(s[..l]), e.rules) == Drop] + StreamAnswers(s, l, e.rules, ps)
  {
    var k, base, l := e.segment.key, PayloadSequence(e.segment), |e.segment.payload|;
    OpeningInStep(Expire(f, Now(e)), e, s);
    var f' := LoneStep(f, e).0.value;
    PiecesAnswered(f', s, l, base, e.rules, k, e.time, ps);
    assert ([e] + CarryAll(s, base, k, ps))[1..] == CarryAll(s, base, k, ps);
  }

  /** The prefix received once all pieces are in. */
  function Received(n: nat, ps: seq<Piece>): nat
    decreases |ps|
  {
    if ps == [] then n else Received(Extend(n, ps[0]), ps[1..])
  }

  lemma {:induction false} LastAnswer(s: seq<Byte>, n: nat, rules: RuleNames, ps: seq<Piece>)
    requires n <= |s| && AllCarry(s, ps) && ps != []
    requires forall i | 0 <= i < |ps| :: ps[i].rules == rules
    ensures Received(n, ps) <= |s| && |StreamAnswers(s, n, rules, ps)| == |ps|
    ensures StreamAnswers(s, n, rules, ps)[|ps| - 1] == (Decide(Says(s[..Received(n, ps)]), rules) == Drop)
    decreases |ps|
  {
    hide Says, Decide;
    var p, rest := ps[0], ps[1..];
    var answers := StreamAnswers(s, n, rules, ps);
    var tail := StreamAnswers(s, Extend(n, p), rules, rest);
    assert DecisionRules(s, n, rules, p) == rules;
    assert answers == [Decide(Says(s[..Extend(n, p)]), rules) == Drop] + tail;
    if rest != [] {
      LastAnswer(s, Extend(n, p), rules, rest);
      assert answers[|ps| - 1] == tail[|rest| - 1];
    } else {
      assert tail == [];
    }
  }

  /** What remains of flow `k` after a run that it has to itself. */
  function LoneFlow(f: Option<Flow>, es: seq<Event>, k: Key): (f': Option<Flow>)
    requires f.Some? ==> LegalFlow(f.value)
    decreases |es|
  {
    if es == [] then f
    else if es[0].segment.key != k then LoneFlow(f, es[1..], k)
    else
      FlowStepLegal(Expire(f, Now(es[0])), es[0].segment, Now(es[0]), es[0].rules);
      LoneFlow(LoneStep(f, es[0]).0, es[1..], k)
  }

  /** The rules the last decision was taken under. */
  function FinalRules(s: seq<Byte>, n: nat, rules: RuleNames, ps: seq<Piece>): RuleNames
    requires n <= |s| && AllCarry(s, ps)
    decreases |ps|
  {
    if ps == [] then rules else FinalRules(s, Extend(n, ps[0]), DecisionRules(s, n, rules, ps[0]), ps[1..])
  }

  lemma {:induction false} ReceivedWithin(s: seq<Byte>, n: nat, ps: seq<Piece>)
    requires n <= |s| && AllCarry(s, ps)
    ensures n <= Received(n, ps) <= |s|
    decreases |ps|
  {
    if ps != [] {
      ReceivedWithin(s, Extend(n, ps[0]), ps[1..]);
    }
  }

  lemma {:induction false} PiecesInStep(
    f: Flow, s: seq<Byte>, n: nat, base: U32, rules: RuleNames, k: Key, last: nat, ps: seq<Piece>)
    requires n <= |s| && AllCarry(s, ps) && LegalFlow(f)
    requires InStep(f.phase, s, n, base, rules) && f.lastSeen == Wrap(last)
    requires Steady(s, n, last, ps)
    ensures Received(n, ps) <= |s|
    ensures var f' := LoneFlow(Some(f), CarryAll(s, base, k, ps), k);
            f'.Some? && InStep(f'.value.phase, s, Received(n, ps), base, FinalRules(s, n, rules, ps))
    decreases |ps|
  {
    hide InStep, Says, FlowStep, DecisionRules;
    ReceivedWithin(s, n, ps);
    if ps != [] {
      var p, rest := ps[0], ps[1..];
      var e := Carry(s, base, k, p);
      TimeoutInStep(f.phase, s, n, base, rules);
      PieceInStep(f, s, n, base, rules, k, last, p);
      FlowStepLegal(Expire(Some(f), Now(e)), e.segment, Now(e), e.rules);
      assert CarryAll(s, base, k, ps)[1..] == CarryAll(s, base, k, rest);
      PiecesInStep(LoneStep(Some(f), e).0.value, s, Extend(n, p), base, DecisionRules(s, n, rules, p), k, p.time, rest);
    }
  }

  lemma TimeoutInStep(p: Phase, s: seq<Byte>, n: nat, base: U32, rules: RuleNames)
    requires n <= |s| && InStep(p, s, n, base, rules)
    ensures Timeout(p) == if Says(s[..n]) == Undecided then 15000 else 120000
  {
  }

  /** After any such run the flow is in step with the stream: while it inspects, its parser has
      been fed exactly the n bytes received, once and in order, n being the distance of the
      expected sequence number from the first and under 4096; otherwise it holds the verdict of
      those n bytes. */
  lemma FlowIsStreamVerdict(f: Option<Flow>, e: Event, s: seq<Byte>, ps: seq<Piece>)
    requires (f.Some? ==> LegalFlow(f.value)) && Starts(Expire(f, Now(e)), e, s)
    requires AllCarry(s, ps) && Steady(s, |e.segment.payload|, e.time, ps)
    ensures var k, l, base := e.segment.key, |e.segment.payload|, PayloadSequence(e.segment);
            var f' := LoneFlow(f, [e] + CarryAll(s, base, k, ps), k);
            && f'.Some? && Received(l, ps) <= |s|
            && InStep(f'.value.phase, s, Received(l, ps), base, FinalRules(s, l, e.rules, ps))
  {
    var k, base, l := e.segment.key, PayloadSequence(e.segment), |e.segment.payload|;
    OpeningInStep(Expire(f, Now(e)), e, s);
    PiecesInStep(LoneStep(f, e).0.value, s, l, base, e.rules, k, e.time, ps);
    assert ([e] + CarryAll(s, base, k, ps))[1..] == CarryAll(s, base, k, ps);
  }

  /** Under one rule set the last answer is the one the received prefix dictates. */
  lemma LastDictated(f: Option<Flow>, e: Event, s: seq<Byte>, ps: seq<Piece>)
    requires (f.Some? ==> LegalFlow(f.value)) && Starts(Expire(f, Now(e)), e, s)
    requires AllCarry(s, ps) && Steady(s, |e.segment.payload|, e.time, ps)
    requires forall i | 0 <= i < |ps| :: ps[i].rules == e.rules
    ensures var k, l := e.segment.key, |e.segment.payload|;
            var answers := LoneAnswers(f, [e] + CarryAll(s, PayloadSequence(e.segment), k, ps), k);
            && |answers| == |ps| + 1 && Received(l, ps) <= |s|
            && answers[|ps|] == (Decide(Says(s[..Received(l, ps)]), e.rules) == Drop)
  {
    hide Says, Decide, Steady;
    SegmentationIndependence(f, e, s, ps);
    if ps != [] {
      LastAnswer(s, |e.segment.payload|, e.rules, ps);
    }
  }

  /** One stream cut, repeated and numbered in two ways, perhaps opened differently too: once the
      same bytes are in, the two flows get the same answer. */
  lemma CutIndependence(
    s: seq<Byte>, f: Option<Flow>, d: Event, ps: seq<Piece>, g: Option<Flow>, e: Event, qs: seq<Piece>)
    requires (f.Some? ==> LegalFlow(f.value)) && Starts(Expire(f, Now(d)), d, s)
    requires (g.Some? ==> LegalFlow(g.value)) && Starts(Expire(g, Now(e)), e, s)
    requires AllCarry(s, ps) && Steady(s, |d.segment.payload|, d.time, ps)
    requires AllCarry(s, qs) && Steady(s, |e.segment.payload|, e.time, qs)
    requires d.rules == e.rules
    requires forall i | 0 <= i < |ps| :: ps[i].rules == d.rules
    requires forall i | 0 <= i < |qs| :: qs[i].rules == e.rules
    requires Received(|d.segment.payload|, ps) == Received(|e.segment.payload|, qs)
    ensures var j, k := d.segment.key, e.segment.key;
            var xs := LoneAnswers(f, [d] + CarryAll(s, PayloadSequence(d.segment), j, ps), j);
            var ys := LoneAnswers(g, [e] + CarryAll(s, PayloadSequence(e.segment), k, qs), k);
            |xs| == |ps| + 1 && |ys| == |qs| + 1 && xs[|ps|] == ys[|qs|]
  {
    hide Says, Decide, LoneAnswers;
    LastDictated(f, d, s, ps);
    LastDictated(g, e, s, qs);
  }

  function Own(es: seq<Event>, k: Key): seq<Event>
    decreases |es|
  {
    if es == [] then [] else (if es[0].segment.key == k then [es[0]] else []) + Own(es[1..], k)
  }

  lemma {:induction false} LoneReadsOwn(f: Option<Flow>, es: seq<Event>, k: Key)
    requires f.Some? ==> LegalFlow(f.value)
    ensures LoneAnswers(f, es, k) == LoneAnswers(f, Own(es, k), k)
    decreases |es|
  {
    if es != [] {
      var e := es[0];
      if e.segment.key == k {
        FlowStepLegal(Expire(f, Now(e)), e.segment, Now(e), e.rules);
        LoneReadsOwn(LoneStep(f, e).0, es[1..], k);
        assert Own(es, k)[1..] == Own(es[1..], k);
      } else {
        LoneReadsOwn(f, es[1..], k);
        assert Own(es, k) == Own(es[1..], k);
      }
    }
  }

  /** The verdicts of a shared table on one flow are a function of that flow's byte stream. */
  lemma TableAnswersAreStreamAnswers(es: seq<Event>, e: Event, s: seq<Byte>, ps: seq<Piece>)
    requires NeverExhausted(EMPTY_TABLE, es)
    requires Ordered(es, 0) && ShortGaps(es, e.segment.key, None)
    requires Starts(None, e, s) && AllCarry(s, ps) && Steady(s, |e.segment.payload|, e.time, ps)
    requires Own(es, e.segment.key) == [e] + CarryAll(s, PayloadSequence(e.segment), e.segment.key, ps)
    ensures TableAnswers(EMPTY_TABLE, es, e.segment.key) ==
            [Decide(Says(s[..|e.segment.payload|]), e.rules) == Drop]
              + StreamAnswers(s, |e.segment.payload|, e.rules, ps)
  {
    NonInterference(es, e.segment.key);
    LoneReadsOwn(None, es, e.segment.key);
    SegmentationIndependence(None, e, s, ps);
  }

  // ----- containment -----

  /** From flow `f` until it is cleared: a forwarded piece with bytes either brings or meets an
      allow verdict or ends inside a prefix on which the stream is still undecided. */
  predicate Contained(f: Flow, s: seq<Byte>, base: U32, k: Key, ps: seq<Piece>)
    requires AllCarry(s, ps) && LegalFlow(f)
    decreases |ps|
  {
    ps == [] || TimedOut(f, Wrap(ps[0].time)) ||
    (var p := ps[0];
     var e := Carry(s, base, k, p);
     var (f', dropped) := LoneStep(Some(f), e);
     FlowStepLegal(Some(f), e.segment, Now(e), e.rules);
     && (!dropped && p.length > 0 ==>
           AfterPayload(f.phase, e.segment, e.rules) == Allow || Says(s[..p.offset + p.length]) == Undecided)
     && (f'.Some? ==> Contained(f'.value, s, base, k, ps[1..])))
  }

  /** The flow inspects s[..n], or has decided. */
  predicate Follows(p: Phase, s: seq<Byte>, base: U32, n: nat) {
    n <= |s| && (p.Inspect? ==> InStep(p, s, n, base, []))
  }

  lemma ReceiveFollows(p: Phase, s: seq<Byte>, n: nat, base: U32, a: nat, l: nat, rules: RuleNames) returns (n': nat)
    requires a + l <= |s| && a < n + TWO_31 && p.Inspect? && Follows(p, s, base, n)
    ensures var q := Receive(p, Wrap(base + a), s[a..a + l], rules);
            && Follows(q, s, base, n')
            && (q.Inspect? && l > 0 ==> Says(s[..a + l]) == Undecided)
            && (q.Allow? ==> Decide(Says(s), rules) == Forward)
  {
    n' := n;
    if a > n {
      ReceiveAhead(p, n, a, base, s[a..a + l], rules);
    } else {
      n' := if a + l > n then a + l else n;
      ReceiveInStep(p, s, n, a, l, base, [], rules);
      InStepFollows(Receive(p, Wrap(base + a), s[a..a + l], rules), s, n', base, rules, a + l);
    }
  }

  /** A flow that inspects tells what lies ahead from what lies behind by the sign of a 32-bit
      distance from the offset it expects, which is the number of bytes inspected. */
  predicate WithinReach(p: Phase, piece: Piece) {
    p.Inspect? ==> piece.offset < p.inspected + TWO_31
  }

  /** While the flow inspects, no piece starts 2^31 or more beyond the offset then expected. */
  predicate Reachable(f: Flow, s: seq<Byte>, base: U32, k: Key, ps: seq<Piece>)
    requires AllCarry(s, ps) && LegalFlow(f)
    decreases |ps|
  {
    ps == [] || TimedOut(f, Wrap(ps[0].time)) ||
    (var e := Carry(s, base, k, ps[0]);
     FlowStepLegal(Some(f), e.segment, Now(e), e.rules);
     var f' := LoneStep(Some(f), e).0;
     WithinReach(f.phase, ps[0]) && (f'.Some? ==> Reachable(f'.value, s, base, k, ps[1..])))
  }

  /** A piece within reach, in order or not: the flow still follows, and if it inspects afterwards
      the piece lies in the undecided prefix. */
  lemma PieceFollows(p: Phase, s: seq<Byte>, n: nat, base: U32, k: Key, piece: Piece) returns (n': nat)
    requires Carries(s, piece) && WithinReach(p, piece) && Follows(p, s, base, n) && LegalFlow(Flow(p, 0))
    ensures var q := AfterPayload(p, Carry(s, base, k, piece).segment, piece.rules);
            && Follows(q, s, base, n')
            && (q.Inspect? && piece.length > 0 ==> Says(s[..piece.offset + piece.length]) == Undecided)
            && (p.Inspect? && q.Allow? ==> Decide(Says(s), piece.rules) == Forward)
  {
    hide Receive, Says, Run;
    n' := n;
    if p.Inspect? {
      n' := ReceiveFollows(p, s, n, base, piece.offset, piece.length, piece.rules);
      assert PayloadSequence(Carry(s, base, k, piece).segment) == Wrap(base + piece.offset);
    }
  }

  lemma ReceiveAhead(p: Phase, n: nat, a: nat, base: U32, payload: seq<Byte>, rules: RuleNames)
    requires p.Inspect? && p.inspected <= STREAM_LIMIT && p.next == Wrap(base + n)
    requires n < a < n + TWO_31
    ensures Receive(p, Wrap(base + a), payload, rules) == if payload == [] then p else Block
  {
    if payload != [] {
      ReceiveGap(p, n, a, base, payload, rules);
    }
  }

  lemma InStepFollows(q: Phase, s: seq<Byte>, n: nat, base: U32, rules: RuleNames, end: nat)
    requires n <= |s| && end <= n && InStep(q, s, n, base, rules)
    ensures Follows(q, s, base, n)
    ensures q.Inspect? ==> Says(s[..end]) == Undecided
    ensures q.Allow? ==> Decide(Says(s), rules) == Forward
  {
    if q.Inspect? {
      assert s[..n][..end] == s[..end];
      if Says(s[..end]) != Undecided {
        SaysStable(s[..n], end);
      }
    } else {
      SaysStable(s, n);
    }
  }

  lemma {:induction false} FlowContained(f: Flow, s: seq<Byte>, n: nat, base: U32, k: Key, ps: seq<Piece>)
    requires AllCarry(s, ps) && LegalFlow(f) && Follows(f.phase, s, base, n) && Reachable(f, s, base, k, ps)
    ensures Contained(f, s, base, k, ps)
    decreases |ps|
  {
    if ps != [] && !TimedOut(f, Wrap(ps[0].time)) {
      var p := ps[0];
      var e := Carry(s, base, k, p);
      var n' := PieceFollows(f.phase, s, n, base, k, p);
      StepIsAfterPayload(f, e);
      FlowStepLegal(Some(f), e.segment, Now(e), e.rules);
      var f' := LoneStep(Some(f), e).0;
      if f'.Some? {
        FlowContained(f'.value, s, n', base, k, ps[1..]);
      }
    }
  }

  /** The pieces stay within reach of the flow that `e` opens. */
  predicate ReachableAfter(f: Option<Flow>, e: Event, s: seq<Byte>, ps: seq<Piece>)
    requires AllCarry(s, ps) && (f.Some? ==> LegalFlow(f.value))
  {
    LoneStepLegal(f, e);
    var f' := LoneStep(f, e).0;
    f'.Some? ==> Reachable(f'.value, s, PayloadSequence(e.segment), e.segment.key, ps)
  }

  /** Containment: from the segment that opens a flow until the flow is cleared, whatever else
      of the stream arrives and in whatever order, bytes forwarded before an allow verdict end
      inside a prefix that settles nothing. */
  lemma Containment(f: Option<Flow>, e: Event, s: seq<Byte>, ps: seq<Piece>)
    requires (f.Some? ==> LegalFlow(f.value)) && Starts(Expire(f, Now(e)), e, s)
    requires AllCarry(s, ps) && ReachableAfter(f, e, s, ps)
    ensures var (f', dropped) := LoneStep(f, e);
            && f'.Some? && LegalFlow(f'.value)
            && Contained(f'.value, s, PayloadSequence(e.segment), e.segment.key, ps)
            && (!dropped && f'.value.phase != Allow ==> Says(s[..|e.segment.payload|]) == Undecided)
  {
    var l, base := |e.segment.payload|, PayloadSequence(e.segment);
    OpeningInStep(Expire(f, Now(e)), e, s);
    var f' := LoneStep(f, e).0.value;
    InStepFollows(f'.phase, s, l, base, e.rules, l);
    FlowContained(f', s, l, base, e.segment.key, ps);
  }

  /** Every answered piece with bytes that is forwarded before the flow is cleared ends inside
      an undecided prefix. */
  predicate Withheld(f: Flow, s: seq<Byte>, base: U32, k: Key, ps: seq<Piece>)
    requires AllCarry(s, ps) && LegalFlow(f)
    decreases |ps|
  {
    ps == [] || TimedOut(f, Wrap(ps[0].time)) ||
    (var p := ps[0];
     var e := Carry(s, base, k, p);
     var (f', dropped) := LoneStep(Some(f), e);
     FlowStepLegal(Some(f), e.segment, Now(e), e.rules);
     && (!dropped && p.length > 0 ==> Says(s[..p.offset + p.length]) == Undecided)
     && (f'.Some? ==> Withheld(f'.value, s, base, k, ps[1..])))
  }

  lemma {:induction false} FlowWithholds(
    f: Flow, s: seq<Byte>, n: nat, base: U32, k: Key, ps: seq<Piece>)
    requires AllCarry(s, ps) && LegalFlow(f) && Follows(f.phase, s, base, n) && f.phase != Allow
    requires Reachable(f, s, base, k, ps) && forall i | 0 <= i < |ps| :: Decide(Says(s), ps[i].rules) == Drop
    ensures Withheld(f, s, base, k, ps)
    decreases |ps|
  {
    if ps != [] && !TimedOut(f, Wrap(ps[0].time)) {
      var p := ps[0];
      var e := Carry(s, base, k, p);
      var n' := PieceFollows(f.phase, s, n, base, k, p);
      StepIsAfterPayload(f, e);
      FlowStepLegal(Some(f), e.segment, Now(e), e.rules);
      var f' := LoneStep(Some(f), e).0;
      if f'.Some? {
        FlowWithholds(f'.value, s, n', base, k, ps[1..]);
      }
    }
  }

  /** If the stream is to be dropped under every rule set met, then from the segment that opens
      the flow until the flow is cleared, the byte that completes its ClientHello is never
      forwarded, nor anything after it. */
  lemma BlockedStreamWithheld(f: Option<Flow>, e: Event, s: seq<Byte>, ps: seq<Piece>)
    requires (f.Some? ==> LegalFlow(f.value)) && Starts(Expire(f, Now(e)), e, s)
    requires AllCarry(s, ps) && ReachableAfter(f, e, s, ps)
    requires Decide(Says(s), e.rules) == Drop && forall i | 0 <= i < |ps| :: Decide(Says(s), ps[i].rules) == Drop
    ensures var (f', dropped) := LoneStep(f, e);
            && f'.Some? && LegalFlow(f'.value)
            && Withheld(f'.value, s, PayloadSequence(e.segment), e.segment.key, ps)
            && (!dropped ==> Says(s[..|e.segment.payload|]) == Undecided)
  {
    var l, base := |e.segment.payload|, PayloadSequence(e.segment);
    OpeningInStep(Expire(f, Now(e)), e, s);
    var f' := LoneStep(f, e).0.value;
    InStepFollows(f'.phase, s, l, base, e.rules, l);
    FlowWithholds(f', s, l, base, e.segment.key, ps);
  }

  // ----- containment in the shared table -----

  /** How many of these segments meet the flow before it is cleared. */
  function Lifetime(f: Flow, es: seq<Event>): nat
    requires LegalFlow(f)
    decreases |es|
  {
    if es == [] || TimedOut(f, Now(es[0])) then 0
    else
      FlowStepLegal(Some(f), es[0].segment, Now(es[0]), es[0].rules);
      var f' := LoneStep(Some(f), es[0]).0;
      1 + if f'.Some? then Lifetime(f'.value, es[1..]) else 0
  }

  /** Of the first `m` answers none forwards bytes of a deciding prefix before a segment under whose
      rules the stream is to be forwarded. */
  predicate Confined(answers: seq<bool>, s: seq<Byte>, ps: seq<Piece>, m: nat, allowed: bool)
    requires |answers| == |ps| && AllCarry(s, ps)
    decreases |ps|
  {
    m == 0 || ps == [] ||
    (var p := ps[0];
     var allowed' := allowed || Decide(Says(s), p.rules) == Forward;
     && (!answers[0] && p.length > 0 ==> allowed' || Says(s[..p.offset + p.length]) == Undecided)
     && Confined(answers[1..], s, ps[1..], m - 1, allowed'))
  }

  lemma {:induction false} AnswersPerPiece(f: Option<Flow>, s: seq<Byte>, base: U32, k: Key, ps: seq<Piece>)
    requires AllCarry(s, ps) && (f.Some? ==> LegalFlow(f.value))
    ensures |LoneAnswers(f, CarryAll(s, base, k, ps), k)| == |ps|
    decreases |ps|
  {
    if ps != [] {
      var e := Carry(s, base, k, ps[0]);
      assert CarryAll(s, base, k, ps)[1..] == CarryAll(s, base, k, ps[1..]);
      FlowStepLegal(Expire(f, Now(e)), e.segment, Now(e), e.rules);
      AnswersPerPiece(LoneStep(f, e).0, s, base, k, ps[1..]);
    }
  }

  /** The head of the answers to a live flow. */
  lemma FirstAnswer(f: Flow, s: seq<Byte>, base: U32, k: Key, ps: seq<Piece>)
    requires AllCarry(s, ps) && ps != [] && LegalFlow(f)
    ensures var e := Carry(s, base, k, ps[0]);
            var es, rest := CarryAll(s, base, k, ps), CarryAll(s, base, k, ps[1..]);
            var (f', dropped) := LoneStep(Some(f), e);
            && (f'.Some? ==> LegalFlow(f'.value))
            && LoneAnswers(Some(f), es, k) == [dropped] + LoneAnswers(f', rest, k)
            && Lifetime(f, es) == if TimedOut(f, Now(e)) then 0
                                  else 1 + if f'.Some? then Lifetime(f'.value, rest) else 0
  {
    hide LoneStep, FlowStep, TimedOut, Carry;
    var e := Carry(s, base, k, ps[0]);
    CarryKeyed(s, base, k, ps[0]);
    assert CarryAll(s, base, k, ps)[1..] == CarryAll(s, base, k, ps[1..]);
    LoneStepLegal(Some(f), e);
  }

  lemma CarryKeyed(s: seq<Byte>, base: U32, k: Key, p: Piece)
    requires Carries(s, p)
    ensures var e := Carry(s, base, k, p);
            e.segment.key == k && e.segment.fin == p.fin && e.time == p.time && e.rules == p.rules
            && !e.segment.syn && !e.segment.rst
  {
  }

  lemma LoneStepLegal(f: Option<Flow>, e: Event)
    requires f.Some? ==> LegalFlow(f.value)
    ensures LoneStep(f, e).0.Some? ==> LegalFlow(LoneStep(f, e).0.value)
  {
    FlowStepLegal(Expire(f, Now(e)), e.segment, Now(e), e.rules);
  }

  lemma {:induction false} FlowConfined(
    f: Flow, s: seq<Byte>, n: nat, base: U32, k: Key, ps: seq<Piece>, allowed: bool)
    requires AllCarry(s, ps) && LegalFlow(f) && Follows(f.phase, s, base, n) && Reachable(f, s, base, k, ps)
    requires f.phase == Allow ==> allowed
    ensures var es := CarryAll(s, base, k, ps);
            && |LoneAnswers(Some(f), es, k)| == |ps|
            && Confined(LoneAnswers(Some(f), es, k), s, ps, Lifetime(f, es), allowed)
    decreases |ps|
  {
    hide Follows, FlowStep, Says, Decide, AfterPayload, LoneAnswers, Lifetime, Carry;
    AnswersPerPiece(Some(f), s, base, k, ps);
    if ps != [] {
      var p := ps[0];
      var e := Carry(s, base, k, p);
      CarryKeyed(s, base, k, p);
      FirstAnswer(f, s, base, k, ps);
      if !TimedOut(f, Now(e)) {
        var n' := PieceFollows(f.phase, s, n, base, k, p);
        StepIsAfterPayload(f, e);
        KeepsAllow(f.phase, e.segment, p.rules);
        var f' := LoneStep(Some(f), e).0;
        if f'.Some? {
          FlowConfined(f'.value, s, n', base, k, ps[1..], allowed || Decide(Says(s), p.rules) == Forward);
        }
      }
    }
  }

  lemma KeepsAllow(p: Phase, s: Segment, rules: RuleNames)
    requires p.Inspect? ==> p.inspected < STREAM_LIMIT
    ensures !p.Inspect? ==> AfterPayload(p, s, rules) == p
  {
  }

  /** Containment in any interleaving: from the segment that opens a flow until the flow is cleared,
      the shared table forwards no bytes of the stream beyond an undecided prefix, unless under the
      rules of that or an earlier segment of the flow the stream is to be forwarded. */
  lemma TableContainment(es: seq<Event>, e: Event, s: seq<Byte>, ps: seq<Piece>)
    requires NeverExhausted(EMPTY_TABLE, es)
    requires Ordered(es, 0) && ShortGaps(es, e.segment.key, None)
    requires Starts(None, e, s) && AllCarry(s, ps) && ReachableAfter(None, e, s, ps)
    requires Own(es, e.segment.key) == [e] + CarryAll(s, PayloadSequence(e.segment), e.segment.key, ps)
    ensures var k, base := e.segment.key, PayloadSequence(e.segment);
            var answers, allowed := TableAnswers(EMPTY_TABLE, es, k), Decide(Says(s), e.rules) == Forward;
            var f := LoneStep(None, e).0;
            && f.Some? && LegalFlow(f.value) && |answers| == 1 + |ps|
            && (!answers[0] ==> allowed || Says(s[..|e.segment.payload|]) == Undecided)
            && Confined(answers[1..], s, ps, Lifetime(f.value, CarryAll(s, base, k, ps)), allowed)
  {
    hide NeverExhausted, Ordered, ShortGaps, Own, Confined, Lifetime, Says, Decide, FlowStep;
    var k, base, l := e.segment.key, PayloadSequence(e.segment), |e.segment.payload|;
    NonInterference(es, k);
    LoneReadsOwn(None, es, k);
    var f := OpensInStep(e, s);
    var rest := CarryAll(s, base, k, ps);
    assert ([e] + rest)[1..] == rest;
    FlowConfined(f, s, l, base, k, ps, Decide(Says(s), e.rules) == Forward);
    assert ([LoneStep(None, e).1] + LoneAnswers(Some(f), rest, k))[1..] == LoneAnswers(Some(f), rest, k);
  }

  /** The flow that an opening segment leaves, in terms of its stream. */
  lemma OpensInStep(e: Event, s: seq<Byte>) returns (f: Flow)
    requires Starts(None, e, s)
    ensures LoneStep(None, e).0 == Some(f) && LegalFlow(f)
    ensures Follows(f.phase, s, PayloadSequence(e.segment), |e.segment.payload|)
    ensures f.phase == Allow ==> Decide(Says(s), e.rules) == Forward
    ensures !LoneStep(None, e).1 && f.phase != Allow ==> Says(s[..|e.segment.payload|]) == Undecided
  {
    hide Says, FlowStep;
    var l, base := |e.segment.payload|, PayloadSequence(e.segment);
    OpeningInStep(None, e, s);
    f := LoneStep(None, e).0.value;
    InStepFollows(f.phase, s, l, base, e.rules, l);
  }
}
