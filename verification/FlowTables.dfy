/** The twelve-slot flow table, updated in place by every segment to port 443. */
module FlowTables {
  import opened Bytes
  import opened AccessRules
  import opened FlowSpec
  import opened TlsFlows
  import SniMachine

  lemma FoundLookup(ss: seq<Slot>, k: Key)
    ensures Lookup(ss, k).None? <==> FindFrom(ss, k, 0).None?
  {
  }

  class FlowTable {
    const flows: seq<TlsFlow>

    ghost const footprint: set<object>

    /** The flows share no storage. */
    ghost predicate Separate() {
      && |flows| == FLOW_CAPACITY
      && (forall i | 0 <= i < |flows| :: flows[i].Repr() <= footprint)
      && (forall i, j | 0 <= i < |flows| && 0 <= j < |flows| && i != j :: flows[i].Repr() !! flows[j].Repr())
    }

    ghost predicate Valid()
      reads footprint
    {
      Separate() && forall i | 0 <= i < |flows| :: flows[i].Valid()
    }

    ghost function View(): (ss: seq<Slot>)
      reads footprint
      requires Valid()
      ensures |ss| == FLOW_CAPACITY && LegalSlots(ss)
    {
      seq(|flows|, i requires 0 <= i < |flows| && Valid() reads footprint => flows[i].View())
    }

    constructor ()
      ensures Valid() && fresh(footprint)
      ensures View() == seq(12, _ => Vacant)
    {
      var fs: seq<TlsFlow> := [];
      ghost var all: set<object> := {};
      while |fs| < FLOW_CAPACITY
        invariant |fs| <= FLOW_CAPACITY && fresh(all)
        invariant forall i | 0 <= i < |fs| :: fs[i].Repr() <= all && fs[i].Valid() && fs[i].View() == Vacant
        invariant forall i, j | 0 <= i < |fs| && 0 <= j < |fs| && i != j :: fs[i].Repr() !! fs[j].Repr()
      {
        var f := new TlsFlow();
        fs := fs + [f];
        all := all + f.Repr();
      }
      flows := fs;
      footprint := all;
    }

    /** expire_tls_flows. */
    method ExpireFlows(now: U32)
      requires Valid()
      modifies footprint
      ensures Valid() && View() == ExpireAll(old(View()), now)
    {
      ghost var before := View();
      for i := 0 to |flows|
        invariant Valid()
        invariant forall j | 0 <= j < i :: flows[j].View() == ExpireSlot(before[j], now)
        invariant forall j | i <= j < |flows| :: flows[j].View() == before[j]
      {
        var flow := flows[i];
        if flow.state == Free {
          continue;
        }
        var timeout := if flow.state == FlowState.Inspecting then INSPECTION_TIMEOUT else DECISION_TIMEOUT;
        if Wrap(now - flow.lastSeenMs) >= timeout {
          flow.Clear();
        }
      }
    }

    /** find_tls_flow. */
    method FindFlow(k: Key) returns (i: Option<nat>)
      requires Valid()
      ensures i == FindFrom(View(), k, 0)
    {
      ghost var ss := View();
      for j := 0 to |flows|
        invariant FindFrom(ss, k, 0) == FindFrom(ss, k, j)
      {
        if flows[j].state != Free && flows[j].key == k {
          return Some(j);
        }
      }
      i := None;
    }

    method ClearFlow(i: nat)
      requires Valid() && i < |flows|
      modifies footprint
      ensures Valid() && View() == old(View())[i := Vacant]
    {
      flows[i].Clear();
    }

    /** create_tls_flow and the sequence fields its callers set: the first free slot, if any. */
    method CreateFlow(k: Key, sequence: U32, syn: Option<U32>, now: U32) returns (i: Option<nat>)
      requires Valid()
      modifies footprint
      ensures Valid() && i == VacantFrom(old(View()), 0)
      ensures i.None? ==> View() == old(View())
      ensures i.Some? ==>
                View() == old(View())[i.value := Used(k, Flow(Inspect(SniMachine.START, 0, sequence, syn), now))]
    {
      ghost var ss := View();
      for j := 0 to |flows|
        invariant Valid() && View() == ss
        invariant VacantFrom(ss, 0) == VacantFrom(ss, j)
      {
        if flows[j].state == Free {
          flows[j].Start(k, sequence, syn, now);
          return Some(j);
        }
      }
      i := None;
    }

    method HandleFlow(i: nat, s: Segment, now: U32, rules: RuleTable) returns (blocked: bool)
      requires Valid() && i < |flows| && View()[i].Used? && View()[i].key == s.key && |s.payload| < 0x1_0000
      requires rules.Valid() && rules.Repr() !! footprint
      modifies footprint
      ensures Valid()
      ensures var (f, dropped) := Handle(old(View())[i].flow.phase, s, now, rules.View().hostnames);
              View() == old(View())[i := Remaining(s.key, f)] && blocked == dropped
    {
      blocked := flows[i].Handle(s, now, rules);
    }

    /** clear_tls_flow on what find_tls_flow returned. */
    method DropFlow(k: Key, found: Option<nat>)
      requires Valid() && found == FindFrom(View(), k, 0)
      modifies footprint
      ensures Valid() && View() == Cleared(old(View()), k)
    {
      if found.Some? {
        ClearFlow(found.value);
      }
    }

    /** The test for a plain retransmission of the SYN. */
    method IsSynRetransmission(s: Segment, found: Option<nat>) returns (b: bool)
      requires Valid() && found == FindFrom(View(), s.key, 0)
      ensures b == SynRetransmission(Lookup(View(), s.key), s)
    {
      b := false;
      if found.Some? {
        var f := flows[found.value];
        b := f.state == FlowState.Inspecting && f.sawSyn && f.synSequence == s.sequence
          && f.nextSequence == Wrap(s.sequence + 1) && |s.payload| == 0;
      }
    }

    /** The SYN and first-data branches of inspect_tls_tcp_segment; `full` when no slot is free. */
    method OpenFlow(s: Segment, found: Option<nat>, now: U32) returns (flow: Option<nat>, full: bool)
      requires Valid() && !s.rst && found == FindFrom(View(), s.key, 0)
      modifies footprint
      ensures Valid()
      ensures !Opens(Lookup(old(View()), s.key), s) ==> View() == old(View()) && flow == found && !full
      ensures Opens(Lookup(old(View()), s.key), s) ==>
                var cleared := Cleared(old(View()), s.key);
                && flow == VacantFrom(cleared, 0) && full == flow.None?
                && View() == if full then cleared else cleared[flow.value := Used(s.key, Flow(Opening(s), now))]
    {
      hide SynRetransmission, Opening, Cleared, Lookup, FindFrom;
      flow, full := found, false;
      if s.syn {
        var retransmission := IsSynRetransmission(s, flow);
        if !retransmission {
          flow := Reopen(s, flow, now);
          full := flow.None?;
        }
      } else if flow.None? && |s.payload| > 0 {
        flow := OpenUnknown(s, now);
        full := flow.None?;
      }
      FoundLookup(old(View()), s.key);
    }

    /** A SYN starts its flow anew. */
    method Reopen(s: Segment, found: Option<nat>, now: U32) returns (flow: Option<nat>)
      requires Valid() && s.syn && found == FindFrom(View(), s.key, 0)
      modifies footprint
      ensures Valid()
      ensures var cleared := Cleared(old(View()), s.key);
              && flow == VacantFrom(cleared, 0)
              && View() == if flow.None? then cleared else cleared[flow.value := Used(s.key, Flow(Opening(s), now))]
    {
      hide Cleared;
      DropFlow(s.key, found);
      flow := CreateFlow(s.key, Wrap(s.sequence + 1), Some(s.sequence), now);
    }

    /** Data of a flow met mid-stream. */
    method OpenUnknown(s: Segment, now: U32) returns (flow: Option<nat>)
      requires Valid() && !s.syn && FindFrom(View(), s.key, 0).None?
      modifies footprint
      ensures Valid()
      ensures var cleared := Cleared(old(View()), s.key);
              && flow == VacantFrom(cleared, 0)
              && View() == if flow.None? then cleared else cleared[flow.value := Used(s.key, Flow(Opening(s), now))]
    {
      flow := CreateFlow(s.key, PayloadSequence(s), None, now);
    }

    /** inspect_tls_tcp_segment: true drops the segment. */
    method InspectSegment(s: Segment, now: U32, rules: RuleTable) returns (blocked: bool)
      requires Valid() && |s.payload| < 0x1_0000
      requires rules.Valid() && rules.Repr() !! footprint
      modifies footprint
      ensures Valid()
      ensures (View(), blocked) == TableStep(old(View()), s, now, rules.View().hostnames)
    {
      hide Handle, Opening, Opens, TableStep, ExpireAll, Lookup, Cleared;
      ghost var names := rules.View().hostnames;
      TableStepCases(View(), s, now, names);
      ExpireFlows(now);
      ghost var live := View();
      var flow := FindFlow(s.key);
      if s.rst {
        DropFlow(s.key, flow);
        return false;
      }
      var full;
      flow, full := OpenFlow(s, flow, now);
      if full {
        return true;
      }
      if flow.None? {
        return false;
      }
      var i := flow.value;
      ghost var begun := View();
      blocked := HandleFlow(i, s, now, rules);
      ghost var left := Remaining(s.key, Handle(begun[i].flow.phase, s, now, names).0);
      assert Opens(Lookup(live, s.key), s) ==> begun[i := left] == Cleared(live, s.key)[i := left];
    }
  }
}
