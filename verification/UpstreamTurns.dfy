/** What one turn of the main loop comes to when no event falls inside it: every verdict, every candidate
    and every call result has its own outcome. */
module UpstreamTurns {
  import opened Bytes
  import opened WifiConfig
  import opened UpstreamWifi

  // ----- where runs begin and end -----

  /** A boot with current credentials connects with them; one without keeps the STA off and provisions.
      Nothing is on trial, nothing counted, nothing rejected. */
  lemma BootOutcome(u: Slots)
    ensures var s := Boot(u);
            && s.slots == u && s.slot == CurrentSlot && s.pc == Top && !s.reconfigurePending
            && s.credentialFailures == 0 && s.unreachables == 0 && !s.mqttConnected && s.connects == 0
            && s.rejected.None? && !s.promotedRejected && s.accepted.None? && !s.gotIp && s.sampledAt == 0
            && (if u.current.Some? then s.staEnabled && s.driver == u.current.value && s.status == StaConnecting
                else !s.staEnabled && s.status == Provisioning)
            && (u.pending.Some? ==> s.candidate == u.pending.value)
  {
  }

  /** A Portal save that can be stored, of an SSID of 1 to 32 bytes with no password or one of 8 to 63, replaces
      all slots and ends the run; any other changes nothing. */
  lemma SaveOutcome(s: State, c: Credentials, faulted: bool)
    requires s.pc != Halted
    ensures Next(s, PortalSave(c, faulted))
         == if !faulted && 1 <= |c.ssid| <= 32 && (|c.password| == 0 || 8 <= |c.password| <= 63)
              then s.(slots := Slots(Some(c), None, None), pc := Halted)
            else s
  {
    hide MainStep, Disconnected;
  }

  // ----- running on -----

  predicate AllMain(xs: seq<Step>) {
    forall i | 0 <= i < |xs| :: xs[i].Main?
  }

  /** The state after the first `k` steps, and on. */
  lemma On(s: State, xs: seq<Step>, k: nat, t: State)
    requires k < |xs| && Run(s, xs) == Run(t, xs[k..])
    ensures Run(s, xs) == Run(Next(t, xs[k]), xs[k + 1..])
  {
    hide Next;
    assert xs[k..][0] == xs[k] && xs[k..][1..] == xs[k + 1..];
  }

  lemma Begin(s: State, xs: seq<Step>)
    ensures Run(s, xs) == Run(s, xs[0..])
  {
    assert xs[0..] == xs;
  }

  lemma End(s: State, xs: seq<Step>, t: State)
    requires Run(s, xs) == Run(t, xs[|xs|..])
    ensures Run(s, xs) == t
  {
  }

  /** A stretch of steps, then the rest. */
  lemma Stretch(s: State, xs: seq<Step>, k: nat, l: nat, t: State)
    requires k <= l <= |xs| && Run(s, xs) == Run(t, xs[k..])
    ensures Run(s, xs) == Run(Run(t, xs[k..l]), xs[l..])
  {
    assert xs[k..] == xs[k..l] + xs[l..];
    RunAppend(t, xs[k..l], xs[l..]);
  }

  // ----- retained recovery -----

  lemma Retains(s: State, xs: seq<Step>)
    requires s.pc == RetainFlag && |xs| == 3 && AllMain(xs)
    ensures Run(s, xs) == s.(status := Provisioning, pc := Top)
  {
    hide Next, Run;
    var t := s;
    Begin(s, xs);
    RetainMoves(t, xs[0]);
    On(s, xs, 0, t);
    t := Next(t, xs[0]);
    RetainMoves(t, xs[1]);
    On(s, xs, 1, t);
    t := Next(t, xs[1]);
    RetainEnds(t, xs[2]);
    On(s, xs, 2, t);
    End(s, xs, Next(t, xs[2]));
  }

  // ----- the attempt -----

  /** The candidate `c` on trial; `closing` while the old link has yet to end. */
  function Tried(s: State, c: Config, closing: bool): State {
    s.(driver := c.credentials, credentialFailures := 0, unreachables := 0, credentialEvents := 0, otherEvents := 0,
       reconfigurePending := closing, status := StaConnecting, accepted := Some(c.credentials), gotIp := false,
       candidate := c, sampledAt := s.connects, slot := CandidateSlot, pc := Top)
  }

  /** The driver has the configuration, the counters are zero. */
  function Handed(s: State, c: Config): State {
    s.(driver := c.credentials, credentialFailures := 0, unreachables := 0, credentialEvents := 0, otherEvents := 0)
  }

  /** Up to the request to close the old link. */
  lemma HandsOver(s: State, c: Config, xs: seq<Step>)
    requires s.pc == Sample(c) && |xs| == 4 && AllMain(xs) && xs[1].call == CallOk
    ensures Run(s, xs) == Handed(s, c).(reconfigurePending := true, pc := Disconnect(c, s.connects))
  {
    hide Next, Run;
    var t := s;
    Begin(s, xs);
    SampleMoves(t, xs[0]);
    On(s, xs, 0, t);
    t := Next(t, xs[0]);
    ConfigureTakes(t, xs[1]);
    On(s, xs, 1, t);
    t := Next(t, xs[1]);
    CountersZeroed(t, xs[2]);
    On(s, xs, 2, t);
    t := Next(t, xs[2]);
    FlagRaised(t, xs[3]);
    On(s, xs, 3, t);
    End(s, xs, Next(t, xs[3]));
  }

  /** The attempt up to the answer to that request. */
  lemma Requests(s: State, c: Config, xs: seq<Step>)
    requires s.pc == Sample(c) && |xs| >= 5 && AllMain(xs) && xs[1].call == CallOk
    ensures var at := s.connects;
            Run(s, xs) == Run(Handed(s, c).(
              reconfigurePending := xs[4].call == CallOk,
              pc := if xs[4].call == CallOk then SetConnecting(c, at)
                    else if xs[4].call == NotConnected then Connect(c, at) else RetainFlag), xs[5..])
  {
    hide Next, Run;
    Begin(s, xs);
    Stretch(s, xs, 0, 4, s);
    HandsOver(s, c, xs[0..4]);
    var t := Handed(s, c).(reconfigurePending := true, pc := Disconnect(c, s.connects));
    On(s, xs, 4, t);
    if xs[4].call == CallOk {
      DriverMoves(t, xs[4]);
    } else {
      FlagLowered(t, xs[4]);
    }
  }

  lemma TakesOver(s: State, c: Config, at: nat, xs: seq<Step>)
    requires s.pc == SetConnecting(c, at) && |xs| == 2 && AllMain(xs)
    ensures Run(s, xs) == s.(status := StaConnecting, accepted := Some(c.credentials), gotIp := false,
                             candidate := c, sampledAt := at, slot := CandidateSlot, pc := Top)
  {
    hide Next, Run;
    var t := s;
    Begin(s, xs);
    ConnectingSet(t, xs[0]);
    On(s, xs, 0, t);
    t := Next(t, xs[0]);
    CandidateAdopted(t, xs[1]);
    On(s, xs, 1, t);
    End(s, xs, Next(t, xs[1]));
  }

  /** Every call of the attempt succeeds: its old link is asked to close, or there was none. */
  predicate Succeeds(xs: seq<Step>) {
    && AllMain(xs) && |xs| >= 7 && xs[1].call == CallOk
    && (if xs[4].call == CallOk then |xs| == 7
        else xs[4].call == NotConnected && |xs| == 8 && xs[5].call == CallOk)
  }

  lemma AttemptSucceeds(s: State, c: Config, xs: seq<Step>)
    requires s.pc == Sample(c) && Succeeds(xs)
    ensures Run(s, xs) == Tried(s, c, xs[4].call == CallOk)
  {
    hide Next, Run;
    Requests(s, c, xs);
    var t := Handed(s, c).(reconfigurePending := xs[4].call == CallOk);
    if xs[4].call == CallOk {
      t := t.(pc := SetConnecting(c, s.connects));
      Stretch(s, xs, 5, 7, t);
      TakesOver(t, c, s.connects, xs[5..7]);
      End(s, xs, Run(t, xs[5..7]));
    } else {
      t := t.(pc := Connect(c, s.connects));
      DriverMoves(t, xs[5]);
      On(s, xs, 5, t);
      t := Next(t, xs[5]);
      Stretch(s, xs, 6, 8, t);
      TakesOver(t, c, s.connects, xs[6..8]);
      End(s, xs, Run(t, xs[6..8]));
    }
  }

  /** Some call of the attempt fails, and retained recovery follows. */
  predicate Fails(xs: seq<Step>) {
    && AllMain(xs) && |xs| >= 5
    && (if xs[1].call != CallOk then |xs| == 5
        else if |xs| == 8 then xs[4].call == CallFailed
        else |xs| == 9 && xs[4].call == NotConnected && xs[5].call != CallOk)
  }

  lemma FailsLate(s: State, c: Config, xs: seq<Step>)
    requires s.pc == Sample(c) && Fails(xs) && xs[1].call == CallOk
    ensures Run(s, xs) == Handed(s, c).(reconfigurePending := false, status := Provisioning, pc := Top)
  {
    hide Next, Run;
    Requests(s, c, xs);
    var t := Handed(s, c).(reconfigurePending := false);
    if |xs| == 8 {
      RetainsFrom(s, xs, 5, t.(pc := RetainFlag));
    } else {
      var u := t.(pc := Connect(c, s.connects));
      DriverMoves(u, xs[5]);
      On(s, xs, 5, u);
      RetainsFrom(s, xs, 6, t.(pc := RetainFlag));
    }
  }

  /** A failed attempt switches no slot; what the driver had taken by then it keeps. */
  lemma AttemptFails(s: State, c: Config, xs: seq<Step>)
    requires s.pc == Sample(c) && Fails(xs)
    ensures Run(s, xs)
         == if xs[1].call != CallOk then s.(status := Provisioning, pc := Top)
            else Handed(s, c).(reconfigurePending := false, status := Provisioning, pc := Top)
  {
    hide Next, Run;
    if xs[1].call != CallOk {
      Begin(s, xs);
      SampleMoves(s, xs[0]);
      On(s, xs, 0, s);
      var t := Next(s, xs[0]);
      DriverMoves(t, xs[1]);
      On(s, xs, 1, t);
      RetainsFrom(s, xs, 2, Next(t, xs[1]));
    } else {
      FailsLate(s, c, xs);
    }
  }

  lemma RetainsFrom(s: State, xs: seq<Step>, k: nat, t: State)
    requires k + 3 == |xs| && AllMain(xs) && t.pc == RetainFlag && Run(s, xs) == Run(t, xs[k..])
    ensures Run(s, xs) == t.(status := Provisioning, pc := Top)
  {
    hide Next, Run;
    Stretch(s, xs, k, |xs|, t);
    Retains(t, xs[k..|xs|]);
    End(s, xs, Run(t, xs[k..|xs|]));
  }

  // ----- turns after a verdict -----

  predicate Verdict(s: State) {
    s.pc == Top && (s.status == RecoveryRequired || s.status == Unreachable)
  }

  /** Rejected or unreachable in slot CANDIDATE: provisioning, with all slots kept. */
  lemma TrialFails(s: State, xs: seq<Step>)
    requires Verdict(s) && s.slot == CandidateSlot && |xs| == 5 && AllMain(xs)
    ensures Run(s, xs) == s.(status := Provisioning)
  {
    hide Next, Run;
    Begin(s, xs);
    TopMoves(s, xs[0]);
    On(s, xs, 0, s);
    var t := Next(s, xs[0]);
    SlotMoves(t, xs[1]);
    On(s, xs, 1, t);
    RetainsFrom(s, xs, 2, Next(t, xs[1]));
  }

  /** In slot CURRENT the turn gets to loading the candidate. */
  lemma Loads(s: State, xs: seq<Step>)
    requires Verdict(s) && s.slot == CurrentSlot && |xs| >= 3 && AllMain(xs)
    ensures Run(s, xs)
         == Run(s.(pc := if xs[2].faulted then RetainFlag
                         else if s.slots.pending.Some? then Sample(s.slots.pending.value)
                         else if s.status == RecoveryRequired then ClearCurrent else RetainFlag), xs[3..])
  {
    hide Next, Run;
    Begin(s, xs);
    TopMoves(s, xs[0]);
    On(s, xs, 0, s);
    var t := Next(s, xs[0]);
    SlotMoves(t, xs[1]);
    On(s, xs, 1, t);
    t := Next(t, xs[1]);
    LoadMoves(t, xs[2]);
    On(s, xs, 2, t);
  }

  /** Unreachable in slot CURRENT without a candidate, or with one that cannot be read, whatever the
      verdict: provisioning, with all slots kept. */
  lemma NothingToTry(s: State, xs: seq<Step>)
    requires Verdict(s) && s.slot == CurrentSlot && |xs| == 6 && AllMain(xs)
    requires xs[2].faulted || (s.status == Unreachable && s.slots.pending.None?)
    ensures Run(s, xs) == s.(status := Provisioning)
  {
    hide Next, Run;
    Loads(s, xs);
    RetainsFrom(s, xs, 3, s.(pc := RetainFlag));
  }

  /** Rejected in slot CURRENT without a candidate: credentials and active version are erased before the
      restart; if that fails the turn has changed nothing, and the next one tries again. */
  lemma RejectedIsCleared(s: State, xs: seq<Step>)
    requires Verdict(s) && s.slot == CurrentSlot && s.status == RecoveryRequired && s.slots.pending.None?
    requires |xs| == 4 && AllMain(xs) && !xs[2].faulted
    ensures Run(s, xs) == if xs[3].faulted then s else s.(slots := Slots(None, None, None), pc := Halted)
  {
    hide Next, Run;
    Loads(s, xs);
    var t := s.(pc := ClearCurrent);
    CurrentCleared(t, xs[3]);
    On(s, xs, 3, t);
    End(s, xs, Next(t, xs[3]));
  }

  /** Rejected or unreachable in slot CURRENT with a candidate: it goes on trial with the counters at zero
      and the MQTT count of this turn; if a call fails, provisioning, and slot CURRENT stays. */
  lemma CandidateTried(s: State, xs: seq<Step>)
    requires Verdict(s) && s.slot == CurrentSlot && s.slots.pending.Some?
    requires |xs| >= 3 && AllMain(xs) && !xs[2].faulted
    ensures Succeeds(xs[3..]) ==> Run(s, xs) == Tried(s, s.slots.pending.value, xs[7].call == CallOk)
    ensures Fails(xs[3..]) ==>
              var t := Run(s, xs);
              && t.slots == s.slots && t.slot == CurrentSlot && t.status == Provisioning && t.pc == Top
              && t.driver == (if xs[4].call == CallOk then s.slots.pending.value.credentials else s.driver)
              && (xs[4].call == CallOk ==> !t.reconfigurePending)
  {
    hide Next, Run;
    Loads(s, xs);
    var c := s.slots.pending.value;
    var t := s.(pc := Sample(c));
    if Succeeds(xs[3..]) {
      AttemptSucceeds(t, c, xs[3..]);
    }
    if Fails(xs[3..]) {
      AttemptFails(t, c, xs[3..]);
    }
  }

  // ----- turns without one -----

  /** What the two checks ask for; fewer than 2^32 connects keep the counts comparable. */
  predicate Ready(s: State) {
    s.slot == CandidateSlot && s.status == StaGotIp && s.mqttConnected && s.sampledAt < s.connects
  }

  /** With no verdict and no candidate ready the turn changes nothing. */
  lemma NothingToDo(s: State, xs: seq<Step>)
    requires s.pc == Top && s.status != RecoveryRequired && s.status != Unreachable && !Ready(s)
    requires s.connects < TWO_32 && s.sampledAt < TWO_32 && AllMain(xs)
    requires |xs| == if s.slot == CandidateSlot && s.status == StaGotIp then 3 else 2
    ensures Run(s, xs) == s
  {
    hide Next, Run, Wrap;
    SmallWraps(s);
    Begin(s, xs);
    TopMoves(s, xs[0]);
    On(s, xs, 0, s);
    var t := Next(s, xs[0]);
    CheckMoves(t, xs[1]);
    On(s, xs, 1, t);
    t := Next(t, xs[1]);
    if |xs| == 3 {
      CheckMoves(t, xs[2]);
      On(s, xs, 2, t);
      t := Next(t, xs[2]);
    }
    End(s, xs, t);
  }

  lemma SmallWraps(s: State)
    requires s.connects < TWO_32 && s.sampledAt < TWO_32
    ensures Wrap(s.connects) == s.connects && Wrap(s.sampledAt) == s.sampledAt
  {
  }

  lemma ReachesPromotion(s: State, xs: seq<Step>)
    requires s.pc == Top && Ready(s) && s.connects < TWO_32 && AllMain(xs) && |xs| >= 3
    ensures Run(s, xs) == Run(s.(pc := PromoteStored), xs[3..])
  {
    hide Next, Run, Wrap;
    SmallWraps(s);
    Begin(s, xs);
    TopMoves(s, xs[0]);
    On(s, xs, 0, s);
    var t := Next(s, xs[0]);
    CheckMoves(t, xs[1]);
    On(s, xs, 1, t);
    t := Next(t, xs[1]);
    CheckMoves(t, xs[2]);
    On(s, xs, 2, t);
  }

  /** A verified candidate that is still the stored one becomes current and active, and its slot is empty;
      if storage fails the trial goes on. */
  lemma VerifiedIsPromoted(s: State, xs: seq<Step>)
    requires s.pc == Top && Ready(s) && s.connects < TWO_32 && AllMain(xs)
    requires s.slots.pending == Some(s.candidate) && ValidConfig(s.candidate)
    requires |xs| == if |xs| > 3 && xs[3].faulted then 4 else 5
    ensures Run(s, xs)
         == if xs[3].faulted then s
            else s.(slots := Slots(Some(s.candidate.credentials),
                                   Some((s.candidate.requestId, s.candidate.version)), None),
                    slot := CurrentSlot, promotedRejected := false)
  {
    hide Next, Run;
    ReachesPromotion(s, xs);
    var t := s.(pc := PromoteStored);
    CandidatePromoted(t, xs[3]);
    On(s, xs, 3, t);
    t := Next(t, xs[3]);
    if !xs[3].faulted {
      SlotSwitched(t, xs[4]);
      On(s, xs, 4, t);
      t := Next(t, xs[4]);
    }
    End(s, xs, t);
  }

  /** One that has been superseded is not promoted: the stored version goes on trial in its place. */
  lemma SupersededIsReplaced(s: State, xs: seq<Step>)
    requires s.pc == Top && Ready(s) && s.connects < TWO_32 && ValidConfig(s.candidate)
    requires s.slots.pending.Some? && s.slots.pending.value.version > s.candidate.version
    requires |xs| >= 5 && AllMain(xs) && !xs[3].faulted && !xs[4].faulted && Succeeds(xs[5..])
    ensures Run(s, xs) == Tried(s, s.slots.pending.value, xs[9].call == CallOk)
  {
    hide Next, Run;
    ReachesPromotion(s, xs);
    var t := s.(pc := PromoteStored);
    CandidatePromoted(t, xs[3]);
    On(s, xs, 3, t);
    t := Next(t, xs[3]);
    LoadMoves(t, xs[4]);
    On(s, xs, 4, t);
    AttemptSucceeds(Next(t, xs[4]), s.slots.pending.value, xs[5..]);
  }
}
