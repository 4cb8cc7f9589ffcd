/** What a run of the protocol shows about the events behind its two decisions: over whose link a
    candidate was verified, and in which slot the failures behind a clear were counted. */
module UpstreamHistory {
  import opened Bytes
  import opened WifiConfig
  import opened UpstreamWifi

  // ----- over whose link -----

  /** `link` is the configuration that any link now up was made with, None while a link older than
      the latest reconfiguration request may be up; `address` and `mqtt` are the links over which an
      address and an MQTT connection arrived since that request. */
  datatype Evidence = Evidence(
    link: Option<Credentials>, address: Option<Credentials>, mqtt: Option<Credentials>)

  /** From the events and the driver's answers alone. */
  function Observe(s: State, step: Step, e: Evidence): Evidence {
    match step
    case Main(_, call) =>
      if s.pc.RaisePending? then Evidence(None, None, None)
      else if s.pc.Disconnect? && call == NotConnected then e.(link := Some(s.driver))
      else e
    case OnStaDisconnected(_, _) => if s.staEnabled then e.(link := Some(s.driver)) else e
    case OnGotIp => if s.staEnabled && e.link.Some? then e.(address := e.link) else e
    case OnMqttConnected => if e.link.Some? then e.(mqtt := e.link) else e
    case _ => e
  }

  /** Whether s_sta_reconfigure_pending was down at a GOT_IP and at an MQTT_CONNECTED since it was last
      raised. */
  datatype Flags = Flags(address: bool, mqtt: bool)

  function Note(s: State, step: Step, f: Flags): Flags {
    match step
    case Main(_, _) => if s.pc.RaisePending? then Flags(false, false) else f
    case OnGotIp => if s.staEnabled then f.(address := f.address || !s.reconfigurePending) else f
    case OnMqttConnected => f.(mqtt := f.mqtt || !s.reconfigurePending)
    case _ => f
  }

  // ----- in which slot -----

  /** Of the credential-failure counter: `carried` is what it held when the slot last changed and
      `here` what it has counted since, both gone when it is reset; `grounds` is `here` at the last
      verdict. */
  datatype Tally = Tally(carried: nat, here: nat, grounds: nat)

  predicate Counts(s: State, step: Step) {
    Fails(s, step, true) && !s.reconfigurePending && s.credentialFailures < FAILURE_LIMIT
  }

  /** A disconnect after which the status is RECOVERY_REQUIRED. */
  predicate IsVerdict(s: State, step: Step) {
    && step.OnStaDisconnected? && s.staEnabled && step.reason.Some? && !s.reconfigurePending
    && s.credentialFailures + (if Counts(s, step) then 1 else 0) >= FAILURE_LIMIT
  }

  function Enter(s: State, step: Step, t: Tally): Tally {
    if Resets(s, step) then t.(carried := 0, here := 0)
    else if step.Main? && (s.pc.Adopt? || s.pc == AdoptCurrent) then t.(carried := s.credentialFailures, here := 0)
    else
      var here := t.here + if Counts(s, step) then 1 else 0;
      t.(here := here, grounds := if IsVerdict(s, step) then here else t.grounds)
  }

  /** `clean`: at the last promotion's slot switch the counter was 0, or it was reset since;
      `guarded`: that held at the last verdict, or at the switch that found the verdict standing. */
  datatype Guard = Guard(clean: bool, guarded: bool)

  function Watch(s: State, step: Step, g: Guard): Guard {
    if Resets(s, step) then g.(clean := true)
    else if step.Main? && s.pc == AdoptCurrent then
      Guard(s.credentialFailures == 0, s.credentialFailures == 0)
    else if IsVerdict(s, step) then g.(guarded := g.clean)
    else g
  }

  // ----- the candidate at a clear -----

  /** What the last load of the stored candidate found, and what a command has stored since. */
  datatype Search = Search(found: Option<Config>, staged: Option<Config>)

  predicate Stores(s: State, step: Step) {
    step.StageCommand? && !step.faulted && ValidConfig(step.config) && step.config.version > HighestOf(s.slots)
  }

  function Look(s: State, step: Step, f: Search): Search {
    if step.Main? && s.pc.Load? && !step.faulted then Search(s.slots.pending, None)
    else if Stores(s, step) then f.(staged := Some(step.config))
    else f
  }

  // ----- histories of runs -----

  datatype History = History(evidence: Evidence, flags: Flags, tally: Tally, guard: Guard, search: Search)

  const START :=
    History(Evidence(None, None, None), Flags(false, false), Tally(0, 0, 0), Guard(true, true), Search(None, None))

  function Extend(s: State, step: Step, h: History): History {
    if s.pc == Halted then h
    else History(Observe(s, step, h.evidence), Note(s, step, h.flags),
                 Enter(s, step, h.tally), Watch(s, step, h.guard), Look(s, step, h.search))
  }

  function Recorded(s: State, steps: seq<Step>, h: History): History
    decreases |steps|
  {
    if steps == [] then h else Recorded(Next(s, steps[0]), steps[1..], Extend(s, steps[0], h))
  }

  lemma {:induction false} RecordedAppend(s: State, xs: seq<Step>, ys: seq<Step>, h: History)
    ensures Recorded(s, xs + ys, h) == Recorded(Run(s, xs), ys, Recorded(s, xs, h))
    decreases |xs|
  {
    hide Next, Extend;
    if xs == [] {
      assert xs + ys == ys;
    } else {
      assert (xs + ys)[1..] == xs[1..] + ys;
      RecordedAppend(Next(s, xs[0]), xs[1..], ys, Extend(s, xs[0], h));
    }
  }

  // ----- the candidate's own link -----

  /** The stored candidate itself is on trial. */
  predicate OnTrial(s: State) {
    s.slot == CandidateSlot && !Superseded(s.slots, s.candidate)
  }

  /** From the reconfiguration request on. */
  predicate Requested(s: State) {
    OnTrial(s) || s.pc.Disconnect? || s.pc.Connect? || s.pc.SetConnecting? || s.pc.Adopt?
  }

  predicate OwnLink(l: Option<Credentials>, driver: Credentials, flag: bool) {
    l == if flag then Some(driver) else None
  }

  predicate LinkKnown(s: State, e: Evidence) {
    Requested(s) ==> OwnLink(e.link, s.driver, !s.reconfigurePending)
  }

  predicate EvidenceKnown(s: State, e: Evidence, f: Flags) {
    Requested(s) ==> OwnLink(e.address, s.driver, f.address) && OwnLink(e.mqtt, s.driver, f.mqtt)
  }

  predicate Known(s: State, e: Evidence, f: Flags) {
    s.pc != Halted ==> LinkKnown(s, e) && EvidenceKnown(s, e, f)
  }

  /** An event other than a disconnect. */
  lemma EventKnown(s: State, step: Step, e: Evidence, f: Flags)
    requires s.pc != Halted && Known(s, e, f) && !step.Main? && !step.OnStaDisconnected?
    ensures Known(Next(s, step), Observe(s, step, e), Note(s, step, f))
  {
    hide MainStep, Disconnected;
  }

  lemma DisconnectKnown(s: State, step: Step, e: Evidence, f: Flags)
    requires s.pc != Halted && Known(s, e, f) && step.OnStaDisconnected?
    ensures Known(Next(s, step), Observe(s, step, e), Note(s, step, f))
  {
    hide MainStep, Disconnected;
    DisconnectKeepsLoop(s, step.reason, step.reconnected);
    DisconnectKeepsLink(s, step.reason, step.reconnected);
    DisconnectKeepsCount(s, step.reason, step.reconnected);
  }

  /** Up to the request, the attempt meets no candidate on trial. */
  lemma ReconfigureKnown(s: State, step: Step, e: Evidence, f: Flags)
    requires Safe(s) && Known(s, e, f) && step.Main?
    requires s.pc.Configure? || s.pc.ZeroCounters? || s.pc.RaisePending?
    ensures Known(Next(s, step), Observe(s, step, e), Note(s, step, f))
  {
    hide Next, Superseded, SlotsInv;
    assert !Requested(s);
    if s.pc.ZeroCounters? {
      CountersZeroed(s, step);
    } else if s.pc.RaisePending? {
      FlagRaised(s, step);
    } else if step.call == CallOk {
      ConfigureTakes(s, step);
    } else {
      DriverMoves(s, step);
    }
  }

  lemma RequestKnown(s: State, step: Step, e: Evidence, f: Flags)
    requires Safe(s) && Known(s, e, f) && step.Main? && (s.pc.Disconnect? || s.pc.Connect?)
    ensures Known(Next(s, step), Observe(s, step, e), Note(s, step, f))
  {
    hide Next, Superseded, SlotsInv;
    assert !OnTrial(s);
    if s.pc.Connect? || step.call == CallOk {
      DriverMoves(s, step);
    } else {
      FlagLowered(s, step);
    }
  }

  lemma AdoptKnown(s: State, step: Step, e: Evidence, f: Flags)
    requires Safe(s) && Known(s, e, f) && step.Main? && (s.pc.SetConnecting? || s.pc.Adopt?)
    ensures Known(Next(s, step), Observe(s, step, e), Note(s, step, f))
  {
    hide Next, Superseded, SlotsInv;
    if s.pc.Adopt? {
      CandidateAdopted(s, step);
    } else {
      ConnectingSet(s, step);
    }
  }

  /** A promotion of anything but the candidate on trial changes no slot. */
  lemma PromotionKeepsTrial(s: State, step: Step)
    requires Safe(s) && step.Main? && s.pc == PromoteStored
    ensures var t := Next(s, step);
            && t == s.(slots := t.slots, pc := t.pc)
            && (OnTrial(t) ==> OnTrial(s)) && (t.pc.Load? || t.pc == AdoptCurrent || t.pc == Top)
  {
    hide Next;
    CandidatePromoted(s, step);
  }

  lemma PromoteKnown(s: State, step: Step, e: Evidence, f: Flags)
    requires Safe(s) && Known(s, e, f) && step.Main? && s.pc == PromoteStored
    ensures Known(Next(s, step), Observe(s, step, e), Note(s, step, f))
  {
    hide Next, Safe, OnTrial, OwnLink;
    PromotionKeepsTrial(s, step);
  }

  /** In slot CURRENT nothing is on trial. */
  lemma CurrentKnown(s: State, step: Step, e: Evidence, f: Flags)
    requires PcInv(s) && Known(s, e, f) && step.Main? && (s.pc == AdoptCurrent || s.pc == ClearCurrent)
    ensures Known(Next(s, step), Observe(s, step, e), Note(s, step, f))
  {
    hide Next, Superseded, OwnLink, ClearSlots;
    if s.pc == AdoptCurrent {
      SlotSwitched(s, step);
    } else {
      CurrentCleared(s, step);
    }
  }

  predicate Deciding(pc: Pc) {
    pc == Top || pc == Recover || pc == Unreach || pc.Load? || pc.Sample? || pc == CheckStatus || pc == CheckMqtt
  }

  /** A decision leads on only to certain places, and to the acting ones only with cause. */
  predicate LeadsTo(s: State, pc: Pc) {
    && !pc.Disconnect? && !pc.Connect? && !pc.SetConnecting? && !pc.Adopt? && pc != AdoptCurrent
    && (pc == Recover ==> s.pc == Top && s.status == RecoveryRequired)
    && (pc == Load(FromRecovery) ==> s.pc == Recover)
    && (pc == ClearCurrent ==> s.pc == Load(FromRecovery))
    && (pc == CheckMqtt ==> s.status == StaGotIp)
    && (pc == PromoteStored ==> s.pc == CheckMqtt)
  }

  lemma FirstDecisions(s: State, step: Step)
    requires step.Main? && (s.pc == Top || s.pc == Recover || s.pc == Unreach)
    ensures var t := Next(s, step); t == s.(pc := t.pc) && LeadsTo(s, t.pc)
  {
    hide Next;
    if s.pc == Top {
      TopMoves(s, step);
    } else {
      SlotMoves(s, step);
    }
  }

  lemma LaterDecisions(s: State, step: Step)
    requires step.Main? && (s.pc.Load? || s.pc.Sample? || s.pc == CheckStatus || s.pc == CheckMqtt)
    ensures var t := Next(s, step); t == s.(pc := t.pc) && LeadsTo(s, t.pc)
  {
    hide Next;
    if s.pc.Load? {
      LoadMoves(s, step);
    } else if s.pc.Sample? {
      SampleMoves(s, step);
    } else {
      CheckMoves(s, step);
    }
  }

  /** A step that decides where to go next changes nothing else. */
  lemma DecisionMoves(s: State, step: Step)
    requires step.Main? && Deciding(s.pc)
    ensures var t := Next(s, step); t == s.(pc := t.pc) && LeadsTo(s, t.pc)
  {
    hide Next, LeadsTo;
    if s.pc == Top || s.pc == Recover || s.pc == Unreach {
      FirstDecisions(s, step);
    } else {
      LaterDecisions(s, step);
    }
  }

  /** The rest of the main loop changes neither slots nor link. */
  lemma IdleKnown(s: State, step: Step, e: Evidence, f: Flags)
    requires Known(s, e, f) && step.Main?
    requires Deciding(s.pc) || s.pc == RetainFlag || s.pc == RetainCount || s.pc == RetainStatus
    ensures Known(Next(s, step), Observe(s, step, e), Note(s, step, f))
  {
    hide Next, Superseded;
    if Deciding(s.pc) {
      DecisionMoves(s, step);
    } else if s.pc == RetainStatus {
      RetainEnds(s, step);
    } else {
      RetainMoves(s, step);
    }
  }

  lemma SafePc(s: State)
    requires Safe(s) && s.pc != Halted
    ensures PcInv(s)
  {
    hide PcInv, SlotInv, StatusInv, SlotsInv;
  }

  lemma StepKnown(s: State, step: Step, e: Evidence, f: Flags)
    requires Safe(s) && s.pc != Halted && Known(s, e, f)
    ensures Known(Next(s, step), Observe(s, step, e), Note(s, step, f))
  {
    hide Next, Safe, Known, Observe, Note, PcInv;
    var pc := s.pc;
    if step.OnStaDisconnected? {
      DisconnectKnown(s, step, e, f);
    } else if !step.Main? {
      EventKnown(s, step, e, f);
    } else if pc.Configure? || pc.ZeroCounters? || pc.RaisePending? {
      ReconfigureKnown(s, step, e, f);
    } else if pc.Disconnect? || pc.Connect? {
      RequestKnown(s, step, e, f);
    } else if pc.SetConnecting? || pc.Adopt? {
      AdoptKnown(s, step, e, f);
    } else if pc == PromoteStored {
      PromoteKnown(s, step, e, f);
    } else if pc == AdoptCurrent || pc == ClearCurrent {
      SafePc(s);
      CurrentKnown(s, step, e, f);
    } else {
      IdleKnown(s, step, e, f);
    }
  }

  // ----- the slot of the failures -----

  /** The main loop is about to act on a verdict in slot CURRENT. */
  predicate Acting(s: State) {
    s.slot == CurrentSlot
    && (s.status == RecoveryRequired || s.pc == Recover || s.pc == Load(FromRecovery) || s.pc == ClearCurrent)
  }

  /** All three failures behind the last verdict were counted in slot CURRENT. */
  predicate CountedInCurrent(s: State, t: Tally) {
    s.rejectedSlot == CurrentSlot && t.grounds == FAILURE_LIMIT
  }

  predicate Tallied(s: State, t: Tally, g: Guard) {
    && s.credentialFailures == t.carried + t.here <= FAILURE_LIMIT
    && (s.slot == CurrentSlot ==> (g.clean <==> t.carried == 0))
    && (Acting(s) ==> (CountedInCurrent(s, t) <==> g.guarded))
  }

  /** A verdict that stands when a promotion is under way has the counter at its limit. */
  predicate LateVerdict(s: State) {
    (s.pc == CheckMqtt || s.pc == PromoteStored || s.pc == AdoptCurrent) && s.status == RecoveryRequired ==>
      s.credentialFailures == FAILURE_LIMIT
  }

  predicate Ledger(s: State, t: Tally, g: Guard) {
    s.pc != Halted ==> Tallied(s, t, g) && LateVerdict(s)
  }

  /** What an event other than a disconnect can do to a count or a verdict. */
  predicate EventEffect(s: State, step: Step, t: State) {
    && (t.pc == s.pc || t.pc == Halted) && t.slot == s.slot && t.rejectedSlot == s.rejectedSlot
    && t.credentialFailures == (if Resets(s, step) then 0 else s.credentialFailures)
    && (t.status == RecoveryRequired ==> s.status == RecoveryRequired && !Resets(s, step))
  }

  lemma LinkEventCounts(s: State, step: Step)
    requires s.pc != Halted
    requires step.OnStaConnected? || step.OnGotIp? || step.OnMqttConnected? || step.OnMqttDisconnected?
    ensures EventEffect(s, step, Next(s, step))
  {
    hide MainStep, Disconnected, StageSlots, SaveSlots;
  }

  lemma CommandCounts(s: State, step: Step)
    requires s.pc != Halted && (step.StageCommand? || step.PortalSave?)
    ensures EventEffect(s, step, Next(s, step))
  {
    hide MainStep, Disconnected, StageSlots, SaveSlots;
  }

  lemma EventTallied(s: State, step: Step, t: Tally, g: Guard)
    requires s.pc != Halted && Ledger(s, t, g) && !step.Main? && !step.OnStaDisconnected?
    ensures Ledger(Next(s, step), Enter(s, step, t), Watch(s, step, g))
  {
    hide Next;
    if step.StageCommand? || step.PortalSave? {
      CommandCounts(s, step);
    } else {
      LinkEventCounts(s, step);
    }
  }

  lemma DisconnectTallied(s: State, step: Step, t: Tally, g: Guard)
    requires s.pc != Halted && Ledger(s, t, g) && step.OnStaDisconnected? && s.staEnabled
    ensures Ledger(Next(s, step), Enter(s, step, t), Watch(s, step, g))
  {
    hide MainStep, Disconnected;
    var reason, reconnected := step.reason, step.reconnected;
    DisconnectKeepsLoop(s, reason, reconnected);
    DisconnectSlot(s, reason, reconnected);
    if s.reconfigurePending {
      DisconnectPending(s, reason, reconnected);
    } else {
      DisconnectCounts(s, reason, reconnected);
      DisconnectVerdict(s, reason, reconnected);
    }
  }

  lemma DisconnectSlot(s: State, reason: Option<Reason>, reconnected: bool)
    ensures var d, step := Disconnected(s, reason, reconnected), OnStaDisconnected(reason, reconnected);
            s.staEnabled ==> d.rejectedSlot == if IsVerdict(s, step) then s.slot else s.rejectedSlot
  {
  }

  lemma DriverTallied(s: State, step: Step, t: Tally, g: Guard)
    requires Ledger(s, t, g) && step.Main? && (s.pc.Configure? || s.pc.ZeroCounters?)
    ensures Ledger(Next(s, step), Enter(s, step, t), Watch(s, step, g))
  {
    hide Next;
    if s.pc.ZeroCounters? {
      CountersZeroed(s, step);
    } else if step.call == CallOk {
      ConfigureTakes(s, step);
    } else {
      DriverMoves(s, step);
    }
  }

  lemma LinkTallied(s: State, step: Step, t: Tally, g: Guard)
    requires Ledger(s, t, g) && step.Main? && (s.pc.RaisePending? || s.pc.Disconnect? || s.pc.Connect?)
    ensures Ledger(Next(s, step), Enter(s, step, t), Watch(s, step, g))
  {
    hide Next, Enter, Watch;
    NothingEntered(s, step, t, g);
    if s.pc.RaisePending? {
      FlagRaised(s, step);
    } else if s.pc.Disconnect? && step.call != CallOk {
      FlagLowered(s, step);
    } else {
      DriverMoves(s, step);
    }
  }

  lemma SwitchTallied(s: State, step: Step, t: Tally, g: Guard)
    requires Safe(s) && Ledger(s, t, g) && step.Main?
    requires s.pc.SetConnecting? || s.pc.Adopt? || s.pc == AdoptCurrent
    ensures Ledger(Next(s, step), Enter(s, step, t), Watch(s, step, g))
  {
    hide Next, SlotsInv, Superseded;
    if s.pc.SetConnecting? {
      ConnectingSet(s, step);
    } else if s.pc.Adopt? {
      CandidateAdopted(s, step);
    } else {
      SlotSwitched(s, step);
    }
  }

  /** Elsewhere the main loop touches neither counts nor slot. */
  lemma NothingEntered(s: State, step: Step, t: Tally, g: Guard)
    requires step.Main? && !s.pc.ZeroCounters? && !s.pc.Adopt? && s.pc != AdoptCurrent
    ensures Enter(s, step, t) == t && Watch(s, step, g) == g
  {
  }

  lemma PromotionTallied(s: State, step: Step, t: Tally, g: Guard)
    requires Ledger(s, t, g) && step.Main? && s.pc == PromoteStored
    ensures Ledger(Next(s, step), Enter(s, step, t), Watch(s, step, g))
  {
    hide Next, PromoteSlots, Enter, Watch;
    NothingEntered(s, step, t, g);
    CandidatePromoted(s, step);
  }

  lemma ClearTallied(s: State, step: Step, t: Tally, g: Guard)
    requires Ledger(s, t, g) && step.Main? && s.pc == ClearCurrent
    ensures Ledger(Next(s, step), Enter(s, step, t), Watch(s, step, g))
  {
    hide Next, ClearSlots, Enter, Watch;
    NothingEntered(s, step, t, g);
    CurrentCleared(s, step);
  }

  lemma IdleTallied(s: State, step: Step, t: Tally, g: Guard)
    requires Ledger(s, t, g) && step.Main?
    requires Deciding(s.pc) || s.pc == RetainFlag || s.pc == RetainCount || s.pc == RetainStatus
    ensures Ledger(Next(s, step), Enter(s, step, t), Watch(s, step, g))
  {
    hide Next, Enter, Watch;
    NothingEntered(s, step, t, g);
    if Deciding(s.pc) {
      DecisionMoves(s, step);
    } else if s.pc == RetainStatus {
      RetainEnds(s, step);
    } else {
      RetainMoves(s, step);
    }
  }

  lemma StepTallied(s: State, step: Step, t: Tally, g: Guard)
    requires Safe(s) && s.pc != Halted && Ledger(s, t, g)
    ensures Ledger(Next(s, step), Enter(s, step, t), Watch(s, step, g))
  {
    hide Safe, Ledger, MainStep, Disconnected;
    var pc := s.pc;
    if step.OnStaDisconnected? {
      if s.staEnabled {
        DisconnectTallied(s, step, t, g);
      }
    } else if !step.Main? {
      EventTallied(s, step, t, g);
    } else if pc.Configure? || pc.ZeroCounters? {
      DriverTallied(s, step, t, g);
    } else if pc.RaisePending? || pc.Disconnect? || pc.Connect? {
      LinkTallied(s, step, t, g);
    } else if pc.SetConnecting? || pc.Adopt? || pc == AdoptCurrent {
      SwitchTallied(s, step, t, g);
    } else if pc == PromoteStored {
      PromotionTallied(s, step, t, g);
    } else if pc == ClearCurrent {
      ClearTallied(s, step, t, g);
    } else {
      IdleTallied(s, step, t, g);
    }
  }

  // ----- the candidate at a clear -----

  /** About to clear, the main loop has found no candidate, and one is there only if staged since. */
  predicate Searched(s: State, f: Search) {
    s.pc == ClearCurrent ==> f.found.None? && s.slots.pending == f.staged
  }

  lemma StageSearched(s: State, step: Step, f: Search)
    requires s.pc != Halted && Searched(s, f) && step.StageCommand?
    ensures Searched(Next(s, step), Look(s, step, f))
  {
    hide MainStep, Disconnected;
  }

  lemma EventSearched(s: State, step: Step, f: Search)
    requires s.pc != Halted && Searched(s, f) && !step.Main? && !step.StageCommand?
    ensures Searched(Next(s, step), Look(s, step, f))
  {
    hide MainStep, Disconnected;
    if step.OnStaDisconnected? {
      DisconnectKeepsLoop(s, step.reason, step.reconnected);
    }
  }

  lemma MainSearched(s: State, step: Step, f: Search)
    requires s.pc != Halted && Searched(s, f) && step.Main?
    ensures Searched(Next(s, step), Look(s, step, f))
  {
    hide Next;
    if s.pc.Load? {
      LoadMoves(s, step);
    } else {
      OnlyLoadClears(s, step);
    }
  }

  /** Only a load leads to a clear. */
  lemma OnlyLoadClears(s: State, step: Step)
    requires s.pc != Halted && step.Main? && !s.pc.Load?
    ensures Next(s, step).pc != ClearCurrent
  {
    if Deciding(s.pc) {
      hide Next;
      DecisionMoves(s, step);
    } else {
      hide Disconnected, PromoteSlots, ClearSlots, SlotsInv, HighestOf;
    }
  }

  lemma StepSearched(s: State, step: Step, f: Search)
    requires s.pc != Halted && Searched(s, f)
    ensures Searched(Next(s, step), Look(s, step, f))
  {
    hide Next, Searched, Look;
    if step.Main? {
      MainSearched(s, step, f);
    } else if step.StageCommand? {
      StageSearched(s, step, f);
    } else {
      EventSearched(s, step, f);
    }
  }

  // ----- whole runs -----

  predicate Sound(s: State, h: History) {
    Known(s, h.evidence, h.flags) && Ledger(s, h.tally, h.guard) && Searched(s, h.search)
  }

  lemma {:induction false} StepsSound(s: State, steps: seq<Step>, h: History)
    requires Safe(s) && Sound(s, h)
    ensures Sound(Run(s, steps), Recorded(s, steps, h))
    decreases |steps|
  {
    if steps != [] {
      hide Safe, Known, Ledger, Searched;
      var a := steps[0];
      NextSafe(s, a);
      if s.pc != Halted {
        StepKnown(s, a, h.evidence, h.flags);
        StepTallied(s, a, h.tally, h.guard);
        StepSearched(s, a, h.search);
      }
      StepsSound(Next(s, a), steps[1..], Extend(s, a, h));
    }
  }

  lemma BootSound(u: Slots)
    ensures Sound(Boot(u), START)
  {
  }

  lemma RunSound(u: Slots, steps: seq<Step>)
    requires SlotsInv(u)
    ensures Sound(Run(Boot(u), steps), Recorded(Boot(u), steps, START))
  {
    hide Boot, Safe, Sound, Run, Recorded;
    BootSafe(u);
    BootSound(u);
    StepsSound(Boot(u), steps, START);
  }

  /** An address and an MQTT connection arrived over a link made with `c` for the attempt. */
  predicate OverOwnLink(h: History, c: Credentials) {
    h.evidence.address == Some(c) && h.evidence.mqtt == Some(c)
  }

  /** s_sta_reconfigure_pending was down at a GOT_IP and at an MQTT_CONNECTED since the attempt raised
      it. */
  predicate FlagWasDown(h: History) {
    h.flags.address && h.flags.mqtt
  }

  /** A candidate on trial has been verified over its own link exactly when the pending flag was down
      at an address event and at an MQTT connect since the attempt raised it. */
  lemma TrialOverOwnLink(u: Slots, steps: seq<Step>)
    requires SlotsInv(u)
    requires var s := Run(Boot(u), steps); s.pc != Halted && OnTrial(s)
    ensures var s, h := Run(Boot(u), steps), Recorded(Boot(u), steps, START);
            OverOwnLink(h, s.driver) <==> FlagWasDown(h)
  {
    RunSound(u, steps);
  }

  /** In every interleaving, a successful promotion was verified over the candidate's own link exactly
      when the pending flag was down at an address event and at an MQTT connect since the attempt
      raised it; the checks the code makes do not imply it. */
  lemma VerifiedOverOwnLink(u: Slots, steps: seq<Step>, step: Step)
    requires SlotsInv(u) && Promotes(Run(Boot(u), steps), step)
    ensures var s, h := Run(Boot(u), steps), Recorded(Boot(u), steps, START);
            OverOwnLink(h, s.candidate.credentials) <==> FlagWasDown(h)
  {
    RunSafe(u, steps);
    TrialOverOwnLink(u, steps);
  }

  /** In every interleaving, the three failures behind a clear were all counted in slot CURRENT exactly
      when the counter was 0 at the last promotion's slot switch or was reset between that switch and
      the verdict. */
  lemma ClearsOnCurrentFailures(u: Slots, steps: seq<Step>, step: Step)
    requires SlotsInv(u) && Clears(Run(Boot(u), steps), step)
    ensures var s, h := Run(Boot(u), steps), Recorded(Boot(u), steps, START);
            CountedInCurrent(s, h.tally) <==> h.guard.guarded
  {
    RunSafe(u, steps);
    RunSound(u, steps);
  }

  /** In every interleaving, the load before a clear found no candidate; one is present at the clear
      exactly when a command stored one between the two accesses, and then it is left behind without
      current credentials. */
  lemma ClearsWithoutCandidate(u: Slots, steps: seq<Step>, step: Step)
    requires SlotsInv(u) && Clears(Run(Boot(u), steps), step)
    ensures var s, h := Run(Boot(u), steps), Recorded(Boot(u), steps, START);
            && h.search.found.None?
            && s.slots.pending == h.search.staged
            && Next(s, step).slots == Slots(None, None, h.search.staged)
  {
    hide Run, Next, Recorded, Boot, Known, Ledger;
    RunSound(u, steps);
    CurrentCleared(Run(Boot(u), steps), step);
  }

  /** The clear itself leaves the history alone. */
  lemma ClearKeepsHistory(u: Slots, steps: seq<Step>, step: Step)
    requires Clears(Run(Boot(u), steps), step)
    ensures var s, h := Run(Boot(u), steps), Recorded(Boot(u), steps, START);
            var h' := Recorded(Boot(u), steps + [step], START);
            && h'.tally == h.tally && h'.guard == h.guard && h'.search == h.search
            && Next(s, step).rejectedSlot == s.rejectedSlot
  {
    hide Next, Observe, Note;
    var s, h := Run(Boot(u), steps), Recorded(Boot(u), steps, START);
    RecordedAppend(Boot(u), steps, [step], START);
    assert Recorded(s, [step], h) == Extend(s, step, h);
    CurrentCleared(s, step);
  }

  /** Nor does the promotion. */
  lemma PromotionKeepsHistory(u: Slots, steps: seq<Step>, step: Step)
    requires Promotes(Run(Boot(u), steps), step)
    ensures var h, h' := Recorded(Boot(u), steps, START), Recorded(Boot(u), steps + [step], START);
            h'.evidence == h.evidence && h'.flags == h.flags
  {
    hide Next, Enter, Watch, Look;
    var s, h := Run(Boot(u), steps), Recorded(Boot(u), steps, START);
    RecordedAppend(Boot(u), steps, [step], START);
    assert Recorded(s, [step], h) == Extend(s, step, h);
  }
}
