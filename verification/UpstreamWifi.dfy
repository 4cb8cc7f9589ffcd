/** The upstream WiFi protocol within one boot: the main loop, the event task, the MQTT task and
    the Portal interleave at every shared access, and every storage or driver call may fail. */
module UpstreamWifi {
  import opened Bytes
  import opened WifiConfig

  const FAILURE_LIMIT := 3

  datatype Status =
    | Starting | Provisioning | StaConnecting | StaConnected | StaGotIp
    | StaDisconnected | RecoveryRequired | Unreachable

  datatype Slot = CurrentSlot | CandidateSlot

  datatype Reason =
    | AuthFail | FourWayHandshakeTimeout | HandshakeTimeout | Auth8021xFailed
    | NoApCompatibleSecurity | NoApAuthmodeThreshold | OtherReason(code: nat)

  /** is_sta_credential_failure. */
  predicate IsCredentialFailure(r: Reason) {
    match r
    case AuthFail => true
    case FourWayHandshakeTimeout => true
    case HandshakeTimeout => true
    case Auth8021xFailed => true
    case NoApCompatibleSecurity => true
    case NoApAuthmodeThreshold => true
    case OtherReason(_) => false
  }

  /** Who asked for a candidate attempt: decides what a failure to start it leads to. */
  datatype Caller = FromRecovery | FromUnreachable | FromPromotion

  /** Where the main loop stands; `at` is the connect count when the MQTT state was sampled. */
  datatype Pc =
    | Top
    | Recover
    | Unreach
    | Load(caller: Caller)
    | Sample(config: Config)
    | Configure(config: Config, at: nat)
    | ZeroCounters(config: Config, at: nat)
    | RaisePending(config: Config, at: nat)
    | Disconnect(config: Config, at: nat)
    | Connect(config: Config, at: nat)
    | SetConnecting(config: Config, at: nat)
    | Adopt(config: Config, at: nat)
    | RetainFlag | RetainCount | RetainStatus
    | ClearCurrent
    | CheckStatus | CheckMqtt | PromoteStored | AdoptCurrent
    | Halted

  /** `accepted`, `gotIp`, `credentialEvents`, `otherEvents`, `rejected`, `rejectedSlot` and
      `promotedRejected` are history; `connects` counts without wrapping. */
  datatype State = State(
    slots: Slots,
    staEnabled: bool,
    driver: Credentials,
    status: Status,
    credentialFailures: nat,
    unreachables: nat,
    reconfigurePending: bool,
    mqttConnected: bool,
    connects: nat,
    slot: Slot,
    candidate: Config,
    sampledAt: nat,
    pc: Pc,
    accepted: Option<Credentials>,
    gotIp: bool,
    credentialEvents: nat,
    otherEvents: nat,
    rejected: Option<Credentials>,
    rejectedSlot: Slot,
    promotedRejected: bool)

  datatype CallResult = CallOk | NotConnected | CallFailed

  datatype Step =
    | Main(faulted: bool, call: CallResult)
    | OnStaConnected
    | OnGotIp
    | OnStaDisconnected(reason: Option<Reason>, reconnected: bool)
    | OnMqttConnected
    | OnMqttDisconnected
    | StageCommand(config: Config, faulted: bool)
    | PortalSave(credentials: Credentials, faulted: bool)

  function Capped(n: nat): nat {
    Min(FAILURE_LIMIT, n)
  }

  // ----- the event task -----

  /** The STA_DISCONNECTED branch of wifi_event_handler. */
  function Disconnected(s: State, reason: Option<Reason>, reconnected: bool): State {
    if s.reconfigurePending then
      s.(reconfigurePending := false, credentialFailures := 0, unreachables := 0,
         credentialEvents := 0, otherEvents := 0,
         status := if reconnected then StaConnecting else StaDisconnected)
    else
      var credential := reason.Some? && IsCredentialFailure(reason.value);
      var other := reason.Some? && !IsCredentialFailure(reason.value);
      var c := s.credentialFailures + if credential && s.credentialFailures < FAILURE_LIMIT then 1 else 0;
      var u := s.unreachables + if other && s.unreachables < FAILURE_LIMIT then 1 else 0;
      var counted := s.(credentialFailures := c, unreachables := u,
                        credentialEvents := s.credentialEvents + if credential then 1 else 0,
                        otherEvents := s.otherEvents + if other then 1 else 0);
      if reason.Some? && c >= FAILURE_LIMIT then
        counted.(status := RecoveryRequired,
                 rejected := Some(s.driver), rejectedSlot := s.slot, promotedRejected := false)
      else if reason.Some? && u >= FAILURE_LIMIT then counted.(status := Unreachable)
      else counted.(status := if reconnected then StaConnecting else StaDisconnected)
  }

  // ----- the main loop, one shared access at a time -----

  /** start_candidate_wifi_attempt and wifi_gateway_connect_sta once a candidate is loaded. A
      failed attempt, whatever its caller, leads to the retained recovery branch. */
  function AttemptStep(s: State, call: CallResult): State {
    match s.pc
    case Sample(c) => s.(pc := Configure(c, s.connects))
    case Configure(c, at) =>
      if call != CallOk then s.(pc := RetainFlag)
      else s.(driver := c.credentials, pc := ZeroCounters(c, at))
    case ZeroCounters(c, at) =>
      s.(credentialFailures := 0, unreachables := 0, credentialEvents := 0, otherEvents := 0,
         pc := RaisePending(c, at))
    case RaisePending(c, at) => s.(reconfigurePending := true, pc := Disconnect(c, at))
    case Disconnect(c, at) =>
      (match call
       case CallOk => s.(pc := SetConnecting(c, at))
       case NotConnected => s.(reconfigurePending := false, pc := Connect(c, at))
       case CallFailed => s.(reconfigurePending := false, pc := RetainFlag))
    case Connect(c, at) => s.(pc := if call == CallOk then SetConnecting(c, at) else RetainFlag)
    case SetConnecting(c, at) =>
      s.(status := StaConnecting, accepted := Some(c.credentials), gotIp := false, pc := Adopt(c, at))
    case Adopt(c, at) => s.(candidate := c, sampledAt := at, slot := CandidateSlot, pc := Top)
    case _ => s
  }

  function MainStep(s: State, faulted: bool, call: CallResult): State {
    match s.pc
    case Top =>
      s.(pc := if s.status == RecoveryRequired then Recover
               else if s.status == Unreachable then Unreach else CheckStatus)
    case Recover => s.(pc := if s.slot == CandidateSlot then RetainFlag else Load(FromRecovery))
    case Unreach => s.(pc := if s.slot == CurrentSlot then Load(FromUnreachable) else RetainFlag)
    case Load(caller) =>
      if faulted then s.(pc := RetainFlag)
      else (match s.slots.pending
            case Some(c) => s.(pc := Sample(c))
            case None => s.(pc := if caller == FromRecovery then ClearCurrent else RetainFlag))
    case RetainFlag => s.(pc := RetainCount)    // recovery bookkeeping, outside the slots
    case RetainCount => s.(pc := RetainStatus)
    case RetainStatus => s.(status := Provisioning, pc := Top)
    case ClearCurrent =>
      if faulted then s.(pc := Top) else s.(slots := ClearSlots(s.slots), pc := Halted)
    case CheckStatus => s.(pc := if s.slot == CandidateSlot && s.status == StaGotIp then CheckMqtt else Top)
    case CheckMqtt =>
      s.(pc := if s.mqttConnected && Wrap(s.connects) > Wrap(s.sampledAt) then PromoteStored else Top)
    case PromoteStored =>
      if faulted then s.(pc := Top)
      else
        var (slots', e) := PromoteSlots(s.slots, s.candidate.requestId, s.candidate.version);
        s.(slots := slots',
           pc := if e == Ok then AdoptCurrent else if e == InvalidState then Load(FromPromotion) else Top)
    case AdoptCurrent =>
      s.(slot := CurrentSlot, promotedRejected := s.status == RecoveryRequired, pc := Top)
    case Halted => s
    case _ => AttemptStep(s, call)
  }

  /** One step of any task; STA events come only while the STA runs, nothing after a restart. */
  function Next(s: State, step: Step): State {
    if s.pc == Halted then s
    else match step
      case Main(faulted, call) => MainStep(s, faulted, call)
      case OnStaConnected =>
        if !s.staEnabled then s
        else s.(credentialFailures := 0, unreachables := 0, credentialEvents := 0, otherEvents := 0,
                status := StaConnected)
      case OnGotIp => if !s.staEnabled then s else s.(status := StaGotIp, gotIp := true)
      case OnStaDisconnected(reason, reconnected) =>
        if !s.staEnabled then s else Disconnected(s, reason, reconnected)
      case OnMqttConnected => s.(mqttConnected := true, connects := s.connects + 1)
      case OnMqttDisconnected => s.(mqttConnected := false)
      case StageCommand(c, faulted) => if faulted then s else s.(slots := StageSlots(s.slots, c))
      case PortalSave(c, faulted) =>
        if faulted || !ValidCredentials(c) then s else s.(slots := SaveSlots(s.slots, c), pc := Halted)
  }

  function Run(s: State, steps: seq<Step>): State
    decreases |steps|
  {
    if steps == [] then s else Run(Next(s, steps[0]), steps[1..])
  }

  const NO_CONFIG := Config(Credentials([], []), [], 0)

  /** prepare_wifi_gateway_config and wifi_gateway_start: the STA runs if there are current
      credentials. */
  function Boot(u: Slots): State {
    State(u, u.current.Some?,
          if u.current.Some? then u.current.value else NO_CONFIG.credentials,
          if u.current.Some? then StaConnecting else Provisioning,
          0, 0, false, false, 0, CurrentSlot,
          if u.pending.Some? then u.pending.value else NO_CONFIG, 0, Top,
          None, false, 0, 0, None, CurrentSlot, false)
  }

  const GO := Main(false, CallOk)

  // ----- what the main loop does where it stands -----

  lemma TopMoves(s: State, step: Step)
    requires step.Main? && s.pc == Top
    ensures Next(s, step) == s.(pc := if s.status == RecoveryRequired then Recover
                                      else if s.status == Unreachable then Unreach else CheckStatus)
  {
    hide Disconnected, AttemptStep, PromoteSlots;
  }

  lemma SlotMoves(s: State, step: Step)
    requires step.Main? && (s.pc == Recover || s.pc == Unreach)
    ensures Next(s, step) == s.(pc := if s.slot == CandidateSlot then RetainFlag
                                      else Load(if s.pc == Recover then FromRecovery else FromUnreachable))
  {
    hide Disconnected, AttemptStep, PromoteSlots;
  }

  lemma LoadMoves(s: State, step: Step)
    requires step.Main? && s.pc.Load?
    ensures Next(s, step) == 
            s.(pc := if step.faulted then RetainFlag
                     else if s.slots.pending.Some? then Sample(s.slots.pending.value)
                     else if s.pc.caller == FromRecovery then ClearCurrent else RetainFlag)
  {
    hide Disconnected, AttemptStep, PromoteSlots;
  }

  lemma SampleMoves(s: State, step: Step)
    requires step.Main? && s.pc.Sample?
    ensures Next(s, step) == s.(pc := Configure(s.pc.config, s.connects))
  {
    hide Disconnected, PromoteSlots;
  }

  lemma DriverMoves(s: State, step: Step)
    requires step.Main?
    requires s.pc.Connect? || (s.pc.Configure? && step.call != CallOk) || (s.pc.Disconnect? && step.call == CallOk)
    ensures Next(s, step) == 
            s.(pc := if step.call == CallOk then SetConnecting(s.pc.config, s.pc.at) else RetainFlag)
  {
    hide Disconnected, PromoteSlots;
  }

  lemma RetainMoves(s: State, step: Step)
    requires step.Main? && (s.pc == RetainFlag || s.pc == RetainCount)
    ensures Next(s, step) == s.(pc := if s.pc == RetainFlag then RetainCount else RetainStatus)
  {
    hide Disconnected, AttemptStep, PromoteSlots;
  }

  lemma CheckMoves(s: State, step: Step)
    requires step.Main? && (s.pc == CheckStatus || s.pc == CheckMqtt)
    ensures Next(s, step) == 
            s.(pc := if s.pc == CheckStatus then
                       (if s.slot == CandidateSlot && s.status == StaGotIp then CheckMqtt else Top)
                     else if s.mqttConnected && Wrap(s.connects) > Wrap(s.sampledAt) then PromoteStored else Top)
  {
    hide Disconnected, AttemptStep, PromoteSlots;
  }

  lemma RetainEnds(s: State, step: Step)
    requires step.Main? && s.pc == RetainStatus
    ensures Next(s, step) == s.(status := Provisioning, pc := Top)
  {
    hide Disconnected, AttemptStep, PromoteSlots;
  }

  lemma ConfigureTakes(s: State, step: Step)
    requires step.Main? && s.pc.Configure? && step.call == CallOk
    ensures Next(s, step) == s.(driver := s.pc.config.credentials, pc := ZeroCounters(s.pc.config, s.pc.at))
  {
    hide Disconnected, PromoteSlots;
  }

  lemma CountersZeroed(s: State, step: Step)
    requires step.Main? && s.pc.ZeroCounters?
    ensures Next(s, step) == 
            s.(credentialFailures := 0, unreachables := 0, credentialEvents := 0, otherEvents := 0,
               pc := RaisePending(s.pc.config, s.pc.at))
  {
    hide Disconnected, PromoteSlots;
  }

  lemma FlagRaised(s: State, step: Step)
    requires step.Main? && s.pc.RaisePending?
    ensures Next(s, step) == s.(reconfigurePending := true, pc := Disconnect(s.pc.config, s.pc.at))
  {
    hide Disconnected, PromoteSlots;
  }

  lemma FlagLowered(s: State, step: Step)
    requires step.Main? && s.pc.Disconnect? && step.call != CallOk
    ensures Next(s, step) == 
            s.(reconfigurePending := false,
               pc := if step.call == NotConnected then Connect(s.pc.config, s.pc.at) else RetainFlag)
  {
    hide Disconnected, PromoteSlots;
  }

  lemma ConnectingSet(s: State, step: Step)
    requires step.Main? && s.pc.SetConnecting?
    ensures Next(s, step) == 
            s.(status := StaConnecting, accepted := Some(s.pc.config.credentials), gotIp := false,
               pc := Adopt(s.pc.config, s.pc.at))
  {
    hide Disconnected, PromoteSlots;
  }

  lemma CandidateAdopted(s: State, step: Step)
    requires step.Main? && s.pc.Adopt?
    ensures Next(s, step) == 
            s.(candidate := s.pc.config, sampledAt := s.pc.at, slot := CandidateSlot, pc := Top)
  {
    hide Disconnected, PromoteSlots;
  }

  lemma CurrentCleared(s: State, step: Step)
    requires step.Main? && s.pc == ClearCurrent
    ensures Next(s, step) == 
            if step.faulted then s.(pc := Top) else s.(slots := ClearSlots(s.slots), pc := Halted)
  {
    hide Disconnected, AttemptStep, PromoteSlots, ClearSlots;
  }

  lemma CandidatePromoted(s: State, step: Step)
    requires step.Main? && s.pc == PromoteStored
    ensures Next(s, step) == 
            if step.faulted then s.(pc := Top)
            else
              var (slots', e) := PromoteSlots(s.slots, s.candidate.requestId, s.candidate.version);
              s.(slots := slots',
                 pc := if e == Ok then AdoptCurrent else if e == InvalidState then Load(FromPromotion) else Top)
  {
    hide Disconnected, AttemptStep, PromoteSlots;
  }

  lemma SlotSwitched(s: State, step: Step)
    requires step.Main? && s.pc == AdoptCurrent
    ensures Next(s, step) == 
            s.(slot := CurrentSlot, promotedRejected := s.status == RecoveryRequired, pc := Top)
  {
    hide Disconnected, AttemptStep, PromoteSlots;
  }

  // ----- the invariant -----

  /** The stored candidate is `c` itself or has superseded it. */
  predicate Covers(u: Slots, c: Config) {
    u.pending == Some(c) || Superseded(u, c)
  }

  predicate Superseded(u: Slots, c: Config) {
    u.pending.Some? && u.pending.value.version > c.version
  }

  /** An attempt started while slot CANDIDATE is on trial replaces a superseded trial. */
  predicate Attempting(s: State) {
    s.staEnabled && (s.slot == CandidateSlot ==> Superseded(s.slots, s.candidate))
  }

  predicate Carried(s: State, c: Config, at: nat) {
    Attempting(s) && Covers(s.slots, c) && at <= s.connects
  }

  /** The driver's credentials are the ones last rejected; in slot CURRENT, the last of the failures
      was counted in slot CANDIDATE exactly when a promotion took that verdict over. */
  predicate Rejected(s: State) {
    s.rejected == Some(s.driver)
    && (s.slot == CurrentSlot ==> (s.rejectedSlot == CandidateSlot <==> s.promotedRejected))
  }

  /** A verdict that is in was counted in the slot now on trial. */
  predicate VerdictHere(s: State) {
    s.status == RecoveryRequired ==> s.rejectedSlot == s.slot
  }

  predicate PcInv(s: State) {
    match s.pc
    case Recover => Rejected(s) && s.staEnabled
    case Unreach => s.staEnabled
    case Load(caller) => Attempting(s) && (caller == FromRecovery ==> Rejected(s) && s.slot == CurrentSlot)
    case Sample(c) => Carried(s, c, 0)
    case Configure(c, at) => Carried(s, c, at)
    case ZeroCounters(c, at) => Carried(s, c, at) && s.driver == c.credentials
    case RaisePending(c, at) => Carried(s, c, at) && s.driver == c.credentials
    case Disconnect(c, at) => Carried(s, c, at) && s.driver == c.credentials
    case Connect(c, at) => Carried(s, c, at) && s.driver == c.credentials
    case SetConnecting(c, at) => Carried(s, c, at) && s.driver == c.credentials
    case Adopt(c, at) => Carried(s, c, at) && s.driver == c.credentials && s.accepted == Some(c.credentials)
    case ClearCurrent => Rejected(s) && s.slot == CurrentSlot && s.slots.current == Some(s.driver)
    case CheckMqtt => s.slot == CandidateSlot && s.gotIp && VerdictHere(s)
    case PromoteStored => s.slot == CandidateSlot && s.gotIp && s.connects > s.sampledAt && VerdictHere(s)
    case AdoptCurrent => s.slot == CandidateSlot && s.slots.current == Some(s.driver) && VerdictHere(s)
    case _ => true
  }

  predicate SlotInv(s: State) {
    && (s.slot == CandidateSlot && s.pc != AdoptCurrent ==>
          Superseded(s.slots, s.candidate)
          || (s.slots.pending == Some(s.candidate)
              && s.driver == s.candidate.credentials && s.accepted == Some(s.driver)))
    && (s.slot == CandidateSlot ==> s.sampledAt <= s.connects && s.staEnabled)
    && (s.slot == CurrentSlot && s.slots.pending.None? && s.staEnabled && s.pc != Halted ==>
          s.slots.current == Some(s.driver))
  }

  /** While the main loop has a new configuration in the driver but has not yet finished with the
      status, a recovery status may be about the old one. */
  predicate DriverChanging(pc: Pc) {
    pc.ZeroCounters? || pc.RaisePending? || pc.Disconnect? || pc.Connect? || pc.SetConnecting?
    || pc.RetainFlag? || pc.RetainCount? || pc.RetainStatus?
  }

  predicate StatusInv(s: State) {
    && (s.status == StaGotIp ==> s.gotIp)
    && (!s.staEnabled ==> s.status == Provisioning)
    && (s.status == RecoveryRequired && !DriverChanging(s.pc) ==> Rejected(s))
  }

  predicate Safe(s: State) {
    && SlotsInv(s.slots)
    && s.credentialFailures == Capped(s.credentialEvents)
    && s.unreachables == Capped(s.otherEvents)
    && (s.pc != Halted ==> StatusInv(s) && SlotInv(s) && PcInv(s))
  }

  lemma BootSafe(u: Slots)
    requires SlotsInv(u)
    ensures Safe(Boot(u))
  {
  }

  /** The slots, the trial and the main loop are where they were; only event state moved. */
  lemma EventKeepsPc(s: State, s': State)
    requires SlotInv(s) && PcInv(s)
    requires s'.slots == s.slots && s'.slot == s.slot && s'.candidate == s.candidate && s'.pc == s.pc
    requires s'.driver == s.driver && s'.accepted == s.accepted && s'.staEnabled == s.staEnabled
    requires s'.sampledAt == s.sampledAt && s'.connects >= s.connects && (s.gotIp ==> s'.gotIp)
    requires (Rejected(s) ==> Rejected(s')) && (VerdictHere(s) ==> VerdictHere(s'))
    ensures SlotInv(s') && PcInv(s')
  {
  }

  predicate Counted(s: State) {
    s.credentialFailures == Capped(s.credentialEvents) && s.unreachables == Capped(s.otherEvents)
  }

  lemma PendingDisconnect(s: State, reason: Option<Reason>, reconnected: bool)
    requires s.staEnabled && StatusInv(s) && s.reconfigurePending
    ensures var s' := Disconnected(s, reason, reconnected);
            Counted(s') && StatusInv(s') && (Rejected(s) ==> Rejected(s')) && (VerdictHere(s) ==> VerdictHere(s'))
  {
  }

  lemma CountedDisconnect(s: State, reason: Option<Reason>, reconnected: bool)
    requires !s.reconfigurePending && Counted(s)
    ensures Counted(Disconnected(s, reason, reconnected))
  {
  }

  lemma VerdictDisconnect(s: State, reason: Option<Reason>, reconnected: bool)
    requires s.staEnabled && StatusInv(s) && !s.reconfigurePending
    ensures var s' := Disconnected(s, reason, reconnected);
            StatusInv(s') && (Rejected(s) ==> Rejected(s')) && (VerdictHere(s) ==> VerdictHere(s'))
  {
  }

  lemma DisconnectedCounts(s: State, reason: Option<Reason>, reconnected: bool)
    requires s.staEnabled && StatusInv(s) && Counted(s)
    ensures var s' := Disconnected(s, reason, reconnected);
            Counted(s') && StatusInv(s') && (Rejected(s) ==> Rejected(s')) && (VerdictHere(s) ==> VerdictHere(s'))
  {
    hide Disconnected, StatusInv, Rejected, VerdictHere, Counted;
    if s.reconfigurePending {
      PendingDisconnect(s, reason, reconnected);
    } else {
      CountedDisconnect(s, reason, reconnected);
      VerdictDisconnect(s, reason, reconnected);
    }
  }

  /** What a disconnect event leaves alone. */
  lemma DisconnectKeepsLoop(s: State, reason: Option<Reason>, reconnected: bool)
    ensures var d := Disconnected(s, reason, reconnected);
            && d.slots == s.slots && d.slot == s.slot
            && d.candidate == s.candidate && d.sampledAt == s.sampledAt && d.pc == s.pc
  {
  }

  lemma DisconnectKeepsLink(s: State, reason: Option<Reason>, reconnected: bool)
    ensures var d := Disconnected(s, reason, reconnected);
            d.driver == s.driver && d.staEnabled == s.staEnabled && d.mqttConnected == s.mqttConnected
  {
  }

  lemma DisconnectKeepsCount(s: State, reason: Option<Reason>, reconnected: bool)
    ensures var d := Disconnected(s, reason, reconnected);
            d.connects == s.connects && !d.reconfigurePending
  {
  }

  lemma DisconnectKeepsHistory(s: State, reason: Option<Reason>, reconnected: bool)
    ensures var d := Disconnected(s, reason, reconnected);
            d.accepted == s.accepted && d.gotIp == s.gotIp
  {
  }

  lemma ClassMeans(r: Reason)
    ensures IsCredentialFailure(r) <==> !r.OtherReason?
  {
  }

  lemma DisconnectCounts(s: State, reason: Option<Reason>, reconnected: bool)
    requires !s.reconfigurePending
    ensures var d := Disconnected(s, reason, reconnected);
            && d.credentialFailures == s.credentialFailures
                 + (if reason.Some? && !reason.value.OtherReason? && s.credentialFailures < 3 then 1 else 0)
            && d.unreachables == s.unreachables
                 + (if reason.Some? && reason.value.OtherReason? && s.unreachables < 3 then 1 else 0)
  {
    hide IsCredentialFailure;
    if reason.Some? {
      ClassMeans(reason.value);
    }
  }

  lemma DisconnectVerdict(s: State, reason: Option<Reason>, reconnected: bool)
    requires !s.reconfigurePending
    ensures var d := Disconnected(s, reason, reconnected);
            d.status == if reason.Some? && d.credentialFailures >= 3 then RecoveryRequired
                        else if reason.Some? && d.unreachables >= 3 then Unreachable
                        else if reconnected then StaConnecting else StaDisconnected
  {
  }

  lemma DisconnectPending(s: State, reason: Option<Reason>, reconnected: bool)
    requires s.reconfigurePending
    ensures var d := Disconnected(s, reason, reconnected);
            d.credentialFailures == 0 && d.unreachables == 0
            && d.status == if reconnected then StaConnecting else StaDisconnected
  {
  }

  lemma DisconnectStep(s: State, reason: Option<Reason>, reconnected: bool)
    requires s.pc != Halted && s.staEnabled
    ensures Next(s, OnStaDisconnected(reason, reconnected)) == Disconnected(s, reason, reconnected)
  {
  }

  lemma DisconnectedSafe(s: State, reason: Option<Reason>, reconnected: bool)
    requires Safe(s) && s.pc != Halted && s.staEnabled
    ensures Safe(Disconnected(s, reason, reconnected))
  {
    hide SlotInv, PcInv, StatusInv, SlotsInv, Disconnected, Rejected, VerdictHere;
    DisconnectKeepsLoop(s, reason, reconnected);
    DisconnectKeepsLink(s, reason, reconnected);
    DisconnectKeepsCount(s, reason, reconnected);
    DisconnectKeepsHistory(s, reason, reconnected);
    DisconnectedCounts(s, reason, reconnected);
    EventKeepsPc(s, Disconnected(s, reason, reconnected));
  }

  lemma EventSafe(s: State, step: Step)
    requires Safe(s) && s.pc != Halted
    requires step.OnStaConnected? || step.OnGotIp? || step.OnMqttConnected? || step.OnMqttDisconnected?
    ensures Safe(Next(s, step))
  {
    EventKeepsPc(s, Next(s, step));
  }

  lemma StageSafe(s: State, c: Config)
    requires Safe(s)
    ensures Safe(s.(slots := StageSlots(s.slots, c)))
  {
  }

  lemma DecisionSafe(s: State, step: Step)
    requires Safe(s) && step.Main? && (s.pc == Top || s.pc == Recover || s.pc == Unreach || s.pc.Load?)
    ensures Safe(Next(s, step))
  {
    hide Next, SlotsInv;
    if s.pc == Top {
      TopMoves(s, step);
    } else if s.pc.Load? {
      LoadMoves(s, step);
    } else {
      SlotMoves(s, step);
    }
  }

  lemma CheckSafe(s: State, step: Step)
    requires Safe(s) && step.Main? && (s.pc == CheckStatus || s.pc == CheckMqtt)
    ensures Safe(Next(s, step))
  {
    hide Next, SlotsInv;
    CheckMoves(s, step);
  }

  lemma RetainSafe(s: State, step: Step)
    requires Safe(s) && step.Main? && (s.pc == RetainFlag || s.pc == RetainCount || s.pc == RetainStatus)
    ensures Safe(Next(s, step))
  {
    hide Next, SlotsInv;
    if s.pc == RetainStatus {
      RetainEnds(s, step);
    } else {
      RetainMoves(s, step);
    }
  }

  lemma PromotionSafe(s: State, step: Step)
    requires Safe(s) && step.Main? && s.pc == PromoteStored
    ensures Safe(Next(s, step))
  {
    hide Next;
    CandidatePromoted(s, step);
  }

  lemma SwitchSafe(s: State, step: Step)
    requires Safe(s) && step.Main? && s.pc == AdoptCurrent
    ensures Safe(Next(s, step))
  {
    hide Next, SlotsInv, Superseded;
    SlotSwitched(s, step);
  }

  lemma ClearSafe(s: State, step: Step)
    requires Safe(s) && step.Main? && s.pc == ClearCurrent
    ensures Safe(Next(s, step))
  {
    hide Next;
    CurrentCleared(s, step);
  }

  lemma SampleSafe(s: State, step: Step)
    requires Safe(s) && step.Main? && (s.pc.Sample? || s.pc.ZeroCounters?)
    ensures Safe(Next(s, step))
  {
    hide Next, SlotsInv, Superseded, Covers;
    if s.pc.Sample? {
      SampleMoves(s, step);
    } else {
      CountersZeroed(s, step);
    }
  }

  lemma ConfigureSafe(s: State, step: Step)
    requires Safe(s) && step.Main? && s.pc.Configure?
    ensures Safe(Next(s, step))
  {
    hide Next, SlotsInv;
    if step.call == CallOk {
      ConfigureTakes(s, step);
    } else {
      DriverMoves(s, step);
    }
  }

  lemma RaiseSafe(s: State, step: Step)
    requires Safe(s) && step.Main? && s.pc.RaisePending?
    ensures Safe(Next(s, step))
  {
    hide Next, SlotsInv, Superseded, Covers;
    FlagRaised(s, step);
  }

  lemma RequestSafe(s: State, step: Step)
    requires Safe(s) && step.Main? && (s.pc.Disconnect? || s.pc.Connect?)
    ensures Safe(Next(s, step))
  {
    hide Next, SlotsInv, Superseded, Covers;
    if s.pc.Connect? || step.call == CallOk {
      DriverMoves(s, step);
    } else {
      FlagLowered(s, step);
    }
  }

  lemma AdoptSafe(s: State, step: Step)
    requires Safe(s) && step.Main? && (s.pc.SetConnecting? || s.pc.Adopt?)
    ensures Safe(Next(s, step))
  {
    hide Next, SlotsInv;
    if s.pc.Adopt? {
      CandidateAdopted(s, step);
    } else {
      ConnectingSet(s, step);
    }
  }

  lemma MainSafe(s: State, step: Step)
    requires Safe(s) && s.pc != Halted && step.Main?
    ensures Safe(Next(s, step))
  {
    hide Next, Safe;
    var pc := s.pc;
    if pc == PromoteStored {
      PromotionSafe(s, step);
    } else if pc == AdoptCurrent {
      SwitchSafe(s, step);
    } else if pc == ClearCurrent {
      ClearSafe(s, step);
    } else if pc.Sample? || pc.ZeroCounters? {
      SampleSafe(s, step);
    } else if pc.Configure? {
      ConfigureSafe(s, step);
    } else if pc.RaisePending? {
      RaiseSafe(s, step);
    } else if pc.Disconnect? || pc.Connect? {
      RequestSafe(s, step);
    } else if pc.SetConnecting? || pc.Adopt? {
      AdoptSafe(s, step);
    } else if pc == RetainFlag || pc == RetainCount || pc == RetainStatus {
      RetainSafe(s, step);
    } else if pc == CheckStatus || pc == CheckMqtt {
      CheckSafe(s, step);
    } else {
      DecisionSafe(s, step);
    }
  }

  lemma NextSafe(s: State, step: Step)
    requires Safe(s)
    ensures Safe(Next(s, step))
  {
    if s.pc != Halted {
      match step {
        case Main(_, _) => MainSafe(s, step);
        case StageCommand(c, _) => StageSafe(s, c);
        case PortalSave(_, _) =>
        case OnStaDisconnected(reason, reconnected) =>
          if s.staEnabled {
            DisconnectedSafe(s, reason, reconnected);
          }
        case _ => EventSafe(s, step);
      }
    }
  }

  lemma {:induction false} StepsSafe(s: State, steps: seq<Step>)
    requires Safe(s)
    ensures Safe(Run(s, steps))
    decreases |steps|
  {
    if steps != [] {
      NextSafe(s, steps[0]);
      StepsSafe(Next(s, steps[0]), steps[1..]);
    }
  }

  /** Every run of every interleaving, from any legal slots. */
  lemma RunSafe(u: Slots, steps: seq<Step>)
    requires SlotsInv(u)
    ensures Safe(Run(Boot(u), steps))
  {
    BootSafe(u);
    StepsSafe(Boot(u), steps);
  }

  // ----- verified promotion -----

  /** The step is a promotion that succeeds. */
  predicate Promotes(s: State, step: Step) {
    s.pc == PromoteStored && step.Main? && !step.faulted
    && PromoteSlots(s.slots, s.candidate.requestId, s.candidate.version).1 == Ok
  }

  /** Whatever the interleaving: a successful promotion makes current exactly the credentials the
      STA last accepted, after a GOT_IP event since then and an MQTT connect since the attempt sampled
      the count; no bound on the number of connects is needed. Over whose link the two came is
      another matter (UpstreamHistory). */
  lemma VerifiedPromotion(u: Slots, steps: seq<Step>, step: Step)
    requires SlotsInv(u) && Promotes(Run(Boot(u), steps), step)
    ensures var s := Run(Boot(u), steps);
            && s.accepted == Some(s.candidate.credentials) && s.driver == s.candidate.credentials
            && Next(s, step).slots
               == Slots(s.accepted, Some((s.candidate.requestId, s.candidate.version)), None)
            && (s.slots.active.Some? ==> s.candidate.version > s.slots.active.value.1)
            && s.gotIp && s.connects > s.sampledAt
  {
    RunSafe(u, steps);
  }

  /** Current credentials change only by a promotion, the recovery clear or a Portal save. */
  lemma OnlyThreeWriters(s: State, step: Step)
    requires Next(s, step).slots.current != s.slots.current
    ensures Promotes(s, step) || (s.pc == ClearCurrent && step.Main?) || step.PortalSave?
  {
    hide MainStep, Disconnected;
    if step.Main? && s.pc != Halted {
      MainKeeps(s, step);
      if s.pc == PromoteStored {
        CandidatePromoted(s, step);
      }
    } else if step.OnStaDisconnected? {
      DisconnectKeepsLoop(s, step.reason, step.reconnected);
    }
  }

  /** The wrapped comparison never claims a new connect that did not happen, and under 2^32
      connects it sees every one that did. */
  lemma GenerationComparison(sampledAt: nat, connects: nat)
    requires sampledAt <= connects
    ensures Wrap(connects) > Wrap(sampledAt) ==> connects > sampledAt
    ensures connects < TWO_32 ==> (Wrap(connects) > Wrap(sampledAt) <==> connects > sampledAt)
  {
  }

  // ----- recovery discipline -----

  predicate Clears(s: State, step: Step) {
    s.pc == ClearCurrent && step.Main? && !step.faulted
  }

  /** The main loop clears only credentials that the STA was running with when the verdict fell. It fell
      in slot CURRENT exactly when no promotion switched slots while it was already in; where the
      failures before the last one were counted is another matter (UpstreamHistory). */
  lemma ClearsOnlyRejected(u: Slots, steps: seq<Step>, step: Step)
    requires SlotsInv(u) && Clears(Run(Boot(u), steps), step)
    ensures var s := Run(Boot(u), steps);
            && s.slots.current == Some(s.driver) && s.rejected == Some(s.driver)
            && (s.rejectedSlot == CurrentSlot <==> !s.promotedRejected)
  {
    RunSafe(u, steps);
  }

  /** Credential-class disconnects among the steps. */
  function Refusals(steps: seq<Step>): nat
    decreases |steps|
  {
    if steps == [] then 0
    else
      var a := steps[0];
      (if a.OnStaDisconnected? && a.reason.Some? && !a.reason.value.OtherReason? then 1 else 0)
        + Refusals(steps[1..])
  }

  /** The main loop records no verdict, forgets counted failures in one place only, and writes the
      slots in two. */
  predicate Kept(s: State, t: State) {
    && t.rejected == s.rejected
    && (s.pc == PromoteStored || s.pc == ClearCurrent || t.slots == s.slots)
    && t.credentialEvents == (if s.pc.ZeroCounters? then 0 else s.credentialEvents)
    && t.otherEvents == (if s.pc.ZeroCounters? then 0 else s.otherEvents)
  }

  lemma AttemptKeeps(s: State, step: Step)
    requires step.Main? && (s.pc.Sample? || s.pc.Configure? || s.pc.ZeroCounters?
                            || s.pc.RaisePending? || s.pc.Disconnect? || s.pc.Connect?)
    ensures Kept(s, Next(s, step))
  {
    hide Next;
    if s.pc.Sample? {
      SampleMoves(s, step);
    } else if s.pc.ZeroCounters? {
      CountersZeroed(s, step);
    } else if s.pc.RaisePending? {
      FlagRaised(s, step);
    } else if s.pc.Configure? && step.call == CallOk {
      ConfigureTakes(s, step);
    } else if s.pc.Disconnect? && step.call != CallOk {
      FlagLowered(s, step);
    } else {
      DriverMoves(s, step);
    }
  }

  lemma SwitchKeeps(s: State, step: Step)
    requires step.Main?
    requires s.pc.SetConnecting? || s.pc.Adopt? || s.pc == AdoptCurrent || s.pc == PromoteStored || s.pc == ClearCurrent
    ensures Kept(s, Next(s, step))
  {
    hide Next;
    if s.pc.SetConnecting? {
      ConnectingSet(s, step);
    } else if s.pc.Adopt? {
      CandidateAdopted(s, step);
    } else if s.pc == AdoptCurrent {
      SlotSwitched(s, step);
    } else if s.pc == PromoteStored {
      CandidatePromoted(s, step);
    } else {
      CurrentCleared(s, step);
    }
  }

  lemma RestKeeps(s: State, step: Step)
    requires step.Main?
    requires s.pc == Top || s.pc == Recover || s.pc == Unreach || s.pc.Load?
      || s.pc == RetainFlag || s.pc == RetainCount || s.pc == RetainStatus || s.pc == CheckStatus || s.pc == CheckMqtt
    ensures Kept(s, Next(s, step))
  {
    hide Next;
    if s.pc == Top {
      TopMoves(s, step);
    } else if s.pc.Load? {
      LoadMoves(s, step);
    } else if s.pc == Recover || s.pc == Unreach {
      SlotMoves(s, step);
    } else if s.pc == CheckStatus || s.pc == CheckMqtt {
      CheckMoves(s, step);
    } else if s.pc == RetainStatus {
      RetainEnds(s, step);
    } else {
      RetainMoves(s, step);
    }
  }

  lemma MainKeeps(s: State, step: Step)
    requires s.pc != Halted && step.Main?
    ensures Kept(s, Next(s, step))
  {
    hide Next, Kept;
    var pc := s.pc;
    if pc.Sample? || pc.Configure? || pc.ZeroCounters? || pc.RaisePending? || pc.Disconnect? || pc.Connect? {
      AttemptKeeps(s, step);
    } else if pc.SetConnecting? || pc.Adopt? || pc == AdoptCurrent || pc == PromoteStored || pc == ClearCurrent {
      SwitchKeeps(s, step);
    } else {
      RestKeeps(s, step);
    }
  }

  /** What starts the failure counts afresh: a link, the switch to a candidate, and the disconnect
      that the switch itself asked for. */
  predicate Resets(s: State, step: Step) {
    match step
    case Main(_, _) => s.pc.ZeroCounters?
    case OnStaConnected => s.staEnabled
    case OnStaDisconnected(_, _) => s.staEnabled && s.reconfigurePending
    case _ => false
  }

  /** A disconnect of the given class. */
  predicate Fails(s: State, step: Step, credential: bool) {
    s.staEnabled && step.OnStaDisconnected? && step.reason.Some?
    && step.reason.value.OtherReason? != credential
  }

  /** Disconnects of a class since the counts last started afresh, `n` of them before these steps. */
  function SinceReset(s: State, steps: seq<Step>, credential: bool, n: nat): nat
    decreases |steps|
  {
    if steps == [] || s.pc == Halted then n
    else SinceReset(Next(s, steps[0]), steps[1..], credential,
                    if Resets(s, steps[0]) then 0 else if Fails(s, steps[0], credential) then n + 1 else n)
  }

  function Events(s: State, credential: bool): nat {
    if credential then s.credentialEvents else s.otherEvents
  }

  lemma EventsMove(s: State, step: Step, credential: bool)
    requires s.pc != Halted
    ensures Events(Next(s, step), credential) ==
            if Resets(s, step) then 0
            else Events(s, credential) + if Fails(s, step, credential) then 1 else 0
  {
    hide MainStep;
    if step.Main? {
      MainKeeps(s, step);
    }
  }

  lemma {:induction false} HaltedStays(s: State, steps: seq<Step>)
    requires s.pc == Halted
    ensures Run(s, steps) == s
    decreases |steps|
  {
    if steps != [] {
      HaltedStays(s, steps[1..]);
    }
  }

  lemma {:induction false} EventsCounted(s: State, steps: seq<Step>, credential: bool)
    ensures Events(Run(s, steps), credential) == SinceReset(s, steps, credential, Events(s, credential))
    decreases |steps|
  {
    hide Next, Resets, Fails, Events;
    if s.pc == Halted {
      HaltedStays(s, steps);
    } else if steps != [] {
      EventsMove(s, steps[0], credential);
      EventsCounted(Next(s, steps[0]), steps[1..], credential);
    }
  }

  /** In every reachable state each failure counter is the number of disconnects of its class since
      the counts last started afresh, saturated at the limit. */
  lemma CountersExact(u: Slots, steps: seq<Step>)
    requires SlotsInv(u)
    ensures var s := Run(Boot(u), steps);
            && s.credentialFailures == Min(3, SinceReset(Boot(u), steps, true, 0))
            && s.unreachables == Min(3, SinceReset(Boot(u), steps, false, 0))
  {
    RunSafe(u, steps);
    EventsCounted(Boot(u), steps, true);
    EventsCounted(Boot(u), steps, false);
  }

  /** The verdict of every counted disconnect: RECOVERY_REQUIRED once three credential-class disconnects
      have come since the counts last started afresh, else UNREACHABLE once three others have. */
  lemma VerdictExact(u: Slots, steps: seq<Step>, reason: Reason, reconnected: bool)
    requires SlotsInv(u)
    requires var s := Run(Boot(u), steps); s.pc != Halted && s.staEnabled && !s.reconfigurePending
    ensures var t := Next(Run(Boot(u), steps), OnStaDisconnected(Some(reason), reconnected));
            var refusals := SinceReset(Boot(u), steps, true, 0) + if reason.OtherReason? then 0 else 1;
            var losses := SinceReset(Boot(u), steps, false, 0) + if reason.OtherReason? then 1 else 0;
            t.status == if refusals >= 3 then RecoveryRequired else if losses >= 3 then Unreachable
                        else if reconnected then StaConnecting else StaDisconnected
  {
    hide Next, Disconnected, Boot, Run, SinceReset;
    var s := Run(Boot(u), steps);
    CountersExact(u, steps);
    DisconnectStep(s, Some(reason), reconnected);
    DisconnectCounts(s, Some(reason), reconnected);
    DisconnectVerdict(s, Some(reason), reconnected);
  }

  /** A disconnect that was not asked for, counted by the class of its reason. */
  lemma CountedStep(s: State, reason: Reason, reconnected: bool)
    requires s.pc != Halted && s.staEnabled && !s.reconfigurePending
    ensures var t := Next(s, OnStaDisconnected(Some(reason), reconnected));
            && t.pc == s.pc && t.staEnabled && !t.reconfigurePending
            && t.credentialFailures
                 == (if !reason.OtherReason? && s.credentialFailures < 3 then s.credentialFailures + 1
                     else s.credentialFailures)
            && t.unreachables
                 == (if reason.OtherReason? && s.unreachables < 3 then s.unreachables + 1 else s.unreachables)
            && t.status == if t.credentialFailures >= 3 then RecoveryRequired
                           else if t.unreachables >= 3 then Unreachable
                           else if reconnected then StaConnecting else StaDisconnected
  {
    hide Next, Disconnected;
    DisconnectStep(s, Some(reason), reconnected);
    DisconnectCounts(s, Some(reason), reconnected);
    DisconnectVerdict(s, Some(reason), reconnected);
    DisconnectKeepsLoop(s, Some(reason), reconnected);
    DisconnectKeepsLink(s, Some(reason), reconnected);
    DisconnectKeepsCount(s, Some(reason), reconnected);
  }

  /** Three disconnects, whatever the reconnects between them come to. */
  function Thrice(a: Reason, b: Reason, c: Reason, x: bool, y: bool, z: bool): seq<Step> {
    [OnStaDisconnected(Some(a), x), OnStaDisconnected(Some(b), y), OnStaDisconnected(Some(c), z)]
  }

  lemma ThriceCounted(s: State, a: Reason, b: Reason, c: Reason, x: bool, y: bool, z: bool)
    requires s.pc != Halted && s.staEnabled && !s.reconfigurePending
    requires a.OtherReason? == b.OtherReason? == c.OtherReason?
    ensures var t := Run(s, Thrice(a, b, c, x, y, z));
            if !a.OtherReason? then t.status == RecoveryRequired
            else t.status == if s.credentialFailures >= 3 then RecoveryRequired else Unreachable
  {
    hide Next;
    var p := Next(s, OnStaDisconnected(Some(a), x));
    var q := Next(p, OnStaDisconnected(Some(b), y));
    CountedStep(s, a, x);
    CountedStep(p, b, y);
    CountedStep(q, c, z);
    RunThree(s, Thrice(a, b, c, x, y, z));
  }

  lemma RunThree(s: State, xs: seq<Step>)
    requires |xs| == 3
    ensures Run(s, xs) == Next(Next(Next(s, xs[0]), xs[1]), xs[2])
  {
    hide Next;
    var ys := xs[1..];
    assert ys[0] == xs[1] && ys[1..][0] == xs[2] && ys[1..][1..] == [];
    var q := Next(Next(s, xs[0]), ys[0]);
    assert Run(s, xs) == Run(Next(s, xs[0]), ys) == Run(q, ys[1..]);
    RunOne(q, xs[2]);
    assert ys[1..] == [xs[2]];
  }

  lemma RefusalCounted(s: State, step: Step, n: nat)
    requires s.credentialFailures == Capped(s.credentialEvents)
    requires s.credentialEvents <= n && (s.rejected.Some? ==> n >= FAILURE_LIMIT)
    ensures var s', n' := Next(s, step), n + Refusals([step]);
            s'.credentialEvents <= n' && (s'.rejected.Some? ==> n' >= FAILURE_LIMIT)
  {
    hide MainStep;
    if step.Main? && s.pc != Halted {
      MainKeeps(s, step);
    }
  }

  lemma {:induction false} RefusalsCounted(s: State, steps: seq<Step>, n: nat)
    requires Safe(s) && s.credentialEvents <= n && (s.rejected.Some? ==> n >= FAILURE_LIMIT)
    ensures Run(s, steps).rejected.Some? ==> n + Refusals(steps) >= FAILURE_LIMIT
    decreases |steps|
  {
    if steps != [] {
      NextSafe(s, steps[0]);
      RefusalCounted(s, steps[0], n);
      RefusalsCounted(Next(s, steps[0]), steps[1..], n + Refusals([steps[0]]));
    }
  }

  /** Losing the link, however often, never gets slot CURRENT cleared: three credential-class
      disconnects must have occurred. */
  lemma UnreachableNeverClears(u: Slots, steps: seq<Step>, step: Step)
    requires SlotsInv(u) && Clears(Run(Boot(u), steps), step)
    ensures Refusals(steps) >= 3
  {
    BootSafe(u);
    RunSafe(u, steps);
    RefusalsCounted(Boot(u), steps, 0);
  }

  // ----- joining runs -----

  lemma {:induction false} RunAppend(s: State, xs: seq<Step>, ys: seq<Step>)
    ensures Run(s, xs + ys) == Run(Run(s, xs), ys)
    decreases |xs|
  {
    if xs == [] {
      assert xs + ys == ys;
    } else {
      assert (xs + ys)[1..] == xs[1..] + ys;
      RunAppend(Next(s, xs[0]), xs[1..], ys);
    }
  }

  lemma RunOne(s: State, a: Step)
    ensures Run(s, [a]) == Next(s, a)
  {
  }
}
