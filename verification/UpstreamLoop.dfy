/** The firmware's own control flow: the main loop's functions, the driver call they make and the
    event handlers, updating their globals in place. Any number of events of the other tasks may
    fall between two shared accesses of the loop; every execution is a run of UpstreamWifi. */
module UpstreamLoop {
  import opened Bytes
  import opened WifiConfig
  import opened UpstreamWifi
  import opened UpstreamHistory

  /** What start_candidate_wifi_attempt returns. */
  datatype Started = Trying | NoCandidate | CannotStart

  lemma SlotsCleared(u: Slots)
    ensures ClearSlots(u).current.None?
  {
  }

  lemma MqttMoves(s: State)
    requires s.pc != Halted
    ensures Next(s, OnMqttConnected) == s.(mqttConnected := true, connects := s.connects + 1)
    ensures Next(s, OnMqttDisconnected) == s.(mqttConnected := false)
  {
    hide MainStep, Disconnected;
  }

  lemma WrapNext(n: nat)
    ensures Wrap(Wrap(n) + 1) == Wrap(n + 1)
  {
  }

  class Upstream {
    // The two slots in flash, the STA configuration in the driver.
    var slots: Slots
    var driver: Credentials

    // wifi_gateway.c and app_mqtt.c
    var staEnabled: bool
    var status: Status
    var credentialFailures: nat
    var unreachables: nat
    var reconfigurePending: bool
    var mqttConnected: bool
    var generation: U32

    // main.c
    var slot: Slot
    var candidate: Config
    var candidateGeneration: U32

    // The run of the protocol made so far.
    ghost const booted: Slots
    ghost var steps: seq<Step>
    ghost var model: State

    /** The globals are what the protocol's state says. */
    ghost predicate Matches()
      reads this
    {
      && model.slots == slots && model.driver == driver
      && model.staEnabled == staEnabled && model.status == status
      && model.credentialFailures == credentialFailures && model.unreachables == unreachables
      && model.reconfigurePending == reconfigurePending
      && model.mqttConnected == mqttConnected && generation == Wrap(model.connects)
      && model.slot == slot && candidateGeneration == Wrap(model.sampledAt)
      && (slot == CandidateSlot ==> model.candidate == candidate)
    }

    ghost predicate Traced()
      reads this
    {
      SlotsInv(booted) && model == Run(Boot(booted), steps)
    }

    ghost predicate Valid()
      reads this
    {
      Traced() && Matches()
    }

    ghost function History(): History
      reads this
    {
      Recorded(Boot(booted), steps, START)
    }

    /** prepare_wifi_gateway_config and wifi_gateway_start; reading the candidate may meet a flash fault,
        and a recovery flag left by the last run, which is cleared first, changes nothing here. */
    constructor (u: Slots, candidateFaulted: bool)
      requires SlotsInv(u)
      ensures Valid() && booted == u && steps == [] && model.pc == Top
    {
      slots := u;
      staEnabled := u.current.Some?;
      driver := if u.current.Some? then u.current.value else NO_CONFIG.credentials;
      status := if u.current.Some? then StaConnecting else Provisioning;
      credentialFailures, unreachables, reconfigurePending := 0, 0, false;
      mqttConnected, generation := false, 0;
      slot := CurrentSlot;
      candidate := if u.pending.Some? && !candidateFaulted then u.pending.value else NO_CONFIG;
      candidateGeneration := 0;
      booted, steps, model := u, [], Boot(u);
    }

    /** The access just made, as a step of the protocol. */
    ghost method Take(step: Step)
      requires Traced()
      modifies this`steps, this`model
      ensures Traced() && model == Next(old(model), step) && steps == old(steps) + [step]
    {
      hide Next, Run;
      RunAppend(Boot(booted), steps, [step]);
      RunOne(model, step);
      steps := steps + [step];
      model := Next(model, step);
    }

    /** A step that reads globals and only moves the main loop on. */
    ghost method Move(step: Step, to: Pc)
      requires Valid() && Next(model, step) == model.(pc := to)
      modifies this`steps, this`model
      ensures Valid() && model == old(model).(pc := to) && old(steps) <= steps
    {
      hide Next, Run, Boot;
      Take(step);
    }

    // ----- wifi_event_handler and set_connection_state -----

    /** The main loop stands where it stood and its own variables are untouched. */
    twostate predicate Undisturbed()
      reads this
    {
      && model.pc == old(model.pc) && old(steps) <= steps
      && slot == old(slot) && candidate == old(candidate) && candidateGeneration == old(candidateGeneration)
      && model.sampledAt == old(model.sampledAt)
    }

    method OnConnected()
      requires Valid() && model.pc != Halted && staEnabled
      modifies this
      ensures Valid() && Undisturbed() && steps == old(steps) + [OnStaConnected]
    {
      hide Run, MainStep, Disconnected;
      credentialFailures, unreachables := 0, 0;
      status := StaConnected;
      Take(OnStaConnected);
    }

    method OnAddress()
      requires Valid() && model.pc != Halted && staEnabled
      modifies this
      ensures Valid() && Undisturbed() && steps == old(steps) + [OnGotIp]
    {
      hide Run, MainStep, Disconnected;
      status := StaGotIp;
      Take(OnGotIp);
    }

    /** The STA_DISCONNECTED branch; `reconnected` is how esp_wifi_connect answers. */
    method OnDisconnected(reason: Option<Reason>, reconnected: bool)
      requires Valid() && model.pc != Halted && staEnabled
      modifies this
      ensures Valid() && Undisturbed() && steps == old(steps) + [OnStaDisconnected(reason, reconnected)]
    {
      hide Run, Next;
      if reconfigurePending {
        OldLinkClosed(reason, reconnected);
      } else {
        LinkFailed(reason, reconnected);
      }
    }

    /** The disconnect that a reconfiguration asked for. */
    method OldLinkClosed(reason: Option<Reason>, reconnected: bool)
      requires Valid() && model.pc != Halted && staEnabled && reconfigurePending
      modifies this
      ensures Valid() && Undisturbed() && steps == old(steps) + [OnStaDisconnected(reason, reconnected)]
    {
      hide Run, Next, Disconnected, IsCredentialFailure;
      DisconnectStep(model, reason, reconnected);
      DisconnectKeepsLoop(model, reason, reconnected);
      DisconnectKeepsLink(model, reason, reconnected);
      DisconnectKeepsCount(model, reason, reconnected);
      DisconnectPending(model, reason, reconnected);
      reconfigurePending := false;
      credentialFailures, unreachables := 0, 0;
      status := if reconnected then StaConnecting else StaDisconnected;
      Take(OnStaDisconnected(reason, reconnected));
    }

    /** Any other disconnect: counted by its class, with a verdict at the limit. */
    method LinkFailed(reason: Option<Reason>, reconnected: bool)
      requires Valid() && model.pc != Halted && staEnabled && !reconfigurePending
      modifies this
      ensures Valid() && Undisturbed() && steps == old(steps) + [OnStaDisconnected(reason, reconnected)]
    {
      hide Run, Next, Disconnected, IsCredentialFailure;
      DisconnectStep(model, reason, reconnected);
      DisconnectKeepsLoop(model, reason, reconnected);
      DisconnectKeepsLink(model, reason, reconnected);
      DisconnectKeepsCount(model, reason, reconnected);
      DisconnectCounts(model, reason, reconnected);
      DisconnectVerdict(model, reason, reconnected);
      CountFailure(reason);
      var credentialRecovery := reason.Some? && credentialFailures >= FAILURE_LIMIT;
      var unreachableRecovery := reason.Some? && unreachables >= FAILURE_LIMIT;
      if credentialRecovery {
        status := RecoveryRequired;
      } else if unreachableRecovery {
        status := Unreachable;
      } else {
        status := if reconnected then StaConnecting else StaDisconnected;
      }
      Take(OnStaDisconnected(reason, reconnected));
    }

    method CountFailure(reason: Option<Reason>)
      modifies this`credentialFailures, this`unreachables
      ensures credentialFailures == old(credentialFailures)
        + if reason.Some? && !reason.value.OtherReason? && old(credentialFailures) < 3 then 1 else 0
      ensures unreachables == old(unreachables)
        + if reason.Some? && reason.value.OtherReason? && old(unreachables) < 3 then 1 else 0
    {
      if reason.Some? {
        if IsCredentialFailure(reason.value) {
          if credentialFailures < FAILURE_LIMIT {
            credentialFailures := credentialFailures + 1;
          }
        } else if unreachables < FAILURE_LIMIT {
          unreachables := unreachables + 1;
        }
      }
    }

    method SetConnectionState(connected: bool)
      requires Valid() && model.pc != Halted
      modifies this
      ensures Valid() && Undisturbed()
      ensures steps == old(steps) + [if connected then OnMqttConnected else OnMqttDisconnected]
    {
      hide Run, Next, Wrap;
      MqttMoves(model);
      mqttConnected := connected;
      if connected {
        WrapNext(model.connects);
        generation := Wrap(generation + 1);
        Take(OnMqttConnected);
      } else {
        Take(OnMqttDisconnected);
      }
    }

    /** A staging command carried out by the MQTT task. */
    method Stage(c: Config, faulted: bool)
      requires Valid() && model.pc != Halted
      modifies this
      ensures Valid() && Undisturbed() && steps == old(steps) + [StageCommand(c, faulted)]
    {
      hide Run, MainStep, Disconnected, StageSlots;
      if !faulted {
        slots := StageSlots(slots, c);
      }
      Take(StageCommand(c, faulted));
    }

    /** A Portal save; when it succeeds the restart that follows ends the run. */
    method Provision(c: Credentials, faulted: bool) returns (restarted: bool)
      requires Valid() && model.pc != Halted
      modifies this
      ensures Valid() && steps == old(steps) + [PortalSave(c, faulted)]
      ensures model.pc == if restarted then Halted else old(model.pc)
    {
      hide Run, MainStep, Disconnected;
      restarted := !faulted && ValidCredentials(c);
      if restarted {
        slots := SaveSlots(slots, c);
      }
      Take(PortalSave(c, faulted));
    }

    /** Any number of events of the other tasks. */
    method Interfere()
      requires Valid() && model.pc != Halted
      modifies this
      ensures Valid() && Undisturbed()
    {
      hide Run, Next, Boot, Traced;
      var n: nat :| n >= 0;
      for i := 0 to n
        invariant Valid() && Undisturbed()
      {
        AnyEvent();
      }
    }

    method AnyEvent()
      requires Valid() && model.pc != Halted
      modifies this
      ensures Valid() && Undisturbed()
    {
      hide Run, Next, Boot, Traced;
      var flag: bool := *;
      if
      case staEnabled => OnConnected();
      case staEnabled => OnAddress();
      case staEnabled => var reason: Option<Reason> := *; OnDisconnected(reason, flag);
      case true => SetConnectionState(flag);
      case true => var c: Config := *; Stage(c, flag);
    }

    // ----- wifi_gateway_connect_sta -----

    /** What the calls below leave alone. */
    ghost predicate Kept(s: Slot, c: Config, g: U32)
      reads this
    {
      slot == s && candidate == c && candidateGeneration == g
    }

    /** wifi_gateway_connect_sta: true when the driver took the configuration and a new link is under
        way. */
    method ConnectSta(c: Credentials) returns (ok: bool)
      requires Valid() && model.pc.Configure? && model.pc.config.credentials == c
      modifies this
      ensures Valid() && Kept(old(slot), old(candidate), old(candidateGeneration)) && old(steps) <= steps
      ensures ok ==> model.pc == Pc.Adopt(old(model.pc.config), old(model.pc.at)) && model.accepted == Some(c)
      ensures !ok ==> model.pc == RetainFlag
    {
      hide Run, Next, Boot, Matches;
      ok := Configure(c);
      if !ok {
        return;
      }
      ZeroCounters();
      RaisePending();
      ok := RequestLink();
      if ok {
        SetConnecting();
      }
    }

    /** esp_wifi_disconnect, whose event will reconnect; or esp_wifi_connect if there was no link. */
    method RequestLink() returns (ok: bool)
      requires Valid() && model.pc.Disconnect?
      modifies this
      ensures Valid() && Kept(old(slot), old(candidate), old(candidateGeneration)) && old(steps) <= steps
      ensures model.pc == if ok then Pc.SetConnecting(old(model.pc.config), old(model.pc.at)) else RetainFlag
    {
      hide Run, Next, Boot, Matches;
      Interfere();
      var call: CallResult := *;
      if call != CallOk {
        LowerPending(call);
        if call != NotConnected {
          return false;
        }
        Interfere();
        call := *;
      }
      DriverMoves(model, Main(false, call));
      Move(Main(false, call), if call == CallOk then Pc.SetConnecting(model.pc.config, model.pc.at) else RetainFlag);
      ok := call == CallOk;
    }

    /** configure_sta_credentials. */
    method Configure(c: Credentials) returns (ok: bool)
      requires Valid() && model.pc.Configure? && model.pc.config.credentials == c
      modifies this
      ensures Valid() && Kept(old(slot), old(candidate), old(candidateGeneration)) && old(steps) <= steps
      ensures model.pc == if ok then Pc.ZeroCounters(old(model.pc.config), old(model.pc.at)) else RetainFlag
    {
      hide Run, Boot, Disconnected;
      Interfere();
      var call: CallResult := *;
      if call == CallOk {
        driver := c;
      }
      Take(Main(false, call));
      ok := call == CallOk;
    }

    method ZeroCounters()
      requires Valid() && model.pc.ZeroCounters?
      modifies this
      ensures Valid() && Kept(old(slot), old(candidate), old(candidateGeneration)) && old(steps) <= steps
      ensures model.pc == Pc.RaisePending(old(model.pc.config), old(model.pc.at))
    {
      hide Run, Boot, Disconnected;
      Interfere();
      credentialFailures, unreachables := 0, 0;
      Take(GO);
    }

    method RaisePending()
      requires Valid() && model.pc.RaisePending?
      modifies this
      ensures Valid() && Kept(old(slot), old(candidate), old(candidateGeneration)) && old(steps) <= steps
      ensures model.pc == Disconnect(old(model.pc.config), old(model.pc.at))
    {
      hide Run, Boot, Disconnected;
      Interfere();
      reconfigurePending := true;
      Take(GO);
    }

    /** The request to drop the old link failed: there was none, or the driver refused. */
    method LowerPending(call: CallResult)
      requires Valid() && model.pc.Disconnect? && call != CallOk
      modifies this
      ensures Valid() && Kept(old(slot), old(candidate), old(candidateGeneration)) && old(steps) <= steps
      ensures model.pc == if call == NotConnected then Connect(old(model.pc.config), old(model.pc.at)) else RetainFlag
    {
      hide Run, Boot, Disconnected;
      reconfigurePending := false;
      Take(Main(false, call));
    }

    method SetConnecting()
      requires Valid() && model.pc.SetConnecting?
      modifies this
      ensures Valid() && Kept(old(slot), old(candidate), old(candidateGeneration)) && old(steps) <= steps
      ensures model.pc == Pc.Adopt(old(model.pc.config), old(model.pc.at))
      ensures model.accepted == Some(old(model.pc.config.credentials))
    {
      hide Run, Boot, Disconnected;
      Interfere();
      status := StaConnecting;
      Take(GO);
    }

    // ----- main.c -----

    /** enter_retained_wifi_recovery; its bookkeeping lies outside the slots. */
    method EnterRetainedRecovery()
      requires Valid() && model.pc == RetainFlag
      modifies this
      ensures Valid() && model.pc == Top && old(steps) <= steps && slot == old(slot)
    {
      hide Run, Next, Boot, Traced;
      Interfere();
      RetainMoves(model, GO);
      Move(GO, RetainCount);
      Interfere();
      RetainMoves(model, GO);
      Move(GO, RetainStatus);
      SetProvisioning();
    }

    method SetProvisioning()
      requires Valid() && model.pc == RetainStatus
      modifies this
      ensures Valid() && model.pc == Top && old(steps) <= steps && slot == old(slot)
    {
      hide Run, Boot, Disconnected, AttemptStep;
      Interfere();
      status := Provisioning;
      Take(GO);
    }

    /** start_candidate_wifi_attempt. */
    method StartCandidate() returns (r: Started)
      requires Valid() && model.pc.Load?
      modifies this
      ensures Valid() && old(steps) <= steps
      ensures r == Trying ==> model.pc == Top && slot == CandidateSlot && model.accepted == Some(candidate.credentials)
      ensures r != Trying ==> slot == old(slot)
      ensures r == NoCandidate ==>
                model.pc == (if old(model.pc.caller) == FromRecovery then ClearCurrent else RetainFlag)
      ensures r == CannotStart ==> model.pc == RetainFlag
    {
      hide Run, Next, Boot, Traced;
      var faulted, loaded := LoadStored();
      if faulted {
        return CannotStart;
      }
      if loaded.None? {
        return NoCandidate;
      }
      var sampled := SampleConnection();
      var ok := ConnectSta(loaded.value.credentials);
      if !ok {
        return CannotStart;
      }
      Adopt(loaded.value, sampled);
      r := Trying;
    }

    /** app_storage_load_candidate_wifi_config. */
    method LoadStored() returns (faulted: bool, loaded: Option<Config>)
      requires Valid() && model.pc.Load?
      modifies this
      ensures Valid() && Kept(old(slot), old(candidate), old(candidateGeneration)) && old(steps) <= steps
      ensures model.pc == if faulted then RetainFlag
                          else if loaded.Some? then Pc.Sample(loaded.value)
                          else if old(model.pc.caller) == FromRecovery then ClearCurrent else RetainFlag
    {
      hide Run, Next, Boot, Traced;
      Interfere();
      faulted := *;
      loaded := slots.pending;
      LoadMoves(model, Main(faulted, CallOk));
      Move(Main(faulted, CallOk),
           if faulted then RetainFlag
           else if loaded.Some? then Pc.Sample(loaded.value)
           else if model.pc.caller == FromRecovery then ClearCurrent else RetainFlag);
    }

    /** app_mqtt_get_connection_state before the driver call. */
    method SampleConnection() returns (sampled: U32)
      requires Valid() && model.pc.Sample?
      modifies this
      ensures Valid() && Kept(old(slot), old(candidate), old(candidateGeneration)) && old(steps) <= steps
      ensures model.pc == Pc.Configure(old(model.pc.config), model.connects) && sampled == Wrap(model.connects)
    {
      hide Run, Next, Boot, Traced;
      Interfere();
      sampled := generation;
      SampleMoves(model, GO);
      Move(GO, Pc.Configure(model.pc.config, model.connects));
    }

    /** The attempt takes over: the main loop's own variables. */
    method Adopt(c: Config, sampled: U32)
      requires Valid() && model.pc.Adopt? && model.pc.config == c && Wrap(model.pc.at) == sampled
      requires model.accepted == Some(c.credentials)
      modifies this
      ensures Valid() && model.pc == Top && old(steps) <= steps
      ensures slot == CandidateSlot && candidate == c && model.accepted == Some(c.credentials)
    {
      hide Run, Boot, Disconnected;
      candidate := c;
      candidateGeneration := sampled;
      slot := CandidateSlot;
      Take(GO);
    }

    /** app_storage_clear_wifi_credentials from the recovery branch, then a restart. */
    method ClearCurrentSlot() returns (ok: bool)
      requires Valid() && model.pc == ClearCurrent
      modifies this
      ensures Valid() && old(steps) <= steps && model.pc == (if ok then Halted else Top)
      ensures ok ==> slots.current.None? && Refusals(steps) >= 3
      ensures ok ==> (CountedInCurrent(model, History().tally) <==> History().guard.guarded)
      ensures ok ==> History().search.found.None? && slots == Slots(None, None, History().search.staged)
    {
      hide Run, Next, Boot, Recorded, Refusals, ClearSlots;
      Interfere();
      var faulted: bool := *;
      CurrentCleared(model, Main(faulted, CallOk));
      SlotsCleared(slots);
      if !faulted {
        UnreachableNeverClears(booted, steps, GO);
        ClearsOnCurrentFailures(booted, steps, GO);
        ClearsWithoutCandidate(booted, steps, GO);
        ClearKeepsHistory(booted, steps, GO);
        slots := ClearSlots(slots);
      }
      RefusalsAppend(steps, [Main(faulted, CallOk)]);
      Take(Main(faulted, CallOk));
      ok := !faulted;
    }

    /** handle_upstream_wifi_recovery. */
    method HandleRecovery() returns (restarted: bool)
      requires Valid() && model.pc == Recover
      modifies this
      ensures Valid() && old(steps) <= steps && model.pc == (if restarted then Halted else Top)
    {
      hide Run, Next, Boot, Traced;
      restarted := false;
      SlotMoves(model, GO);
      if slot == CandidateSlot {
        Move(GO, RetainFlag);
        EnterRetainedRecovery();
        return;
      }
      Move(GO, Load(FromRecovery));
      var started := StartCandidate();
      if started == Trying {
        return;
      }
      if started != NoCandidate {
        EnterRetainedRecovery();
        return;
      }
      restarted := ClearCurrentSlot();
    }

    /** handle_upstream_wifi_unreachable. */
    method HandleUnreachable()
      requires Valid() && model.pc == Unreach
      modifies this
      ensures Valid() && old(steps) <= steps && model.pc == Top
    {
      hide Run, Next, Boot, Traced;
      SlotMoves(model, GO);
      Move(GO, if slot == CurrentSlot then Load(FromUnreachable) else RetainFlag);
      if slot == CurrentSlot {
        var started := StartCandidate();
        if started == Trying {
          return;
        }
      }
      EnterRetainedRecovery();
    }

    /** app_storage_promote_candidate_wifi_config from the main loop: when it succeeds, the current
        slot holds what the STA last accepted for this attempt, after a GOT_IP event and an MQTT
        connect, which were of the candidate's own link exactly when the pending flag was down. */
    method PromoteStoredCandidate() returns (e: WifiConfig.Error)
      requires Valid() && model.pc == PromoteStored && slot == CandidateSlot
      modifies this
      ensures Valid() && old(steps) <= steps && slot == old(slot) && candidate == old(candidate)
      ensures model.pc == if e == Ok then AdoptCurrent else if e == InvalidState then Load(FromPromotion) else Top
      ensures e == Ok ==>
                && slots == Slots(model.accepted, Some((candidate.requestId, candidate.version)), None)
                && model.accepted == Some(candidate.credentials) == Some(driver)
                && model.gotIp && model.connects > model.sampledAt
                && (OverOwnLink(History(), candidate.credentials) <==> FlagWasDown(History()))
    {
      hide Run, Next, Boot, Recorded, PromoteSlots;
      Interfere();
      var faulted: bool := *;
      CandidatePromoted(model, Main(faulted, CallOk));
      if faulted {
        e := FlashError;
      } else {
        var (slots', e') := PromoteSlots(slots, candidate.requestId, candidate.version);
        if e' == Ok {
          VerifiedPromotion(booted, steps, GO);
          VerifiedOverOwnLink(booted, steps, GO);
          PromotionKeepsHistory(booted, steps, GO);
        }
        slots, e := slots', e';
      }
      Take(Main(faulted, CallOk));
    }

    /** The two checks of promote_verified_candidate_if_ready. */
    method ReadyToPromote() returns (ready: bool)
      requires Valid() && model.pc == CheckStatus
      modifies this
      ensures Valid() && old(steps) <= steps && slot == old(slot)
      ensures model.pc == (if ready then PromoteStored else Top) && (ready ==> slot == CandidateSlot)
    {
      hide Run, Next, Boot, Wrap;
      Interfere();
      var current := status;
      CheckMoves(model, GO);
      if slot != CandidateSlot || current != StaGotIp {
        Move(GO, Top);
        return false;
      }
      Move(GO, CheckMqtt);
      Interfere();
      ready := mqttConnected && generation > candidateGeneration;
      CheckMoves(model, GO);
      Move(GO, if ready then PromoteStored else Top);
    }

    /** promote_verified_candidate_if_ready. */
    method PromoteIfReady()
      requires Valid() && model.pc == CheckStatus
      modifies this
      ensures Valid() && old(steps) <= steps && model.pc == Top
    {
      hide Run, Next, Boot, Traced;
      var ready := ReadyToPromote();
      if !ready {
        return;
      }
      var e := PromoteStoredCandidate();
      if e == Ok {
        AdoptPromoted();
      } else if e == InvalidState {
        var retried := StartCandidate();
        if retried != Trying {
          EnterRetainedRecovery();
        }
      }
    }

    method AdoptPromoted()
      requires Valid() && model.pc == AdoptCurrent
      modifies this
      ensures Valid() && old(steps) <= steps && model.pc == Top && slot == CurrentSlot
    {
      hide Run, Boot, Disconnected, AttemptStep;
      slot := CurrentSlot;
      Take(GO);
    }

    /** One turn of the loop of app_main. */
    method Turn() returns (restarted: bool)
      requires Valid() && model.pc == Top
      modifies this
      ensures Valid() && old(steps) <= steps && model.pc == (if restarted then Halted else Top)
    {
      hide Run, Next, Boot, Traced;
      Interfere();
      var wifiStatus := status;
      TopMoves(model, GO);
      Move(GO, if wifiStatus == RecoveryRequired then Recover
               else if wifiStatus == Unreachable then Unreach else CheckStatus);
      restarted := false;
      if wifiStatus == RecoveryRequired {
        restarted := HandleRecovery();
      } else if wifiStatus == Unreachable {
        HandleUnreachable();
      } else {
        PromoteIfReady();
      }
    }

    /** The loop of app_main for a number of turns, until a recovery clear or a Portal save restarts
        the device. */
    method AppMain(turns: nat)
      requires Valid() && model.pc == Top
      modifies this
      ensures Valid() && old(steps) <= steps
    {
      hide Run, Next, Boot, Traced;
      var restarted := false;
      var i := 0;
      while i < turns && !restarted
        invariant Valid() && old(steps) <= steps && model.pc == (if restarted then Halted else Top)
      {
        var saved: Option<Credentials> := *;
        if saved.Some? {
          var faulted: bool := *;
          restarted := Provision(saved.value, faulted);
        }
        if !restarted {
          restarted := Turn();
        }
        i := i + 1;
      }
    }
  }

  lemma {:induction false} RefusalsAppend(xs: seq<Step>, ys: seq<Step>)
    ensures Refusals(xs + ys) == Refusals(xs) + Refusals(ys)
    decreases |xs|
  {
    if xs == [] {
      assert xs + ys == ys;
    } else {
      assert (xs + ys)[1..] == xs[1..] + ys;
      RefusalsAppend(xs[1..], ys);
    }
  }
}
