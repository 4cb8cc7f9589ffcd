/** Runs that the firmware can meet and that exhibit what the protocol lets happen: a candidate promoted
    on events of the old link, clears of slot CURRENT on failures counted in slot CANDIDATE, and a
    candidate left behind by a clear. */
module UpstreamTrials {
  import opened Bytes
  import opened WifiConfig
  import opened UpstreamWifi
  import opened UpstreamHistory

  // ----- what the radio and the MQTT client allow -----

  /** Idle: no link and none asked for; Trying: a connection was requested. */
  datatype Link = Idle | Trying | Associated | Addressed

  /** MQTT starts once the main loop has seen an address. */
  datatype Radio = Radio(link: Link, mqttStarted: bool)

  /** Events come in the order in which links and MQTT connections come about and end, commands over
      MQTT, and the driver refuses to close a link exactly when there is none. */
  predicate Possible(s: State, r: Radio, step: Step) {
    match step
    case Main(_, call) => s.pc.Disconnect? ==> (call == NotConnected <==> r.link == Idle)
    case OnStaConnected => r.link == Trying
    case OnGotIp => r.link == Associated
    case OnStaDisconnected(reason, _) => r.link != Idle && reason.Some?
    case OnMqttConnected => r.mqttStarted && r.link == Addressed && !s.mqttConnected
    case OnMqttDisconnected => s.mqttConnected
    case StageCommand(_, _) => s.mqttConnected
    case PortalSave(_, _) => true
  }

  /** A disconnect leaves the radio trying exactly when its handler asked for a new connection. */
  function Tune(s: State, r: Radio, step: Step): Radio {
    match step
    case Main(_, call) =>
      if s.pc == Top && s.status == StaGotIp then r.(mqttStarted := true)
      else if s.pc.Connect? && call == CallOk then r.(link := Trying)
      else r
    case OnStaConnected => r.(link := Associated)
    case OnGotIp => r.(link := Addressed)
    case OnStaDisconnected(_, _) => r.(link := if Next(s, step).status == StaConnecting then Trying else Idle)
    case _ => r
  }

  // ----- plays: runs with their radio and their history -----

  datatype World = World(s: State, r: Radio, h: History)

  function Move(w: World, a: Step): World {
    World(Next(w.s, a), Tune(w.s, w.r, a), Extend(w.s, a, w.h))
  }

  /** The boot: a connection with the current credentials has been requested. */
  function Home(u: Slots): World {
    World(Boot(u), Radio(if u.current.Some? then Trying else Idle, false), START)
  }

  /** The steps lead from `w` to `t`, each of them possible where it comes. */
  predicate Plays(w: World, xs: seq<Step>, t: World)
    decreases |xs|
  {
    if xs == [] then t == w
    else Possible(w.s, w.r, xs[0]) && Plays(Move(w, xs[0]), xs[1..], t)
  }

  /** A play is a run, and carries its history. */
  lemma {:induction false} PlayIsRun(w: World, xs: seq<Step>, t: World)
    requires Plays(w, xs, t)
    ensures Run(w.s, xs) == t.s && Recorded(w.s, xs, w.h) == t.h
    decreases |xs|
  {
    hide Next, Extend, Tune, Possible;
    if xs != [] {
      PlayIsRun(Move(w, xs[0]), xs[1..], t);
    }
  }

  lemma {:induction false} Join(w: World, xs: seq<Step>, m: World, ys: seq<Step>, t: World)
    requires Plays(w, xs, m) && Plays(m, ys, t)
    ensures Plays(w, xs + ys, t)
    decreases |xs|
  {
    hide Move, Possible;
    if xs == [] {
      assert xs + ys == ys;
    } else {
      assert (xs + ys)[1..] == xs[1..] + ys;
      Join(Move(w, xs[0]), xs[1..], m, ys, t);
    }
  }

  /** One more step. */
  lemma Then(w: World, xs: seq<Step>, m: World, a: Step) returns (ys: seq<Step>, t: World)
    requires Plays(w, xs, m) && Possible(m.s, m.r, a)
    ensures ys == xs + [a] && t == Move(m, a) && Plays(w, ys, t)
  {
    ys, t := xs + [a], Move(m, a);
    Single(m, a);
    Join(w, xs, m, [a], t);
  }

  lemma Single(m: World, a: Step)
    requires Possible(m.s, m.r, a)
    ensures Plays(m, [a], Move(m, a))
  {
    assert [a][1..] == [];
  }

  // ----- what single events do -----

  const LOST := OnStaDisconnected(Some(OtherReason(0)), true)
  const CLOSED := OnStaDisconnected(Some(OtherReason(8)), true)
  const REFUSED := OnStaDisconnected(Some(AuthFail), true)

  lemma LostStep(s: State)
    requires s.pc != Halted && s.staEnabled && !s.reconfigurePending && s.credentialFailures == 0 && s.unreachables < 3
    ensures Next(s, LOST) == s.(status := if s.unreachables == 2 then Unreachable else StaConnecting,
                                unreachables := s.unreachables + 1, otherEvents := s.otherEvents + 1)
  {
    hide MainStep;
  }

  lemma RefusedStep(s: State)
    requires s.pc != Halted && s.staEnabled && !s.reconfigurePending && s.credentialFailures < 3 && s.unreachables == 0
    ensures var t := Next(s, REFUSED);
            var last := s.credentialFailures == 2;
            t == s.(status := if last then RecoveryRequired else StaConnecting,
                    credentialFailures := s.credentialFailures + 1, credentialEvents := s.credentialEvents + 1,
                    rejected := if last then Some(s.driver) else s.rejected,
                    rejectedSlot := if last then s.slot else s.rejectedSlot,
                    promotedRejected := s.promotedRejected && !last)
  {
    hide MainStep;
  }

  lemma ClosedStep(s: State)
    requires s.pc != Halted && s.staEnabled && s.reconfigurePending
    ensures Next(s, CLOSED) == s.(reconfigurePending := false, credentialFailures := 0, unreachables := 0,
                                  credentialEvents := 0, otherEvents := 0, status := StaConnecting)
  {
    hide MainStep;
  }

  lemma ConnectedStep(s: State)
    requires s.pc != Halted && s.staEnabled
    ensures Next(s, OnStaConnected) == s.(credentialFailures := 0, unreachables := 0,
                                          credentialEvents := 0, otherEvents := 0, status := StaConnected)
  {
    hide MainStep, Disconnected;
  }

  lemma AddressStep(s: State)
    requires s.pc != Halted && s.staEnabled
    ensures Next(s, OnGotIp) == s.(status := StaGotIp, gotIp := true)
  {
    hide MainStep, Disconnected;
  }

  lemma MqttStep(s: State)
    requires s.pc != Halted
    ensures Next(s, OnMqttConnected) == s.(mqttConnected := true, connects := s.connects + 1)
    ensures Next(s, OnMqttDisconnected) == s.(mqttConnected := false)
  {
    hide MainStep, Disconnected;
  }

  lemma StagedStep(s: State, c: Config)
    requires s.pc != Halted && ValidConfig(c) && c.version > HighestOf(s.slots)
    ensures Next(s, StageCommand(c, false)) == s.(slots := s.slots.(pending := Some(c)))
  {
    hide MainStep, Disconnected;
  }

  // ----- stretches of a play -----

  /** At the top of the loop in slot CURRENT, with link and MQTT up and no failure counted. */
  predicate Online(u: Slots, w: World) {
    var s := w.s;
    && s.pc == Top && s.slot == CurrentSlot && s.slots == u && s.staEnabled && s.status == StaGotIp
    && s.credentialFailures == 0 && s.unreachables == 0 && !s.reconfigurePending && !s.promotedRejected
    && s.mqttConnected && s.connects == 1 && w.r == Radio(Addressed, true)
  }

  lemma Boots(u: Slots)
    requires u.current.Some?
    ensures var s := Boot(u);
            && s.pc == Top && s.slot == CurrentSlot && s.slots == u && s.staEnabled
            && s.credentialFailures == 0 && s.unreachables == 0 && !s.reconfigurePending && !s.promotedRejected
            && !s.mqttConnected && s.connects == 0
  {
  }

  lemma GoesOnline(u: Slots) returns (xs: seq<Step>, t: World)
    requires u.current.Some?
    ensures Plays(Home(u), xs, t) && Online(u, t)
  {
    hide Next, Boot, Plays, Extend;
    Boots(u);
    var w := Home(u);
    xs, t := [], w;
    Nothing(w);
    ConnectedStep(t.s);
    xs, t := Then(w, xs, t, OnStaConnected);
    AddressStep(t.s);
    xs, t := Then(w, xs, t, OnGotIp);
    TopMoves(t.s, GO);
    xs, t := Then(w, xs, t, GO);
    CheckMoves(t.s, GO);
    xs, t := Then(w, xs, t, GO);
    MqttStep(t.s);
    xs, t := Then(w, xs, t, OnMqttConnected);
  }

  lemma Nothing(w: World)
    ensures Plays(w, [], w)
  {
  }

  /** Three losses of the link, after which none is asked for any more. */
  lemma LosesLink(u: Slots, w: World) returns (xs: seq<Step>, t: World)
    requires Online(u, w)
    ensures Plays(w, xs, t)
    ensures var s := t.s;
            && s.pc == Top && s.slot == CurrentSlot && s.slots == u && s.staEnabled && s.status == Unreachable
            && !s.reconfigurePending && !s.promotedRejected
            && s.mqttConnected && s.connects == 1 && t.r == Radio(Idle, true)
  {
    hide Next, Plays, Extend;
    xs, t := [], w;
    Nothing(w);
    LostStep(t.s);
    xs, t := Then(w, xs, t, LOST);
    LostStep(t.s);
    xs, t := Then(w, xs, t, LOST);
    LostStep(t.s);
    xs, t := Then(w, xs, t, LOST);
  }

  /** An unreachable current slot: the stored candidate is loaded and the MQTT state sampled. */
  lemma LoadsCandidate(w: World) returns (xs: seq<Step>, t: World)
    requires w.s.pc == Top && w.s.slot == CurrentSlot && w.s.status == Unreachable && w.s.slots.pending.Some?
    ensures Plays(w, xs, t)
    ensures t.s == w.s.(pc := Configure(w.s.slots.pending.value, w.s.connects)) && t.r == w.r
  {
    hide Next, Plays, Extend;
    xs, t := [], w;
    Nothing(w);
    TopMoves(t.s, GO);
    xs, t := Then(w, xs, t, GO);
    SlotMoves(t.s, GO);
    xs, t := Then(w, xs, t, GO);
    LoadMoves(t.s, GO);
    xs, t := Then(w, xs, t, GO);
    SampleMoves(t.s, GO);
    xs, t := Then(w, xs, t, GO);
  }

  /** The driver takes the configuration and the flag is raised. */
  lemma Configures(w: World) returns (xs: seq<Step>, t: World)
    requires w.s.pc.Configure?
    ensures Plays(w, xs, t)
    ensures t.s == w.s.(driver := w.s.pc.config.credentials, credentialFailures := 0, unreachables := 0,
                        credentialEvents := 0, otherEvents := 0, reconfigurePending := true,
                        pc := Disconnect(w.s.pc.config, w.s.pc.at))
    ensures t.r == w.r && t.h.flags == Flags(false, false)
  {
    hide Next, Plays, Observe, Enter, Watch, Look;
    xs, t := [], w;
    Nothing(w);
    ConfigureTakes(t.s, GO);
    xs, t := Then(w, xs, t, GO);
    CountersZeroed(t.s, GO);
    xs, t := Then(w, xs, t, GO);
    FlagRaised(t.s, GO);
    xs, t := Then(w, xs, t, GO);
  }

  /** The attempt takes over. */
  lemma Adopts(w: World) returns (xs: seq<Step>, t: World)
    requires w.s.pc.SetConnecting?
    ensures Plays(w, xs, t)
    ensures t.s == w.s.(status := StaConnecting, accepted := Some(w.s.pc.config.credentials), gotIp := false,
                        candidate := w.s.pc.config, sampledAt := w.s.pc.at, slot := CandidateSlot, pc := Top)
    ensures t.r == w.r && t.h.flags == w.h.flags
  {
    hide Next, Plays, Observe, Enter, Watch, Look;
    xs, t := [], w;
    Nothing(w);
    ConnectingSet(t.s, GO);
    xs, t := Then(w, xs, t, GO);
    CandidateAdopted(t.s, GO);
    xs, t := Then(w, xs, t, GO);
  }

  /** Without a link to close, a new one is asked for. */
  lemma AsksForLink(w: World) returns (xs: seq<Step>, t: World)
    requires w.s.pc.Disconnect? && w.r.link == Idle
    ensures Plays(w, xs, t)
    ensures t.s == w.s.(reconfigurePending := false, pc := SetConnecting(w.s.pc.config, w.s.pc.at))
    ensures t.r == w.r.(link := Trying)
  {
    hide Next, Plays, Extend;
    xs, t := [], w;
    Nothing(w);
    FlagLowered(t.s, Main(false, NotConnected));
    xs, t := Then(w, xs, t, Main(false, NotConnected));
    DriverMoves(t.s, GO);
    xs, t := Then(w, xs, t, GO);
  }

  /** Slot CANDIDATE is on trial, its link asked for. */
  predicate Trial(u: Slots, w: World)
    requires u.pending.Some?
  {
    var s := w.s;
    && s.pc == Top && s.slot == CandidateSlot && s.slots == u && s.staEnabled && s.status == StaConnecting
    && s.candidate == u.pending.value && !s.reconfigurePending && !s.promotedRejected
    && s.mqttConnected && s.connects == 1 && s.sampledAt == 1 && w.r == Radio(Trying, true)
  }

  lemma GoesOnTrial(u: Slots) returns (xs: seq<Step>, t: World)
    requires u.current.Some? && u.pending.Some?
    ensures Plays(Home(u), xs, t) && Trial(u, t)
  {
    hide Plays, Home;
    var w := Home(u);
    var ys;
    var m;
    xs, m := GoesOnline(u);
    ys, t := LosesLink(u, m);
    Join(w, xs, m, ys, t);
    xs, m := xs + ys, t;
    ys, t := LoadsCandidate(m);
    Join(w, xs, m, ys, t);
    xs, m := xs + ys, t;
    ys, t := Configures(m);
    Join(w, xs, m, ys, t);
    xs, m := xs + ys, t;
    ys, t := AsksForLink(m);
    Join(w, xs, m, ys, t);
    xs, m := xs + ys, t;
    ys, t := Adopts(m);
    Join(w, xs, m, ys, t);
    xs := xs + ys;
  }

  /** Both promotion checks pass. */
  lemma PassesChecks(w: World) returns (xs: seq<Step>, t: World)
    requires w.s.pc == Top && w.s.slot == CandidateSlot && w.s.status == StaGotIp && w.s.mqttConnected
    requires w.s.sampledAt < w.s.connects < 4
    ensures Plays(w, xs, t) && t.s == w.s.(pc := PromoteStored) && t.r == w.r.(mqttStarted := true)
    ensures t.h.flags == w.h.flags
  {
    hide Next, Plays, Extend, Wrap, Tune;
    SmallCounts(w.s.sampledAt, w.s.connects);
    xs, t := [], w;
    Nothing(w);
    TopMoves(t.s, GO);
    Unrecorded(t, GO);
    xs, t := Then(w, xs, t, GO);
    CheckMoves(t.s, GO);
    Unrecorded(t, GO);
    xs, t := Then(w, xs, t, GO);
    CheckMoves(t.s, GO);
    Unrecorded(t, GO);
    xs, t := Then(w, xs, t, GO);
  }

  lemma SmallCounts(a: nat, b: nat)
    requires a < b < 4
    ensures Wrap(b) > Wrap(a)
  {
  }

  /** A step of the promotion checks: the flags stay, and the first finds MQTT started if it was not. */
  lemma Unrecorded(w: World, a: Step)
    requires a.Main? && (w.s.pc == Top || w.s.pc == CheckStatus || w.s.pc == CheckMqtt)
    ensures Extend(w.s, a, w.h).flags == w.h.flags
    ensures Tune(w.s, w.r, a) == if w.s.pc == Top && w.s.status == StaGotIp then w.r.(mqttStarted := true) else w.r
  {
  }

  /** The trial's own link gets an address, then MQTT. */
  lemma OwnLinkUp(u: Slots, w: World) returns (xs: seq<Step>, t: World)
    requires u.pending.Some? && Trial(u, w)
    ensures Plays(w, xs, t)
    ensures var s := t.s;
            && s.pc == Top && s.slot == CandidateSlot && s.slots == u && s.staEnabled && s.status == StaGotIp
            && s.candidate == u.pending.value && !s.reconfigurePending && !s.promotedRejected
            && s.credentialFailures == 0 && s.unreachables == 0
            && s.mqttConnected && s.connects == 2 && s.sampledAt == 1 && t.r == Radio(Addressed, true)
  {
    hide Next, Plays, Extend;
    xs, t := [], w;
    Nothing(w);
    MqttStep(t.s);
    xs, t := Then(w, xs, t, OnMqttDisconnected);
    ConnectedStep(t.s);
    xs, t := Then(w, xs, t, OnStaConnected);
    AddressStep(t.s);
    xs, t := Then(w, xs, t, OnGotIp);
    MqttStep(t.s);
    xs, t := Then(w, xs, t, OnMqttConnected);
  }

  /** A candidate verified over its own link, about to be promoted. */
  predicate Verified(u: Slots, w: World)
    requires u.pending.Some?
  {
    var s := w.s;
    && s.pc == PromoteStored && s.slot == CandidateSlot && s.slots == u && s.staEnabled && s.status == StaGotIp
    && s.candidate == u.pending.value && !s.reconfigurePending && !s.promotedRejected
    && s.credentialFailures == 0 && s.unreachables == 0
    && s.mqttConnected && s.connects == 2 && w.r == Radio(Addressed, true)
  }

  lemma IsVerified(u: Slots) returns (xs: seq<Step>, t: World)
    requires u.current.Some? && u.pending.Some?
    ensures Plays(Home(u), xs, t) && Verified(u, t)
  {
    hide Plays, Home;
    var w := Home(u);
    var ys;
    var m;
    xs, m := GoesOnTrial(u);
    ys, t := OwnLinkUp(u, m);
    Join(w, xs, m, ys, t);
    xs, m := xs + ys, t;
    ys, t := PassesChecks(m);
    Join(w, xs, m, ys, t);
    xs := xs + ys;
  }

  /** The promotion and its slot switch leave status and counter alone. */
  lemma Promoted(w: World) returns (xs: seq<Step>, t: World)
    requires w.s.pc == PromoteStored && ValidConfig(w.s.candidate) && w.s.slots.pending == Some(w.s.candidate)
    ensures Plays(w, xs, t)
    ensures var v := t.s;
            v == w.s.(slots := v.slots, slot := CurrentSlot,
                      promotedRejected := w.s.status == RecoveryRequired, pc := Top)
            && v.slots.pending.None? && t.r == w.r && t.h.tally == Tally(w.s.credentialFailures, 0, w.h.tally.grounds)
  {
    hide Next, Plays, Observe, Note, Watch, Look, PromoteSlots;
    xs, t := [], w;
    Nothing(w);
    CandidatePromoted(t.s, GO);
    PromotesStored(t.s);
    xs, t := Then(w, xs, t, GO);
    SlotSwitched(t.s, GO);
    xs, t := Then(w, xs, t, GO);
  }

  lemma PromotesStored(s: State)
    requires ValidConfig(s.candidate) && s.slots.pending == Some(s.candidate)
    ensures var (u, e) := PromoteSlots(s.slots, s.candidate.requestId, s.candidate.version);
            e == Ok && u.pending.None?
  {
  }

  /** A verdict read in slot CURRENT is carried out unless a candidate is pending. */
  lemma VerdictRead(w: World) returns (xs: seq<Step>, t: World)
    requires w.s.pc == Top && w.s.slot == CurrentSlot && w.s.status == RecoveryRequired && w.s.slots.pending.None?
    ensures Plays(w, xs, t) && t.s == w.s.(pc := ClearCurrent) && t.r == w.r && t.h.tally == w.h.tally
  {
    hide Next, Plays, Observe, Note, Watch, Look;
    xs, t := [], w;
    Nothing(w);
    TopMoves(t.s, GO);
    xs, t := Then(w, xs, t, GO);
    SlotMoves(t.s, GO);
    xs, t := Then(w, xs, t, GO);
    LoadMoves(t.s, GO);
    xs, t := Then(w, xs, t, GO);
  }

  /** Three refusals in a row end in a verdict. */
  lemma ThriceRefused(w: World) returns (xs: seq<Step>, t: World)
    requires w.s.pc != Halted && w.s.staEnabled && !w.s.reconfigurePending && w.r.link != Idle
    requires w.s.credentialFailures == 0 && w.s.unreachables == 0
    ensures Plays(w, xs, t)
    ensures var v := t.s;
            && v == w.s.(status := RecoveryRequired, credentialFailures := 3, credentialEvents := v.credentialEvents,
                         rejected := Some(w.s.driver), rejectedSlot := w.s.slot, promotedRejected := false)
            && t.r == w.r.(link := Idle)
  {
    hide Next, Plays, Extend;
    xs, t := [], w;
    Nothing(w);
    RefusedStep(t.s);
    xs, t := Then(w, xs, t, REFUSED);
    RefusedStep(t.s);
    xs, t := Then(w, xs, t, REFUSED);
    RefusedStep(t.s);
    xs, t := Then(w, xs, t, REFUSED);
  }

  // ----- a verdict taken over by a promotion -----

  /** From every pair of slots with a current and a candidate some run that the firmware can meet clears
      slot CURRENT although its credential-class failures were counted in slot CANDIDATE: a verdict
      that arrives between the promotion's checks and its slot switch is carried out against the
      promoted slot. */
  lemma ClearWithoutCurrentFailures(u: Slots) returns (xs: seq<Step>, t: World)
    requires SlotsInv(u) && u.current.Some? && u.pending.Some?
    ensures Plays(Home(u), xs, t) && Clears(t.s, GO) && t.s.rejectedSlot == CandidateSlot
  {
    hide Plays, Home;
    var w := Home(u);
    var ys;
    var m;
    xs, m := IsVerified(u);
    ys, t := ThriceRefused(m);
    Join(w, xs, m, ys, t);
    xs, m := xs + ys, t;
    ys, t := Promoted(m);
    Join(w, xs, m, ys, t);
    xs, m := xs + ys, t;
    ys, t := VerdictRead(m);
    Join(w, xs, m, ys, t);
    xs := xs + ys;
  }

  // ----- failures carried over a promotion -----

  lemma TwiceRefused(w: World) returns (xs: seq<Step>, t: World)
    requires w.s.pc != Halted && w.s.staEnabled && !w.s.reconfigurePending && w.r.link != Idle
    requires w.s.credentialFailures == 0 && w.s.unreachables == 0
    ensures Plays(w, xs, t)
    ensures t.s == w.s.(status := StaConnecting, credentialFailures := 2, credentialEvents := t.s.credentialEvents)
    ensures t.r == w.r.(link := Trying)
  {
    hide Next, Plays, Extend;
    xs, t := [], w;
    Nothing(w);
    RefusedStep(t.s);
    xs, t := Then(w, xs, t, REFUSED);
    RefusedStep(t.s);
    xs, t := Then(w, xs, t, REFUSED);
  }

  /** One refusal makes the verdict when two are counted already. */
  lemma OnceRefused(w: World) returns (xs: seq<Step>, t: World)
    requires w.s.pc == Top && w.s.staEnabled && !w.s.reconfigurePending && w.r.link != Idle
    requires w.s.credentialFailures == 2 && w.s.unreachables == 0 && w.h.tally.here == 0
    ensures Plays(w, xs, t)
    ensures var v := t.s;
            && v == w.s.(status := RecoveryRequired, credentialFailures := 3, credentialEvents := v.credentialEvents,
                         rejected := Some(w.s.driver), rejectedSlot := w.s.slot, promotedRejected := false)
            && t.h.tally.grounds == 1
  {
    hide Next, Plays, Observe, Note, Watch, Look;
    xs, t := [], w;
    Nothing(w);
    RefusedStep(t.s);
    xs, t := Then(w, xs, t, REFUSED);
  }

  /** From every pair of slots with a current and a candidate some run that the firmware can meet clears
      slot CURRENT after one failure counted there: the promotion's slot switch does not reset the two
      counted before. */
  lemma ClearAfterOneFailure(u: Slots) returns (xs: seq<Step>, t: World)
    requires SlotsInv(u) && u.current.Some? && u.pending.Some?
    ensures Plays(Home(u), xs, t) && Clears(t.s, GO)
    ensures t.s.rejectedSlot == CurrentSlot && !t.s.promotedRejected && t.h.tally.grounds == 1
  {
    hide Plays, Home;
    var w := Home(u);
    var ys;
    var m;
    xs, m := IsVerified(u);
    ys, t := TwiceRefused(m);
    Join(w, xs, m, ys, t);
    xs, m := xs + ys, t;
    ys, t := Promoted(m);
    Join(w, xs, m, ys, t);
    xs, m := xs + ys, t;
    ys, t := OnceRefused(m);
    Join(w, xs, m, ys, t);
    xs, m := xs + ys, t;
    ys, t := VerdictRead(m);
    Join(w, xs, m, ys, t);
    xs := xs + ys;
  }

  // ----- a candidate left behind by a clear -----

  /** From every current slot without a candidate, and for every configuration that can be staged, some
      run that the firmware can meet clears the slot although that configuration is stored by then. */
  lemma CandidateLeftBehind(u: Slots, c: Config) returns (xs: seq<Step>, t: World)
    requires SlotsInv(u) && u.current.Some? && u.pending.None? && ValidConfig(c) && c.version > HighestOf(u)
    ensures Plays(Home(u), xs, t) && Clears(t.s, GO)
    ensures t.s.slots.pending == Some(c) && Next(t.s, GO).slots == Slots(None, None, Some(c))
  {
    hide Plays, Home, Next, Extend, Run, Recorded;
    var w := Home(u);
    var ys;
    var m;
    xs, m := GoesOnline(u);
    ys, t := ThriceRefused(m);
    Join(w, xs, m, ys, t);
    xs, m := xs + ys, t;
    ys, t := VerdictRead(m);
    Join(w, xs, m, ys, t);
    xs := xs + ys;
    StagedStep(t.s, c);
    xs, t := Then(w, xs, t, StageCommand(c, false));
    CurrentCleared(t.s, GO);
  }

  // ----- a candidate promoted on events of the old link -----

  /** While a verified candidate is about to be promoted a higher version is staged and its attempt
      begins; MQTT connects anew over the link still up. */
  lemma MeetsHigherVersion(u: Slots, c: Config, w: World) returns (xs: seq<Step>, t: World)
    requires SlotsInv(u) && u.pending.Some? && Verified(u, w) && ValidConfig(c) && c.version > u.pending.value.version
    ensures Plays(w, xs, t)
    ensures var s := t.s;
            && s.pc == Configure(c, 2) && s.slot == CandidateSlot && s.staEnabled && s.status == StaGotIp
            && s.slots == u.(pending := Some(c)) && !s.reconfigurePending
            && s.credentialFailures == 0 && s.unreachables == 0
            && s.mqttConnected && s.connects == 3 && t.r == Radio(Addressed, true)
  {
    hide Next, Plays, Extend;
    xs, t := [], w;
    Nothing(w);
    StagedStep(t.s, c);
    xs, t := Then(w, xs, t, StageCommand(c, false));
    CandidatePromoted(t.s, GO);
    xs, t := Then(w, xs, t, GO);
    LoadMoves(t.s, GO);
    xs, t := Then(w, xs, t, GO);
    SampleMoves(t.s, GO);
    xs, t := Then(w, xs, t, GO);
    MqttStep(t.s);
    xs, t := Then(w, xs, t, OnMqttDisconnected);
    MqttStep(t.s);
    xs, t := Then(w, xs, t, OnMqttConnected);
  }

  /** The old link is asked to close. */
  lemma AsksToClose(w: World) returns (xs: seq<Step>, t: World)
    requires w.s.pc.Disconnect? && w.r.link != Idle
    ensures Plays(w, xs, t)
    ensures t.s == w.s.(pc := SetConnecting(w.s.pc.config, w.s.pc.at)) && t.r == w.r && t.h.flags == w.h.flags
  {
    hide Next, Plays, Observe, Enter, Watch, Look;
    xs, t := [], w;
    Nothing(w);
    DriverMoves(t.s, GO);
    xs, t := Then(w, xs, t, GO);
  }

  /** The attempt up to the slot switch, with an old link that has yet to close. */
  lemma Attempts(w: World) returns (xs: seq<Step>, t: World)
    requires w.s.pc.Configure? && w.r.link != Idle
    ensures Plays(w, xs, t)
    ensures t.s == w.s.(driver := w.s.pc.config.credentials, credentialFailures := 0, unreachables := 0,
                        credentialEvents := 0, otherEvents := 0, reconfigurePending := true,
                        status := StaConnecting, accepted := Some(w.s.pc.config.credentials), gotIp := false,
                        candidate := w.s.pc.config, sampledAt := w.s.pc.at, slot := CandidateSlot, pc := Top)
    ensures t.r == w.r && t.h.flags == Flags(false, false)
  {
    hide Plays, Next;
    var ys;
    var m;
    xs, m := Configures(w);
    ys, t := AsksToClose(m);
    Join(w, xs, m, ys, t);
    xs, m := xs + ys, t;
    ys, t := Adopts(m);
    Join(w, xs, m, ys, t);
    xs := xs + ys;
  }

  /** The old link closes and the candidate's own gets an address. */
  lemma OwnAddress(w: World) returns (xs: seq<Step>, t: World)
    requires w.s.pc == Top && w.s.staEnabled && w.s.reconfigurePending && w.r.link != Idle
    requires w.h.flags == Flags(false, false)
    ensures Plays(w, xs, t)
    ensures t.s == w.s.(reconfigurePending := false, credentialFailures := 0, unreachables := 0,
                        credentialEvents := 0, otherEvents := 0, status := StaGotIp, gotIp := true)
    ensures t.h.flags == Flags(true, false)
  {
    hide Next, Plays, Observe, Enter, Watch, Look;
    xs, t := [], w;
    Nothing(w);
    ClosedStep(t.s);
    xs, t := Then(w, xs, t, CLOSED);
    ConnectedStep(t.s);
    xs, t := Then(w, xs, t, OnStaConnected);
    AddressStep(t.s);
    xs, t := Then(w, xs, t, OnGotIp);
  }

  /** From every pair of slots with a current and a candidate, and for every higher version, some run
      that the firmware can meet promotes that version without an MQTT connection over its own link. */
  lemma ConnectOfOldLink(u: Slots, c: Config) returns (xs: seq<Step>, t: World)
    requires SlotsInv(u) && u.current.Some? && u.pending.Some? && ValidConfig(c) && c.version > u.pending.value.version
    ensures Plays(Home(u), xs, t) && Promotes(t.s, GO) && t.s.candidate == c
    ensures t.h.evidence.address == Some(c.credentials) && t.h.evidence.mqtt.None?
  {
    hide Plays, Home, Next, Run, Recorded, Extend;
    var w := Home(u);
    var ys;
    var m;
    xs, m := IsVerified(u);
    ys, t := MeetsHigherVersion(u, c, m);
    Join(w, xs, m, ys, t);
    xs, m := xs + ys, t;
    ys, t := Attempts(m);
    Join(w, xs, m, ys, t);
    xs, m := xs + ys, t;
    ys, t := OwnAddress(m);
    Join(w, xs, m, ys, t);
    xs, m := xs + ys, t;
    ys, t := PassesChecks(m);
    Join(w, xs, m, ys, t);
    xs := xs + ys;
    HomeSound(u, xs, t);
  }

  /** What the flags say of a play is what the evidence says. */
  lemma HomeSound(u: Slots, xs: seq<Step>, t: World)
    requires SlotsInv(u) && Plays(Home(u), xs, t) && t.s.pc != Halted && OnTrial(t.s)
    ensures OwnLink(t.h.evidence.address, t.s.driver, t.h.flags.address)
    ensures OwnLink(t.h.evidence.mqtt, t.s.driver, t.h.flags.mqtt)
  {
    hide Plays, Run, Recorded, Boot, Ledger, Searched;
    PlayIsRun(Home(u), xs, t);
    RunSound(u, xs);
  }

  /** The link drops by itself and is associated anew, still with the old configuration. */
  lemma Reassociates(w: World) returns (xs: seq<Step>, t: World)
    requires w.s.pc != Halted && w.s.staEnabled && !w.s.reconfigurePending && w.r.link != Idle
    requires w.s.credentialFailures == 0 && w.s.unreachables == 0
    ensures Plays(w, xs, t)
    ensures t.s == w.s.(status := StaConnected, credentialEvents := 0, otherEvents := 0)
    ensures t.r == w.r.(link := Associated)
  {
    hide Next, Plays, Extend;
    xs, t := [], w;
    Nothing(w);
    LostStep(t.s);
    xs, t := Then(w, xs, t, LOST);
    ConnectedStep(t.s);
    xs, t := Then(w, xs, t, OnStaConnected);
  }

  /** An address of the old link, whose end is still pending. */
  lemma OldAddress(w: World) returns (xs: seq<Step>, t: World)
    requires w.s.pc == Top && w.s.staEnabled && w.s.reconfigurePending && w.r.link == Associated
    ensures Plays(w, xs, t) && t.s == w.s.(status := StaGotIp, gotIp := true) && t.h.flags == w.h.flags
  {
    hide Next, Plays, Observe, Enter, Watch, Look;
    xs, t := [], w;
    Nothing(w);
    AddressStep(t.s);
    xs, t := Then(w, xs, t, OnGotIp);
  }

  /** Some such run promotes it while the end of the old link is still pending, with no address and no
      MQTT connection over its own link. */
  lemma CandidateUntried(u: Slots, c: Config) returns (xs: seq<Step>, t: World)
    requires SlotsInv(u) && u.current.Some? && u.pending.Some? && ValidConfig(c) && c.version > u.pending.value.version
    ensures Plays(Home(u), xs, t) && Promotes(t.s, GO) && t.s.candidate == c && t.s.reconfigurePending
    ensures t.h.evidence.address.None? && t.h.evidence.mqtt.None?
  {
    hide Plays, Home, Next, Run, Recorded, Extend;
    var w := Home(u);
    var ys;
    var m;
    xs, m := IsVerified(u);
    ys, t := MeetsHigherVersion(u, c, m);
    Join(w, xs, m, ys, t);
    xs, m := xs + ys, t;
    ys, t := Reassociates(m);
    Join(w, xs, m, ys, t);
    xs, m := xs + ys, t;
    ys, t := Attempts(m);
    Join(w, xs, m, ys, t);
    xs, m := xs + ys, t;
    ys, t := OldAddress(m);
    Join(w, xs, m, ys, t);
    xs, m := xs + ys, t;
    ys, t := PassesChecks(m);
    Join(w, xs, m, ys, t);
    xs := xs + ys;
    HomeSound(u, xs, t);
  }
}
