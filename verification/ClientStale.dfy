/** Exactly which packets inside a grant are refused: those of a grant that a check with an older tick
    sample has ended. */
module ClientStale {
  import opened Bytes
  import opened ClientSpec
  import opened ClientTime

  /** A check since the command that made grant `g` to `mac` had a tick sample older than the grant, and
      the grant is a timed one. */
  ghost predicate Stale(ts: seq<Timed>, mac: Mac, g: Grant) {
    g.ttl > 0 && exists k: nat, j: nat :: Granted(ts, k, mac, g) && k < j < |ts| && OlderSample(ts[j], g)
  }

  predicate OlderSample(e: Timed, g: Grant) {
    e.event.Check? && e.event.sample < g.at
  }

  // ----- slots whose grant an older sample has ended -----

  predicate Ends(c: Ideal, e: Timed) {
    c.Client? && c.grant.Some? && c.grant.value.ttl > 0 && OlderSample(e, c.grant.value)
  }

  function Wear(cs: seq<Ideal>, ws: seq<bool>, e: Timed): (r: seq<bool>)
    requires |ws| == |cs|
    ensures |r| == |ws|
  {
    match e.event
    case Check(_) => seq(|ws|, i requires 0 <= i < |ws| => ws[i] || Ends(cs[i], e))
    case Allowed(mac, session, _) =>
      var i := IdealMac(cs, mac, 0);
      if session <= 0 || i.None? then ws else ws[i.value := false]
    case _ => ws
  }

  /** An authorized slot is not worn; one that is not has no grant that still holds or is worn. */
  predicate Worn(e: Entry, c: Ideal, w: bool, t: nat) {
    e.inUse && c.Client? ==> if e.access == Authorized then !w else !Holds(c.grant, t) || w
  }

  predicate AllWorn(es: seq<Entry>, cs: seq<Ideal>, ws: seq<bool>, t: nat) {
    |es| == |cs| == |ws| && forall i | 0 <= i < |es| :: Worn(es[i], cs[i], ws[i], t)
  }

  lemma PacketWears(es: seq<Entry>, cs: seq<Ideal>, ws: seq<bool>, t: nat, s: nat, m: nat, e: Timed)
    requires AllTrack(es, cs, t, s, m, Timely) && AllWorn(es, cs, ws, t) && Punctual(t, s, m, e) && e.event.Packet?
    ensures AllWorn(Answer(es, e).0, cs, ws, e.time)
    ensures IdealAnswer(cs, e).1 == [true] ==>
              (Answer(es, e).1 == [false] <==> ws[IdealIp(cs, e.event.ip, 0).value])
  {
    var ip := e.event.ip;
    SameIp(es, cs, ip, 0, t, s, m, Timely);
    var i := FindIp(es, ip, 0);
    if i.Some? && es[i.value].access == Authorized {
      LapseIsTrue(es[i.value], cs[i.value], t, e.time, s, m, Timely);
    }
  }

  /** One authorized slot at a check after which some event comes in time. */
  lemma CheckWearsSlot(e: Entry, c: Ideal, w: bool, t: nat, s: nat, m: nat, a: Timed)
    requires Tracks(e, c, t, s, m, Timely) && Worn(e, c, w, t) && Punctual(t, s, m, a) && a.event.Check?
    requires a.time + m <= a.event.sample + TWO_32
    ensures Worn(ExpireEntry(e, Wrap(a.event.sample)), c, w || Ends(c, a), a.time)
  {
    if e.inUse && e.access == Authorized && e.ttl > 0 {
      SampleDecides(e, c.grant.value.at, a.event.sample);
    }
  }

  lemma CheckWears(es: seq<Entry>, cs: seq<Ideal>, ws: seq<bool>, t: nat, s: nat, m: nat, e: Timed)
    requires AllTrack(es, cs, t, s, m, Timely) && AllWorn(es, cs, ws, t) && Punctual(t, s, m, e) && e.event.Check?
    requires e.time + m <= e.event.sample + TWO_32
    ensures AllWorn(Answer(es, e).0, cs, Wear(cs, ws, e), e.time)
  {
    hide Tracks, Worn, Punctual, Ends;
    forall i | 0 <= i < |es|
      ensures Worn(ExpireEntry(es[i], Wrap(e.event.sample)), cs[i], ws[i] || Ends(cs[i], e), e.time)
    {
      CheckWearsSlot(es[i], cs[i], ws[i], t, s, m, e);
    }
  }

  lemma ConnectWears(es: seq<Entry>, cs: seq<Ideal>, ws: seq<bool>, t: nat, s: nat, m: nat, e: Timed)
    requires AllTrack(es, cs, t, s, m, Timely) && AllWorn(es, cs, ws, t) && t <= e.time && e.event.Connected?
    ensures AllWorn(Answer(es, e).0, IdealAnswer(cs, e).0, ws, e.time)
  {
    SameFree(es, cs, 0, t, s, m, Timely);
    SameMac(es, cs, e.event.mac, 0, t, s, m, Timely);
  }

  lemma ClientWears(es: seq<Entry>, cs: seq<Ideal>, ws: seq<bool>, t: nat, s: nat, m: nat, e: Timed)
    requires AllTrack(es, cs, t, s, m, Timely) && AllWorn(es, cs, ws, t) && t <= e.time
    requires e.event.GotIp? || e.event.Left? || e.event.Allowed? || e.event.Revoked?
    ensures AllWorn(Answer(es, e).0, IdealAnswer(cs, e).0, Wear(cs, ws, e), e.time)
  {
    SameMac(es, cs, e.event.mac, 0, t, s, m, Timely);
    var i := FindMac(es, e.event.mac, 0);
    if i.Some? {
      assert Tracks(es[i.value], cs[i.value], t, s, m, Timely) && Worn(es[i.value], cs[i.value], ws[i.value], t);
    }
  }

  lemma StepWears(es: seq<Entry>, cs: seq<Ideal>, ws: seq<bool>, t: nat, s: nat, m: nat, e: Timed)
    requires AllTrack(es, cs, t, s, m, Timely) && AllWorn(es, cs, ws, t) && Punctual(t, s, m, e)
    requires e.event.Check? ==> e.time + m <= e.event.sample + TWO_32
    ensures AllWorn(Answer(es, e).0, IdealAnswer(cs, e).0, Wear(cs, ws, e), e.time)
  {
    hide AllTrack, AllWorn;
    if e.event.Packet? {
      PacketWears(es, cs, ws, t, s, m, e);
    } else if e.event.Check? {
      CheckWears(es, cs, ws, t, s, m, e);
    } else if e.event.Connected? {
      ConnectWears(es, cs, ws, t, s, m, e);
    } else {
      ClientWears(es, cs, ws, t, s, m, e);
    }
  }

  // ----- worn is stale -----

  ghost predicate Told(c: Ideal, w: bool, ts: seq<Timed>) {
    c.Client? && c.grant.Some? ==> Sourced(c, ts) && (w <==> Stale(ts, c.mac, c.grant.value))
  }

  ghost predicate AllTold(cs: seq<Ideal>, ws: seq<bool>, ts: seq<Timed>) {
    && |ws| == |cs| && DistinctClients(cs)
    && forall i | 0 <= i < |cs| :: Told(cs[i], ws[i], ts)
  }

  /** A grant that an event does not end keeps its source, and is worn by that event exactly when it is
      a check with an older sample. */
  lemma KeptGrant(ts: seq<Timed>, e: Timed, mac: Mac, g: Grant)
    requires exists k :: Granted(ts, k, mac, g)
    requires e.event != Connected(mac) && e.event != Left(mac) && e.event != Revoked(mac, g.session)
    requires !(e.event.Allowed? && e.event.mac == mac && e.event.session > 0)
    ensures exists k :: Granted(ts + [e], k, mac, g)
    ensures Stale(ts + [e], mac, g) <==> Stale(ts, mac, g) || (g.ttl > 0 && OlderSample(e, g))
  {
    var us := ts + [e];
    forall k: nat | k < |ts| ensures Granted(us, k, mac, g) <==> Granted(ts, k, mac, g) {
      assert us[k] == ts[k];
      if Granted(us, k, mac, g) {
        forall j | k < j < |ts| ensures us[j] == ts[j] {
        }
      }
    }
    var k: nat :| Granted(ts, k, mac, g);
    assert Granted(us, k, mac, g);
    if g.ttl > 0 && OlderSample(e, g) {
      assert us[|ts|] == e;
    }
    if Stale(ts, mac, g) {
      var k0: nat, j :| Granted(ts, k0, mac, g) && k0 < j < |ts| && OlderSample(ts[j], g);
      assert Granted(us, k0, mac, g) && us[j] == ts[j];
    }
    if Stale(us, mac, g) && !OlderSample(e, g) {
      var k0: nat, j :| Granted(us, k0, mac, g) && k0 < j < |us| && OlderSample(us[j], g);
      assert us[j] == ts[j] && Granted(ts, k0, mac, g);
    }
  }

  /** A new grant has its command last in the history, and nothing has worn it. */
  lemma NewGrant(ts: seq<Timed>, e: Timed, mac: Mac, g: Grant)
    requires e.time == g.at && e.event == Allowed(mac, g.session, g.ttl) && g.session > 0
    ensures Granted(ts + [e], |ts|, mac, g) && !Stale(ts + [e], mac, g)
  {
    var us := ts + [e];
    assert us[|ts|] == e;
    forall k: nat | k < |ts| ensures !Granted(us, k, mac, g) {
      assert !(k < |ts| && us[|ts|] != e);
    }
  }

  lemma StepTold(cs: seq<Ideal>, ws: seq<bool>, ts: seq<Timed>, e: Timed)
    requires AllTold(cs, ws, ts)
    ensures AllTold(IdealAnswer(cs, e).0, Wear(cs, ws, e), ts + [e])
  {
    var cs', ws' := IdealAnswer(cs, e).0, Wear(cs, ws, e);
    StepSourced(cs, ts, e);
    forall i | 0 <= i < |cs'| ensures Told(cs'[i], ws'[i], ts + [e]) {
      assert Told(cs[i], ws[i], ts);
      if cs'[i].Client? && cs'[i].grant.Some? {
        hide Granted, Stale;
        SlotTold(cs, ws, ts, e, i);
      }
    }
  }

  lemma SlotTold(cs: seq<Ideal>, ws: seq<bool>, ts: seq<Timed>, e: Timed, i: nat)
    requires |ws| == |cs| && DistinctClients(cs) && i < |cs| && Told(cs[i], ws[i], ts)
    requires var c := IdealAnswer(cs, e).0; i < |c| && c[i].Client? && c[i].grant.Some?
    ensures var c := IdealAnswer(cs, e).0[i]; Wear(cs, ws, e)[i] <==> Stale(ts + [e], c.mac, c.grant.value)
  {
    hide Granted, Stale;
    var c := IdealAnswer(cs, e).0[i];
    if cs[i].Client? {
      IdealMacAt(cs, cs[i].mac, i);
    }
    if e.event.Allowed? && e.event.session > 0 && IdealMac(cs, e.event.mac, 0) == Some(i) {
      NewGrant(ts, e, c.mac, c.grant.value);
    } else {
      assert cs[i].Client? && cs[i].mac == c.mac && cs[i].grant == c.grant;
      KeptGrant(ts, e, c.mac, c.grant.value);
    }
  }

  // ----- whole runs -----

  lemma {:induction false} WornRun(
    es: seq<Entry>, cs: seq<Ideal>, ws: seq<bool>, past: seq<Timed>, t: nat, s: nat, m: nat, ts: seq<Timed>, e: Timed)
    returns (ws': seq<bool>, t': nat, s': nat)
    requires AllTrack(es, cs, t, s, m, Timely) && AllWorn(es, cs, ws, t) && AllTold(cs, ws, past)
    requires s <= t && AllPunctual(t, s, m, ts + [e])
    ensures AllTrack(After(es, ts), IdealAfter(cs, ts), t', s', m, Timely)
    ensures AllWorn(After(es, ts), IdealAfter(cs, ts), ws', t') && AllTold(IdealAfter(cs, ts), ws', past + ts)
    ensures Punctual(t', s', m, e)
    decreases |ts|
  {
    hide AllTrack, AllWorn, AllTold, Answer, IdealAnswer, Wear;
    if ts == [] {
      ws', t', s' := ws, t, s;
      assert past + ts == past && (ts + [e])[0] == e;
    } else {
      var a, rest := ts[0], ts[1..];
      assert (ts + [e])[0] == a && (ts + [e])[1..] == rest + [e];
      NextPunctual(a.time, LastSample(s, a), m, rest + [e]);
      WornLengths(es, cs, ws, t);
      StepTracks(es, cs, t, s, m, Timely, a);
      StepWears(es, cs, ws, t, s, m, a);
      StepTold(cs, ws, past, a);
      assert past + ts == (past + [a]) + rest;
      ws', t', s' := WornRun(Answer(es, a).0, IdealAnswer(cs, a).0, Wear(cs, ws, a), past + [a],
                             a.time, LastSample(s, a), m, rest, e);
    }
  }

  lemma WornLengths(es: seq<Entry>, cs: seq<Ideal>, ws: seq<bool>, t: nat)
    requires AllWorn(es, cs, ws, t)
    ensures |ws| == |cs|
  {
  }

  lemma NextPunctual(t: nat, s: nat, m: nat, ts: seq<Timed>)
    requires AllPunctual(t, s, m, ts) && ts != []
    ensures t + m <= s + TWO_32
  {
  }

  /** In a run with punctual checks, a packet inside a holding grant is refused exactly when some check
      since the grant was made had an older tick sample and the grant is a timed one. */
  lemma RefusedWithinGrant(n: nat, m: nat, ts: seq<Timed>, e: Timed)
    requires AllPunctual(0, 0, m, ts + [e]) && e.event.Packet?
    requires IdealAnswer(IdealAfter(EmptyIdeal(n), ts), e).1 == [true]
    ensures var cs := IdealAfter(EmptyIdeal(n), ts);
            var i := IdealIp(cs, e.event.ip, 0);
            && i.Some? && cs[i.value].grant.Some?
            && (Answer(After(EmptyTable(n), ts), e).1 == [false]
                <==> Stale(ts, cs[i.value].mac, cs[i.value].grant.value))
  {
    hide Stale, AllPunctual;
    var ws := seq(n, _ => false);
    var ws', t', s' := WornRun(EmptyTable(n), EmptyIdeal(n), ws, [], 0, 0, m, ts, e);
    assert [] + ts == ts;
    var es, cs := After(EmptyTable(n), ts), IdealAfter(EmptyIdeal(n), ts);
    PacketWears(es, cs, ws', t', s', m, e);
    assert Told(cs[IdealIp(cs, e.event.ip, 0).value], ws'[IdealIp(cs, e.event.ip, 0).value], ts);
  }
}
