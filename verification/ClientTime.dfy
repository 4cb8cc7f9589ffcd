/** Forwarding under the wrapping tick clock, against grants on an unbounded one; and where every
    permission to forward comes from. */
module ClientTime {
  import opened Bytes
  import opened ClientSpec
  import ClientTables

  // ----- a slot and its ideal -----

  /** Bare: an authorized slot has a grant. Timely: and has not been checked past its end. Exact:
      and a slot that is not authorized has no grant that still holds. */
  datatype Mode = Bare | Timely | Exact

  /** `s` is the tick sample of the last completed check, `m` bounds every time to live. */
  predicate Tracks(e: Entry, c: Ideal, t: nat, s: nat, m: nat, mode: Mode) {
    && e.inUse == c.Client?
    && (e.inUse ==>
          && e.mac == c.mac && e.ip == c.ip
          && (if e.access == Authorized then
                && c.grant.Some? && c.grant.value.session == e.session && e.session > 0
                && (mode != Bare ==>
                      && c.grant.value.ttl == e.ttl <= m && c.grant.value.at <= t
                      && e.authorizedAt == Wrap(c.grant.value.at)
                      && (e.ttl > 0 ==> s < c.grant.value.at + e.ttl))
              else mode == Exact ==> !Holds(c.grant, t)))
  }

  predicate AllTrack(es: seq<Entry>, cs: seq<Ideal>, t: nat, s: nat, m: nat, mode: Mode) {
    |es| == |cs| && forall i | 0 <= i < |es| :: Tracks(es[i], cs[i], t, s, m, mode)
  }

  lemma {:induction false} SameMac(es: seq<Entry>, cs: seq<Ideal>, mac: Mac, i: nat, t: nat, s: nat, m: nat, mode: Mode)
    requires AllTrack(es, cs, t, s, m, mode) && i <= |es|
    ensures FindMac(es, mac, i) == IdealMac(cs, mac, i)
    decreases |es| - i
  {
    if i < |es| {
      SameMac(es, cs, mac, i + 1, t, s, m, mode);
    }
  }

  lemma {:induction false} SameIp(es: seq<Entry>, cs: seq<Ideal>, ip: U32, i: nat, t: nat, s: nat, m: nat, mode: Mode)
    requires AllTrack(es, cs, t, s, m, mode) && i <= |es|
    ensures FindIp(es, ip, i) == IdealIp(cs, ip, i)
    decreases |es| - i
  {
    if i < |es| {
      SameIp(es, cs, ip, i + 1, t, s, m, mode);
    }
  }

  lemma {:induction false} SameFree(es: seq<Entry>, cs: seq<Ideal>, i: nat, t: nat, s: nat, m: nat, mode: Mode)
    requires AllTrack(es, cs, t, s, m, mode) && i <= |es|
    ensures FindFree(es, i) == IdealFree(cs, i)
    decreases |es| - i
  {
    if i < |es| {
      SameFree(es, cs, i + 1, t, s, m, mode);
    }
  }

  // ----- time -----

  /** The wrapped difference is the true one while less than a full turn has passed. */
  lemma TrueElapsed(now: nat, at: nat)
    requires at <= now < at + TWO_32
    ensures Wrap(Wrap(now) - Wrap(at)) == now - at
  {
  }

  /** Punctual at `t'`: events are in order and none comes later than 2^32 - m ticks after the
      sample of the last completed check. */
  predicate Punctual(t: nat, s: nat, m: nat, e: Timed) {
    && t <= e.time && e.time + m <= s + TWO_32
    && (e.event.Check? ==> e.event.sample <= e.time)
    && (e.event.Allowed? ==> e.event.ttl <= m)
  }

  function LastSample(s: nat, e: Timed): nat {
    if e.event.Check? then e.event.sample else s
  }

  predicate AllPunctual(t: nat, s: nat, m: nat, ts: seq<Timed>)
    decreases |ts|
  {
    ts == [] || (Punctual(t, s, m, ts[0]) && AllPunctual(ts[0].time, LastSample(s, ts[0]), m, ts[1..]))
  }

  /** At an event that comes in time, a grant has lapsed by the wrapped clock exactly when it no
      longer holds by the true one. */
  lemma LapseIsTrue(e: Entry, c: Ideal, t: nat, t': nat, s: nat, m: nat, mode: Mode)
    requires Tracks(e, c, t, s, m, mode) && e.inUse && e.access == Authorized
    requires t <= t' && t' + m <= s + TWO_32 && mode != Bare
    ensures Lapsed(e, Wrap(t')) <==> !Holds(c.grant, t')
  {
    if e.ttl > 0 {
      TrueElapsed(t', c.grant.value.at);
    }
  }

  /** A check at true time `t'` with a sample taken at `x`. */
  lemma TracksCheck(e: Entry, c: Ideal, t: nat, t': nat, s: nat, x: nat, m: nat, mode: Mode)
    requires Tracks(e, c, t, s, m, mode)
    requires mode != Bare ==> t <= t' && t' + m <= s + TWO_32 && x <= t'
    requires mode == Exact && c.Client? && c.grant.Some? && c.grant.value.ttl > 0 ==> c.grant.value.at <= x
    ensures Tracks(ExpireEntry(e, Wrap(x)), c, t', x, m, mode)
  {
    if mode != Bare && e.inUse && e.access == Authorized && e.ttl > 0 && c.grant.value.at <= x {
      TrueElapsed(x, c.grant.value.at);
    }
  }

  // ----- one event -----

  /** The tick sample of a check is not older than any timed grant the check scans. */
  predicate FreshSample(cs: seq<Ideal>, e: Timed) {
    e.event.Check? ==>
      forall i | 0 <= i < |cs| ::
        cs[i].Client? && cs[i].grant.Some? && cs[i].grant.value.ttl > 0 ==> cs[i].grant.value.at <= e.event.sample
  }

  lemma AllTrackLater(es: seq<Entry>, cs: seq<Ideal>, t: nat, t': nat, s: nat, m: nat, mode: Mode)
    requires AllTrack(es, cs, t, s, m, mode) && (mode != Bare ==> t <= t')
    ensures AllTrack(es, cs, t', s, m, mode)
  {
  }

  lemma PacketTracks(es: seq<Entry>, cs: seq<Ideal>, t: nat, s: nat, m: nat, mode: Mode, e: Timed)
    requires AllTrack(es, cs, t, s, m, mode) && (mode != Bare ==> Punctual(t, s, m, e)) && e.event.Packet?
    ensures AllTrack(Answer(es, e).0, IdealAnswer(cs, e).0, e.time, s, m, mode)
    ensures mode != Bare && Answer(es, e).1 == [true] ==> IdealAnswer(cs, e).1 == [true]
    ensures mode == Exact ==> Answer(es, e).1 == IdealAnswer(cs, e).1
  {
    var ip := e.event.ip;
    SameIp(es, cs, ip, 0, t, s, m, mode);
    var i := FindIp(es, ip, 0);
    if mode != Bare && i.Some? && es[i.value].access == Authorized {
      LapseIsTrue(es[i.value], cs[i.value], t, e.time, s, m, mode);
    }
    AllTrackLater(es, cs, t, e.time, s, m, mode);
  }

  lemma CheckTracks(es: seq<Entry>, cs: seq<Ideal>, t: nat, s: nat, m: nat, mode: Mode, e: Timed)
    requires AllTrack(es, cs, t, s, m, mode) && (mode != Bare ==> Punctual(t, s, m, e)) && e.event.Check?
    requires mode == Exact ==> FreshSample(cs, e)
    ensures AllTrack(Answer(es, e).0, cs, e.time, e.event.sample, m, mode)
  {
    forall i | 0 <= i < |es|
      ensures Tracks(ExpireEntry(es[i], Wrap(e.event.sample)), cs[i], e.time, e.event.sample, m, mode)
    {
      TracksCheck(es[i], cs[i], t, e.time, s, e.event.sample, m, mode);
    }
  }

  lemma PutTracks(es: seq<Entry>, cs: seq<Ideal>, i: nat, e: Entry, c: Ideal, t: nat, s: nat, m: nat, mode: Mode)
    requires AllTrack(es, cs, t, s, m, mode) && i < |es| && Tracks(e, c, t, s, m, mode)
    ensures AllTrack(es[i := e], cs[i := c], t, s, m, mode)
  {
  }

  lemma ConnectTracks(es: seq<Entry>, cs: seq<Ideal>, t: nat, s: nat, m: nat, mode: Mode, mac: Mac)
    requires AllTrack(es, cs, t, s, m, mode)
    ensures AllTrack(Connect(es, mac).0, IdealAnswer(cs, Timed(t, Connected(mac))).0, t, s, m, mode)
  {
    SameFree(es, cs, 0, t, s, m, mode);
    SameMac(es, cs, mac, 0, t, s, m, mode);
    var known := FindMac(es, mac, 0);
    var i := if known.Some? then known else FindFree(es, 0);
    if i.Some? {
      PutTracks(es, cs, i.value, Entry(true, mac, Unauthorized, 0, 0, 0, 0), Client(mac, 0, None), t, s, m, mode);
    }
  }

  /** One slot changes, in both tables at the same place. */
  lemma UpdateTracks(es: seq<Entry>, cs: seq<Ideal>, t: nat, s: nat, m: nat, mode: Mode, e: Timed)
    requires AllTrack(es, cs, t, s, m, mode) && (mode != Bare ==> Punctual(t, s, m, e) && s <= e.time)
    requires !e.event.Packet? && !e.event.Check?
    ensures AllTrack(Answer(es, e).0, IdealAnswer(cs, e).0, e.time, s, m, mode)
    ensures Answer(es, e).1 == IdealAnswer(cs, e).1
  {
    var t' := e.time;
    AllTrackLater(es, cs, t, t', s, m, mode);
    var mac := e.event.mac;
    if e.event.Connected? {
      ConnectTracks(es, cs, t', s, m, mode, mac);
    } else {
      SameMac(es, cs, mac, 0, t', s, m, mode);
      var known := FindMac(es, mac, 0);
      if known.Some? {
        var i := known.value;
        assert Tracks(es[i], cs[i], t', s, m, mode);
        PutTracks(es, cs, i, Answer(es, e).0[i], IdealAnswer(cs, e).0[i], t', s, m, mode);
        assert Answer(es, e).0 == es[i := Answer(es, e).0[i]];
        assert IdealAnswer(cs, e).0 == cs[i := IdealAnswer(cs, e).0[i]];
      }
    }
  }

  // ----- whole runs -----

  predicate AllFresh(cs: seq<Ideal>, ts: seq<Timed>)
    decreases |ts|
  {
    ts == [] || (FreshSample(cs, ts[0]) && AllFresh(IdealAnswer(cs, ts[0]).0, ts[1..]))
  }

  lemma StepTracks(es: seq<Entry>, cs: seq<Ideal>, t: nat, s: nat, m: nat, mode: Mode, e: Timed)
    requires AllTrack(es, cs, t, s, m, mode) && (mode != Bare ==> Punctual(t, s, m, e) && s <= t)
    requires mode == Exact ==> FreshSample(cs, e)
    ensures AllTrack(Answer(es, e).0, IdealAnswer(cs, e).0, e.time, LastSample(s, e), m, mode)
    ensures |Answer(es, e).1| == |IdealAnswer(cs, e).1|
    ensures mode != Bare ==> NoMore(Answer(es, e).1, IdealAnswer(cs, e).1)
    ensures mode == Exact ==> Answer(es, e).1 == IdealAnswer(cs, e).1
    ensures mode != Bare ==> LastSample(s, e) <= e.time
  {
    if e.event.Packet? {
      PacketTracks(es, cs, t, s, m, mode, e);
    } else if e.event.Check? {
      CheckTracks(es, cs, t, s, m, mode, e);
    } else {
      UpdateTracks(es, cs, t, s, m, mode, e);
    }
  }

  /** No answer lets through what no holding grant allows. */
  predicate NoMore(a: seq<bool>, b: seq<bool>) {
    |a| == |b| && forall i | 0 <= i < |a| :: a[i] ==> b[i]
  }

  lemma NoMoreAppend(a: seq<bool>, b: seq<bool>, c: seq<bool>, d: seq<bool>)
    requires NoMore(a, b) && NoMore(c, d)
    ensures NoMore(a + c, b + d)
  {
  }

  lemma {:induction false} RunTracks(es: seq<Entry>, cs: seq<Ideal>, t: nat, s: nat, m: nat, mode: Mode, ts: seq<Timed>)
    requires AllTrack(es, cs, t, s, m, mode) && AllPunctual(t, s, m, ts) && s <= t && mode != Bare
    requires mode == Exact ==> AllFresh(cs, ts)
    ensures NoMore(Answers(es, ts), IdealAnswers(cs, ts))
    ensures mode == Exact ==> Answers(es, ts) == IdealAnswers(cs, ts)
    decreases |ts|
  {
    if ts != [] {
      var e, rest := ts[0], ts[1..];
      StepTracks(es, cs, t, s, m, mode, e);
      var es', cs' := Answer(es, e).0, IdealAnswer(cs, e).0;
      RunTracks(es', cs', e.time, LastSample(s, e), m, mode, rest);
      NoMoreAppend(Answer(es, e).1, IdealAnswer(cs, e).1, Answers(es', rest), IdealAnswers(cs', rest));
    }
  }

  function EmptyTable(n: nat): seq<Entry> {
    seq(n, _ => ZERO)
  }

  function EmptyIdeal(n: nat): seq<Ideal> {
    seq(n, _ => Vacant)
  }

  /** While checks are punctual nothing is ever forwarded at or after its grant's end, however the
      clock wraps and whatever the tick samples. */
  lemma NeverTooLong(n: nat, m: nat, ts: seq<Timed>)
    requires AllPunctual(0, 0, m, ts)
    ensures NoMore(Answers(EmptyTable(n), ts), IdealAnswers(EmptyIdeal(n), ts))
  {
    RunTracks(EmptyTable(n), EmptyIdeal(n), 0, 0, m, Timely, ts);
  }

  /** If moreover no sample is older than a timed grant its check scans, every packet is answered exactly
      as the grants with their true times dictate. */
  lemma TtlExact(n: nat, m: nat, ts: seq<Timed>)
    requires AllPunctual(0, 0, m, ts) && AllFresh(EmptyIdeal(n), ts)
    ensures Answers(EmptyTable(n), ts) == IdealAnswers(EmptyIdeal(n), ts)
  {
    RunTracks(EmptyTable(n), EmptyIdeal(n), 0, 0, m, Exact, ts);
  }

  /** What a check with a tick sample taken at `x` does to an authorization made at `at`: within a
      turn of the clock it is kept exactly when the sample lies in [at, at + ttl). A sample older
      than the authorization therefore ends it at once. */
  lemma SampleDecides(e: Entry, at: nat, x: nat)
    requires e.inUse && e.access == Authorized && e.authorizedAt == Wrap(at) && 0 < e.ttl
    requires x < at + TWO_32 && at + e.ttl <= x + TWO_32
    ensures ExpireEntry(e, Wrap(x)) == if at <= x < at + e.ttl then e else Deauthorized(e)
  {
  }

  // ----- provenance -----

  /** Entry `i` of the history grants `g` to `mac`, and nothing after it ended that grant. */
  predicate Granted(ts: seq<Timed>, i: nat, mac: Mac, g: Grant) {
    && i < |ts| && ts[i].time == g.at && ts[i].event == Allowed(mac, g.session, g.ttl) && g.session > 0
    && forall j | i < j < |ts| ::
         && ts[j].event != Connected(mac) && ts[j].event != Left(mac)
         && ts[j].event != Revoked(mac, g.session)
         && !(ts[j].event.Allowed? && ts[j].event.mac == mac && ts[j].event.session > 0)
  }

  ghost predicate Sourced(c: Ideal, ts: seq<Timed>) {
    c.Client? && c.grant.Some? ==> exists i :: Granted(ts, i, c.mac, c.grant.value)
  }

  predicate DistinctClients(cs: seq<Ideal>) {
    forall i, j | 0 <= i < j < |cs| :: cs[i].Client? && cs[j].Client? ==> cs[i].mac != cs[j].mac
  }

  lemma SourcedLater(c: Ideal, ts: seq<Timed>, e: Timed)
    requires Sourced(c, ts)
    requires c.Client? && c.grant.Some? ==>
               && e.event != Connected(c.mac) && e.event != Left(c.mac)
               && e.event != Revoked(c.mac, c.grant.value.session)
               && !(e.event.Allowed? && e.event.mac == c.mac && e.event.session > 0)
    ensures Sourced(c, ts + [e])
  {
    if c.Client? && c.grant.Some? {
      var i :| Granted(ts, i, c.mac, c.grant.value);
      assert Granted(ts + [e], i, c.mac, c.grant.value);
    }
  }

  lemma IdealMacAt(cs: seq<Ideal>, mac: Mac, i: nat)
    requires DistinctClients(cs) && i < |cs| && cs[i].Client? && cs[i].mac == mac
    ensures IdealMac(cs, mac, 0) == Some(i)
  {
  }

  /** One event: clients stay distinct and every grant keeps or gets its source. */
  lemma StepSourced(cs: seq<Ideal>, ts: seq<Timed>, e: Timed)
    requires DistinctClients(cs) && forall i | 0 <= i < |cs| :: Sourced(cs[i], ts)
    ensures var cs' := IdealAnswer(cs, e).0;
            DistinctClients(cs') && forall i | 0 <= i < |cs'| :: Sourced(cs'[i], ts + [e])
  {
    var cs' := IdealAnswer(cs, e).0;
    forall i | 0 <= i < |cs'| ensures Sourced(cs'[i], ts + [e]) {
      if cs'[i].Client? && cs[i].Client? {
        IdealMacAt(cs, cs[i].mac, i);
      }
      if cs'[i] == cs[i] && !(e.event.Allowed? && e.event.session > 0 && IdealMac(cs, e.event.mac, 0) == Some(i)) {
        SourcedLater(cs[i], ts, e);
      } else if cs'[i].Client? && cs'[i].grant.Some? {
        if e.event.GotIp? {
          SourcedLater(cs[i], ts, e);
          var k :| Granted(ts + [e], k, cs[i].mac, cs[i].grant.value);
          assert Granted(ts + [e], k, cs'[i].mac, cs'[i].grant.value);
        } else {
          assert Granted(ts + [e], |ts|, cs'[i].mac, cs'[i].grant.value);
        }
      }
    }
  }

  lemma {:induction false} AllSourced(cs: seq<Ideal>, past: seq<Timed>, ts: seq<Timed>)
    requires DistinctClients(cs) && forall i | 0 <= i < |cs| :: Sourced(cs[i], past)
    ensures var cs' := IdealAfter(cs, ts);
            DistinctClients(cs') && forall i | 0 <= i < |cs'| :: Sourced(cs'[i], past + ts)
    decreases |ts|
  {
    if ts == [] {
      assert past + ts == past;
    } else {
      StepSourced(cs, past, ts[0]);
      AllSourced(IdealAnswer(cs, ts[0]).0, past + [ts[0]], ts[1..]);
      assert past + ts == (past + [ts[0]]) + ts[1..];
    }
  }

  /** Whatever the clocks, authorized slots have grants after any run. */
  lemma {:induction false} AfterTracks(es: seq<Entry>, cs: seq<Ideal>, ts: seq<Timed>)
    requires AllTrack(es, cs, 0, 0, 0, Bare)
    ensures AllTrack(After(es, ts), IdealAfter(cs, ts), 0, 0, 0, Bare)
    decreases |ts|
  {
    if ts != [] {
      var e := ts[0];
      StepTracks(es, cs, 0, 0, 0, Bare, e);
      BareTracks(Answer(es, e).0, IdealAnswer(cs, e).0, e.time, LastSample(0, e));
      AfterTracks(Answer(es, e).0, IdealAnswer(cs, e).0, ts[1..]);
    }
  }

  /** Bare tracking has no times in it. */
  lemma BareTracks(es: seq<Entry>, cs: seq<Ideal>, t: nat, s: nat)
    requires AllTrack(es, cs, t, s, 0, Bare)
    ensures AllTrack(es, cs, 0, 0, 0, Bare)
  {
  }

  /** The grant behind an authorized slot. */
  lemma GrantFound(n: nat, ts: seq<Timed>, i: nat) returns (k: nat, g: Grant)
    requires var es := After(EmptyTable(n), ts); i < |es| && es[i].inUse && es[i].access == Authorized
    ensures var e := After(EmptyTable(n), ts)[i]; Granted(ts, k, e.mac, g) && g.session == e.session
  {
    hide IdealAnswer, Answer, IdealMac, IdealIp, IdealFree;
    var es, cs := After(EmptyTable(n), ts), IdealAfter(EmptyIdeal(n), ts);
    AfterTracks(EmptyTable(n), EmptyIdeal(n), ts);
    AllSourced(EmptyIdeal(n), [], ts);
    assert [] + ts == ts;
    assert Tracks(es[i], cs[i], 0, 0, 0, Bare);
    assert Sourced(cs[i], ts);
    g := cs[i].grant.value;
    k :| Granted(ts, k, cs[i].mac, g);
  }

  // ----- no way back but a new command -----

  predicate IsAuthorized(es: seq<Entry>, mac: Mac) {
    var i := FindMac(es, mac, 0);
    i.Some? && es[i.value].access == Authorized
  }

  predicate Authorizes(t: Timed, mac: Mac) {
    t.event.Allowed? && t.event.mac == mac && t.event.session > 0
  }

  lemma MacAt(es: seq<Entry>, mac: Mac, i: nat)
    requires TableInv(es) && i < |es| && es[i].inUse && es[i].mac == mac
    ensures FindMac(es, mac, 0) == Some(i)
  {
  }

  /** Only a command makes a slot authorized. */
  lemma AuthorizedBefore(es: seq<Entry>, t: Timed, mac: Mac, i: nat)
    requires i < |es| && !Authorizes(t, mac)
    requires var e := Answer(es, t).0[i]; e.inUse && e.mac == mac && e.access == Authorized
    ensures es[i].inUse && es[i].mac == mac && es[i].access == Authorized
  {
  }

  lemma DeniedStep(es: seq<Entry>, t: Timed, mac: Mac)
    requires TableInv(es) && !IsAuthorized(es, mac) && !Authorizes(t, mac)
    ensures !IsAuthorized(Answer(es, t).0, mac)
  {
    hide Answer;
    if IsAuthorized(Answer(es, t).0, mac) {
      SameSlots(es, t);
      var i := FindMac(Answer(es, t).0, mac, 0).value;
      AuthorizedBefore(es, t, mac, i);
      MacAt(es, mac, i);
    }
  }

  lemma SameSlots(es: seq<Entry>, t: Timed)
    ensures |Answer(es, t).0| == |es|
  {
  }

  lemma {:induction false} DeniedStays(es: seq<Entry>, ts: seq<Timed>, mac: Mac)
    requires TableInv(es) && !IsAuthorized(es, mac)
    requires forall j | 0 <= j < |ts| :: !Authorizes(ts[j], mac)
    ensures !IsAuthorized(After(es, ts), mac)
    decreases |ts|
  {
    if ts != [] {
      DeniedStep(es, ts[0], mac);
      ClientTables.AnswerKeepsInv(es, ts[0]);
      DeniedStays(Answer(es, ts[0]).0, ts[1..], mac);
    }
  }

  lemma {:induction false} AfterAppend(es: seq<Entry>, xs: seq<Timed>, ys: seq<Timed>)
    ensures After(es, xs + ys) == After(After(es, xs), ys)
    decreases |xs|
  {
    if xs == [] {
      assert xs + ys == ys;
    } else {
      assert (xs + ys)[1..] == xs[1..] + ys;
      AfterAppend(Answer(es, xs[0]).0, xs[1..], ys);
    }
  }

  /** An entry authorized now has been authorized ever since its command: nothing ended it. */
  lemma NeverLapsed(n: nat, ts: seq<Timed>, k: nat, j: nat, mac: Mac, g: Grant)
    requires Granted(ts, k, mac, g) && k < j <= |ts| && IsAuthorized(After(EmptyTable(n), ts), mac)
    ensures IsAuthorized(After(EmptyTable(n), ts[..j]), mac)
  {
    ClientTables.TableInvariant(EmptyTable(n), ts[..j]);
    assert ts == ts[..j] + ts[j..];
    AfterAppend(EmptyTable(n), ts[..j], ts[j..]);
    if !IsAuthorized(After(EmptyTable(n), ts[..j]), mac) {
      assert forall i | 0 <= i < |ts[j..]| :: ts[j..][i] == ts[j + i];
      DeniedStays(After(EmptyTable(n), ts[..j]), ts[j..], mac);
    }
  }

  /** Command `k` of the history authorized `mac` for `session`, and since
      then nothing disconnected, revoked, replaced or expired that authorization. */
  ghost predicate Source(n: nat, ts: seq<Timed>, k: nat, mac: Mac, session: int) {
    && (exists g :: Granted(ts, k, mac, g) && g.session == session)
    && (forall j | k < j <= |ts| :: IsAuthorized(After(EmptyTable(n), ts[..j]), mac))
  }

  /** Provenance: in every reachable table, a packet that is forwarded belongs to a client that a
      command authorized since it last connected, for the session stored, with no disconnect,
      revoke, newer command or expiry in between. */
  lemma ForwardingHasASource(n: nat, ts: seq<Timed>, ip: U32, now: U32)
    requires CanForward(After(EmptyTable(n), ts), ip, now).1
    ensures var es := After(EmptyTable(n), ts);
            var i := FindIp(es, ip, 0);
            i.Some? && exists k :: Source(n, ts, k, es[i.value].mac, es[i.value].session)
  {
    hide IdealAfter, After, Granted;
    var es, i := After(EmptyTable(n), ts), FindIp(After(EmptyTable(n), ts), ip, 0).value;
    var k, g := GrantFound(n, ts, i);
    ClientTables.TableInvariant(EmptyTable(n), ts);
    MacAt(es, es[i].mac, i);
    forall j | k < j <= |ts| ensures IsAuthorized(After(EmptyTable(n), ts[..j]), es[i].mac) {
      NeverLapsed(n, ts, k, j, es[i].mac, g);
    }
    assert Source(n, ts, k, es[i].mac, es[i].session);
  }
}
