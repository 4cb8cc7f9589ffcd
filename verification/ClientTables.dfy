/** The client table updated in place, and its bounded queue of departures. */
module ClientTables {
  import opened Bytes
  import opened ClientSpec

  // ----- the table invariant over all operations -----

  /** One slot rewritten: cleared, kept by its owner, or given to a MAC that has none. */
  lemma PutKeepsInv(es: seq<Entry>, i: nat, e: Entry)
    requires TableInv(es) && i < |es| && (e == ZERO || EntryInv(e))
    requires e.inUse ==> forall j | 0 <= j < |es| && j != i :: es[j].inUse ==> es[j].mac != e.mac
    ensures TableInv(es[i := e])
  {
  }

  lemma OthersDiffer(es: seq<Entry>, i: nat)
    requires TableInv(es) && i < |es| && es[i].inUse
    ensures forall j | 0 <= j < |es| && j != i :: es[j].inUse ==> es[j].mac != es[i].mac
  {
  }

  lemma ConnectKeepsInv(es: seq<Entry>, mac: Mac)
    requires TableInv(es)
    ensures TableInv(Connect(es, mac).0)
  {
    hide TableInv, EntryInv;
    var known := FindMac(es, mac, 0);
    var i := if known.Some? then known else FindFree(es, 0);
    if i.Some? {
      if known.Some? {
        OthersDiffer(es, i.value);
      }
      FreshEntry(mac);
      PutKeepsInv(es, i.value, Entry(true, mac, Unauthorized, 0, 0, 0, 0));
    }
  }

  lemma FreshEntry(mac: Mac)
    ensures EntryInv(Entry(true, mac, Unauthorized, 0, 0, 0, 0))
  {
  }

  /** The operations that rewrite the entry of one client in place. */
  lemma UpdateKeepsInv(es: seq<Entry>, mac: Mac, e: Entry)
    requires TableInv(es) && FindMac(es, mac, 0).Some?
    requires e == ZERO || (EntryInv(e) && e.mac == mac)
    ensures TableInv(es[FindMac(es, mac, 0).value := e])
  {
    hide TableInv, EntryInv;
    OthersDiffer(es, FindMac(es, mac, 0).value);
    PutKeepsInv(es, FindMac(es, mac, 0).value, e);
  }

  lemma ClientKeepsInv(es: seq<Entry>, t: Timed)
    requires TableInv(es) && (t.event.GotIp? || t.event.Left? || t.event.Allowed? || t.event.Revoked?)
    ensures TableInv(Answer(es, t).0)
  {
    var i := FindMac(es, t.event.mac, 0);
    if i.Some? {
      InUse(es, i.value);
      hide TableInv;
      if Answer(es, t).0 != es {
        UpdateKeepsInv(es, t.event.mac, Answer(es, t).0[i.value]);
      }
    }
  }

  lemma InUse(es: seq<Entry>, i: nat)
    requires TableInv(es) && i < |es| && es[i].inUse
    ensures EntryInv(es[i])
  {
  }

  lemma ExpiryKeepsInv(es: seq<Entry>, t: Timed)
    requires TableInv(es) && (t.event.Packet? || t.event.Check?)
    ensures TableInv(Answer(es, t).0)
  {
  }

  lemma AnswerKeepsInv(es: seq<Entry>, t: Timed)
    requires TableInv(es)
    ensures TableInv(Answer(es, t).0)
  {
    if t.event.Connected? {
      ConnectKeepsInv(es, t.event.mac);
    } else {
      hide TableInv, Answer;
      if t.event.Packet? || t.event.Check? {
        ExpiryKeepsInv(es, t);
      } else {
        ClientKeepsInv(es, t);
      }
    }
  }

  /** In every reachable table in-use MACs are distinct and a session is bound exactly to the
      authorized entries. */
  lemma {:induction false} TableInvariant(es: seq<Entry>, ts: seq<Timed>)
    requires TableInv(es)
    ensures TableInv(After(es, ts))
    decreases |ts|
  {
    if ts != [] {
      AnswerKeepsInv(es, ts[0]);
      TableInvariant(Answer(es, ts[0]).0, ts[1..]);
    }
  }

  // ----- what each operation does and answers -----

  predicate Tracked(es: seq<Entry>, mac: Mac) {
    exists i | 0 <= i < |es| :: es[i].inUse && es[i].mac == mac
  }

  predicate Of(e: Entry, mac: Mac) {
    e.inUse && e.mac == mac
  }

  /** A command authorizes the client of its MAC, if there is one, and touches no other. */
  lemma AuthorizeOutcome(es: seq<Entry>, mac: Mac, session: int, ttl: nat, now: U32)
    requires TableInv(es)
    ensures var (es', e) := Allow(es, mac, session, ttl, now);
            && e == (if session <= 0 then InvalidArg else if Tracked(es, mac) then Ok else NotFound)
            && |es'| == |es|
            && forall i | 0 <= i < |es| :: es'[i] ==
                 if e == Ok && Of(es[i], mac) then Entry(true, mac, Authorized, session, es[i].ip, now, ttl) else es[i]
  {
  }

  /** A revoke ends exactly the authorization it names, of exactly that client. */
  lemma RevokeOutcome(es: seq<Entry>, mac: Mac, session: int)
    requires TableInv(es)
    ensures var (es', e) := Revoke(es, mac, session);
            var named := exists i | 0 <= i < |es| :: Of(es[i], mac) && es[i].session == session;
            && e == (if session <= 0 then InvalidArg else if !Tracked(es, mac) then NotFound
                     else if named then Ok else InvalidState)
            && |es'| == |es|
            && forall i | 0 <= i < |es| :: es'[i] ==
                 if e == Ok && Of(es[i], mac) then es[i].(access := Unauthorized, session := 0, ttl := 0) else es[i]
  {
    var k := FindMac(es, mac, 0);
    if k.Some? {
      InUse(es, k.value);
    }
  }

  /** A connect makes its MAC a client without access, in its own slot or else in a free one; it is refused
      exactly when the MAC is new and every slot is taken. */
  lemma ConnectOutcome(es: seq<Entry>, mac: Mac)
    requires TableInv(es)
    ensures var (es', e) := Connect(es, mac);
            var full := forall i | 0 <= i < |es| :: es[i].inUse;
            && e == (if !Tracked(es, mac) && full then NoMemory else Ok)
            && (e != Ok ==> es' == es)
            && (e == Ok ==>
                  && |es'| == |es|
                  && exists k | 0 <= k < |es| ::
                       && (if Tracked(es, mac) then Of(es[k], mac) else !es[k].inUse)
                       && es' == es[k := Entry(true, mac, Unauthorized, 0, 0, 0, 0)])
  {
  }

  /** A leased address is noted for the client of that MAC alone, a disconnect frees its slot alone. */
  lemma AddressAndLeave(es: seq<Entry>, mac: Mac, ip: U32)
    requires TableInv(es)
    ensures AssignIp(es, mac, ip).1 == if Tracked(es, mac) then Ok else NotFound
    ensures var es' := AssignIp(es, mac, ip).0;
            |es'| == |es| && forall i | 0 <= i < |es| ::
              es'[i] == if Of(es[i], mac) then es[i].(ip := ip) else es[i]
    ensures var es' := Leave(es, mac).0;
            |es'| == |es| && forall i | 0 <= i < |es| ::
              es'[i] == if Of(es[i], mac) then Entry(false, [], Unknown, 0, 0, 0, 0) else es[i]
  {
  }

  // ----- departures -----

  /** A removal and whether the queue had room for its snapshot. */
  datatype Removal = Removal(departure: Departure, queued: bool)

  /** History of one queue: what was delivered, what waits, what was removed. */
  datatype Queueing = Queueing(
    capacity: nat, delivered: seq<Departure>, waiting: seq<Departure>, removals: seq<Removal>)

  function Depart(q: Queueing, d: Departure): Queueing {
    var room := |q.waiting| < q.capacity;
    q.(waiting := if room then q.waiting + [d] else q.waiting, removals := q.removals + [Removal(d, room)])
  }

  function Deliver(q: Queueing): Queueing {
    if q.waiting == [] then q
    else q.(delivered := q.delivered + [q.waiting[0]], waiting := q.waiting[1..])
  }

  function Kept(rs: seq<Removal>): seq<Departure>
    decreases |rs|
  {
    if rs == [] then []
    else Kept(rs[..|rs| - 1]) + if rs[|rs| - 1].queued then [rs[|rs| - 1].departure] else []
  }

  lemma DepartKeeps(q: Queueing, d: Departure)
    requires q.delivered + q.waiting == Kept(q.removals)
    ensures Depart(q, d).delivered + Depart(q, d).waiting == Kept(Depart(q, d).removals)
  {
  }

  lemma DeliverKeeps(q: Queueing)
    requires q.delivered + q.waiting == Kept(q.removals) && q.waiting != []
    ensures Deliver(q).delivered + Deliver(q).waiting == Kept(Deliver(q).removals)
  {
  }

  // ----- the table -----

  class ClientTable {
    const clients: array<Entry>
    var disconnectQueue: seq<Departure>
    ghost var history: Queueing

    ghost predicate Valid()
      reads this, clients
    {
      && TableInv(clients[..])
      && history.capacity == clients.Length && history.waiting == disconnectQueue
      && history.delivered + history.waiting == Kept(history.removals)
      && |disconnectQueue| <= clients.Length
    }

    /** `n` is the number of stations the driver supports. */
    constructor (n: nat)
      ensures Valid() && clients.Length == n && clients[..] == seq(n, _ => ZERO) && disconnectQueue == []
      ensures fresh(clients)
    {
      clients := new Entry[n](_ => ZERO);
      disconnectQueue := [];
      history := Queueing(n, [], [], []);
    }

    /** find_client_index_locked. */
    method FindClient(mac: Mac) returns (i: Option<nat>)
      ensures i == FindMac(clients[..], mac, 0)
    {
      ghost var es := clients[..];
      for j := 0 to clients.Length
        invariant FindMac(es, mac, 0) == FindMac(es, mac, j)
      {
        if clients[j].inUse && clients[j].mac == mac {
          return Some(j);
        }
      }
      i := None;
    }

    /** track_connected_client. */
    method TrackConnected(mac: Mac) returns (e: Error)
      requires Valid()
      modifies clients
      ensures Valid() && (clients[..], e) == Connect(old(clients[..]), mac)
    {
      AnswerKeepsInv(clients[..], Timed(0, Connected(mac)));
      var i := FindClient(mac);
      if i.None? {
        i := FindFreeSlot();
      }
      if i.None? {
        return NoMemory;
      }
      clients[i.value] := Entry(true, mac, Unauthorized, 0, 0, 0, 0);
      e := Ok;
    }

    method FindFreeSlot() returns (i: Option<nat>)
      ensures i == FindFree(clients[..], 0)
    {
      ghost var es := clients[..];
      for j := 0 to clients.Length
        invariant FindFree(es, 0) == FindFree(es, j)
      {
        if !clients[j].inUse {
          return Some(j);
        }
      }
      i := None;
    }

    /** track_client_ip. */
    method TrackIp(mac: Mac, ip: U32) returns (e: Error)
      requires Valid()
      modifies clients
      ensures Valid() && (clients[..], e) == AssignIp(old(clients[..]), mac, ip)
    {
      AnswerKeepsInv(clients[..], Timed(0, GotIp(mac, ip)));
      var i := FindClient(mac);
      if i.None? {
        return NotFound;
      }
      clients[i.value] := clients[i.value].(ip := ip);
      e := Ok;
    }

    /** remove_disconnect_client: clear the slot, then try to queue its snapshot. */
    method RemoveDisconnected(mac: Mac)
      requires Valid()
      modifies clients, this`disconnectQueue, this`history
      ensures Valid()
      ensures clients[..] == Leave(old(clients[..]), mac).0
      ensures match Leave(old(clients[..]), mac).1
              case None => history == old(history)
              case Some(d) => history == Depart(old(history), d)
    {
      AnswerKeepsInv(clients[..], Timed(0, Left(mac)));
      var i := FindClient(mac);
      if i.None? {
        return;
      }
      var e := clients[i.value];
      var d := Departure(e.mac, e.access, e.session);
      clients[i.value] := ZERO;
      DepartKeeps(history, d);
      if |disconnectQueue| < clients.Length {
        disconnectQueue := disconnectQueue + [d];
      }
      history := Depart(history, d);
    }

    /** client_access_wait_disconnect_event, when it does not wait in vain. */
    method NextDeparture() returns (d: Option<Departure>)
      requires Valid()
      modifies this`disconnectQueue, this`history
      ensures Valid() && history == Deliver(old(history))
      ensures d == if old(disconnectQueue) == [] then None else Some(old(disconnectQueue)[0])
    {
      if disconnectQueue == [] {
        return None;
      }
      d := Some(disconnectQueue[0]);
      DeliverKeeps(history);
      disconnectQueue := disconnectQueue[1..];
      history := Deliver(history);
    }

    /** client_access_authorize, on a parsed MAC and a time to live in ticks. */
    method Authorize(mac: Mac, session: int, ttl: nat, now: U32) returns (e: Error)
      requires Valid()
      modifies clients
      ensures Valid() && (clients[..], e) == Allow(old(clients[..]), mac, session, ttl, now)
    {
      AnswerKeepsInv(clients[..], Timed(now, Allowed(mac, session, ttl)));
      if session <= 0 {
        return InvalidArg;
      }
      var i := FindClient(mac);
      if i.None? {
        return NotFound;
      }
      clients[i.value] := clients[i.value].(access := Authorized, session := session, authorizedAt := now, ttl := ttl);
      e := Ok;
    }

    /** client_access_revoke_authorization. */
    method RevokeAuthorization(mac: Mac, session: int) returns (e: Error)
      requires Valid()
      modifies clients
      ensures Valid() && (clients[..], e) == Revoke(old(clients[..]), mac, session)
    {
      AnswerKeepsInv(clients[..], Timed(0, Revoked(mac, session)));
      if session <= 0 {
        return InvalidArg;
      }
      var i := FindClient(mac);
      if i.None? {
        return NotFound;
      }
      var c := clients[i.value];
      if c.access == Authorized && c.session == session {
        clients[i.value] := c.(access := Unauthorized, session := 0, ttl := 0);
        return Ok;
      }
      e := InvalidState;
    }

    /** client_access_can_forward_ipv4, which also ends a lapsed authorization it meets. */
    method CanForwardIpv4(ip: U32, now: U32) returns (ok: bool)
      requires Valid()
      modifies clients
      ensures Valid() && (clients[..], ok) == CanForward(old(clients[..]), ip, now)
    {
      ghost var es := clients[..];
      AnswerKeepsInv(es, Timed(now, Packet(ip)));
      if ip == 0 {
        return false;
      }
      for i := 0 to clients.Length
        invariant clients[..] == es && FindIp(es, ip, 0) == FindIp(es, ip, i)
      {
        var c := clients[i];
        if !c.inUse || c.ip != ip {
          continue;
        }
        assert FindIp(es, ip, 0) == Some(i);
        ok := false;
        if c.access == Authorized {
          if c.ttl > 0 {
            var elapsed := Wrap(now - c.authorizedAt);
            if elapsed >= c.ttl {
              clients[i] := c.(access := Unauthorized, session := 0, ttl := 0);
            } else {
              ok := true;
            }
          } else {
            ok := true;
          }
        }
        assert clients[..] == es[i := ExpireEntry(c, now)];
        return;
      }
      ok := false;
    }

    /** client_access_expire_check with the tick it sampled before taking the lock. */
    method ExpireAll(now: U32)
      requires Valid()
      modifies clients
      ensures Valid() && clients[..] == ExpireCheck(old(clients[..]), now)
    {
      ghost var es := clients[..];
      AnswerKeepsInv(es, Timed(now, Check(now)));
      for i := 0 to clients.Length
        invariant forall j | 0 <= j < i :: clients[j] == ExpireEntry(es[j], now)
        invariant forall j | i <= j < clients.Length :: clients[j] == es[j]
      {
        var c := clients[i];
        if !c.inUse || c.access != Authorized || c.ttl <= 0 {
          continue;
        }
        if Wrap(now - c.authorizedAt) >= c.ttl {
          clients[i] := c.(access := Unauthorized, session := 0, ttl := 0);
        }
      }
    }
  }
}
