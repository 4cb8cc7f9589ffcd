/** The client access table as a sequence of slots: what each operation does, and how its
    wrapping 32-bit clock relates to authorizations on an unbounded one. */
module ClientSpec {
  import opened Bytes

  type Mac = seq<Byte>

  datatype Access = Unknown | Unauthorized | Authorized | Barred

  /** One slot of the table; the zero entry when not in use. */
  datatype Entry = Entry(inUse: bool, mac: Mac, access: Access, session: int, ip: U32, authorizedAt: U32, ttl: nat)

  const ZERO := Entry(false, [], Unknown, 0, 0, 0, 0)

  datatype Departure = Departure(mac: Mac, access: Access, session: int)

  datatype Error = Ok | InvalidArg | NotFound | InvalidState | NoMemory

  // ----- searching -----

  function FindMac(es: seq<Entry>, mac: Mac, i: nat): (r: Option<nat>)
    requires i <= |es|
    ensures r.Some? ==> i <= r.value < |es| && es[r.value].inUse && es[r.value].mac == mac
    ensures r.None? ==> forall j | i <= j < |es| :: es[j].inUse ==> es[j].mac != mac
    decreases |es| - i
  {
    if i == |es| then None
    else if es[i].inUse && es[i].mac == mac then Some(i)
    else FindMac(es, mac, i + 1)
  }

  function FindIp(es: seq<Entry>, ip: U32, i: nat): (r: Option<nat>)
    requires i <= |es|
    ensures r.Some? ==> i <= r.value < |es| && es[r.value].inUse && es[r.value].ip == ip
    ensures r.None? ==> forall j | i <= j < |es| :: es[j].inUse ==> es[j].ip != ip
    decreases |es| - i
  {
    if i == |es| then None
    else if es[i].inUse && es[i].ip == ip then Some(i)
    else FindIp(es, ip, i + 1)
  }

  function FindFree(es: seq<Entry>, i: nat): (r: Option<nat>)
    requires i <= |es|
    ensures r.Some? ==> i <= r.value < |es| && !es[r.value].inUse
    ensures r.None? ==> forall j | i <= j < |es| :: es[j].inUse
    decreases |es| - i
  {
    if i == |es| then None else if !es[i].inUse then Some(i) else FindFree(es, i + 1)
  }

  // ----- operations -----

  function Connect(es: seq<Entry>, mac: Mac): (seq<Entry>, Error) {
    var known := FindMac(es, mac, 0);
    var i := if known.Some? then known else FindFree(es, 0);
    if i.None? then (es, NoMemory)
    else (es[i.value := Entry(true, mac, Unauthorized, 0, 0, 0, 0)], Ok)
  }

  function AssignIp(es: seq<Entry>, mac: Mac, ip: U32): (seq<Entry>, Error) {
    var i := FindMac(es, mac, 0);
    if i.None? then (es, NotFound) else (es[i.value := es[i.value].(ip := ip)], Ok)
  }

  /** Removal of a client and the snapshot of it that is queued. */
  function Leave(es: seq<Entry>, mac: Mac): (seq<Entry>, Option<Departure>) {
    var i := FindMac(es, mac, 0);
    if i.None? then (es, None)
    else
      var e := es[i.value];
      (es[i.value := ZERO], Some(Departure(e.mac, e.access, e.session)))
  }

  function Allow(es: seq<Entry>, mac: Mac, session: int, ttl: nat, now: U32): (seq<Entry>, Error) {
    if session <= 0 then (es, InvalidArg) else
    var i := FindMac(es, mac, 0);
    if i.None? then (es, NotFound)
    else (es[i.value := es[i.value].(access := Authorized, session := session, authorizedAt := now, ttl := ttl)], Ok)
  }

  function Deauthorized(e: Entry): Entry {
    e.(access := Unauthorized, session := 0, ttl := 0)
  }

  function Revoke(es: seq<Entry>, mac: Mac, session: int): (seq<Entry>, Error) {
    if session <= 0 then (es, InvalidArg) else
    var i := FindMac(es, mac, 0);
    if i.None? then (es, NotFound)
    else if es[i.value].access == Authorized && es[i.value].session == session then
      (es[i.value := Deauthorized(es[i.value])], Ok)
    else (es, InvalidState)
  }

  predicate Lapsed(e: Entry, now: U32) {
    e.access == Authorized && e.ttl > 0 && Wrap(now - e.authorizedAt) >= e.ttl
  }

  function ExpireEntry(e: Entry, now: U32): Entry {
    if e.inUse && Lapsed(e, now) then Deauthorized(e) else e
  }

  function ExpireCheck(es: seq<Entry>, now: U32): (r: seq<Entry>)
    ensures |r| == |es|
  {
    seq(|es|, i requires 0 <= i < |es| => ExpireEntry(es[i], now))
  }

  function CanForward(es: seq<Entry>, ip: U32, now: U32): (seq<Entry>, bool) {
    var i := FindIp(es, ip, 0);
    if ip == 0 || i.None? then (es, false)
    else
      var e := ExpireEntry(es[i.value], now);
      (es[i.value := e], e.access == Authorized)
  }

  // ----- the table invariant -----

  predicate EntryInv(e: Entry) {
    e.inUse && e.access != Unknown && e.access != Barred && e.session >= 0
    && (e.session != 0 <==> e.access == Authorized)
  }

  predicate TableInv(es: seq<Entry>) {
    && (forall i | 0 <= i < |es| :: es[i] == ZERO || EntryInv(es[i]))
    && (forall i, j | 0 <= i < j < |es| :: es[i].inUse && es[j].inUse ==> es[i].mac != es[j].mac)
  }

  // ----- events on an unbounded clock -----

  datatype Event =
    | Connected(mac: Mac)
    | GotIp(mac: Mac, ip: U32)
    | Left(mac: Mac)
    | Allowed(mac: Mac, session: int, ttl: nat)
    | Revoked(mac: Mac, session: int)
    | Packet(ip: U32)
    | Check(sample: nat)  // the tick count was read at `sample`, outside the lock

  datatype Timed = Timed(time: nat, event: Event)

  function Answer(es: seq<Entry>, t: Timed): (seq<Entry>, seq<bool>) {
    match t.event
    case Connected(mac) => (Connect(es, mac).0, [])
    case GotIp(mac, ip) => (AssignIp(es, mac, ip).0, [])
    case Left(mac) => (Leave(es, mac).0, [])
    case Allowed(mac, session, ttl) => (Allow(es, mac, session, ttl, Wrap(t.time)).0, [])
    case Revoked(mac, session) => (Revoke(es, mac, session).0, [])
    case Packet(ip) => var (es', b) := CanForward(es, ip, Wrap(t.time)); (es', [b])
    case Check(sample) => (ExpireCheck(es, Wrap(sample)), [])
  }

  function Answers(es: seq<Entry>, ts: seq<Timed>): seq<bool>
    decreases |ts|
  {
    if ts == [] then [] else Answer(es, ts[0]).1 + Answers(Answer(es, ts[0]).0, ts[1..])
  }

  function After(es: seq<Entry>, ts: seq<Timed>): seq<Entry>
    decreases |ts|
  {
    if ts == [] then es else After(Answer(es, ts[0]).0, ts[1..])
  }

  // ----- the ideal table: grants with their true times, nothing ever swept -----

  /** A grant holds during [at, at + ttl), or for good when ttl is 0. */
  datatype Grant = Grant(session: int, at: nat, ttl: nat)

  datatype Ideal = Vacant | Client(mac: Mac, ip: U32, grant: Option<Grant>)

  predicate Holds(g: Option<Grant>, now: nat) {
    g.Some? && (g.value.ttl == 0 || now < g.value.at + g.value.ttl)
  }

  function IdealMac(cs: seq<Ideal>, mac: Mac, i: nat): (r: Option<nat>)
    requires i <= |cs|
    ensures r.Some? ==> i <= r.value < |cs| && cs[r.value].Client? && cs[r.value].mac == mac
    ensures r.None? ==> forall j | i <= j < |cs| :: cs[j].Client? ==> cs[j].mac != mac
    decreases |cs| - i
  {
    if i == |cs| then None
    else if cs[i].Client? && cs[i].mac == mac then Some(i)
    else IdealMac(cs, mac, i + 1)
  }

  function IdealIp(cs: seq<Ideal>, ip: U32, i: nat): (r: Option<nat>)
    requires i <= |cs|
    ensures r.Some? ==> i <= r.value < |cs| && cs[r.value].Client?
    decreases |cs| - i
  {
    if i == |cs| then None
    else if cs[i].Client? && cs[i].ip == ip then Some(i)
    else IdealIp(cs, ip, i + 1)
  }

  function IdealFree(cs: seq<Ideal>, i: nat): (r: Option<nat>)
    requires i <= |cs|
    ensures r.Some? ==> i <= r.value < |cs|
    decreases |cs| - i
  {
    if i == |cs| then None else if cs[i].Vacant? then Some(i) else IdealFree(cs, i + 1)
  }

  function IdealAnswer(cs: seq<Ideal>, t: Timed): (seq<Ideal>, seq<bool>) {
    match t.event
    case Connected(mac) =>
      var known := IdealMac(cs, mac, 0);
      var i := if known.Some? then known else IdealFree(cs, 0);
      (if i.None? then cs else cs[i.value := Client(mac, 0, None)], [])
    case GotIp(mac, ip) =>
      var i := IdealMac(cs, mac, 0);
      (if i.None? then cs else cs[i.value := cs[i.value].(ip := ip)], [])
    case Left(mac) =>
      var i := IdealMac(cs, mac, 0);
      (if i.None? then cs else cs[i.value := Vacant], [])
    case Allowed(mac, session, ttl) =>
      var i := IdealMac(cs, mac, 0);
      (if session <= 0 || i.None? then cs
       else cs[i.value := cs[i.value].(grant := Some(Grant(session, t.time, ttl)))], [])
    case Revoked(mac, session) =>
      var i := IdealMac(cs, mac, 0);
      (if i.None? || cs[i.value].grant.None? || cs[i.value].grant.value.session != session then cs
       else cs[i.value := cs[i.value].(grant := None)], [])
    case Packet(ip) =>
      var i := IdealIp(cs, ip, 0);
      (cs, [ip != 0 && i.Some? && Holds(cs[i.value].grant, t.time)])
    case Check(_) => (cs, [])
  }

  function IdealAnswers(cs: seq<Ideal>, ts: seq<Timed>): seq<bool>
    decreases |ts|
  {
    if ts == [] then [] else IdealAnswer(cs, ts[0]).1 + IdealAnswers(IdealAnswer(cs, ts[0]).0, ts[1..])
  }

  function IdealAfter(cs: seq<Ideal>, ts: seq<Timed>): seq<Ideal>
    decreases |ts|
  {
    if ts == [] then cs else IdealAfter(IdealAnswer(cs, ts[0]).0, ts[1..])
  }
}
