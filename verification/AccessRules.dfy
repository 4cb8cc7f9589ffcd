/** The two append-only rule tables: destinations and host names. */
module AccessRules {
  import opened Bytes
  import opened Hostnames

  const CAPACITY := 16

  datatype Rules = Rules(destinations: seq<U32>, hostnames: seq<seq<Byte>>)

  const NO_RULES := Rules([], [])

  datatype InstallError = Ok | InvalidArg | InvalidState | NoMemory

  /** One rule-install command after its texts were read: what the address parser and the
      reserved-address tests made of the destination, and the SNI text (empty: none). */
  datatype Command = Command(started: bool, destinationGiven: bool, candidate: Option<U32>, sni: seq<Byte>)

  // ----- specification of an install -----

  predicate Distinct<T(==)>(s: seq<T>) {
    forall i, j | 0 <= i < j < |s| :: s[i] != s[j]
  }

  ghost predicate LegalRules(r: Rules) {
    && |r.destinations| <= CAPACITY && Distinct(r.destinations)
    && |r.hostnames| <= CAPACITY && Distinct(r.hostnames)
    && forall i | 0 <= i < |r.hostnames| :: Normal(r.hostnames[i]) == Some(r.hostnames[i])
  }

  function Add<T(==)>(s: seq<T>, x: T): seq<T> {
    if x in s then s else s + [x]
  }

  predicate Full<T(==)>(s: seq<T>, x: T) {
    x !in s && |s| >= CAPACITY
  }

  /** Every command either changes nothing or adds its destination and, if given, its host. */
  function Install(r: Rules, c: Command): (Rules, InstallError) {
    if !c.destinationGiven then (r, InvalidArg)
    else if !c.started then (r, InvalidState)
    else if c.candidate.None? then (r, InvalidArg)
    else
      var d := c.candidate.value;
      if c.sni == [] then
        if Full(r.destinations, d) then (r, NoMemory)
        else (Rules(Add(r.destinations, d), r.hostnames), Ok)
      else if Normal(c.sni).None? then (r, InvalidArg)
      else
        var h := Normal(c.sni).value;
        if Full(r.destinations, d) || Full(r.hostnames, h) then (r, NoMemory)
        else (Rules(Add(r.destinations, d), Add(r.hostnames, h)), Ok)
  }

  function InstallAll(r: Rules, cs: seq<Command>): Rules
    decreases |cs|
  {
    if cs == [] then r else InstallAll(Install(r, cs[0]).0, cs[1..])
  }

  lemma InstallKeepsLegal(r: Rules, c: Command)
    requires LegalRules(r)
    ensures LegalRules(Install(r, c).0)
  {
    if Normal(c.sni).Some? {
      NormalIdempotent(c.sni);
    }
  }

  /** Both tables together: a refusal changes neither, a success leaves both rules in force. */
  lemma InstallAllOrNothing(r: Rules, c: Command)
    ensures var (r', e) := Install(r, c);
            && (e != Ok ==> r' == r)
            && (e == Ok ==> c.candidate.Some? && c.candidate.value in r'.destinations
                            && (c.sni != [] ==> Normal(c.sni).Some? && Normal(c.sni).value in r'.hostnames))
            && (e == Ok ==> Install(r', c) == (r', Ok))
            && r.destinations <= r'.destinations && r.hostnames <= r'.hostnames
  {
  }

  /** A started filter, a valid destination and a host name that is absent or has a normal form. */
  predicate Proper(c: Command) {
    c.started && c.destinationGiven && c.candidate.Some? && (c.sni == [] || Normal(c.sni).Some?)
  }

  /** The host name rules that a proper command asks for: one or none. */
  function HostRule(c: Command): seq<seq<Byte>> {
    if c.sni != [] && Normal(c.sni).Some? then [Normal(c.sni).value] else []
  }

  /** Each rule asked for is known or finds its table with fewer than 16 rules. */
  predicate HasRoom(r: Rules, c: Command)
    requires c.candidate.Some?
  {
    && (c.candidate.value in r.destinations || |r.destinations| < 16)
    && forall h | h in HostRule(c) :: h in r.hostnames || |r.hostnames| < 16
  }

  /** Which commands are accepted, and how each of the others is refused. */
  lemma InstallOutcome(r: Rules, c: Command)
    ensures var e := Install(r, c).1;
            && (e == Ok <==> Proper(c) && HasRoom(r, c))
            && (e == NoMemory <==> Proper(c) && !HasRoom(r, c))
            && (e == InvalidState <==> c.destinationGiven && !c.started)
            && (e == InvalidArg <==> !Proper(c) && !(c.destinationGiven && !c.started))
  {
  }

  /** An accepted command adds its own rules, those not yet there, and no other. */
  lemma InstallAddsOwnRules(r: Rules, c: Command)
    requires Install(r, c).1 == Ok
    ensures var r' := Install(r, c).0;
            && (forall d :: d in r'.destinations <==> d in r.destinations || c.candidate == Some(d))
            && (forall h :: h in r'.hostnames <==> h in r.hostnames || h in HostRule(c))
            && |r'.destinations| == |r.destinations| + (if c.candidate.value in r.destinations then 0 else 1)
            && |r'.hostnames| == |r.hostnames|
                 + (if c.sni == [] || Normal(c.sni).value in r.hostnames then 0 else 1)
  {
  }

  /** Command `i` of a run was accepted. */
  predicate AcceptedAt(r: Rules, cs: seq<Command>, i: nat)
    requires i < |cs|
  {
    Install(InstallAll(r, cs[..i]), cs[i]).1 == Ok
  }

  /** After any run of commands the tables hold exactly the rules of the commands accepted on the way. */
  lemma {:induction false} RulesAreAccepted(cs: seq<Command>)
    ensures var r := InstallAll(NO_RULES, cs);
            && (forall d :: d in r.destinations <==>
                  exists i | 0 <= i < |cs| :: AcceptedAt(NO_RULES, cs, i) && cs[i].candidate == Some(d))
            && (forall h :: h in r.hostnames <==>
                  exists i | 0 <= i < |cs| :: AcceptedAt(NO_RULES, cs, i) && h in HostRule(cs[i]))
    decreases |cs|
  {
    if cs != [] {
      var n := |cs| - 1;
      var init, c := cs[..n], cs[n];
      assert cs == init + [c];
      InstallAllAppend(NO_RULES, init, c);
      RulesAreAccepted(init);
      forall i | 0 <= i < n ensures AcceptedAt(NO_RULES, cs, i) <==> AcceptedAt(NO_RULES, init, i) {
        assert cs[..i] == init[..i];
      }
      var r := InstallAll(NO_RULES, init);
      if AcceptedAt(NO_RULES, cs, n) {
        InstallAddsOwnRules(r, c);
      } else {
        InstallAllOrNothing(r, c);
      }
      RunGrows(init, c, cs, r, Install(r, c).0);
    }
  }

  /** The last command of a run, added to what the earlier ones left. */
  lemma RunGrows(init: seq<Command>, c: Command, cs: seq<Command>, r: Rules, r': Rules)
    requires cs == init + [c]
    requires forall i | 0 <= i < |init| :: AcceptedAt(NO_RULES, cs, i) <==> AcceptedAt(NO_RULES, init, i)
    requires forall d :: d in r.destinations <==>
               exists i | 0 <= i < |init| :: AcceptedAt(NO_RULES, init, i) && init[i].candidate == Some(d)
    requires forall h :: h in r.hostnames <==>
               exists i | 0 <= i < |init| :: AcceptedAt(NO_RULES, init, i) && h in HostRule(init[i])
    requires if AcceptedAt(NO_RULES, cs, |init|) then
               && (forall d :: d in r'.destinations <==> d in r.destinations || c.candidate == Some(d))
               && (forall h :: h in r'.hostnames <==> h in r.hostnames || h in HostRule(c))
             else r' == r
    ensures forall d :: d in r'.destinations <==>
              exists i | 0 <= i < |cs| :: AcceptedAt(NO_RULES, cs, i) && cs[i].candidate == Some(d)
    ensures forall h :: h in r'.hostnames <==>
              exists i | 0 <= i < |cs| :: AcceptedAt(NO_RULES, cs, i) && h in HostRule(cs[i])
  {
    hide AcceptedAt, HostRule;
    assert forall i | 0 <= i < |init| :: init[i] == cs[i];
    assert cs[|init|] == c;
  }

  lemma {:induction false} InstallAllAppend(r: Rules, cs: seq<Command>, c: Command)
    ensures InstallAll(r, cs + [c]) == Install(InstallAll(r, cs), c).0
    decreases |cs|
  {
    if cs == [] {
      assert [] + [c] == [c];
    } else {
      assert (cs + [c])[1..] == cs[1..] + [c];
      InstallAllAppend(Install(r, cs[0]).0, cs[1..], c);
    }
  }

  lemma {:induction false} InstallsOnlyAppend(r: Rules, cs: seq<Command>)
    requires LegalRules(r)
    ensures LegalRules(InstallAll(r, cs))
    ensures r.destinations <= InstallAll(r, cs).destinations && r.hostnames <= InstallAll(r, cs).hostnames
    decreases |cs|
  {
    if cs != [] {
      InstallKeepsLegal(r, cs[0]);
      InstallsOnlyAppend(Install(r, cs[0]).0, cs[1..]);
    }
  }

  /** Over any further run of commands, whatever is blocked stays blocked. */
  lemma BlockedForever(r: Rules, cs: seq<Command>, destination: U32, host: seq<Byte>)
    requires LegalRules(r)
    ensures destination in r.destinations ==> destination in InstallAll(r, cs).destinations
    ensures Blocked(r.hostnames, host) ==> Blocked(InstallAll(r, cs).hostnames, host)
  {
    InstallsOnlyAppend(r, cs);
    var r' := InstallAll(r, cs);
    if destination in r.destinations {
      var i :| 0 <= i < |r.destinations| && r.destinations[i] == destination;
      assert r'.destinations[i] == destination;
    }
    if Blocked(r.hostnames, host) {
      BlockedMonotone(r.hostnames, r'.hostnames, host);
    }
  }

  // ----- the tables -----

  /** A normal form has no NUL, so the terminated buffer reads back as it. */
  lemma NormalText(host: seq<Byte>, buffer: seq<Byte>)
    requires Normal(host).Some?
    requires var n := Normal(host).value; |n| < |buffer| && buffer[..|n|] == n && buffer[|n|] == 0
    ensures UpToNul(buffer) == Normal(host).value
  {
    var n := Normal(host).value;
    LegalNoNul(Strip(host));
    assert forall i | 0 <= i < |n| :: buffer[i] == buffer[..|n|][i] == LowerByte(Strip(host)[i]);
    UpToNulIs(buffer, |n|);
  }

  class RuleTable {
    const blockedDestinations: array<U32>
    var destinationCount: nat
    const blockedHostnames: array<seq<Byte>>
    var hostnameCount: nat

    ghost function Repr(): set<object> {
      {this, blockedDestinations, blockedHostnames}
    }

    ghost predicate Valid()
      reads Repr()
    {
      && blockedDestinations.Length == CAPACITY && destinationCount <= CAPACITY
      && blockedHostnames.Length == CAPACITY && hostnameCount <= CAPACITY
      && LegalRules(View())
    }

    ghost function View(): Rules
      reads this, blockedDestinations, blockedHostnames
      requires destinationCount <= blockedDestinations.Length && hostnameCount <= blockedHostnames.Length
    {
      Rules(blockedDestinations[..destinationCount], blockedHostnames[..hostnameCount])
    }

    constructor ()
      ensures Valid() && fresh(Repr()) && View() == NO_RULES
    {
      blockedDestinations := new U32[CAPACITY](_ => 0);
      blockedHostnames := new seq<Byte>[CAPACITY](_ => []);
      destinationCount, hostnameCount := 0, 0;
    }

    method FindDestination(d: U32) returns (found: bool)
      requires Valid()
      ensures found == (d in View().destinations)
    {
      for i := 0 to destinationCount
        invariant d !in blockedDestinations[..i]
      {
        if blockedDestinations[i] == d {
          assert View().destinations[i] == d;
          return true;
        }
      }
      found := false;
    }

    method FindHostname(h: seq<Byte>) returns (found: bool)
      requires Valid()
      ensures found == (h in View().hostnames)
    {
      for i := 0 to hostnameCount
        invariant h !in blockedHostnames[..i]
      {
        if blockedHostnames[i] == h {
          assert View().hostnames[i] == h;
          return true;
        }
      }
      found := false;
    }

    /** normalize_hostname into a local buffer. */
    static method Normalize(host: seq<Byte>) returns (name: Option<seq<Byte>>)
      ensures name == Normal(host)
    {
      var buffer := new Byte[HOSTNAME_SIZE](_ => 0);
      var ok := NormalizeHostname(host, buffer);
      if !ok {
        return None;
      }
      NormalText(host, buffer[..]);
      name := Some(UpToNul(buffer[..]));
    }

    /** access_filter_block_traffic. */
    method BlockTraffic(c: Command) returns (e: InstallError)
      requires Valid()
      modifies Repr()
      ensures Valid()
      ensures (View(), e) == Install(old(View()), c)
    {
      InstallKeepsLegal(View(), c);
      if !c.destinationGiven {
        return InvalidArg;
      }
      if !c.started {
        return InvalidState;
      }
      if c.candidate.None? {
        return InvalidArg;
      }
      var d := c.candidate.value;
      var hasHostname := c.sni != [];
      var hostname := [];
      if hasHostname {
        var name := Normalize(c.sni);
        if name.None? {
          return InvalidArg;
        }
        hostname := name.value;
      }
      var ipv4Exists := FindDestination(d);
      var hostnameExists := true;
      if hasHostname {
        hostnameExists := FindHostname(hostname);
      }
      var ipv4Full := !ipv4Exists && destinationCount >= CAPACITY;
      var hostnameFull := !hostnameExists && hostnameCount >= CAPACITY;
      if ipv4Full || hostnameFull {
        return NoMemory;
      }
      Append(d, ipv4Exists, hostname, hostnameExists);
      e := Ok;
    }

    /** The writes of a rule install, once both tables are known to have room. */
    method Append(d: U32, ipv4Exists: bool, hostname: seq<Byte>, hostnameExists: bool)
      requires blockedDestinations.Length == CAPACITY && blockedHostnames.Length == CAPACITY
      requires destinationCount + (if ipv4Exists then 0 else 1) <= CAPACITY
      requires hostnameCount + (if hostnameExists then 0 else 1) <= CAPACITY
      modifies Repr()
      ensures destinationCount <= CAPACITY && hostnameCount <= CAPACITY
      ensures var r := old(View());
              View() == Rules(if ipv4Exists then r.destinations else r.destinations + [d],
                              if hostnameExists then r.hostnames else r.hostnames + [hostname])
    {
      if !ipv4Exists {
        blockedDestinations[destinationCount] := d;
        destinationCount := destinationCount + 1;
      }
      if !hostnameExists {
        blockedHostnames[hostnameCount] := hostname;
        hostnameCount := hostnameCount + 1;
      }
    }

    twostate predicate Grown()
      requires old(Valid()) && Valid()
      reads Repr()
    {
      old(View()).destinations <= View().destinations && old(View()).hostnames <= View().hostnames
    }

    /** Rule installs by another task. */
    method OtherInstalls()
      requires Valid()
      modifies Repr()
      ensures Valid() && Grown()
    {
      var n: nat :| n >= 0;
      for i := 0 to n
        invariant Valid() && Grown()
      {
        var c: Command := *;
        InstallAllOrNothing(View(), c);
        var e := BlockTraffic(c);
      }
    }

    /** is_destination_ipv4_blocked: the count is read under the lock, the entries without it, while
        other tasks may install rules; the answer is for the table as it stood at the count. */
    method IsDestinationBlocked(d: U32) returns (blocked: bool)
      requires Valid()
      modifies Repr()
      ensures Valid() && Grown()
      ensures blocked == (d in old(View().destinations))
    {
      ghost var snapshot := View().destinations;
      var count := destinationCount;
      for i := 0 to count
        invariant Valid() && Grown() && d !in snapshot[..i]
      {
        OtherInstalls();
        assert View().destinations[i] == snapshot[i];
        if blockedDestinations[i] == d {
          return true;
        }
        assert snapshot[..i + 1] == snapshot[..i] + [snapshot[i]];
      }
      assert snapshot[..count] == snapshot;
      blocked := false;
    }

    /** The part of access_filter_is_hostname_blocked under the rule lock. */
    method ScanHostnames(name: seq<Byte>) returns (blocked: bool)
      requires Valid()
      ensures blocked == exists i | 0 <= i < |View().hostnames| :: Matches(name, View().hostnames[i])
    {
      ghost var rules := View().hostnames;
      for i := 0 to hostnameCount
        invariant forall j | 0 <= j < i :: !Matches(name, rules[j])
      {
        var rule := blockedHostnames[i];
        assert rule == rules[i];
        if Matches(name, rule) {
          return true;
        }
      }
      blocked := false;
    }

    /** access_filter_is_hostname_blocked, when no rule is installed meanwhile. */
    method IsHostnameBlocked(host: seq<Byte>) returns (blocked: bool)
      requires Valid()
      ensures blocked == Blocked(View().hostnames, host)
    {
      if hostnameCount == 0 {
        return false;
      }
      var name := Normalize(host);
      if name.None? {
        return true;
      }
      blocked := ScanHostnames(name.value);
    }

    /** The same with rules being installed between its two critical sections: the answer is the
        policy of one table between entry and exit. */
    method IsHostnameBlockedMeanwhile(host: seq<Byte>) returns (blocked: bool, ghost names: seq<seq<Byte>>)
      requires Valid()
      modifies Repr()
      ensures Valid() && Grown()
      ensures old(View().hostnames) <= names <= View().hostnames
      ensures blocked == Blocked(names, host)
    {
      names := View().hostnames;
      if hostnameCount == 0 {
        return false, names;
      }
      var name := Normalize(host);
      if name.None? {
        return true, names;
      }
      OtherInstalls();
      names := View().hostnames;
      blocked := ScanHostnames(name.value);
    }
  }

  // ----- the lock-free destination scan -----

  /** A writer holds the lock while `pending` (cell written, count not yet raised); the reader
      took the lock once to read the count, then compares cells without it. */
  datatype Scan = Scan(
    cells: seq<U32>, count: nat, pending: bool,
    target: U32, seen: Option<nat>, next: nat, answer: Option<bool>)

  datatype ScanStep = WriteCell(d: U32) | Publish | ReadCount | Compare

  predicate Enabled(s: Scan, step: ScanStep) {
    match step
    case WriteCell(_) => !s.pending && s.count < |s.cells|
    case Publish => s.pending && s.count < |s.cells|
    case ReadCount => !s.pending && s.seen.None?
    case Compare => s.seen.Some? && s.answer.None? && s.seen.value <= |s.cells|
  }

  function Next(s: Scan, step: ScanStep): Scan
    requires Enabled(s, step)
  {
    match step
    case WriteCell(d) => s.(cells := s.cells[s.count := d], pending := true)
    case Publish => s.(count := s.count + 1, pending := false)
    case ReadCount => s.(seen := Some(s.count), next := 0)
    case Compare =>
      if s.next >= s.seen.value then s.(answer := Some(false))
      else if s.cells[s.next] == s.target then s.(answer := Some(true))
      else s.(next := s.next + 1)
  }

  /** Runs of the interleaving that start before the count is read. */
  ghost predicate ScanRun(s: Scan, steps: seq<ScanStep>, s': Scan)
    decreases |steps|
  {
    if steps == [] then s' == s else Enabled(s, steps[0]) && ScanRun(Next(s, steps[0]), steps[1..], s')
  }

  /** A write and its publication append one entry, whatever the reader does in between; a scan under way can
      always go on. */
  lemma PublishAppends(s: Scan, d: U32)
    requires Enabled(s, WriteCell(d))
    ensures Enabled(Next(s, WriteCell(d)), Publish)
    ensures var w := Next(s, WriteCell(d));
            var p := Next(w, Publish);
            && !Enabled(w, ReadCount) && w.count == s.count
            && p.count == s.count + 1 && p.cells[..p.count] == s.cells[..s.count] + [d] && !p.pending
            && (s.seen.Some? && s.answer.None? && s.seen.value <= |s.cells| ==>
                  Enabled(w, Compare) && Enabled(p, Compare))
  {
  }

  /** `snapshot` is the table at the locked count read. */
  ghost predicate ScanInv(s: Scan, snapshot: seq<U32>) {
    && s.count + (if s.pending then 1 else 0) <= |s.cells|
    && (s.seen.Some? ==>
          && s.seen.value == |snapshot| <= s.count && s.cells[..|snapshot|] == snapshot
          && s.next <= |snapshot|
          && (s.answer.None? ==> s.target !in snapshot[..s.next])
          && (s.answer.Some? ==> (s.answer.value <==> s.target in snapshot)))
    && (s.seen.None? ==> s.answer.None?)
  }

  lemma {:induction false} ScanKeeps(s: Scan, steps: seq<ScanStep>, s': Scan, snapshot: seq<U32>)
    requires ScanRun(s, steps, s') && ScanInv(s, snapshot) && s.seen.Some?
    ensures ScanInv(s', snapshot) && s'.seen == s.seen && s'.target == s.target
    decreases |steps|
  {
    if steps != [] {
      var n := Next(s, steps[0]);
      if steps[0].WriteCell? {
        assert n.cells[..|snapshot|] == s.cells[..|snapshot|];
      }
      if steps[0].Compare? && s.next < |snapshot| {
        assert s.cells[s.next] == s.cells[..|snapshot|][s.next];
        assert snapshot[..s.next + 1] == snapshot[..s.next] + [snapshot[s.next]];
      }
      if steps[0].Compare? && s.next == |snapshot| {
        assert snapshot[..s.next] == snapshot;
      }
      ScanKeeps(n, steps[1..], s', snapshot);
    }
  }

  /** Whatever appends run alongside, the scan answers membership in the table as it stood when
      the count was read. */
  lemma ScanIsSnapshotMembership(s: Scan, steps: seq<ScanStep>, s': Scan)
    requires s.seen.None? && Enabled(s, ReadCount) && s.answer.None? && s.count <= |s.cells|
    requires ScanRun(Next(s, ReadCount), steps, s') && s'.answer.Some?
    ensures s'.answer.value <==> s.target in s.cells[..s.count]
  {
    var r := Next(s, ReadCount);
    ScanKeeps(r, steps, s', s.cells[..s.count]);
  }
}
