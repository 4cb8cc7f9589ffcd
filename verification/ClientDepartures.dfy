/** The departure events over whole runs of the client table: who is reported, as what, and in which
    order. */
module ClientDepartures {
  import opened Bytes
  import opened ClientSpec
  import opened ClientTables
  import opened ClientTime

  /** A table event, or the delivery of a waiting departure. */
  datatype Happening = Occurs(t: Timed) | Delivery

  datatype World = World(es: seq<Entry>, q: Queueing)

  function Happen(w: World, x: Happening): World {
    match x
    case Delivery => w.(q := Deliver(w.q))
    case Occurs(t) =>
      var d := if t.event.Left? then Leave(w.es, t.event.mac).1 else None;
      World(Answer(w.es, t).0, if d.Some? then Depart(w.q, d.value) else w.q)
  }

  /** From the empty table of `n` slots and an empty queue of `n` places. */
  function After(n: nat, xs: seq<Happening>): World
    decreases |xs|
  {
    if xs == [] then World(EmptyTable(n), Queueing(n, [], [], []))
    else Happen(After(n, xs[..|xs| - 1]), xs[|xs| - 1])
  }

  function Events(xs: seq<Happening>): seq<Timed>
    decreases |xs|
  {
    if xs == [] then []
    else Events(xs[..|xs| - 1]) + if xs[|xs| - 1].Occurs? then [xs[|xs| - 1].t] else []
  }

  lemma {:induction false} TableAfter(n: nat, xs: seq<Happening>)
    ensures After(n, xs).es == ClientSpec.After(EmptyTable(n), Events(xs))
    ensures TableInv(After(n, xs).es)
    decreases |xs|
  {
    if xs != [] {
      var init, x := xs[..|xs| - 1], xs[|xs| - 1];
      TableAfter(n, init);
      if x.Occurs? {
        AfterAppend(EmptyTable(n), Events(init), [x.t]);
        AnswerKeepsInv(After(n, init).es, x.t);
        assert [x.t][1..] == [];
      } else {
        assert Events(xs) == Events(init);
      }
    }
  }

  /** What is to be reported of a client that leaves after the events `ts`: AUTHORIZED and the session of
      its last command if it still is authorized, else UNAUTHORIZED without a session. */
  ghost predicate Reports(n: nat, ts: seq<Timed>, mac: Mac, d: Departure) {
    && d.mac == mac
    && (if exists i | 0 <= i < n :: AuthorizedAt(n, ts, i, mac) then
          d.access == Authorized && exists k, g :: Granted(ts, k, mac, g) && g.session == d.session
        else d.access == Unauthorized && d.session == 0)
  }

  predicate AuthorizedAt(n: nat, ts: seq<Timed>, i: nat, mac: Mac) {
    var es := ClientSpec.After(EmptyTable(n), ts);
    i < |es| && es[i].inUse && es[i].mac == mac && es[i].access == Authorized
  }

  predicate Removes(n: nat, xs: seq<Happening>, x: Happening) {
    x.Occurs? && x.t.event.Left? && Tracked(After(n, xs).es, x.t.event.mac)
  }

  /** One removal for every tracked client that leaves, in order, each reported as it was when it left and
      queued exactly when the queue had room then. */
  ghost predicate Accounts(n: nat, xs: seq<Happening>, rs: seq<Removal>)
    decreases |xs|
  {
    if xs == [] then rs == []
    else
      var init, x := xs[..|xs| - 1], xs[|xs| - 1];
      if !Removes(n, init, x) then Accounts(n, init, rs)
      else
        && rs != [] && Accounts(n, init, rs[..|rs| - 1])
        && Reports(n, Events(init), x.t.event.mac, rs[|rs| - 1].departure)
        && (rs[|rs| - 1].queued <==> |After(n, init).q.waiting| < n)
  }

  lemma {:induction false} SlotCount(es: seq<Entry>, ts: seq<Timed>)
    ensures |ClientSpec.After(es, ts)| == |es|
    decreases |ts|
  {
    if ts != [] {
      SameSlots(es, ts[0]);
      SlotCount(Answer(es, ts[0]).0, ts[1..]);
    }
  }

  /** The snapshot taken when a client leaves. */
  lemma LeaveReports(n: nat, ts: seq<Timed>, mac: Mac)
    requires var es := ClientSpec.After(EmptyTable(n), ts); TableInv(es) && Tracked(es, mac)
    ensures var d := Leave(ClientSpec.After(EmptyTable(n), ts), mac).1; d.Some? && Reports(n, ts, mac, d.value)
  {
    hide Granted, ClientSpec.After;
    var es := ClientSpec.After(EmptyTable(n), ts);
    SlotCount(EmptyTable(n), ts);
    var i := FindMac(es, mac, 0).value;
    InUse(es, i);
    if es[i].access == Authorized {
      assert AuthorizedAt(n, ts, i, mac);
      var k, g := GrantFound(n, ts, i);
    } else {
      OthersDiffer(es, i);
      assert forall j | 0 <= j < n :: !AuthorizedAt(n, ts, j, mac);
    }
  }

  lemma HappenAccounts(n: nat, xs: seq<Happening>, x: Happening)
    requires Accounts(n, xs, After(n, xs).q.removals) && After(n, xs).q.capacity == n
    ensures var q := Happen(After(n, xs), x).q; Accounts(n, xs + [x], q.removals) && q.capacity == n
  {
    hide Reports, Events, After, TableInv;
    var ys, w := xs + [x], After(n, xs);
    assert ys[..|ys| - 1] == xs;
    TableAfter(n, xs);
    if Removes(n, xs, x) {
      LeaveReports(n, Events(xs), x.t.event.mac);
      var rs := Happen(w, x).q.removals;
      assert rs[..|rs| - 1] == w.q.removals;
    } else if x.Occurs? && x.t.event.Left? {
      Untracked(w.es, x.t.event.mac);
    }
  }

  lemma Untracked(es: seq<Entry>, mac: Mac)
    requires !Tracked(es, mac)
    ensures Leave(es, mac) == (es, None)
  {
  }

  /** Over any run of table events and deliveries: delivered departures followed by waiting ones are the
      removals that found room, in order; and there is one removal for each tracked client that leaves,
      with the state and session it had. */
  lemma {:induction false} DeparturesInOrder(n: nat, xs: seq<Happening>)
    ensures var q := After(n, xs).q;
            && q.delivered + q.waiting == Kept(q.removals) && |q.waiting| <= n == q.capacity
            && Accounts(n, xs, q.removals)
    decreases |xs|
  {
    if xs != [] {
      hide Accounts, Leave, Answer, Kept;
      var init, x := xs[..|xs| - 1], xs[|xs| - 1];
      DeparturesInOrder(n, init);
      var w := After(n, init);
      assert init + [x] == xs;
      HappenAccounts(n, init, x);
      QueueKeeps(w, x);
    } else {
      assert Kept([]) == [];
    }
  }

  lemma QueueKeeps(w: World, x: Happening)
    requires w.q.delivered + w.q.waiting == Kept(w.q.removals) && |w.q.waiting| <= w.q.capacity
    ensures var q := Happen(w, x).q;
            q.delivered + q.waiting == Kept(q.removals) && |q.waiting| <= q.capacity == w.q.capacity
  {
    hide Kept, Answer;
    if x.Delivery? {
      if w.q.waiting != [] {
        DeliverKeeps(w.q);
      }
    } else if x.t.event.Left? && Leave(w.es, x.t.event.mac).1.Some? {
      DepartKeeps(w.q, Leave(w.es, x.t.event.mac).1.value);
    }
  }
}
