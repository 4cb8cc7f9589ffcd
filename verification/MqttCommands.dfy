/** Reassembly of one MQTT command from its data fragments. */
module MqttCommands {
  import opened Bytes

  const TOPIC_SIZE := 128
  const PAYLOAD_SIZE := 2048

  /** One MQTT_EVENT_DATA: None stands for a null pointer or a negative length. */
  datatype Fragment = Fragment(topic: Option<seq<Byte>>, data: Option<seq<Byte>>, total: int, offset: int)

  datatype Message = Message(topic: seq<Byte>, payload: seq<Byte>)

  /** A command being assembled; `expected` is 0 when there is none. */
  datatype Assembly = Assembly(topic: seq<Byte>, payload: seq<Byte>, expected: nat)

  const IDLE := Assembly([], [], 0)

  predicate Opens(f: Fragment) {
    f.topic.Some? && 0 < |f.topic.value| < TOPIC_SIZE && f.total < PAYLOAD_SIZE
  }

  /** handle_mqtt_data: the new state and what the handler is called with. */
  function Step(a: Assembly, f: Fragment): (Assembly, Option<Message>) {
    if f.data.None? || f.total <= 0 || f.offset < 0 then (IDLE, None)
    else if f.offset == 0 && !Opens(f) then (IDLE, None)
    else
      var b := if f.offset == 0 then Assembly(f.topic.value, [], f.total) else a;
      if b.expected == 0 || f.offset != |b.payload| || f.offset + |f.data.value| > b.expected then (IDLE, None)
      else
        var p := b.payload + f.data.value;
        if |p| == b.expected then (IDLE, Some(Message(UpToNul(b.topic), p)))
        else (b.(payload := p), None)
  }

  function After(a: Assembly, fs: seq<Fragment>): Assembly
    decreases |fs|
  {
    if fs == [] then a else Step(After(a, fs[..|fs| - 1]), fs[|fs| - 1]).0
  }

  function Calls(a: Assembly, fs: seq<Fragment>): seq<Message>
    decreases |fs|
  {
    if fs == [] then []
    else
      var last := Step(After(a, fs[..|fs| - 1]), fs[|fs| - 1]).1;
      Calls(a, fs[..|fs| - 1]) + if last.Some? then [last.value] else []
  }

  function Joined(fs: seq<Fragment>): seq<Byte>
    decreases |fs|
  {
    if fs == [] then []
    else Joined(fs[..|fs| - 1]) + if fs[|fs| - 1].data.Some? then fs[|fs| - 1].data.value else []
  }

  /** Consecutive fragments, the first at offset 0 with a topic of 1 to 127 bytes and an announced total of
      1 to 2047, all within that total, which only the last may reach. */
  predicate Run(fs: seq<Fragment>)
    decreases |fs|
  {
    && fs != [] && fs[|fs| - 1].data.Some? && |Joined(fs)| <= fs[0].total
    && (if |fs| == 1 then
          fs[0].offset == 0 && fs[0].topic.Some? && 1 <= |fs[0].topic.value| <= 127 && 1 <= fs[0].total <= 2047
        else
          && Run(fs[..|fs| - 1]) && |Joined(fs[..|fs| - 1])| < fs[0].total
          && fs[|fs| - 1].offset == |Joined(fs[..|fs| - 1])| > 0 && fs[|fs| - 1].total > 0)
  }

  /** The history ends in a run from fragment `j` on, still short of its total. */
  predicate Pending(fs: seq<Fragment>, j: nat) {
    j < |fs| && Run(fs[j..]) && |Joined(fs[j..])| < fs[j].total
  }

  /** It ends in a whole run from fragment `j` on, which spells the message. */
  predicate Completes(fs: seq<Fragment>, j: nat, m: Message) {
    && j < |fs| && Run(fs[j..]) && |Joined(fs[j..])| == fs[j].total && fs[j].topic.Some?
    && m == Message(UpToNul(fs[j].topic.value), Joined(fs[j..]))
  }

  lemma RunShape(fs: seq<Fragment>)
    requires Run(fs)
    ensures fs[0].topic.Some? && fs[0].total > 0 && fs[|fs| - 1].data.Some?
    decreases |fs|
  {
    if |fs| > 1 {
      RunShape(fs[..|fs| - 1]);
    }
  }

  lemma JoinedOne(f: Fragment)
    requires f.data.Some?
    ensures Joined([f]) == f.data.value
  {
    assert [f][..0] == [];
  }

  /** A fragment that continues the history's run. */
  lemma ContinuesRun(fs: seq<Fragment>, f: Fragment, j: nat)
    requires j < |fs|
    ensures var gs := fs + [f];
            && gs[j..] == fs[j..] + [f] && gs[j..][..|gs[j..]| - 1] == fs[j..]
            && Joined(gs[j..]) == Joined(fs[j..]) + if f.data.Some? then f.data.value else []
  {
    var gs := fs + [f];
    assert gs[j..] == fs[j..] + [f];
    assert gs[j..][..|gs[j..]| - 1] == fs[j..];
  }

  /** What a fragment makes of the history so far: a call exactly of a run that it completes, and a command
      in assembly exactly when it leaves one pending. */
  lemma FragmentTaken(a: Assembly, fs: seq<Fragment>, f: Fragment)
    requires a.expected > 0 ==> exists j: nat :: Holds(a, fs, j)
    ensures var (b, call) := Step(a, f);
            && (b.expected > 0 ==> exists j: nat :: Holds(b, fs + [f], j))
            && (call.Some? ==> exists j: nat :: Completes(fs + [f], j, call.value))
  {
    var gs := fs + [f];
    var (b, call) := Step(a, f);
    if b.expected > 0 || call.Some? {
      if f.offset == 0 {
        assert gs[|fs|..] == [f];
        JoinedOne(f);
        assert if call.Some? then Completes(gs, |fs|, call.value) else Holds(b, gs, |fs|);
      } else {
        var j: nat :| Holds(a, fs, j);
        RunShape(fs[j..]);
        ContinuesRun(fs, f, j);
        assert if call.Some? then Completes(gs, j, call.value) else Holds(b, gs, j);
      }
    }
  }

  /** The command in assembly is the pending run from fragment `j` on. */
  predicate Holds(a: Assembly, fs: seq<Fragment>, j: nat) {
    Pending(fs, j) && fs[j].topic == Some(a.topic) && a.payload == Joined(fs[j..]) && a.expected == fs[j].total
  }

  /** What bytes of a command of `total` bytes come to. */
  function Outcome(topic: seq<Byte>, bytes: seq<Byte>, total: nat): (Assembly, Option<Message>) {
    if |bytes| < total then (Assembly(topic, bytes, total), None) else (IDLE, Some(Message(UpToNul(topic), bytes)))
  }

  lemma ContinuationTaken(topic: seq<Byte>, before: seq<Byte>, total: nat, f: Fragment)
    requires f.data.Some? && f.total > 0 && f.offset == |before| > 0
    requires |before| < total && |before| + |f.data.value| <= total
    ensures Step(Outcome(topic, before, total).0, f) == Outcome(topic, before + f.data.value, total)
  {
  }

  lemma OpeningTaken(a: Assembly, fs: seq<Fragment>, j: nat)
    requires j + 1 == |fs| && Run(fs[j..])
    ensures fs[j].topic.Some? && Step(a, fs[j]) == Outcome(fs[j].topic.value, Joined(fs[j..]), fs[j].total)
  {
    assert fs[j..] == [fs[j]];
    RunShape(fs[j..]);
    JoinedOne(fs[j]);
  }

  /** The last fragment of a longer run. */
  lemma LastContinues(fs: seq<Fragment>, j: nat)
    requires j + 1 < |fs| && Run(fs[j..])
    ensures var init, f := fs[..|fs| - 1], fs[|fs| - 1];
            && Run(init[j..]) && f.data.Some? && f.total > 0
            && f.offset == |Joined(init[j..])| > 0 && |Joined(init[j..])| < fs[j].total
            && Joined(fs[j..]) == Joined(init[j..]) + f.data.value && |Joined(fs[j..])| <= fs[j].total
  {
    var init, f := fs[..|fs| - 1], fs[|fs| - 1];
    assert fs == init + [f];
    RunShape(fs[j..]);
    ContinuesRun(init, f, j);
  }

  lemma AfterLast(a: Assembly, fs: seq<Fragment>)
    requires fs != []
    ensures After(a, fs) == Step(After(a, fs[..|fs| - 1]), fs[|fs| - 1]).0
  {
  }

  /** From any state: a run at the end of the history is what is in assembly, and the last fragment of a whole
      one makes the call. */
  lemma {:induction false} RunAssembles(a: Assembly, fs: seq<Fragment>, j: nat)
    requires j < |fs| && Run(fs[j..])
    ensures fs[j].topic.Some? && fs[j].total > 0
    ensures Step(After(a, fs[..|fs| - 1]), fs[|fs| - 1]) == Outcome(fs[j].topic.value, Joined(fs[j..]), fs[j].total)
    decreases |fs|
  {
    RunShape(fs[j..]);
    if j == |fs| - 1 {
      OpeningTaken(After(a, fs[..|fs| - 1]), fs, j);
    } else {
      hide Run, Step, Outcome, After;
      LastContinues(fs, j);
      RunAssembles(a, fs[..|fs| - 1], j);
      AfterLast(a, fs[..|fs| - 1]);
      ContinuationTaken(fs[j].topic.value, Joined(fs[..|fs| - 1][j..]), fs[j].total, fs[|fs| - 1]);
    }
  }

  lemma {:induction false} AssemblyIsRun(fs: seq<Fragment>)
    ensures After(IDLE, fs).expected > 0 ==> exists j: nat :: Holds(After(IDLE, fs), fs, j)
    decreases |fs|
  {
    if fs != [] {
      var init, f := fs[..|fs| - 1], fs[|fs| - 1];
      assert init + [f] == fs;
      AssemblyIsRun(init);
      FragmentTaken(After(IDLE, init), init, f);
    }
  }

  /** In any event sequence the handler is called exactly when the fragments so far end in a whole run, and
      then with the join of that run under its topic. */
  lemma CallsAreRuns(fs: seq<Fragment>, f: Fragment, m: Message)
    ensures Step(After(IDLE, fs), f).1 == Some(m) <==> exists j: nat :: Completes(fs + [f], j, m)
  {
    var gs := fs + [f];
    assert gs[..|gs| - 1] == fs && gs[|gs| - 1] == f;
    AssemblyIsRun(fs);
    FragmentTaken(After(IDLE, fs), fs, f);
    if j: nat :| Completes(gs, j, m) {
      RunAssembles(IDLE, gs, j);
    }
  }

  // ----- delivery -----

  /** A payload cut into consecutive non-empty fragments, the topic on the first. */
  function Cut(topic: seq<Byte>, total: nat, offset: nat, pieces: seq<seq<Byte>>): seq<Fragment>
    decreases |pieces|
  {
    if pieces == [] then []
    else Cut(topic, total, offset, pieces[..|pieces| - 1])
         + [Fragment(if |pieces| == 1 then Some(topic) else None, Some(pieces[|pieces| - 1]), total,
                     offset + |Whole(pieces[..|pieces| - 1])|)]
  }

  function Whole(pieces: seq<seq<Byte>>): seq<Byte>
    decreases |pieces|
  {
    if pieces == [] then [] else Whole(pieces[..|pieces| - 1]) + pieces[|pieces| - 1]
  }

  /** The state and the calls after the pieces so far. */
  predicate Assembled(a: Assembly, topic: seq<Byte>, total: nat, pieces: seq<seq<Byte>>) {
    var fs := Cut(topic, total, 0, pieces);
    if |Whole(pieces)| < total then After(a, fs) == Assembly(topic, Whole(pieces), total) && Calls(a, fs) == []
    else After(a, fs) == IDLE && Calls(a, fs) == [Message(UpToNul(topic), Whole(pieces))]
  }

  lemma PieceTaken(b: Assembly, topic: seq<Byte>, total: nat, before: seq<Byte>, piece: seq<Byte>)
    requires 0 < |topic| < TOPIC_SIZE && 0 < total < PAYLOAD_SIZE && piece != [] && |before| + |piece| <= total
    requires before != [] ==> b == Assembly(topic, before, total)
    ensures var f := Fragment(if before == [] then Some(topic) else None, Some(piece), total, |before|);
            Step(b, f) == if |before| + |piece| == total then (IDLE, Some(Message(UpToNul(topic), before + piece)))
                          else (Assembly(topic, before + piece, total), None)
  {
  }

  lemma {:induction false} CutAssembles(a: Assembly, topic: seq<Byte>, total: nat, pieces: seq<seq<Byte>>)
    requires 0 < |topic| < TOPIC_SIZE && 0 < total < PAYLOAD_SIZE && pieces != []
    requires forall i | 0 <= i < |pieces| :: pieces[i] != []
    requires |Whole(pieces)| <= total
    ensures Assembled(a, topic, total, pieces)
    decreases |pieces|
  {
    var init, piece := pieces[..|pieces| - 1], pieces[|pieces| - 1];
    var gs := Cut(topic, total, 0, init);
    var f := Fragment(if |pieces| == 1 then Some(topic) else None, Some(piece), total, |Whole(init)|);
    assert pieces[|pieces| - 1] != [];
    if |pieces| > 1 {
      assert forall i | 0 <= i < |init| :: init[i] == pieces[i];
      WholeNonEmpty(init);
      CutAssembles(a, topic, total, init);
    }
    assert Calls(a, gs) == [];
    PieceTaken(After(a, gs), topic, total, Whole(init), piece);
    StepOn(a, gs, f);
    assert Cut(topic, total, 0, pieces) == gs + [f];
  }

  lemma StepOn(a: Assembly, fs: seq<Fragment>, f: Fragment)
    ensures var (b, call) := Step(After(a, fs), f);
            && After(a, fs + [f]) == b
            && Calls(a, fs + [f]) == Calls(a, fs) + if call.Some? then [call.value] else []
  {
  }

  lemma WholeNonEmpty(pieces: seq<seq<Byte>>)
    requires pieces != [] && forall i | 0 <= i < |pieces| :: pieces[i] != []
    ensures Whole(pieces) != []
  {
  }

  /** From whatever state, a command that fits is delivered once and intact however it is cut. */
  lemma DeliveredIntact(a: Assembly, topic: seq<Byte>, pieces: seq<seq<Byte>>)
    requires 0 < |topic| < TOPIC_SIZE && 0 !in topic
    requires forall i | 0 <= i < |pieces| :: pieces[i] != []
    requires 0 < |Whole(pieces)| < PAYLOAD_SIZE
    ensures Calls(a, Cut(topic, |Whole(pieces)|, 0, pieces)) == [Message(topic, Whole(pieces))]
    ensures After(a, Cut(topic, |Whole(pieces)|, 0, pieces)) == IDLE
  {
    CutAssembles(a, topic, |Whole(pieces)|, pieces);
    UpToNulWhole(topic);
  }

  lemma {:induction false} UpToNulWhole(s: seq<Byte>)
    requires 0 !in s
    ensures UpToNul(s) == s
    decreases |s|
  {
    if s != [] {
      UpToNulWhole(s[1..]);
    }
  }

  // ----- the buffers -----

  class CommandBuffer {
    const incomingTopic: array<Byte>
    const incomingPayload: array<Byte>
    var incomingExpected: nat
    var incomingReceived: nat
    ghost var topicLength: nat

    ghost function Repr(): set<object> {
      {this, incomingTopic, incomingPayload}
    }

    ghost predicate Valid()
      reads Repr()
    {
      && incomingTopic.Length == TOPIC_SIZE && incomingPayload.Length == PAYLOAD_SIZE
      && incomingTopic != incomingPayload
      && incomingReceived <= incomingExpected < PAYLOAD_SIZE && topicLength < TOPIC_SIZE
      && (incomingExpected > 0 ==> incomingReceived < incomingExpected && incomingTopic[topicLength] == 0)
      && (incomingExpected == 0 ==> topicLength == 0)
    }

    ghost function View(): Assembly
      reads Repr()
      requires Valid()
    {
      Assembly(incomingTopic[..topicLength], incomingPayload[..incomingReceived], incomingExpected)
    }

    constructor ()
      ensures Valid() && View() == IDLE && fresh(Repr())
    {
      incomingTopic := new Byte[TOPIC_SIZE](_ => 0);
      incomingPayload := new Byte[PAYLOAD_SIZE](_ => 0);
      incomingExpected, incomingReceived, topicLength := 0, 0, 0;
    }

    /** reset_incoming_command. */
    method Reset()
      requires incomingTopic.Length == TOPIC_SIZE && incomingPayload.Length == PAYLOAD_SIZE
      requires incomingTopic != incomingPayload
      modifies Repr()
      ensures Valid() && View() == IDLE
    {
      incomingTopic[0] := 0;
      incomingPayload[0] := 0;
      incomingExpected, incomingReceived, topicLength := 0, 0, 0;
    }

    /** The opening of a command at offset 0. */
    method Begin(topic: seq<Byte>, total: nat)
      requires Valid() && 0 < |topic| < TOPIC_SIZE && 0 < total < PAYLOAD_SIZE
      modifies Repr()
      ensures Valid() && View() == Assembly(topic, [], total)
    {
      forall i | 0 <= i < |topic| {
        incomingTopic[i] := topic[i];
      }
      incomingTopic[|topic|] := 0;
      topicLength := |topic|;
      incomingExpected, incomingReceived := total, 0;
    }

    /** handle_mqtt_data; the result is the handler call it makes, if any. */
    method HandleData(f: Fragment) returns (call: Option<Message>)
      requires Valid()
      modifies Repr()
      ensures Valid()
      ensures (View(), call) == Step(old(View()), f)
    {
      if f.data.None? || f.total <= 0 || f.offset < 0 {
        Reset();
        return None;
      }
      if f.offset == 0 {
        Reset();
        if f.topic.None? || |f.topic.value| <= 0 || |f.topic.value| >= TOPIC_SIZE || f.total >= PAYLOAD_SIZE {
          return None;
        }
        Begin(f.topic.value, f.total);
      }
      var data := f.data.value;
      if incomingExpected == 0 || f.offset != incomingReceived || f.offset + |data| > incomingExpected {
        Reset();
        return None;
      }
      call := Append(data);
    }

    /** Copy a fragment that fits and deliver when it is the last. */
    method Append(data: seq<Byte>) returns (call: Option<Message>)
      requires Valid() && incomingExpected > 0 && incomingReceived + |data| <= incomingExpected
      modifies Repr()
      ensures Valid()
      ensures var a := old(View());
              var p := a.payload + data;
              if |p| == a.expected then View() == IDLE && call == Some(Message(UpToNul(a.topic), p))
              else View() == a.(payload := p) && call == None
    {
      ghost var topic, before := incomingTopic[..topicLength], incomingPayload[..incomingReceived];
      forall i | 0 <= i < |data| {
        incomingPayload[incomingReceived + i] := data[i];
      }
      incomingReceived := incomingReceived + |data|;
      assert incomingPayload[..incomingReceived] == before + data;
      call := None;
      if incomingReceived == incomingExpected {
        incomingPayload[incomingReceived] := 0;
        assert incomingPayload[..incomingReceived] == before + data;
        TerminatedText(incomingTopic[..], topic);
        call := Some(Message(UpToNul(incomingTopic[..]), incomingPayload[..incomingReceived]));
        Reset();
      }
    }
  }
}
