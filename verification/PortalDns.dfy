/** The DNS question reader and response builder of the Portal (section 4.1 of RFC 1035). */
module PortalDns {
  import opened Bytes
  import Hostnames

  const HEADER := 12
  const ANSWER := 16
  const NAME_SIZE := 256
  const TYPE_A := 1
  const CLASS_IN := 1
  const TTL_SECONDS := 5
  const SERVER_FAILURE := 2
  const REFUSED := 5

  datatype Error = InvalidSize | NotSupported

  datatype NameScan = NameError(error: Error) | NameDone(end: nat, name: seq<Byte>)

  datatype Question =
    | Rejected(error: Error)
    | Question(name: seq<Byte>, end: nat, queryType: U16, queryClass: U16)

  // ----- reading a question -----

  /** The label loop from offset `o`, with `name` gathered so far, into a buffer of `size`. */
  function ScanName(p: seq<Byte>, o: nat, name: seq<Byte>, size: nat): (r: NameScan)
    ensures r.NameDone? && o <= |p| ==> o <= r.end <= |p|
    decreases |p| - o
  {
    if o >= |p| then NameDone(o, name)
    else if p[o] == 0 then NameDone(o + 1, name)
    else if p[o] >= 0x40 then NameError(NotSupported)
    else
      var next := o + 1 + p[o];
      if next > |p| then NameError(InvalidSize)
      else if name != [] && |name| + 1 >= size then NameError(InvalidSize)
      else
        var dotted := if name != [] then name + [Hostnames.DOT] else name;
        if |dotted| + p[o] >= size then NameError(InvalidSize)
        else ScanName(p, next, dotted + p[o + 1..next], size)
  }

  /** A request header: a standard query carrying one question. */
  predicate StandardQuery(p: seq<Byte>)
    requires |p| >= HEADER
  {
    p[2] < 0x80 && p[2] / 8 % 16 == 0
  }

  function ParseQuestion(p: seq<Byte>, size: nat): (q: Question)
    ensures q.Question? ==> HEADER + 4 <= q.end <= |p|
  {
    if |p| < HEADER then Rejected(InvalidSize)
    else if !StandardQuery(p) || U16At(p, 4) != 1 then Rejected(NotSupported)
    else match ScanName(p, HEADER, [], size)
      case NameError(e) => Rejected(e)
      case NameDone(o, name) =>
        if o + 4 > |p| then Rejected(InvalidSize)
        else Question(name, o + 4, U16At(p, o), U16At(p, o + 2))
  }

  // ----- names on the wire -----

  predicate WireLabels(ls: seq<seq<Byte>>) {
    forall i | 0 <= i < |ls| :: 0 < |ls[i]| < 0x40
  }

  function EncodeLabels(ls: seq<seq<Byte>>): seq<Byte> {
    if ls == [] then [] else ([|ls[0]| % 0x100] + ls[0]) + EncodeLabels(ls[1..])
  }

  function EncodeName(ls: seq<seq<Byte>>): seq<Byte> {
    EncodeLabels(ls) + [0]
  }

  lemma {:induction false} DottedSteps(done: seq<seq<Byte>>, l: seq<Byte>)
    requires WireLabels(done)
    ensures Hostnames.Dotted(done) == [] <==> done == []
    ensures Hostnames.Dotted(done + [l]) == (if done == [] then [] else Hostnames.Dotted(done) + [Hostnames.DOT]) + l
    decreases |done|
  {
  }

  lemma {:induction false} DottedGrows(done: seq<seq<Byte>>, ls: seq<seq<Byte>>)
    ensures |Hostnames.Dotted(done)| <= |Hostnames.Dotted(done + ls)|
  {
    if ls == [] {
      assert done + ls == done;
    } else if done != [] {
      Hostnames.DottedAppend(done, ls);
    }
  }

  /** One label at offset `o`. */
  lemma LabelFields(p: seq<Byte>, o: nat, end: nat, l: seq<Byte>, rest: seq<Byte>)
    requires o <= end <= |p| && 0 < |l| < 0x40
    requires p[o..end] == ([|l| % 0x100] + l) + rest
    ensures o + 1 + |l| <= end && p[o] == |l| && p[o + 1..o + 1 + |l|] == l && p[o + 1 + |l|..end] == rest
  {
    SliceSplit(p, o, end, [|l| % 0x100] + l, rest);
    SliceSplit(p, o, o + 1 + |l|, [|l| % 0x100], l);
    assert p[o] == p[o..o + 1][0];
  }

  /** The scanner takes one label that fits. */
  lemma ScanLabel(p: seq<Byte>, o: nat, end: nat, done: seq<seq<Byte>>, l: seq<Byte>, rest: seq<Byte>, size: nat)
    requires o <= end <= |p| && WireLabels(done) && 0 < |l| < 0x40
    requires p[o..end] == ([|l| % 0x100] + l) + rest
    requires |Hostnames.Dotted(done + [l])| < size
    ensures o + 1 + |l| <= end && p[o + 1 + |l|..end] == rest
    ensures ScanName(p, o, Hostnames.Dotted(done), size)
         == ScanName(p, o + 1 + |l|, Hostnames.Dotted(done + [l]), size)
  {
    LabelFields(p, o, end, l, rest);
    DottedSteps(done, l);
  }

  /** A list of labels opened at its head: its encoding and its dotted name. */
  lemma FirstLabel(done: seq<seq<Byte>>, ls: seq<seq<Byte>>)
    requires ls != [] && WireLabels(done + ls)
    ensures WireLabels(done) && WireLabels(done + [ls[0]] + ls[1..]) && 0 < |ls[0]| < 0x40
    ensures done + ls == (done + [ls[0]]) + ls[1..]
    ensures EncodeName(ls) == ([|ls[0]| % 0x100] + ls[0]) + EncodeName(ls[1..])
  {
    assert (done + ls)[|done|] == ls[0];
    assert forall i | 0 <= i < |done| :: (done + ls)[i] == done[i];
    assert done + ls == (done + [ls[0]]) + ls[1..];
  }

  /** The byte that ends a name. */
  lemma ScanEnd(p: seq<Byte>, o: nat, end: nat, name: seq<Byte>, size: nat)
    requires o <= end <= |p| && p[o..end] == EncodeName([])
    ensures ScanName(p, o, name, size) == NameDone(end, name)
  {
    assert p[o..end] == [0] && p[o] == p[o..end][0];
  }

  lemma {:induction false} ScanComplete(
    p: seq<Byte>, o: nat, end: nat, done: seq<seq<Byte>>, ls: seq<seq<Byte>>, size: nat)
    requires o <= end <= |p| && WireLabels(done + ls)
    requires p[o..end] == EncodeName(ls) && |Hostnames.Dotted(done + ls)| < size
    ensures ScanName(p, o, Hostnames.Dotted(done), size) == NameDone(end, Hostnames.Dotted(done + ls))
    decreases |ls|
  {
    hide Hostnames.Dotted, ScanName, WireLabels, EncodeName;
    if ls == [] {
      assert done + ls == done;
      ScanEnd(p, o, end, Hostnames.Dotted(done), size);
    } else {
      var l, rest := ls[0], ls[1..];
      FirstLabel(done, ls);
      DottedGrows(done + [l], rest);
      ScanLabel(p, o, end, done, l, EncodeName(rest), size);
      ScanComplete(p, o + 1 + |l|, end, done + [l], rest, size);
    }
  }

  /** A label before an encoded rest. */
  lemma LabelPrepends(p: seq<Byte>, o: nat, end: nat, rest: seq<seq<Byte>>)
    requires o < end <= |p| && 0 < p[o] < 0x40 && o + 1 + p[o] <= end
    requires p[o + 1 + p[o]..end] == EncodeName(rest) && WireLabels(rest)
    ensures var ls := [p[o + 1..o + 1 + p[o]]] + rest;
            p[o..end] == EncodeName(ls) && WireLabels(ls)
  {
    var next := o + 1 + p[o];
    var l := p[o + 1..next];
    var ls := [l] + rest;
    assert ls[0] == l && ls[1..] == rest;
    assert p[o..next] == [|l| % 0x100] + l;
    assert p[o..end] == p[o..next] + p[next..end];
    assert EncodeName(ls) == ([|l| % 0x100] + l) + EncodeName(rest);
  }

  lemma EmptyName()
    ensures EncodeName([]) == [0] && WireLabels([])
  {
  }

  /** A scan that ends inside the message read a byte there, and a zero byte ends it at once. */
  lemma ScanStops(p: seq<Byte>, o: nat, name: seq<Byte>, size: nat)
    requires o <= |p| && ScanName(p, o, name, size).NameDone? && ScanName(p, o, name, size).end < |p|
    ensures o < |p| && (p[o] == 0 ==> ScanName(p, o, name, size) == NameDone(o + 1, name) && p[o..o + 1] == [0])
  {
  }

  /** The scanner's own step over a label it accepts. */
  lemma LabelTaken(p: seq<Byte>, o: nat, done: seq<seq<Byte>>, size: nat)
    requires o < |p| && p[o] != 0 && WireLabels(done)
    requires ScanName(p, o, Hostnames.Dotted(done), size).NameDone?
    ensures p[o] < 0x40 && o + 1 + p[o] <= |p|
    ensures WireLabels(done + [p[o + 1..o + 1 + p[o]]])
    ensures ScanName(p, o, Hostnames.Dotted(done), size)
         == ScanName(p, o + 1 + p[o], Hostnames.Dotted(done + [p[o + 1..o + 1 + p[o]]]), size)
  {
    DottedSteps(done, p[o + 1..o + 1 + p[o]]);
  }

  lemma {:induction false} ScanSound(p: seq<Byte>, o: nat, done: seq<seq<Byte>>, size: nat) returns (ls: seq<seq<Byte>>)
    requires o <= |p| && WireLabels(done)
    requires ScanName(p, o, Hostnames.Dotted(done), size).NameDone?
    requires ScanName(p, o, Hostnames.Dotted(done), size).end < |p|
    ensures var r := ScanName(p, o, Hostnames.Dotted(done), size);
            && WireLabels(ls) && o < r.end && p[o..r.end] == EncodeName(ls)
            && r.name == Hostnames.Dotted(done + ls)
    decreases |p| - o
  {
    hide EncodeLabels, Hostnames.Dotted;
    var r := ScanName(p, o, Hostnames.Dotted(done), size);
    ScanStops(p, o, Hostnames.Dotted(done), size);
    if p[o] == 0 {
      ls := [];
      EmptyName();
      assert done + ls == done;
    } else {
      hide EncodeName, ScanName, WireLabels;
      LabelTaken(p, o, done, size);
      var next := o + 1 + p[o];
      var l := p[o + 1..next];
      var rest := ScanSound(p, next, done + [l], size);
      LabelPrepends(p, o, r.end, rest);
      ls := [l] + rest;
      assert done + ls == (done + [l]) + rest;
    }
  }

  lemma {:induction false} ScanFits(p: seq<Byte>, o: nat, name: seq<Byte>, size: nat)
    requires o <= |p| && |name| < size && ScanName(p, o, name, size).NameDone?
    ensures |ScanName(p, o, name, size).name| < size
    decreases |p| - o
  {
    if o < |p| && p[o] != 0 {
      var dotted := if name != [] then name + [Hostnames.DOT] else name;
      ScanFits(p, o + 1 + p[o], dotted + p[o + 1..o + 1 + p[o]], size);
    }
  }

  // ----- the codec theorem -----

  /** Header, name, type, class, then anything (EDNS records, for one). */
  function EncodeQuery(
    header: seq<Byte>, ls: seq<seq<Byte>>, queryType: U16, queryClass: U16, surplus: seq<Byte>): seq<Byte>
  {
    header + (EncodeName(ls) + (U16Bytes(queryType) + (U16Bytes(queryClass) + surplus)))
  }

  /** QR is 0, the four bits of OPCODE are 0, QDCOUNT is 1. */
  predicate QueryHeader(h: seq<Byte>) {
    |h| == 12 && h[2] / 0x80 == 0 && h[2] / 8 % 0x10 == 0 && h[4] == 0 && h[5] == 1
  }

  lemma QueryFields(header: seq<Byte>, name: seq<Byte>, t: U16, c: U16, surplus: seq<Byte>, p: seq<Byte>)
    requires |header| == HEADER && p == header + (name + (U16Bytes(t) + (U16Bytes(c) + surplus)))
    ensures var o := HEADER + |name|;
            && o + 4 <= |p| && p[..HEADER] == header && p[HEADER..o] == name
            && U16At(p, o) == t && U16At(p, o + 2) == c
  {
  }

  /** Reading back an encoded question: its dotted name, its exact end, its type and class. */
  lemma {:induction false} QuestionRoundTrip(
    header: seq<Byte>, ls: seq<seq<Byte>>, queryType: U16, queryClass: U16, surplus: seq<Byte>, size: nat)
    requires QueryHeader(header) && WireLabels(ls) && |Hostnames.Dotted(ls)| < size
    ensures ParseQuestion(EncodeQuery(header, ls, queryType, queryClass, surplus), size) ==
            Question(Hostnames.Dotted(ls), HEADER + |EncodeName(ls)| + 4, queryType, queryClass)
  {
    var p := EncodeQuery(header, ls, queryType, queryClass, surplus);
    QueryFields(header, EncodeName(ls), queryType, queryClass, surplus, p);
    assert forall i | 0 <= i < HEADER :: p[i] == p[..HEADER][i];
    assert [] + ls == ls;
    assert Hostnames.Dotted([]) == [];
    ScanComplete(p, HEADER, HEADER + |EncodeName(ls)|, [], ls, size);
  }

  /** Conversely an accepted question is the encoding of labels that spell the name returned. */
  lemma QuestionSound(p: seq<Byte>, size: nat) returns (ls: seq<seq<Byte>>)
    requires ParseQuestion(p, size).Question?
    ensures var q := ParseQuestion(p, size);
            && 12 < |p| && QueryHeader(p[..12])
            && WireLabels(ls) && q.name == Hostnames.Dotted(ls) && (size > 0 ==> |q.name| < size)
            && HEADER < q.end - 4 && q.end <= |p| && p[HEADER..q.end - 4] == EncodeName(ls)
            && q.queryType == U16At(p, q.end - 4) && q.queryClass == U16At(p, q.end - 2)
  {
    assert Hostnames.Dotted([]) == [];
    ls := ScanSound(p, HEADER, [], size);
    if size > 0 {
      ScanFits(p, HEADER, [], size);
    }
    assert [] + ls == ls;
    assert |EncodeName(ls)| > 0;
  }

  // ----- building a response -----

  type Ipv4 = a: seq<Byte> | |a| == 4 witness [0, 0, 0, 0]

  /** What the server knows: its own address, the external Portal if configured, the block rules. */
  datatype Portal = Portal(
    portalIpv4: Ipv4, externalEnabled: bool, externalDomain: seq<Byte>, externalIpv4: Ipv4, blocked: seq<seq<Byte>>)

  /** An address, a refusal or failure code, or neither. */
  datatype Reply = Reply(code: nat, answer: Option<Ipv4>)

  predicate IsExternal(portal: Portal, q: Question)
    requires q.Question?
  {
    q.queryType == TYPE_A && q.queryClass == CLASS_IN && portal.externalEnabled
    && Lower(UpToNul(q.name)) == Lower(UpToNul(portal.externalDomain))
  }

  /** The decision; `upstream` is what resolving the name upstream gives, should it come to that. */
  function Decide(portal: Portal, q: Question, authorized: bool, upstream: Option<Ipv4>): Reply
    requires q.Question?
  {
    if IsExternal(portal, q) then Reply(0, Some(portal.externalIpv4))
    else if authorized && q.queryClass == CLASS_IN && Hostnames.Blocked(portal.blocked, UpToNul(q.name)) then
      Reply(REFUSED, None)
    else if q.queryType == TYPE_A && q.queryClass == CLASS_IN then
      if !authorized then Reply(0, Some(portal.portalIpv4))
      else if UpToNul(q.name) != [] && upstream.Some? then Reply(0, upstream)
      else Reply(SERVER_FAILURE, None)
    else Reply(0, None)
  }

  /** Flags, counts: response, recursion desired copied, recursion available or authoritative. */
  function HeaderTail(rd: bool, authorized: bool, code: nat, answers: nat): (h: seq<Byte>)
    requires code < 0x10 && answers < 0x100
    ensures |h| == HEADER - 2
  {
    [0x80 + (if rd then 1 else 0) + (if authorized then 0 else 4), (if authorized then 0x80 else 0) + code,
     0, 1, 0, answers, 0, 0, 0, 0]
  }

  function AnswerBytes(ip: Ipv4): (s: seq<Byte>)
    ensures |s| == ANSWER
  {
    [0xC0, 0x0C, 0, TYPE_A, 0, CLASS_IN, 0, 0, 0, TTL_SECONDS, 0, 4] + ip
  }

  /** build_dns_response into a buffer of `capacity` bytes; None is its -1. */
  function Respond(p: seq<Byte>, portal: Portal, authorized: bool, upstream: Option<Ipv4>, capacity: nat)
    : Option<seq<Byte>>
  {
    var q := ParseQuestion(p, NAME_SIZE);
    if q.Rejected? || q.end > capacity then None
    else
      var r := Decide(portal, q, authorized, upstream);
      var answers := if r.answer.Some? then 1 else 0;
      var head := p[..2] + HeaderTail(p[2] % 2 == 1, authorized, r.code, answers) + p[HEADER..q.end];
      if r.answer.None? then Some(head)
      else if q.end + ANSWER > capacity then None
      else Some(head + AnswerBytes(r.answer.value))
  }

  /** The name at offset `o` of a message, one compression pointer followed. */
  function ReadName(m: seq<Byte>, o: nat, size: nat): NameScan {
    if o + 2 <= |m| && m[o] >= 0xC0 then ScanName(m, 0x100 * (m[o] as int - 0xC0) + m[o + 1] as int, [], size)
    else ScanName(m, o, [], size)
  }

  lemma SameStretch(m: seq<Byte>, p: seq<Byte>, o: nat, end: nat, a: nat, b: nat)
    requires o <= a <= b <= end <= |m| && end <= |p| && m[o..end] == p[o..end]
    ensures m[a..b] == p[a..b]
  {
    forall i | a <= i < b ensures m[i] == p[i] {
      assert m[i] == m[o..end][i - o] && p[i] == p[o..end][i - o];
    }
  }

  /** The label loop reads only up to the end it reports. */
  lemma {:induction false} ScanLocal(p: seq<Byte>, m: seq<Byte>, o: nat, name: seq<Byte>, size: nat)
    requires o <= |p| && ScanName(p, o, name, size).NameDone? && ScanName(p, o, name, size).end < |p|
    requires var end := ScanName(p, o, name, size).end; end <= |m| && (o <= end ==> m[o..end] == p[o..end])
    ensures ScanName(m, o, name, size) == ScanName(p, o, name, size)
    decreases |p| - o
  {
    var end := ScanName(p, o, name, size).end;
    ScanAdvances(p, o, name, size);
    assert m[o] == m[o..end][0] == p[o..end][0] == p[o];
    if p[o] != 0 {
      var next := o + 1 + p[o];
      var dotted := if name != [] then name + [Hostnames.DOT] else name;
      ScanAdvances(p, next, dotted + p[o + 1..next], size);
      assert ScanName(p, next, dotted + p[o + 1..next], size).end == end >= next;
      SameStretch(m, p, o, end, o + 1, next);
      SameStretch(m, p, o, end, next, end);
      ScanLocal(p, m, next, dotted + p[o + 1..next], size);
    }
  }

  lemma {:induction false} ScanAdvances(p: seq<Byte>, o: nat, name: seq<Byte>, size: nat)
    requires o <= |p| && ScanName(p, o, name, size).NameDone?
    ensures ScanName(p, o, name, size).end >= o
    ensures o < |p| ==> ScanName(p, o, name, size).end > o
    decreases |p| - o
  {
  }

  /** Every response fits, keeps the id and the question bytes, says it is one, and when it
      answers, the answer's owner name resolves through its pointer to the name asked for. */
  lemma ResponseShape(p: seq<Byte>, portal: Portal, authorized: bool, upstream: Option<Ipv4>, capacity: nat)
    requires Respond(p, portal, authorized, upstream, capacity).Some?
    ensures var m, q := Respond(p, portal, authorized, upstream, capacity).value, ParseQuestion(p, NAME_SIZE);
            var r := Decide(portal, q, authorized, upstream);
            && q.Question? && HEADER <= q.end <= |m| <= capacity
            && m[..2] == p[..2] && m[HEADER..q.end] == p[HEADER..q.end]
            && m[2] >= 0x80 && m[2] % 2 == p[2] % 2 && m[3] % 0x10 == r.code && U16At(m, 4) == 1
            && (U16At(m, 6) == 1 <==> r.answer.Some?)
            && |m| == q.end + (if r.answer.Some? then ANSWER else 0)
            && (r.answer.Some? ==> m[|m| - 4..] == r.answer.value
                                   && ReadName(m, q.end, NAME_SIZE) == NameDone(q.end - 4, q.name))
  {
    hide ScanName, IsExternal, Hostnames.Blocked;
    var m, q := Respond(p, portal, authorized, upstream, capacity).value, ParseQuestion(p, NAME_SIZE);
    var r := Decide(portal, q, authorized, upstream);
    ScanAdvances(p, HEADER, [], NAME_SIZE);
    assert m[HEADER..q.end] == p[HEADER..q.end];
    if r.answer.Some? {
      assert m[q.end..] == AnswerBytes(r.answer.value);
      assert m[q.end] == m[q.end..][0] && m[q.end + 1] == m[q.end..][1];
      assert m[|m| - 4..] == m[q.end..][12..];
      assert m[HEADER..q.end - 4] == m[HEADER..q.end][..q.end - 4 - HEADER];
      assert p[HEADER..q.end - 4] == p[HEADER..q.end][..q.end - 4 - HEADER];
      ScanLocal(p, m, HEADER, [], NAME_SIZE);
    }
  }

  /** The counts of a response header do not depend on who asks. */
  lemma HeaderCounts(rd: bool, code: nat, answers: nat)
    requires code < 0x10 && answers < 0x100
    ensures HeaderTail(rd, true, code, answers)[2..] == HeaderTail(rd, false, code, answers)[2..]
  {
  }

  lemma AfterFlags(id: seq<Byte>, tail: seq<Byte>, rest: seq<Byte>)
    requires |id| == 2 && |tail| == HEADER - 2
    ensures (id + tail + rest)[..2] == id && (id + tail + rest)[4..] == tail[2..] + rest
  {
  }

  /** A response that answers with `ip`. */
  lemma AnswerParts(p: seq<Byte>, portal: Portal, authorized: bool, upstream: Option<Ipv4>, capacity: nat, ip: Ipv4)
    requires ParseQuestion(p, NAME_SIZE).Question?
    requires Decide(portal, ParseQuestion(p, NAME_SIZE), authorized, upstream) == Reply(0, Some(ip))
    ensures var end, m := ParseQuestion(p, NAME_SIZE).end, Respond(p, portal, authorized, upstream, capacity);
            && (m.Some? <==> end + ANSWER <= capacity)
            && (m.Some? ==> m.value == p[..2] + HeaderTail(p[2] % 2 == 1, authorized, 0, 1)
                                       + (p[HEADER..end] + AnswerBytes(ip)))
  {
  }

  /** The external Portal resolves to one address before and after authorization: the two
      responses agree in everything but the two flag bytes. */
  lemma ExternalSameForAll(p: seq<Byte>, portal: Portal, up: Option<Ipv4>, up': Option<Ipv4>, capacity: nat)
    requires ParseQuestion(p, NAME_SIZE).Question? && IsExternal(portal, ParseQuestion(p, NAME_SIZE))
    ensures var a, b := Respond(p, portal, true, up, capacity), Respond(p, portal, false, up', capacity);
            && (a.Some? <==> b.Some?)
            && (a.Some? ==> && |a.value| == |b.value| >= HEADER
                            && a.value[..2] == b.value[..2] && a.value[4..] == b.value[4..]
                            && a.value[|a.value| - 4..] == portal.externalIpv4)
  {
    hide ParseQuestion, IsExternal, HeaderTail, Respond;
    var rd, ip := p[2] % 2 == 1, portal.externalIpv4;
    AnswerParts(p, portal, true, up, capacity, ip);
    AnswerParts(p, portal, false, up', capacity, ip);
    HeaderCounts(rd, 0, 1);
    var rest := p[HEADER..ParseQuestion(p, NAME_SIZE).end] + AnswerBytes(ip);
    AfterFlags(p[..2], HeaderTail(rd, true, 0, 1), rest);
    AfterFlags(p[..2], HeaderTail(rd, false, 0, 1), rest);
  }
}
