/** From the bytes on the wire to the fate of the connection: records, ClientHello, host name rules. */
module HelloVerdicts {
  import opened Bytes
  import opened ClientHello
  import opened SniMachine
  import HelloGrammar
  import Hostnames
  import opened FlowSpec
  import opened TlsFlows
  import opened FlowRuns

  predicate LegalRecords(rs: seq<Record>) {
    forall i | 0 <= i < |rs| :: 0 < |rs[i].fragment| < 0x1_0000
  }

  /** The total length that the first four bytes of a handshake message announce. */
  function TotalLength(p: seq<Byte>): nat
    requires |p| >= 4
  {
    4 + 65536 * (p[1] as int) + 256 * (p[2] as int) + p[3] as int
  }

  /** Handshake bytes that may still become a ClientHello of at most 2048 bytes, and are not all in. */
  predicate Unfinished(p: seq<Byte>) {
    p != [] ==> p[0] == 1 && (|p| >= 4 ==> 4 < TotalLength(p) <= 2048 && |p| < TotalLength(p))
  }

  lemma UnfinishedUndecided(p: seq<Byte>, size: nat)
    ensures Unfinished(p) <==> Handshake(p, size).None?
  {
  }

  /** What whole records and the start of a further header say. */
  lemma RecordsSay(rs: seq<Record>, t: seq<Byte>)
    requires LegalRecords(rs) && |EncodeRecords(rs) + t| <= 4096
    requires |t| < 5 || (|t| == 5 && (t[0] != 22 || (t[3] == 0 && t[4] == 0)))
    ensures var p, s := Fragments(rs), EncodeRecords(rs) + t;
            StreamVerdict(s, 256) == if Unfinished(p) then (if |t| == 5 then Some(REJECT) else None)
                                     else Handshake(p, 256)
  {
    hide Unfinished, Handshake;
    var p := Fragments(rs);
    UnfinishedUndecided(p, 256);
    DeframeRecords(rs, t);
    assert [] + (p + []) == p;
  }

  /** More bytes are waited for exactly while the handshake bytes in the records so far may still become
      a ClientHello; an illegal record header, a wrong message type or length ends the wait in a drop. */
  lemma WaitsForHello(rs: seq<Record>, t: seq<Byte>)
    requires LegalRecords(rs) && |EncodeRecords(rs) + t| < 4096
    requires |t| < 5 || (|t| == 5 && (t[0] != 22 || (t[3] == 0 && t[4] == 0)))
    ensures var p, s := Fragments(rs), EncodeRecords(rs) + t;
            && (Says(s) == Undecided <==> Unfinished(p) && |t| < 5)
            && (Unfinished(p) && |t| == 5 ==> Says(s) == Hopeless)
            && (p != [] && p[0] != 1 ==> Says(s) == Hopeless)
            && (p != [] && p[0] == 1 && |p| >= 4 && !(4 < TotalLength(p) <= 2048) ==> Says(s) == Hopeless)
  {
    hide Unfinished, Handshake, StreamVerdict;
    var p, s := Fragments(rs), EncodeRecords(rs) + t;
    assert s[..|s|] == s;
    RecordsSay(rs, t);
    HandshakeRejects(p);
    UnfinishedUndecided(p, 256);
  }

  lemma HandshakeRejects(p: seq<Byte>)
    ensures p != [] && p[0] != 1 ==> Handshake(p, 256) == Some(REJECT) && !Unfinished(p)
    ensures p != [] && p[0] == 1 && |p| >= 4 && !(4 < TotalLength(p) <= 2048) ==>
              Handshake(p, 256) == Some(REJECT) && !Unfinished(p)
  {
  }

  /** A stream that is not settled within 4096 bytes is dropped. */
  lemma BudgetSpent(s: seq<Byte>)
    requires |s| >= 4096
    ensures Says(s) != Undecided && Says(s) == Says(s[..4096])
  {
    assert s[..4096][..4096] == s[..4096];
  }

  /** One host_name, printable and short enough, in a hello that does not offer ECH. */
  predicate Forwardable(h: Hello) {
    && |HostNames(h)| == 1 && 0 < |HostNames(h)[0]| < 256
    && (forall i | 0 <= i < |HostNames(h)[0]| :: 0x21 <= HostNames(h)[0][i] <= 0x7E)
    && (h.extensions.Some? ==> forall i | 0 <= i < |h.extensions.value| ::
          h.extensions.value[i].OtherExtension? ==> h.extensions.value[i].extType != 0xFE0D)
  }

  /** The message and its records, with surplus bytes in the last record and anything after it. */
  predicate Carried(h: Hello, rs: seq<Record>, surplus: seq<Byte>) {
    && WellFormed(h) && LegalRecords(rs) && Fragments(rs) == Encode(h) + surplus
    && |Encode(h)| <= 2048 && |EncodeRecords(rs)| <= 4096
    && h.header[0] == 1
    && 65536 * (h.header[1] as int) + 256 * (h.header[2] as int) + h.header[3] as int == |Encode(h)| - 4
  }

  lemma CarriedIsMessage(h: Hello, rs: seq<Record>, surplus: seq<Byte>)
    requires Carried(h, rs, surplus)
    ensures IsMessage(Encode(h))
  {
    var m := Encode(h);
    assert forall i | 0 <= i < 4 :: m[i] == h.header[i];
  }

  lemma CarriedSays(h: Hello, rs: seq<Record>, surplus: seq<Byte>, trailing: seq<Byte>)
    requires Carried(h, rs, surplus)
    ensures Says(EncodeRecords(rs) + trailing) == SayingOf(ParseHello(Encode(h), 256))
  {
    hide Run, StreamVerdict, ParseHello;
    var s, e := EncodeRecords(rs) + trailing, EncodeRecords(rs);
    CarriedIsMessage(h, rs, surplus);
    var k := Min(4096, |s|);
    assert s[..k] == e + trailing[..k - |e|];
    FragmentationRoundTrip(Encode(h), rs, surplus, trailing[..k - |e|], 256);
    SaysByMachine(s);
  }

  lemma ForwardableSays(h: Hello)
    requires WellFormed(h)
    ensures SayingOf(ParseHello(Encode(h), 256))
         == if Forwardable(h) then Host(Lower(HostNames(h)[0])) else Hopeless
  {
    hide ParseHello;
    HelloGrammar.ParseComplete(Encode(h), 256, h);
    if h.extensions.Some? {
      var xs := h.extensions.value;
      assert forall i | 0 <= i < |xs| ::
        ExtensionType(xs[i]) == EXT_ECH <==> xs[i].OtherExtension? && xs[i].extType == 0xFE0D;
    }
  }

  /** A ClientHello in any legal records is forwarded exactly when it offers no ECH, has one legal
      host_name, and no rule names that host. */
  lemma HelloDecides(h: Hello, rs: seq<Record>, surplus: seq<Byte>, trailing: seq<Byte>, rules: RuleNames)
    requires Carried(h, rs, surplus)
    ensures Decide(Says(EncodeRecords(rs) + trailing), rules)
         == if Forwardable(h) && !Hostnames.NamedByRule(rules, HostNames(h)[0]) then Forward else Drop
  {
    hide Says, Encode, Carried, ParseHello, Hostnames.Blocked;
    CarriedSays(h, rs, surplus, trailing);
    WellFormedCarried(h, rs, surplus);
    ForwardableSays(h);
    if Forwardable(h) {
      var host := HostNames(h)[0];
      LowerTwice(host);
      Hostnames.NormalIgnoresCase(Lower(host), host);
      Hostnames.PolicyIsLabelSuffix(rules, Lower(host));
    }
  }

  lemma WellFormedCarried(h: Hello, rs: seq<Record>, surplus: seq<Byte>)
    requires Carried(h, rs, surplus)
    ensures WellFormed(h)
  {
  }

  lemma LowerTwice(s: seq<Byte>)
    ensures Lower(Lower(s)) == Lower(s)
  {
  }

  /** End to end: a connection that sends a ClientHello in any legal records, in segments of any size,
      overlapping and repeated in any way, under one rule set: once the records are in, its segments
      are forwarded exactly when the hello is one to forward. */
  lemma ConnectionDecided(
    f: Option<Flow>, e: Event, ps: seq<Piece>, h: Hello, rs: seq<Record>, surplus: seq<Byte>, trailing: seq<Byte>)
    requires Carried(h, rs, surplus)
    requires (f.Some? ==> LegalFlow(f.value)) && Starts(Expire(f, Now(e)), e, EncodeRecords(rs) + trailing)
    requires var s := EncodeRecords(rs) + trailing; AllCarry(s, ps) && Steady(s, |e.segment.payload|, e.time, ps)
    requires forall i | 0 <= i < |ps| :: ps[i].rules == e.rules
    requires Received(|e.segment.payload|, ps) >= |EncodeRecords(rs)|
    ensures var s, k := EncodeRecords(rs) + trailing, e.segment.key;
            var answers := LoneAnswers(f, [e] + CarryAll(s, PayloadSequence(e.segment), k, ps), k);
            && |answers| == |ps| + 1
            && (answers[|ps|] <==> !(Forwardable(h) && !Hostnames.NamedByRule(e.rules, HostNames(h)[0])))
  {
    hide Says, Encode, Carried, Steady, Starts, LoneAnswers, Forwardable, Hostnames.NamedByRule, HostNames;
    var r := EncodeRecords(rs);
    var s := r + trailing;
    LastDictated(f, e, s, ps);
    var n := Received(|e.segment.payload|, ps);
    assert s[..n] == r + trailing[..n - |r|];
    HelloDecides(h, rs, surplus, trailing[..n - |r|], e.rules);
  }
}
