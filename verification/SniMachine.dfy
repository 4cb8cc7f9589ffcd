/** The TLS stream seen one byte at a time: record headers (section 5.1 of RFC 8446) interleaved
    with handshake bytes, ending in one verdict. */
module SniMachine {
  import opened Bytes
  import opened ClientHello
  import HelloGrammar

  const CONTENT_HANDSHAKE := 22
  const MSG_CLIENT_HELLO := 1
  const CLIENT_HELLO_MAX := 2048
  const RECORD_HEADER := 5

  /** Total length announced by a handshake message whose first four bytes are present. */
  function Announced(p: seq<Byte>): nat
    requires |p| >= 4
  {
    4 + 0x1_0000 * (p[1] as int) + 0x100 * (p[2] as int) + p[3] as int
  }

  /** The verdict on reassembled handshake bytes, None while more are needed. */
  function Handshake(p: seq<Byte>, size: nat): Option<Verdict> {
    if p == [] then None
    else if p[0] != MSG_CLIENT_HELLO then Some(REJECT)
    else if |p| < 4 then None
    else if !(4 < Announced(p) <= CLIENT_HELLO_MAX) then Some(REJECT)
    else if |p| < Announced(p) then None
    else Some(ParseHello(p[..Announced(p)], size))
  }

  /** Active: partial record header, bytes left in the open record, handshake bytes so far. */
  datatype Machine =
    | Active(header: seq<Byte>, remaining: nat, hello: seq<Byte>)
    | Done(verdict: Verdict)

  const START := Active([], 0, [])

  function Settle(remaining: nat, hello: seq<Byte>, size: nat): Machine {
    match Handshake(hello, size)
    case None => Active([], remaining, hello)
    case Some(v) => Done(v)
  }

  function OpenRecord(header: seq<Byte>, hello: seq<Byte>): Machine
    requires |header| == RECORD_HEADER
  {
    if header[0] != CONTENT_HANDSHAKE || U16At(header, 3) == 0 then Done(REJECT)
    else Active([], U16At(header, 3), hello)
  }

  function Step(m: Machine, b: Byte, size: nat): Machine {
    match m
    case Done(_) => m
    case Active(header, remaining, hello) =>
      if remaining > 0 then Settle(remaining - 1, hello + [b], size)
      else if |header| + 1 == RECORD_HEADER then OpenRecord(header + [b], hello)
      else Active(header + [b], 0, hello)
  }

  function Run(m: Machine, s: seq<Byte>, size: nat): Machine {
    if s == [] then m else Step(Run(m, s[..|s| - 1], size), s[|s| - 1], size)
  }

  predicate Inspecting(m: Machine, size: nat) {
    && m.Active?
    && |m.header| < RECORD_HEADER
    && (m.remaining > 0 ==> m.header == [])
    && m.remaining < 0x1_0000
    && Handshake(m.hello, size).None?
  }

  // ----- laws of the machine -----

  lemma {:induction false} RunAppend(m: Machine, s: seq<Byte>, t: seq<Byte>, size: nat)
    ensures Run(m, s + t, size) == Run(Run(m, s, size), t, size)
    decreases |t|
  {
    if t == [] {
      assert s + t == s;
    } else {
      var t' := t[..|t| - 1];
      assert (s + t)[..|s + t| - 1] == s + t';
      RunAppend(m, s, t', size);
    }
  }

  lemma {:induction false} RunDone(v: Verdict, s: seq<Byte>, size: nat)
    ensures Run(Done(v), s, size) == Done(v)
    decreases |s|
  {
    if s != [] {
      RunDone(v, s[..|s| - 1], size);
    }
  }

  /** Once some prefix settles the stream, the rest of it changes nothing. */
  lemma RunSettled(m: Machine, s: seq<Byte>, k: nat, size: nat)
    requires k <= |s| && Run(m, s[..k], size).Done?
    ensures Run(m, s, size) == Run(m, s[..k], size)
  {
    assert s == s[..k] + s[k..];
    RunAppend(m, s[..k], s[k..], size);
    RunDone(Run(m, s[..k], size).verdict, s[k..], size);
  }

  /** Handshake verdicts ignore whatever follows the bytes that settled them. */
  lemma HandshakeStable(p: seq<Byte>, t: seq<Byte>, size: nat)
    requires Handshake(p, size).Some?
    ensures Handshake(p + t, size) == Handshake(p, size)
  {
    if |p| >= 4 {
      assert Announced(p + t) == Announced(p);
      if Announced(p) <= |p| {
        assert (p + t)[..Announced(p)] == p[..Announced(p)];
      }
    }
  }

  /** Bytes inside one record act on the handshake buffer all at once. */
  lemma {:induction false} RunPayload(m: Machine, c: seq<Byte>, size: nat)
    requires Inspecting(m, size) && m.header == [] && |c| <= m.remaining
    ensures Run(m, c, size) == Settle(m.remaining - |c|, m.hello + c, size)
    decreases |c|
  {
    if c == [] {
      assert m.hello + c == m.hello;
    } else {
      var c', x := c[..|c| - 1], c[|c| - 1];
      RunPayload(m, c', size);
      assert m.hello + c == (m.hello + c') + [x];
      if Handshake(m.hello + c', size).Some? {
        HandshakeStable(m.hello + c', [x], size);
      }
    }
  }

  lemma {:induction false} RunInspecting(m: Machine, s: seq<Byte>, size: nat)
    requires Inspecting(m, size)
    ensures Run(m, s, size).Done? || Inspecting(Run(m, s, size), size)
    decreases |s|
  {
    if s != [] {
      RunInspecting(m, s[..|s| - 1], size);
    }
  }

  /** Every hostname a stream can yield fits its buffer and has no NUL. */
  lemma {:induction false} RunHost(m: Machine, s: seq<Byte>, size: nat)
    requires Inspecting(m, size)
    ensures Run(m, s, size).Done? && Run(m, s, size).verdict.outcome == Found ==>
              var host := Run(m, s, size).verdict.hostname;
              |host| < size && 0 !in host
    decreases |s|
  {
    if s != [] {
      var t := s[..|s| - 1];
      RunHost(m, t, size);
      RunInspecting(m, t, size);
      var p := Run(m, t, size);
      if p.Active? {
        StepHost(p, s[|s| - 1], size);
      }
    }
  }

  lemma StepHost(m: Machine, b: Byte, size: nat)
    requires Inspecting(m, size)
    ensures Step(m, b, size).Done? && Step(m, b, size).verdict.outcome == Found ==>
              var host := Step(m, b, size).verdict.hostname;
              |host| < size && 0 !in host
  {
    var p := m.hello + [b];
    if Step(m, b, size).Done? && Step(m, b, size).verdict.outcome == Found {
      HelloGrammar.FoundHost(p[..Announced(p)], size);
    }
  }

  /** Bytes of a record header collect until the fifth. */
  lemma {:induction false} RunHeader(m: Machine, c: seq<Byte>, size: nat)
    requires Inspecting(m, size) && m.remaining == 0 && |m.header| + |c| <= RECORD_HEADER
    ensures Run(m, c, size) ==
            if |m.header| + |c| == RECORD_HEADER then OpenRecord(m.header + c, m.hello)
            else Active(m.header + c, 0, m.hello)
    decreases |c|
  {
    if c == [] {
      assert m.header + c == m.header;
    } else {
      RunHeader(m, c[..|c| - 1], size);
      assert m.header + c == (m.header + c[..|c| - 1]) + [c[|c| - 1]];
    }
  }

  // ----- reference definition: record layer first, handshake layer second -----

  /** Record payload bytes present in a stream, and whether an illegal record header ends them. */
  datatype Framing = Framing(payload: seq<Byte>, broken: bool)

  function Deframe(s: seq<Byte>): Framing
    decreases |s|
  {
    if |s| < RECORD_HEADER then Framing([], false)
    else if s[0] != CONTENT_HANDSHAKE || U16At(s, 3) == 0 then Framing([], true)
    else
      var n := Min(U16At(s, 3), |s| - RECORD_HEADER);
      var rest := Deframe(s[RECORD_HEADER + n..]);
      Framing(s[RECORD_HEADER..RECORD_HEADER + n] + rest.payload, rest.broken)
  }

  function FramingVerdict(f: Framing, before: seq<Byte>, size: nat): Option<Verdict> {
    match Handshake(before + f.payload, size)
    case Some(v) => Some(v)
    case None => if f.broken then Some(REJECT) else None
  }

  /** The verdict of a whole stream prefix, read record layer first. */
  function StreamVerdict(s: seq<Byte>, size: nat): Option<Verdict> {
    FramingVerdict(Deframe(s), [], size)
  }

  function VerdictOf(m: Machine): Option<Verdict> {
    if m.Done? then Some(m.verdict) else None
  }

  lemma DeframeUnfold(s: seq<Byte>)
    requires |s| >= RECORD_HEADER && s[0] == CONTENT_HANDSHAKE && U16At(s, 3) != 0
    ensures var t := s[RECORD_HEADER..];
            var k := Min(U16At(s, 3), |t|);
            var rest := Deframe(t[k..]);
            Deframe(s) == Framing(t[..k] + rest.payload, rest.broken)
  {
    var t := s[RECORD_HEADER..];
    var k := Min(U16At(s, 3), |t|);
    assert s[RECORD_HEADER..RECORD_HEADER + k] == t[..k];
    assert s[RECORD_HEADER + k..] == t[k..];
  }

  lemma {:induction false} RunReadsFraming(s: seq<Byte>, hello: seq<Byte>, size: nat)
    requires Handshake(hello, size).None?
    ensures VerdictOf(Run(Active([], 0, hello), s, size)) == FramingVerdict(Deframe(s), hello, size)
    decreases |s|
  {
    var m := Active([], 0, hello);
    assert hello + [] == hello;
    if |s| < RECORD_HEADER {
      RunHeader(m, s, size);
    } else {
      var header, t := s[..RECORD_HEADER], s[RECORD_HEADER..];
      RunHeader(m, header, size);
      assert [] + header == header;
      assert s == header + t;
      RunAppend(m, header, t, size);
      if header[0] != CONTENT_HANDSHAKE || U16At(header, 3) == 0 {
        RunDone(REJECT, t, size);
      } else {
        RunReadsRecord(t, U16At(header, 3), hello, size);
        DeframeUnfold(s);
      }
    }
  }

  /** As above, from inside an open record of `n` bytes. */
  lemma {:induction false} RunReadsRecord(s: seq<Byte>, n: nat, hello: seq<Byte>, size: nat)
    requires Handshake(hello, size).None? && 0 < n < 0x1_0000
    ensures var k := Min(n, |s|);
            var rest := Deframe(s[k..]);
            VerdictOf(Run(Active([], n, hello), s, size)) ==
            FramingVerdict(Framing(s[..k] + rest.payload, rest.broken), hello, size)
    decreases |s|, 0
  {
    hide Handshake;
    var k := Min(n, |s|);
    var m := Active([], n, hello);
    var rest := Deframe(s[k..]);
    assert s == s[..k] + s[k..];
    RunAppend(m, s[..k], s[k..], size);
    RunPayload(m, s[..k], size);
    var hello' := hello + s[..k];
    assert hello + (s[..k] + rest.payload) == hello' + rest.payload;
    if Handshake(hello', size).Some? {
      HandshakeStable(hello', rest.payload, size);
      RunDone(Handshake(hello', size).value, s[k..], size);
    } else if k == n {
      RunReadsFraming(s[k..], hello', size);
    } else {
      assert s[k..] == [] && hello' + [] == hello';
    }
  }

  /** The byte machine computes the two-layer reference verdict on every stream. */
  lemma MachineIsStreamVerdict(s: seq<Byte>, size: nat)
    ensures VerdictOf(Run(START, s, size)) == StreamVerdict(s, size)
  {
    RunReadsFraming(s, [], size);
  }

  // ----- record fragmentation round trip -----

  datatype Record = Record(versionMajor: Byte, versionMinor: Byte, fragment: seq<Byte>)

  predicate LegalRecord(r: Record) {
    0 < |r.fragment| < 0x1_0000
  }

  function EncodeRecord(r: Record): seq<Byte> {
    [CONTENT_HANDSHAKE, r.versionMajor, r.versionMinor] + U16Bytes(|r.fragment|) + r.fragment
  }

  function EncodeRecords(rs: seq<Record>): seq<Byte> {
    if rs == [] then [] else EncodeRecord(rs[0]) + EncodeRecords(rs[1..])
  }

  function Fragments(rs: seq<Record>): seq<Byte> {
    if rs == [] then [] else rs[0].fragment + Fragments(rs[1..])
  }

  lemma DeframeRecord(r: Record, t: seq<Byte>)
    requires LegalRecord(r)
    ensures Deframe(EncodeRecord(r) + t) == Framing(r.fragment + Deframe(t).payload, Deframe(t).broken)
  {
    var s := EncodeRecord(r) + t;
    var n := |r.fragment|;
    assert U16At(s, 3) == n;
    assert s[RECORD_HEADER..RECORD_HEADER + n] == r.fragment;
    assert s[RECORD_HEADER + n..] == t;
  }

  lemma {:induction false} DeframeRecords(rs: seq<Record>, t: seq<Byte>)
    requires forall i | 0 <= i < |rs| :: LegalRecord(rs[i])
    ensures Deframe(EncodeRecords(rs) + t) == Framing(Fragments(rs) + Deframe(t).payload, Deframe(t).broken)
    decreases |rs|
  {
    if rs == [] {
      assert [] + t == t;
      assert [] + Deframe(t).payload == Deframe(t).payload;
    } else {
      var r, rest := rs[0], rs[1..];
      DeframeRecords(rest, t);
      assert EncodeRecords(rs) + t == EncodeRecord(r) + (EncodeRecords(rest) + t);
      DeframeRecord(r, EncodeRecords(rest) + t);
      assert Fragments(rs) + Deframe(t).payload == r.fragment + (Fragments(rest) + Deframe(t).payload);
    }
  }

  /** A handshake message of the size the parser keeps, whose header announces its own length. */
  predicate IsMessage(m: seq<Byte>) {
    4 < |m| <= CLIENT_HELLO_MAX && m[0] == MSG_CLIENT_HELLO && Announced(m) == |m|
  }

  lemma MessageVerdict(m: seq<Byte>, more: seq<Byte>, f: Framing, size: nat)
    requires IsMessage(m) && f.payload == m + more
    ensures FramingVerdict(f, [], size) == Some(ParseHello(m, size))
  {
    assert m[..|m|] == m;
    HandshakeStable(m, more, size);
    assert [] + f.payload == m + more;
  }

  /** A ClientHello carried by any handshake records, however cut, followed in the last record
      and after it by any bytes, is judged as the unsplit message. */
  lemma FragmentationRoundTrip(
    m: seq<Byte>, rs: seq<Record>, surplus: seq<Byte>, trailing: seq<Byte>, size: nat)
    requires IsMessage(m)
    requires forall i | 0 <= i < |rs| :: LegalRecord(rs[i])
    requires Fragments(rs) == m + surplus
    ensures Run(START, EncodeRecords(rs) + trailing, size) == Done(ParseHello(m, size))
  {
    var s := EncodeRecords(rs) + trailing;
    var last := Deframe(trailing).payload;
    DeframeRecords(rs, trailing);
    assert (m + surplus) + last == m + (surplus + last);
    MessageVerdict(m, surplus + last, Deframe(s), size);
    MachineIsStreamVerdict(s, size);
  }

  // ----- chunking -----

  /** Feed the chunks of a stream in turn, stopping at the first answer other than NEED_MORE. */
  function FeedChunks(m: Machine, chunks: seq<seq<Byte>>, size: nat): Machine
    decreases |chunks|
  {
    if chunks == [] || m.Done? then m else FeedChunks(Run(m, chunks[0], size), chunks[1..], size)
  }

  function Concat(chunks: seq<seq<Byte>>): seq<Byte> {
    if chunks == [] then [] else chunks[0] + Concat(chunks[1..])
  }

  lemma {:induction false} FeedIsRun(m: Machine, chunks: seq<seq<Byte>>, size: nat)
    ensures FeedChunks(m, chunks, size) == Run(m, Concat(chunks), size)
    decreases |chunks|
  {
    if chunks != [] {
      if m.Done? {
        RunDone(m.verdict, Concat(chunks), size);
      } else {
        RunAppend(m, chunks[0], Concat(chunks[1..]), size);
        FeedIsRun(Run(m, chunks[0], size), chunks[1..], size);
      }
    }
  }

  /** Two ways of cutting one stream end in the same result, hostname and ECH flag. */
  lemma ChunkingIndependence(xs: seq<seq<Byte>>, ys: seq<seq<Byte>>, size: nat)
    requires Concat(xs) == Concat(ys)
    ensures FeedChunks(START, xs, size) == FeedChunks(START, ys, size)
    ensures VerdictOf(FeedChunks(START, xs, size)) == StreamVerdict(Concat(xs), size)
  {
    FeedIsRun(START, xs, size);
    FeedIsRun(START, ys, size);
    MachineIsStreamVerdict(Concat(xs), size);
  }
}
