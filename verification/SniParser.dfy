/** The incremental ClientHello parser over its fixed buffers. */
module SniParser {
  import opened Bytes
  import opened ClientHello
  import opened SniMachine

  class TlsSniParser {
    const recordHeader: array<Byte>
    var recordHeaderUsed: nat
    var recordRemaining: nat

    const clientHello: array<Byte>
    var clientHelloUsed: nat
    var clientHelloExpected: nat

    var echPresent: bool
    var finished: bool

    ghost function Repr(): set<object> {
      {this, recordHeader, clientHello}
    }

    ghost predicate Buffers() {
      recordHeader.Length == RECORD_HEADER && clientHello.Length == CLIENT_HELLO_MAX && recordHeader != clientHello
    }

    ghost predicate Valid()
      reads Repr()
    {
      && Buffers()
      && (!finished ==>
            && recordHeaderUsed <= RECORD_HEADER
            && (recordRemaining == 0 <==> recordHeaderUsed < RECORD_HEADER)
            && recordRemaining < 0x1_0000
            && clientHelloUsed <= CLIENT_HELLO_MAX
            && Handshake(clientHello[..clientHelloUsed], 0).None?
            && clientHelloExpected == (if clientHelloUsed < 4 then 0 else Announced(clientHello[..clientHelloUsed]))
            && !echPresent)
    }

    /** The byte-machine state the buffers stand for while the parse is unfinished. */
    ghost function View(): Machine
      reads this, recordHeader, clientHello
      requires Buffers() && recordHeaderUsed <= RECORD_HEADER && clientHelloUsed <= CLIENT_HELLO_MAX
    {
      Active(if recordRemaining > 0 then [] else recordHeader[..recordHeaderUsed],
             recordRemaining, clientHello[..clientHelloUsed])
    }

    constructor ()
      ensures Valid() && fresh(Repr())
      ensures !finished && View() == START
    {
      recordHeader := new Byte[RECORD_HEADER](_ => 0);
      clientHello := new Byte[CLIENT_HELLO_MAX](_ => 0);
      recordHeaderUsed, recordRemaining := 0, 0;
      clientHelloUsed, clientHelloExpected := 0, 0;
      echPresent, finished := false, false;
    }

    method Init()
      requires Buffers()
      modifies Repr()
      ensures Valid()
      ensures !finished && View() == START
    {
      forall i | 0 <= i < recordHeader.Length {
        recordHeader[i] := 0;
      }
      forall i | 0 <= i < clientHello.Length {
        clientHello[i] := 0;
      }
      recordHeaderUsed, recordRemaining := 0, 0;
      clientHelloUsed, clientHelloExpected := 0, 0;
      echPresent, finished := false, false;
    }

    method ReadU16(o: nat) returns (n: U16)
      requires o + 2 <= clientHello.Length
      ensures n == U16At(clientHello[..], o)
    {
      n := 0x100 * (clientHello[o] as int) + clientHello[o + 1] as int;
    }

    /** One host_name: legality check and lower-casing into the hostname buffer. */
    method StoreHost(o: nat, length: nat, hostname: array<Byte>) returns (ok: bool)
      requires Buffers() && o + length <= clientHello.Length
      requires hostname != clientHello && 0 < length < hostname.Length
      modifies hostname
      ensures var host := clientHello[o..o + length];
              && ok == Printable(host)
              && (ok ==> hostname[..length] == Lower(host) && hostname[length] == 0)
    {
      ghost var host := clientHello[o..o + length];
      for i := 0 to length
        invariant clientHello[o..o + length] == host
        invariant forall j | 0 <= j < i :: 0x21 <= host[j] <= 0x7E && hostname[j] == LowerByte(host[j])
      {
        var value := clientHello[o + i];
        assert value == host[i];
        if value == 0 || value < 0x21 || value > 0x7E {
          return false;
        }
        hostname[i] := LowerByte(value);
      }
      hostname[length] := 0;
      ok := true;
    }

    /** What the hostname buffer holds for the scan so far. */
    ghost predicate Holds(hostname: array<Byte>, name: Option<seq<Byte>>)
      reads hostname
    {
      name.Some? ==> |name.value| < hostname.Length
                     && hostname[..|name.value|] == name.value && hostname[|name.value|] == 0
    }

    /** The ServerNameList at [o, end): None on rejection, else the host_name now held. */
    method ParseNames(o: nat, end: nat, hostname: array<Byte>, sniFound: bool, ghost name: Option<seq<Byte>>)
      returns (ok: bool, found: bool, ghost name': Option<seq<Byte>>)
      requires Buffers() && o <= end <= clientHello.Length && hostname != clientHello
      requires sniFound == name.Some? && Holds(hostname, name)
      modifies hostname
      ensures var held := ScanNames(clientHello[..], o, end, hostname.Length, name);
              && ok == held.Some?
              && (ok ==> name' == held.value && found == name'.Some? && Holds(hostname, name'))
    {
      ghost var b := clientHello[..];
      found, name' := sniFound, name;
      var nameOffset := o;
      while nameOffset < end
        invariant o <= nameOffset <= end && clientHello[..] == b
        invariant found == name'.Some? && Holds(hostname, name')
        invariant ScanNames(b, o, end, hostname.Length, name)
               == ScanNames(b, nameOffset, end, hostname.Length, name')
      {
        if end - nameOffset < 3 {
          return false, false, None;
        }
        var nameType := clientHello[nameOffset];
        var nameLength := ReadU16(nameOffset + 1);
        nameOffset := nameOffset + 3;
        if nameLength > end - nameOffset {
          return false, false, None;
        }
        if nameType == 0 {
          assert clientHello[nameOffset..nameOffset + nameLength] == b[nameOffset..nameOffset + nameLength];
          if found || nameLength == 0 || nameLength >= hostname.Length {
            return false, false, None;
          }
          var legal := StoreHost(nameOffset, nameLength, hostname);
          if !legal {
            return false, false, None;
          }
          found, name' := true, Some(Lower(b[nameOffset..nameOffset + nameLength]));
        }
        nameOffset := nameOffset + nameLength;
      }
      ok := true;
    }

    /** The extensions at [o, end). */
    method ParseExtensions(o: nat, end: nat, hostname: array<Byte>)
      returns (outcome: Outcome, ghost s: Scan)
      requires Buffers() && o <= end <= clientHello.Length && hostname != clientHello
      requires !echPresent
      modifies this`echPresent, hostname
      ensures s == ScanExtensions(clientHello[..], o, end, hostname.Length, None, false)
      ensures outcome == ScanVerdict(s).outcome && echPresent == s.ech
      ensures s.Accepted? ==> Holds(hostname, s.name)
    {
      ghost var b := clientHello[..];
      s := ScanExtensions(b, o, end, hostname.Length, None, false);
      var offset := o;
      var sniFound := false;
      ghost var name: Option<seq<Byte>> := None;
      while offset < end
        invariant o <= offset <= end && clientHello[..] == b
        invariant sniFound == name.Some? && Holds(hostname, name)
        invariant s == ScanExtensions(b, offset, end, hostname.Length, name, echPresent)
      {
        if end - offset < 4 {
          return Invalid, s;
        }
        var extType := ReadU16(offset);
        var extensionLength := ReadU16(offset + 2);
        offset := offset + 4;
        if extensionLength > end - offset {
          return Invalid, s;
        }
        var extensionEnd := offset + extensionLength;
        if extType == EXT_ECH {
          echPresent := true;
        }
        if extType == EXT_SERVER_NAME {
          if extensionLength < 5 {
            return Invalid, s;
          }
          var nameListLength := ReadU16(offset);
          if nameListLength != extensionLength - 2 {
            return Invalid, s;
          }
          var ok, found;
          ok, found, name := ParseNames(offset + 2, extensionEnd, hostname, sniFound, name);
          if !ok {
            return Invalid, s;
          }
          sniFound := found;
        }
        offset := extensionEnd;
      }
      outcome := if sniFound then Found else NoSni;
    }

    /** parse_client_hello: the complete message in the buffer against a hostname buffer. */
    method ParseClientHello(hostname: array<Byte>) returns (outcome: Outcome)
      requires Buffers() && clientHelloExpected <= clientHello.Length && hostname != clientHello
      requires !echPresent
      modifies this`echPresent, hostname
      ensures var v := ParseHello(clientHello[..clientHelloExpected], hostname.Length);
              && outcome == v.outcome && echPresent == v.ech
              && (outcome == Found ==> Holds(hostname, Some(v.hostname)))
    {
      hide ScanExtensions;
      ghost var b := clientHello[..];
      var length := clientHelloExpected;
      ghost var m := clientHello[..length];
      var offset := 4;
      if length < offset + 34 {
        return Invalid;
      }
      offset := offset + 34;
      if offset >= length {
        return Invalid;
      }
      var sessionLength: nat := clientHello[offset];
      offset := offset + 1;
      if offset + sessionLength > length {
        return Invalid;
      }
      offset := offset + sessionLength;
      if offset + 2 > length {
        return Invalid;
      }
      var cipherLength := ReadU16(offset);
      assert cipherLength == U16At(m, offset);
      offset := offset + 2;
      if cipherLength < 2 || cipherLength % 2 != 0 || offset + cipherLength > length {
        return Invalid;
      }
      offset := offset + cipherLength;
      if offset >= length {
        return Invalid;
      }
      var compressionLength: nat := clientHello[offset];
      offset := offset + 1;
      if compressionLength == 0 || offset + compressionLength > length {
        return Invalid;
      }
      offset := offset + compressionLength;
      if offset == length {
        return NoSni;
      }
      if offset + 2 > length {
        return Invalid;
      }
      var extensionsLength := ReadU16(offset);
      assert extensionsLength == U16At(m, offset);
      offset := offset + 2;
      if extensionsLength != length - offset {
        return Invalid;
      }
      ScanWithin(b, length, offset, length, hostname.Length, None, false);
      ghost var s;
      outcome, s := ParseExtensions(offset, length, hostname);
    }

    /** Move input into the partial record header until it is complete or the input ends. */
    method FillHeader(data: seq<Byte>, o: nat) returns (o': nat)
      requires Buffers() && recordHeaderUsed <= RECORD_HEADER && o <= |data|
      modifies recordHeader, this`recordHeaderUsed
      ensures o <= o' <= |data| && recordHeaderUsed <= RECORD_HEADER
      ensures recordHeaderUsed < RECORD_HEADER ==> o' == |data|
      ensures recordHeader[..recordHeaderUsed] == old(recordHeader[..recordHeaderUsed]) + data[o..o']
    {
      o' := o;
      while recordHeaderUsed < RECORD_HEADER && o' < |data|
        invariant o <= o' <= |data| && recordHeaderUsed <= RECORD_HEADER
        invariant recordHeader[..recordHeaderUsed] == old(recordHeader[..recordHeaderUsed]) + data[o..o']
      {
        recordHeader[recordHeaderUsed] := data[o'];
        recordHeaderUsed := recordHeaderUsed + 1;
        o' := o' + 1;
      }
    }

    /** Copy what the open record and the message still want. */
    method CopyPayload(data: seq<Byte>, o: nat) returns (o': nat)
      requires Valid() && !finished && recordRemaining > 0 && o <= |data|
      modifies clientHello, this`clientHelloUsed, this`recordRemaining
      ensures o <= o' <= |data| && (o < |data| ==> o < o')
      ensures clientHelloUsed <= CLIENT_HELLO_MAX
      ensures recordRemaining == old(recordRemaining) - (o' - o)
      ensures clientHello[..clientHelloUsed] == old(clientHello[..clientHelloUsed]) + data[o..o']
      ensures clientHelloExpected == 0 ==> clientHelloUsed <= 4
      ensures clientHelloExpected > 0 ==> clientHelloUsed <= clientHelloExpected
    {
      var wanted := if clientHelloExpected == 0 then 4 - clientHelloUsed else clientHelloExpected - clientHelloUsed;
      var copyLength := Min(Min(|data| - o, recordRemaining), wanted);
      forall i | 0 <= i < copyLength {
        clientHello[clientHelloUsed + i] := data[o + i];
      }
      clientHelloUsed := clientHelloUsed + copyLength;
      recordRemaining := recordRemaining - copyLength;
      o' := o + copyLength;
    }

    /** Decide on the handshake bytes in the buffer; `before` are those already found wanting. */
    method SettleHello(hostname: array<Byte>, ghost before: seq<Byte>) returns (outcome: Outcome)
      requires Buffers() && clientHelloUsed <= CLIENT_HELLO_MAX && !finished && !echPresent
      requires hostname !in Repr()
      requires Handshake(before, 0).None? && before <= clientHello[..clientHelloUsed]
      requires clientHelloExpected == (if |before| < 4 then 0 else Announced(before))
      requires clientHelloExpected == 0 ==> clientHelloUsed <= 4
      requires clientHelloExpected > 0 ==> clientHelloUsed <= clientHelloExpected
      modifies this`clientHelloExpected, this`echPresent, this`finished, hostname
      ensures match Handshake(clientHello[..clientHelloUsed], hostname.Length)
              case Some(v) =>
                && outcome == v.outcome && outcome != NeedMore && finished && echPresent == v.ech
                && (outcome == Found ==> Holds(hostname, Some(v.hostname)))
              case None =>
                && outcome == NeedMore && !finished && !echPresent
                && clientHelloExpected ==
                   (if clientHelloUsed < 4 then 0 else Announced(clientHello[..clientHelloUsed]))
    {
      ghost var hello := clientHello[..clientHelloUsed];
      if clientHelloUsed >= 1 && clientHello[0] != MSG_CLIENT_HELLO {
        finished := true;
        return Invalid;
      }
      if clientHelloUsed == 4 && clientHelloExpected == 0 {
        clientHelloExpected :=
          4 + 0x1_0000 * (clientHello[1] as int) + 0x100 * (clientHello[2] as int) + clientHello[3] as int;
        if clientHelloExpected > clientHello.Length || clientHelloExpected <= 4 {
          finished := true;
          return Invalid;
        }
      }
      assert |before| >= 4 ==> Announced(hello) == Announced(before);
      if clientHelloExpected > 0 && clientHelloUsed == clientHelloExpected {
        finished := true;
        assert hello[..Announced(hello)] == hello;
        outcome := ParseClientHello(hostname);
        return;
      }
      outcome := NeedMore;
    }

    /** Complete the record header if need be and open its record. */
    method ReadHeader(data: seq<Byte>, o: nat, ghost size: nat) returns (o': nat)
      requires Valid() && !finished && o <= |data|
      modifies recordHeader, this`recordHeaderUsed, this`recordRemaining, this`finished
      ensures o <= o' <= |data| && Valid()
      ensures finished ==> Run(old(View()), data[o..o'], size) == Done(REJECT)
      ensures !finished ==> Run(old(View()), data[o..o'], size) == View()
      ensures !finished && recordRemaining == 0 ==> o' == |data|
    {
      ghost var m := View();
      o' := FillHeader(data, o);
      if recordRemaining == 0 {
        RunHeader(m, data[o..o'], size);
        if recordHeaderUsed < RECORD_HEADER {
          return;
        }
        if recordHeader[0] != CONTENT_HANDSHAKE {
          finished := true;
          return;
        }
        recordRemaining := 0x100 * (recordHeader[3] as int) + recordHeader[4] as int;
        if recordRemaining == 0 {
          finished := true;
          return;
        }
      }
    }

    /** What one call reports about machine state `m`. */
    ghost predicate Reports(m: Machine, outcome: Outcome, hostname: array<Byte>)
      requires Valid()
      reads Repr(), hostname
    {
      match m
      case Active(_, _, _) => outcome == NeedMore && !finished && View() == m
      case Done(v) =>
        && outcome == v.outcome && outcome != NeedMore && finished && echPresent == v.ech
        && (outcome == Found ==> Holds(hostname, Some(v.hostname)))
    }

    /** Take handshake bytes out of the open record. */
    method ReadPayload(data: seq<Byte>, o: nat, hostname: array<Byte>) returns (o': nat, outcome: Outcome)
      requires Valid() && !finished && recordRemaining > 0 && o <= |data|
      requires hostname !in Repr() && hostname.Length > 0
      modifies Repr(), hostname
      ensures o <= o' <= |data| && (o < |data| ==> o < o') && Valid()
      ensures Reports(Run(old(View()), data[o..o'], hostname.Length), outcome, hostname)
    {
      hide Run, ParseHello;
      ghost var m, hello := View(), clientHello[..clientHelloUsed];
      o' := CopyPayload(data, o);
      outcome := SettleHello(hostname, hello);
      RunPayload(m, data[o..o'], hostname.Length);
      if outcome == NeedMore && recordRemaining == 0 {
        recordHeaderUsed := 0;
        forall i | 0 <= i < recordHeader.Length {
          recordHeader[i] := 0;
        }
      }
    }

    /** tls_sni_parser_feed: any chunk of the stream, of any length. */
    method Feed(data: seq<Byte>, hostname: array<Byte>) returns (outcome: Outcome)
      requires Valid() && hostname !in Repr()
      modifies Repr(), hostname
      ensures Valid()
      ensures old(finished) || hostname.Length == 0 ==> outcome == Invalid && unchanged(Repr()) && unchanged(hostname)
      ensures !old(finished) && hostname.Length > 0 ==>
                Reports(Run(old(View()), data, hostname.Length), outcome, hostname)
    {
      if hostname.Length == 0 || finished {
        return Invalid;
      }
      ghost var size := hostname.Length;
      ghost var m := View();
      hostname[0] := 0;
      var inputOffset := 0;
      while inputOffset < |data|
        invariant 0 <= inputOffset <= |data|
        invariant Valid() && !finished
        invariant Run(m, data[..inputOffset], size) == View()
        decreases |data| - inputOffset
      {
        ghost var start := inputOffset;
        inputOffset := ReadHeader(data, inputOffset, size);
        RunStretch(m, data, start, inputOffset, size);
        if finished {
          return Invalid;
        }
        if recordRemaining == 0 {
          assert data[..inputOffset] == data;
          return NeedMore;
        }
        ghost var middle := inputOffset;
        inputOffset, outcome := ReadPayload(data, inputOffset, hostname);
        RunStretch(m, data, middle, inputOffset, size);
        if outcome != NeedMore {
          return;
        }
      }
      assert data[..inputOffset] == data;
      outcome := NeedMore;
    }
  }

  /** Running up to `o'` is running up to `o` and then over the stretch between; if that settles
      the stream, it is the verdict of all of `data`. */
  lemma RunStretch(m: Machine, data: seq<Byte>, o: nat, o': nat, size: nat)
    requires o <= o' <= |data|
    ensures Run(m, data[..o'], size) == Run(Run(m, data[..o], size), data[o..o'], size)
    ensures Run(m, data[..o'], size).Done? ==> Run(m, data, size) == Run(m, data[..o'], size)
  {
    assert data[..o'] == data[..o] + data[o..o'];
    RunAppend(m, data[..o], data[o..o'], size);
    if Run(m, data[..o'], size).Done? {
      RunSettled(m, data, o', size);
    }
  }

  /** The extension walk reads nothing beyond its end. */
  lemma {:induction false} ScanWithin(
    b: seq<Byte>, n: nat, o: nat, end: nat, size: nat, name: Option<seq<Byte>>, ech: bool)
    requires end <= n <= |b|
    ensures ScanExtensions(b, o, end, size, name, ech) == ScanExtensions(b[..n], o, end, size, name, ech)
    decreases end - o
  {
    if end - o >= 4 {
      var next := o + 4 + U16At(b, o + 2);
      var ech' := ech || U16At(b, o) == EXT_ECH;
      if next <= end {
        if U16At(b, o) == EXT_SERVER_NAME {
          if next >= o + 9 {
            ScanNamesWithin(b, n, o + 6, next, size, name);
            var held := ScanNames(b, o + 6, next, size, name);
            if held.Some? {
              ScanWithin(b, n, next, end, size, held.value, ech');
            }
          }
        } else {
          ScanWithin(b, n, next, end, size, name, ech');
        }
      }
    }
  }

  lemma {:induction false} ScanNamesWithin(b: seq<Byte>, n: nat, o: nat, end: nat, size: nat, name: Option<seq<Byte>>)
    requires end <= n <= |b|
    ensures ScanNames(b, o, end, size, name) == ScanNames(b[..n], o, end, size, name)
    decreases end - o
  {
    if end - o >= 3 {
      var next := o + 3 + U16At(b, o + 1);
      if next <= end {
        var host := b[o + 3..next];
        assert host == b[..n][o + 3..next];
        if b[o] != 0 {
          ScanNamesWithin(b, n, next, end, size, name);
        } else if name.None? && LegalHost(host, size) {
          ScanNamesWithin(b, n, next, end, size, Some(Lower(host)));
        }
      }
    }
  }
}
