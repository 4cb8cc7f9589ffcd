/** The scanner accepts exactly the serializations of well-formed hellos with at most one legal
    host_name, and reports exactly what those hellos say. */
module HelloGrammar {
  import opened Bytes
  import opened ClientHello

  /** The held host_name after meeting `hosts` in order; None once one of them is refused. */
  function Admit(name: Option<seq<Byte>>, hosts: seq<seq<Byte>>, size: nat): Option<Option<seq<Byte>>>
    decreases |hosts|
  {
    if hosts == [] then Some(name)
    else if name.Some? || !LegalHost(hosts[0], size) then None
    else Admit(Some(Lower(hosts[0])), hosts[1..], size)
  }

  function AdmitNext(state: Option<Option<seq<Byte>>>, hosts: seq<seq<Byte>>, size: nat)
    : Option<Option<seq<Byte>>>
  {
    if state.None? then None else Admit(state.value, hosts, size)
  }

  lemma {:induction false} AdmitAppend(name: Option<seq<Byte>>, xs: seq<seq<Byte>>, ys: seq<seq<Byte>>, size: nat)
    ensures Admit(name, xs + ys, size) == AdmitNext(Admit(name, xs, size), ys, size)
    decreases |xs|
  {
    if xs == [] {
      assert xs + ys == ys;
    } else {
      assert (xs + ys)[1..] == xs[1..] + ys;
      if name.None? && LegalHost(xs[0], size) {
        AdmitAppend(Some(Lower(xs[0])), xs[1..], ys, size);
      }
    }
  }

  // ----- vectors on the wire -----

  lemma Join(b: seq<Byte>, o: nat, m: nat, end: nat)
    requires o <= m <= end <= |b|
    ensures b[o..end] == b[o..m] + b[m..end]
  {
  }

  lemma U16Decodes(b: seq<Byte>, o: nat, n: nat)
    requires o + 2 <= |b| && n < 0x1_0000
    requires b[o..o + 2] == U16Bytes(n)
    ensures U16At(b, o) == n
  {
  }

  lemma U16Encodes(b: seq<Byte>, o: nat)
    requires o + 2 <= |b|
    ensures b[o..o + 2] == U16Bytes(U16At(b, o))
  {
  }

  lemma Vector16Decodes(b: seq<Byte>, o: nat, end: nat, s: seq<Byte>)
    requires o <= end <= |b| && |s| < 0x1_0000
    requires b[o..end] == Vector16(s)
    ensures end == o + 2 + |s| && U16At(b, o) == |s| && b[o + 2..end] == s
  {
  }

  lemma Vector16Encodes(b: seq<Byte>, o: nat)
    requires o + 2 <= |b| && o + 2 + U16At(b, o) <= |b|
    ensures b[o..o + 2 + U16At(b, o)] == Vector16(b[o + 2..o + 2 + U16At(b, o)])
  {
    U16Encodes(b, o);
    Join(b, o, o + 2, o + 2 + U16At(b, o));
  }

  lemma Vector8Decodes(b: seq<Byte>, o: nat, end: nat, s: seq<Byte>)
    requires o <= end <= |b| && |s| < 0x100
    requires b[o..end] == Vector8(s)
    ensures end == o + 1 + |s| && b[o] == |s| && b[o + 1..end] == s
  {
  }

  lemma Vector8Encodes(b: seq<Byte>, o: nat)
    requires o < |b| && o + 1 + b[o] <= |b|
    ensures b[o..o + 1 + b[o]] == Vector8(b[o + 1..o + 1 + b[o]])
  {
  }

  // ----- completeness: every serialization is scanned to its meaning -----

  /** Where the pieces of a leading name entry sit. */
  lemma NameFields(b: seq<Byte>, o: nat, end: nat, e: NameEntry, rest: seq<Byte>)
    requires o <= end <= |b| && |e.name| < 0x1_0000
    requires b[o..end] == EncodeName(e) + rest
    ensures o + 3 + |e.name| <= end
    ensures b[o] == e.nameType && U16At(b, o + 1) == |e.name|
    ensures b[o + 3..o + 3 + |e.name|] == e.name
    ensures b[o + 3 + |e.name|..end] == rest
  {
    var next := o + 3 + |e.name|;
    SliceSplit(b, o, end, EncodeName(e), rest);
    SliceSplit(b, o, next, [e.nameType], Vector16(e.name));
    assert b[o] == b[o..o + 1][0];
    Vector16Decodes(b, o + 1, next, e.name);
  }

  lemma {:induction false} NamesComplete(
    b: seq<Byte>, o: nat, end: nat, size: nat, name: Option<seq<Byte>>, es: seq<NameEntry>)
    requires o <= end <= |b| && WellFormedNames(es)
    requires b[o..end] == EncodeNames(es)
    ensures ScanNames(b, o, end, size, name) == Admit(name, EntryHosts(es), size)
    decreases |es|
  {
    if es == [] {
      assert |b[o..end]| == 0;
    } else {
      var e := es[0];
      NameFields(b, o, end, e, EncodeNames(es[1..]));
      var next := o + 3 + |e.name|;
      if e.nameType == 0 {
        assert EntryHosts(es) == [e.name] + EntryHosts(es[1..]);
        if name.None? && LegalHost(e.name, size) {
          NamesComplete(b, next, end, size, Some(Lower(e.name)), es[1..]);
        }
      } else {
        assert EntryHosts(es) == EntryHosts(es[1..]);
        NamesComplete(b, next, end, size, name, es[1..]);
      }
    }
  }

  /** Where the pieces of a leading extension sit. */
  lemma ExtensionFields(b: seq<Byte>, o: nat, end: nat, t: U16, body: seq<Byte>, rest: seq<Byte>)
    requires o <= end <= |b| && |body| < 0x1_0000
    requires b[o..end] == (U16Bytes(t) + Vector16(body)) + rest
    ensures o + 4 + |body| <= end
    ensures U16At(b, o) == t && U16At(b, o + 2) == |body|
    ensures b[o + 4..o + 4 + |body|] == body
    ensures b[o + 4 + |body|..end] == rest
  {
    var next := o + 4 + |body|;
    SliceSplit(b, o, end, U16Bytes(t) + Vector16(body), rest);
    SliceSplit(b, o, next, U16Bytes(t), Vector16(body));
    U16Decodes(b, o, t);
    Vector16Decodes(b, o + 2, next, body);
  }

  lemma NamesNonEmpty(es: seq<NameEntry>)
    ensures es != [] <==> |EncodeNames(es)| >= 3
  {
  }

  /** Some extension of the list has the ECH type. */
  predicate SomeEch(xs: seq<Extension>) {
    xs != [] && (ExtensionType(xs[0]) == EXT_ECH || SomeEch(xs[1..]))
  }

  lemma {:induction false} SomeEchMeaning(xs: seq<Extension>)
    ensures SomeEch(xs) <==> exists i :: 0 <= i < |xs| && ExtensionType(xs[i]) == EXT_ECH
    decreases |xs|
  {
    if xs != [] {
      var rest := xs[1..];
      SomeEchMeaning(rest);
      if SomeEch(rest) {
        var i :| 0 <= i < |rest| && ExtensionType(rest[i]) == EXT_ECH;
        assert xs[i + 1] == rest[i];
      } else if i :| 0 <= i < |xs| && ExtensionType(xs[i]) == EXT_ECH {
        assert i > 0 ==> rest[i - 1] == xs[i];
      }
    }
  }

  /** The list in a server_name extension body at b[o..end] is admitted entry by entry. */
  lemma ServerNameComplete(b: seq<Byte>, o: nat, end: nat, size: nat, name: Option<seq<Byte>>, es: seq<NameEntry>)
    requires o <= end <= |b|
    requires WellFormedExtension(ServerName(es)) && b[o..end] == ExtensionBody(ServerName(es))
    ensures end - o >= 5 && U16At(b, o) == end - o - 2
    ensures ScanNames(b, o + 2, end, size, name) == Admit(name, EntryHosts(es), size)
  {
    NamesNonEmpty(es);
    Vector16Decodes(b, o, end, EncodeNames(es));
    NamesComplete(b, o + 2, end, size, name, es);
  }

  /** The scan's answer for a list of extensions after `name` and `ech`. */
  predicate Reports(s: Scan, name: Option<seq<Byte>>, ech: bool, xs: seq<Extension>, size: nat) {
    match Admit(name, ExtensionHosts(xs), size)
    case None => s.Rejected?
    case Some(n) => s == Accepted(n, ech || SomeEch(xs))
  }

  lemma ReportsStep(
    s: Scan, name: Option<seq<Byte>>, ech: bool, xs: seq<Extension>, held: Option<Option<seq<Byte>>>, size: nat)
    requires xs != []
    requires held == if xs[0].ServerName? then Admit(name, EntryHosts(xs[0].entries), size) else Some(name)
    requires held.None? ==> s.Rejected?
    requires held.Some? ==> Reports(s, held.value, ech || ExtensionType(xs[0]) == EXT_ECH, xs[1..], size)
    ensures Reports(s, name, ech, xs, size)
  {
    if xs[0].ServerName? {
      AdmitAppend(name, EntryHosts(xs[0].entries), ExtensionHosts(xs[1..]), size);
    } else {
      assert ExtensionHosts(xs) == ExtensionHosts(xs[1..]);
    }
  }

  /** The host_name held after the extension at b[o..next], None if it is refused. */
  function HeldAfter(b: seq<Byte>, o: nat, next: nat, size: nat, name: Option<seq<Byte>>): Option<Option<seq<Byte>>>
    requires o + 4 <= next <= |b|
  {
    if U16At(b, o) == EXT_SERVER_NAME then ScanNames(b, o + 6, next, size, name) else Some(name)
  }

  /** The walk takes one extension whose lengths agree. */
  lemma ScanStep(b: seq<Byte>, o: nat, end: nat, size: nat, name: Option<seq<Byte>>, ech: bool)
    requires o + 4 <= end <= |b| && o + 4 + U16At(b, o + 2) <= end
    requires U16At(b, o) == EXT_SERVER_NAME ==> U16At(b, o + 2) >= 5 && U16At(b, o + 4) == U16At(b, o + 2) - 2
    ensures var next, ech' := o + 4 + U16At(b, o + 2), ech || U16At(b, o) == EXT_ECH;
            var held := HeldAfter(b, o, next, size, name);
            ScanExtensions(b, o, end, size, name, ech) ==
            if held.None? then Rejected(ech') else ScanExtensions(b, next, end, size, held.value, ech')
  {
  }

  lemma WellFormedRest(xs: seq<Extension>)
    requires xs != [] && WellFormedExtensions(xs)
    ensures WellFormedExtension(xs[0]) && WellFormedExtensions(xs[1..])
  {
  }

  /** What the walk holds after the body of a server_name extension. */
  lemma ServerNameHeld(b: seq<Byte>, o: nat, next: nat, size: nat, name: Option<seq<Byte>>, x: Extension)
    requires o + 4 <= next <= |b| && x.ServerName? && WellFormedExtension(x)
    requires U16At(b, o) == EXT_SERVER_NAME && b[o + 4..next] == ExtensionBody(x)
    ensures next >= o + 9 && U16At(b, o + 4) == next - o - 6
    ensures HeldAfter(b, o, next, size, name) == Admit(name, EntryHosts(x.entries), size)
  {
    hide ScanNames, Admit, EntryHosts, WellFormedExtension, ExtensionBody, U16At;
    ServerNameComplete(b, o + 4, next, size, name, x.entries);
  }

  lemma BodyFits(x: Extension)
    requires WellFormedExtension(x)
    ensures |ExtensionBody(x)| < 0x1_0000
    ensures x.ServerName? <==> ExtensionType(x) == EXT_SERVER_NAME
  {
  }

  /** A leading well-formed extension: its bytes, and what is held after it. */
  lemma ExtensionComplete(
    b: seq<Byte>, o: nat, end: nat, size: nat, name: Option<seq<Byte>>, x: Extension, rest: seq<Byte>)
    requires o <= end <= |b| && WellFormedExtension(x)
    requires b[o..end] == EncodeExtension(x) + rest
    ensures var next := o + 4 + |ExtensionBody(x)|;
            && next <= end && U16At(b, o) == ExtensionType(x) && U16At(b, o + 2) == |ExtensionBody(x)|
            && b[next..end] == rest
            && (x.ServerName? ==> next >= o + 9 && U16At(b, o + 4) == next - o - 6)
            && HeldAfter(b, o, next, size, name)
               == if x.ServerName? then Admit(name, EntryHosts(x.entries), size) else Some(name)
  {
    hide U16Bytes, Vector16, ScanNames, Admit, EntryHosts, WellFormedExtension, ExtensionType, ExtensionBody, U16At;
    var body := ExtensionBody(x);
    BodyFits(x);
    ExtensionFields(b, o, end, ExtensionType(x), body, rest);
    if x.ServerName? {
      ServerNameHeld(b, o, o + 4 + |body|, size, name, x);
    }
  }

  /** The walk over a non-empty list: its first extension, then the rest. */
  lemma ExtensionsUnfold(
    b: seq<Byte>, o: nat, end: nat, size: nat, name: Option<seq<Byte>>, ech: bool, xs: seq<Extension>)
    returns (next: nat, held: Option<Option<seq<Byte>>>)
    requires o <= end <= |b| && WellFormedExtensions(xs) && xs != []
    requires b[o..end] == EncodeExtensions(xs)
    ensures next <= end && b[next..end] == EncodeExtensions(xs[1..]) && WellFormedExtensions(xs[1..])
    ensures held == if xs[0].ServerName? then Admit(name, EntryHosts(xs[0].entries), size) else Some(name)
    ensures var ech' := ech || ExtensionType(xs[0]) == EXT_ECH;
            ScanExtensions(b, o, end, size, name, ech) ==
            if held.None? then Rejected(ech') else ScanExtensions(b, next, end, size, held.value, ech')
  {
    hide EncodeExtension, WellFormedExtension, WellFormedExtensions, HeldAfter, Admit, ScanExtensions, ExtensionBody;
    WellFormedRest(xs);
    ExtensionComplete(b, o, end, size, name, xs[0], EncodeExtensions(xs[1..]));
    ScanStep(b, o, end, size, name, ech);
    next := o + 4 + |ExtensionBody(xs[0])|;
    held := HeldAfter(b, o, next, size, name);
  }

  lemma {:induction false} ExtensionsComplete(
    b: seq<Byte>, o: nat, end: nat, size: nat, name: Option<seq<Byte>>, ech: bool, xs: seq<Extension>)
    requires o <= end <= |b| && WellFormedExtensions(xs)
    requires b[o..end] == EncodeExtensions(xs)
    ensures Reports(ScanExtensions(b, o, end, size, name, ech), name, ech, xs, size)
    decreases |xs|
  {
    if xs == [] {
      assert |b[o..end]| == 0;
    } else {
      var next, held := ExtensionsUnfold(b, o, end, size, name, ech, xs);
      if held.Some? {
        ExtensionsComplete(b, next, end, size, held.value, ech || ExtensionType(xs[0]) == EXT_ECH, xs[1..]);
      }
      ReportsStep(ScanExtensions(b, o, end, size, name, ech), name, ech, xs, held, size);
    }
  }

  /** Offsets of the fields of a serialized hello. */
  lemma HelloFields(b: seq<Byte>, h: Hello) returns (c: nat, m: nat, e: nat)
    requires WellFormed(h) && Encode(h) == b
    ensures c == FIXED_PART + 1 + |h.sessionId| && m == c + 2 + |h.cipherSuites| && e == m + 1 + |h.compressions|
    ensures m < e <= |b|
    ensures b[FIXED_PART] == |h.sessionId| && U16At(b, c) == |h.cipherSuites| && b[m] == |h.compressions|
    ensures b[e..|b|] == EncodeTail(h.extensions)
  {
    var n, tail := |b|, EncodeTail(h.extensions);
    var comp, ciph, sess := Vector8(h.compressions), Vector16(h.cipherSuites), Vector8(h.sessionId);
    assert b[0..n] == b;
    SliceSplit(b, 0, n, h.header + h.versionAndRandom, sess + (ciph + (comp + tail)));
    SliceSplit(b, FIXED_PART, n, sess, ciph + (comp + tail));
    c := FIXED_PART + 1 + |h.sessionId|;
    Vector8Decodes(b, FIXED_PART, c, h.sessionId);
    SliceSplit(b, c, n, ciph, comp + tail);
    m := c + 2 + |h.cipherSuites|;
    Vector16Decodes(b, c, m, h.cipherSuites);
    SliceSplit(b, m, n, comp, tail);
    e := m + 1 + |h.compressions|;
    Vector8Decodes(b, m, e, h.compressions);
  }

  /** The result the grammar assigns to a hello: exactly one legal host_name, none, or neither. */
  function Judge(h: Hello, size: nat): Verdict {
    var hosts := HostNames(h);
    if hosts == [] then Verdict(NoSni, [], OffersEch(h))
    else if |hosts| == 1 && LegalHost(hosts[0], size) then Verdict(Found, Lower(hosts[0]), OffersEch(h))
    else REJECT
  }

  lemma AdmitFromNone(hosts: seq<seq<Byte>>, size: nat)
    ensures Admit(None, hosts, size) ==
            if hosts == [] then Some(None)
            else if |hosts| == 1 && LegalHost(hosts[0], size) then Some(Some(Lower(hosts[0])))
            else None
  {
  }

  /** The extension part of a serialized hello, judged. */
  lemma TailComplete(b: seq<Byte>, e: nat, size: nat, h: Hello)
    requires WellFormed(h) && e <= |b| && b[e..|b|] == EncodeTail(h.extensions)
    ensures ParseTail(b, e, size).outcome == Judge(h, size).outcome
    ensures ParseTail(b, e, size).outcome != Invalid ==> ParseTail(b, e, size) == Judge(h, size)
  {
    AdmitFromNone(HostNames(h), size);
    if h.extensions.Some? {
      var xs := h.extensions.value;
      Vector16Decodes(b, e, |b|, EncodeExtensions(xs));
      ExtensionsComplete(b, e + 2, |b|, size, None, false, xs);
      SomeEchMeaning(xs);
    } else {
      assert |b[e..|b|]| == 0;
    }
  }

  /** The fixed part and the three vectors in front of the extensions are skipped. */
  lemma ParseSkips(b: seq<Byte>, size: nat, c: nat, m: nat, e: nat)
    requires |b| > FIXED_PART && c == FIXED_PART + 1 + b[FIXED_PART] && c + 2 <= m < e <= |b|
    requires m == c + 2 + U16At(b, c) && U16At(b, c) >= 2 && U16At(b, c) % 2 == 0
    requires b[m] != 0 && e == m + 1 + b[m]
    ensures ParseHello(b, size) == ParseTail(b, e, size)
  {
  }

  /** Completeness: a serialized well-formed hello is judged by its host_names and extension
      types. Since the hello is arbitrary, no byte string has two readings. */
  lemma ParseComplete(b: seq<Byte>, size: nat, h: Hello)
    requires WellFormed(h) && Encode(h) == b
    ensures ParseHello(b, size).outcome == Judge(h, size).outcome
    ensures ParseHello(b, size).outcome != Invalid ==> ParseHello(b, size) == Judge(h, size)
  {
    var c, m, e := HelloFields(b, h);
    ParseSkips(b, size, c, m, e);
    TailComplete(b, e, size, h);
  }

  // ----- soundness: whatever is not rejected is a serialization -----

  lemma NameSound(b: seq<Byte>, o: nat, next: nat)
    requires o + 3 <= next <= |b| && next == o + 3 + U16At(b, o + 1)
    ensures EncodeName(NameEntry(b[o], b[o + 3..next])) == b[o..next]
  {
  }

  lemma {:induction false} NamesSound(b: seq<Byte>, o: nat, end: nat, size: nat, name: Option<seq<Byte>>)
    returns (es: seq<NameEntry>)
    requires o <= end <= |b|
    requires ScanNames(b, o, end, size, name).Some?
    ensures WellFormedNames(es) && EncodeNames(es) == b[o..end]
    decreases end - o
  {
    if o == end {
      es := [];
    } else {
      var next := o + 3 + U16At(b, o + 1);
      var e := NameEntry(b[o], b[o + 3..next]);
      var rest := NamesSound(b, next, end, size, if b[o] == 0 then Some(Lower(e.name)) else name);
      NameSound(b, o, next);
      es := [e] + rest;
      assert es[1..] == rest;
      Join(b, o, next, end);
    }
  }

  lemma ServerNameSound(b: seq<Byte>, o: nat, end: nat, size: nat, name: Option<seq<Byte>>)
    returns (x: Extension)
    requires o + 5 <= end <= |b| && end - o < 0x1_0000
    requires U16At(b, o) == end - o - 2
    requires ScanNames(b, o + 2, end, size, name).Some?
    ensures WellFormedExtension(x) && x.ServerName? && ExtensionBody(x) == b[o..end]
  {
    var es := NamesSound(b, o + 2, end, size, name);
    NamesNonEmpty(es);
    Vector16Encodes(b, o);
    x := ServerName(es);
  }

  lemma ExtensionSound(b: seq<Byte>, o: nat, next: nat, x: Extension)
    requires o + 4 <= next <= |b| && U16At(b, o + 2) == next - o - 4
    requires ExtensionType(x) == U16At(b, o) && ExtensionBody(x) == b[o + 4..next]
    ensures EncodeExtension(x) == b[o..next]
  {
    U16Encodes(b, o);
    Vector16Encodes(b, o + 2);
    Join(b, o, o + 2, next);
  }

  lemma {:induction false} ExtensionsSound(
    b: seq<Byte>, o: nat, end: nat, size: nat, name: Option<seq<Byte>>, ech: bool)
    returns (xs: seq<Extension>)
    requires o <= end <= |b|
    requires ScanExtensions(b, o, end, size, name, ech).Accepted?
    ensures WellFormedExtensions(xs) && EncodeExtensions(xs) == b[o..end]
    decreases end - o
  {
    if o == end {
      xs := [];
    } else {
      var next := o + 4 + U16At(b, o + 2);
      var x := OtherExtension(U16At(b, o), b[o + 4..next]);
      var held := Some(name);
      if U16At(b, o) == EXT_SERVER_NAME {
        held := ScanNames(b, o + 6, next, size, name);
        x := ServerNameSound(b, o + 4, next, size, name);
      }
      ExtensionSound(b, o, next, x);
      var rest := ExtensionsSound(b, next, end, size, held.value, ech || U16At(b, o) == EXT_ECH);
      xs := [x] + rest;
      assert xs[1..] == rest;
      Join(b, o, next, end);
    }
  }

  lemma HelloAssembles(b: seq<Byte>, c: nat, m: nat, e: nat, h: Hello)
    requires FIXED_PART < c && c + 2 <= m < e <= |b|
    requires h.header + h.versionAndRandom == b[0..FIXED_PART]
    requires Vector8(h.sessionId) == b[FIXED_PART..c] && Vector16(h.cipherSuites) == b[c..m]
    requires Vector8(h.compressions) == b[m..e] && EncodeTail(h.extensions) == b[e..|b|]
    ensures Encode(h) == b
  {
    Join(b, m, e, |b|);
    Join(b, c, m, |b|);
    Join(b, FIXED_PART, c, |b|);
    Join(b, 0, FIXED_PART, |b|);
    assert b[0..|b|] == b;
  }

  lemma TailSound(b: seq<Byte>, e: nat, size: nat) returns (extensions: Option<seq<Extension>>)
    requires e <= |b| && ParseTail(b, e, size).outcome != Invalid
    ensures EncodeTail(extensions) == b[e..|b|]
    ensures extensions.Some? ==> WellFormedExtensions(extensions.value)
                                 && |EncodeExtensions(extensions.value)| < 0x1_0000
  {
    hide EncodeExtensions, ScanExtensions, WellFormedExtensions;
    extensions := None;
    if e < |b| {
      var xs := ExtensionsSound(b, e + 2, |b|, size, None, false);
      Vector16Encodes(b, e);
      extensions := Some(xs);
      assert |EncodeExtensions(xs)| == |b| - e - 2;
    }
  }

  lemma ParseSound(b: seq<Byte>, size: nat) returns (h: Hello)
    requires ParseHello(b, size).outcome != Invalid
    ensures WellFormed(h) && Encode(h) == b
  {
    var c := FIXED_PART + 1 + b[FIXED_PART];
    var m := c + 2 + U16At(b, c);
    var e := m + 1 + b[m];
    var extensions := TailSound(b, e, size);
    h := Hello(b[0..4], b[4..FIXED_PART], b[FIXED_PART + 1..c], b[c + 2..m], b[m + 1..e], extensions);
    Join(b, 0, 4, FIXED_PART);
    Vector8Encodes(b, FIXED_PART);
    Vector16Encodes(b, c);
    Vector8Encodes(b, m);
    HelloAssembles(b, c, m, e, h);
  }

  // ----- the grammar theorem -----

  predicate IsHello(b: seq<Byte>, h: Hello) {
    WellFormed(h) && Encode(h) == b
  }

  /** The server_name extension on the wire: type 0, then a list of entries of type and name (section 3 of
      RFC 6066). */
  lemma ServerNameOnWire(host: seq<Byte>)
    ensures EncodeExtension(ServerName([NameEntry(0, host)]))
         == [0, 0] + U16Bytes(|host| + 5) + U16Bytes(|host| + 3) + [0] + U16Bytes(|host|) + host
  {
    hide U16Bytes;
    var es := [NameEntry(0, host)];
    assert es[1..] == [] && EncodeNames([]) == [];
    assert EncodeNames(es) == [0] + U16Bytes(|host|) + host;
    assert EncodeExtension(ServerName(es)) == U16Bytes(0) + (U16Bytes(|host| + 5) + Vector16(EncodeNames(es)));
    ZeroBytes();
  }

  lemma ZeroBytes()
    ensures U16Bytes(0) == [0, 0]
  {
  }

  /** Exactly one host_name, and a legal one that lowers to `n`. */
  predicate Names(h: Hello, size: nat, n: seq<Byte>) {
    |HostNames(h)| == 1 && LegalHost(HostNames(h)[0], size) && Lower(HostNames(h)[0]) == n
  }

  /** FOUND(n), NO_SNI and INVALID, each exactly when the grammar says so; and the ECH flag. */
  lemma ParseMeaning(b: seq<Byte>, size: nat, n: seq<Byte>)
    ensures var v := ParseHello(b, size);
            && (v.outcome == Found && v.hostname == n <==> exists h | IsHello(b, h) :: Names(h, size, n))
            && (v.outcome == NoSni <==> exists h | IsHello(b, h) :: HostNames(h) == [])
            && (v.outcome == Invalid <==> forall h | IsHello(b, h) ::
                  HostNames(h) != [] && forall k :: !Names(h, size, k))
            && (v.outcome != Invalid ==> (v.ech <==> exists h | IsHello(b, h) :: OffersEch(h)))
            && v.outcome != NeedMore
  {
    var v := ParseHello(b, size);
    forall h | IsHello(b, h)
      ensures v.outcome == Judge(h, size).outcome
      ensures v.outcome != Invalid ==> v == Judge(h, size)
    {
      ParseComplete(b, size, h);
    }
    if v.outcome != Invalid {
      var h := ParseSound(b, size);
      assert IsHello(b, h);
      assert v.outcome == Found ==> Names(h, size, v.hostname);
    }
  }

  /** A reported hostname fits its buffer and has no NUL. */
  lemma FoundHost(b: seq<Byte>, size: nat)
    requires ParseHello(b, size).outcome == Found
    ensures |ParseHello(b, size).hostname| < size && 0 !in ParseHello(b, size).hostname
  {
    var h := ParseSound(b, size);
    ParseComplete(b, size, h);
    var host := HostNames(h)[0];
    assert forall i | 0 <= i < |host| :: Lower(host)[i] == LowerByte(host[i]) != 0;
  }
}
