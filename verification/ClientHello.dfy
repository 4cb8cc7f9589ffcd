/** The ClientHello grammar that the SNI inspector accepts, and the index-based scanner that
    the byte-buffer code runs (section 4.1.2 of RFC 8446, section 3 of RFC 6066). */
module ClientHello {
  import opened Bytes

  const EXT_SERVER_NAME := 0
  const EXT_ECH := 0xFE0D
  const FIXED_PART := 38  // handshake header (4), legacy_version (2), random (32)

  datatype Outcome = NeedMore | Found | NoSni | Invalid

  /** What one completed parse reports: the code's result, the hostname buffer, the ECH flag. */
  datatype Verdict = Verdict(outcome: Outcome, hostname: seq<Byte>, ech: bool)

  // ----- abstract syntax and its serialization -----

  datatype NameEntry = NameEntry(nameType: Byte, name: seq<Byte>)

  datatype Extension =
    | ServerName(entries: seq<NameEntry>)
    | OtherExtension(extType: U16, body: seq<Byte>)

  datatype Hello = Hello(
    header: seq<Byte>,
    versionAndRandom: seq<Byte>,
    sessionId: seq<Byte>,
    cipherSuites: seq<Byte>,
    compressions: seq<Byte>,
    extensions: Option<seq<Extension>>)

  /** A vector with a one-byte length in front. */
  function Vector8(s: seq<Byte>): seq<Byte> {
    [|s| % 0x100] + s
  }

  /** A vector with a two-byte length in front. */
  function Vector16(s: seq<Byte>): seq<Byte> {
    U16Bytes(|s|) + s
  }

  function EncodeName(e: NameEntry): seq<Byte> {
    [e.nameType] + Vector16(e.name)
  }

  function EncodeNames(es: seq<NameEntry>): seq<Byte> {
    if es == [] then [] else EncodeName(es[0]) + EncodeNames(es[1..])
  }

  function ExtensionType(x: Extension): U16 {
    if x.ServerName? then EXT_SERVER_NAME else x.extType
  }

  function ExtensionBody(x: Extension): seq<Byte> {
    match x
    case ServerName(es) => Vector16(EncodeNames(es))
    case OtherExtension(_, body) => body
  }

  function EncodeExtension(x: Extension): seq<Byte> {
    U16Bytes(ExtensionType(x)) + Vector16(ExtensionBody(x))
  }

  function EncodeExtensions(xs: seq<Extension>): seq<Byte> {
    if xs == [] then [] else EncodeExtension(xs[0]) + EncodeExtensions(xs[1..])
  }

  function EncodeTail(extensions: Option<seq<Extension>>): seq<Byte> {
    match extensions
    case None => []
    case Some(xs) => Vector16(EncodeExtensions(xs))
  }

  function Encode(h: Hello): seq<Byte> {
    (h.header + h.versionAndRandom) +
    (Vector8(h.sessionId) +
     (Vector16(h.cipherSuites) +
      (Vector8(h.compressions) + EncodeTail(h.extensions))))
  }

  predicate WellFormedNames(es: seq<NameEntry>) {
    forall i | 0 <= i < |es| :: |es[i].name| < 0x1_0000
  }

  predicate WellFormedExtension(x: Extension) {
    match x
    case ServerName(es) => es != [] && WellFormedNames(es) && |ExtensionBody(x)| < 0x1_0000
    case OtherExtension(t, body) => t != EXT_SERVER_NAME && |body| < 0x1_0000
  }

  predicate WellFormedExtensions(xs: seq<Extension>) {
    forall i | 0 <= i < |xs| :: WellFormedExtension(xs[i])
  }

  predicate WellFormed(h: Hello) {
    && |h.header| == 4
    && |h.versionAndRandom| == 34
    && |h.sessionId| < 0x100
    && 2 <= |h.cipherSuites| < 0x1_0000 && |h.cipherSuites| % 2 == 0
    && 1 <= |h.compressions| < 0x100
    && (h.extensions.Some? ==>
          && WellFormedExtensions(h.extensions.value)
          && |EncodeExtensions(h.extensions.value)| < 0x1_0000)
  }

  // ----- meaning of a well-formed hello -----

  function EntryHosts(es: seq<NameEntry>): seq<seq<Byte>> {
    if es == [] then []
    else (if es[0].nameType == 0 then [es[0].name] else []) + EntryHosts(es[1..])
  }

  function ExtensionHosts(xs: seq<Extension>): seq<seq<Byte>> {
    if xs == [] then []
    else (if xs[0].ServerName? then EntryHosts(xs[0].entries) else []) + ExtensionHosts(xs[1..])
  }

  /** All host_name entries of the hello, in wire order. */
  function HostNames(h: Hello): seq<seq<Byte>> {
    if h.extensions.Some? then ExtensionHosts(h.extensions.value) else []
  }

  predicate OffersEch(h: Hello) {
    h.extensions.Some? && exists i ::
      0 <= i < |h.extensions.value| && ExtensionType(h.extensions.value[i]) == EXT_ECH
  }

  predicate Printable(s: seq<Byte>) {
    forall i | 0 <= i < |s| :: 0x21 <= s[i] <= 0x7E
  }

  /** A host_name the code stores in a buffer of `size` bytes. */
  predicate LegalHost(host: seq<Byte>, size: nat) {
    0 < |host| < size && Printable(host)
  }

  // ----- the scanner -----

  /** The ServerNameList walk: None is a rejection, Some(n) the host_name held afterwards. */
  function ScanNames(b: seq<Byte>, o: nat, end: nat, size: nat, name: Option<seq<Byte>>)
    : Option<Option<seq<Byte>>>
    requires end <= |b|
    decreases end - o
  {
    if o >= end then Some(name)
    else if end - o < 3 then None
    else
      var n := U16At(b, o + 1);
      if n > end - o - 3 then None
      else if b[o] == 0 then
        var host := b[o + 3..o + 3 + n];
        if name.Some? || !LegalHost(host, size) then None
        else ScanNames(b, o + 3 + n, end, size, Some(Lower(host)))
      else ScanNames(b, o + 3 + n, end, size, name)
  }

  datatype Scan = Rejected(ech: bool) | Accepted(name: Option<seq<Byte>>, ech: bool)

  /** The extension walk over b[o..end]. */
  function ScanExtensions(b: seq<Byte>, o: nat, end: nat, size: nat, name: Option<seq<Byte>>, ech: bool)
    : Scan
    requires end <= |b|
    decreases end - o
  {
    if o >= end then Accepted(name, ech)
    else if end - o < 4 then Rejected(ech)
    else
      var length := U16At(b, o + 2);
      var next := o + 4 + length;
      if length > end - o - 4 then Rejected(ech)
      else
        var ech' := ech || U16At(b, o) == EXT_ECH;
        if U16At(b, o) == EXT_SERVER_NAME then
          if length < 5 || U16At(b, o + 4) != length - 2 then Rejected(ech')
          else match ScanNames(b, o + 6, next, size, name)
               case None => Rejected(ech')
               case Some(name') => ScanExtensions(b, next, end, size, name', ech')
        else ScanExtensions(b, next, end, size, name, ech')
  }

  const REJECT := Verdict(Invalid, [], false)

  function ScanVerdict(s: Scan): Verdict {
    match s
    case Rejected(ech) => Verdict(Invalid, [], ech)
    case Accepted(None, ech) => Verdict(NoSni, [], ech)
    case Accepted(Some(n), ech) => Verdict(Found, n, ech)
  }

  /** What follows the compression methods, at offset `o`: nothing, or one vector of extensions
      that ends the message. */
  function ParseTail(b: seq<Byte>, o: nat, size: nat): Verdict
    requires o <= |b|
  {
    if o == |b| then Verdict(NoSni, [], false)
    else if o + 2 > |b| || U16At(b, o) != |b| - o - 2 then REJECT
    else ScanVerdict(ScanExtensions(b, o + 2, |b|, size, None, false))
  }

  /** parse_client_hello on a complete handshake message and a hostname buffer of `size` bytes. */
  function ParseHello(b: seq<Byte>, size: nat): Verdict {
    if |b| <= FIXED_PART then REJECT
    else
      var ciphers := FIXED_PART + 1 + b[FIXED_PART];
      if ciphers + 2 > |b| then REJECT
      else
        var cipherLength := U16At(b, ciphers);
        var compression := ciphers + 2 + cipherLength;
        if cipherLength < 2 || cipherLength % 2 != 0 || compression >= |b| then REJECT
        else
          var extensions := compression + 1 + b[compression];
          if b[compression] == 0 || extensions > |b| then REJECT
          else ParseTail(b, extensions, size)
  }
}
