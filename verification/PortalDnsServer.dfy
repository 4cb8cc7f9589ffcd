/** The DNS code over its packet and response buffers. */
module PortalDnsServer {
  import opened Bytes
  import opened PortalDns
  import opened AccessRules
  import Hostnames

  /** The text gathered in the name buffer. */
  ghost predicate Gathered(domainName: array<Byte>, n: nat, name: seq<Byte>)
    reads domainName
  {
    n == |name| <= domainName.Length && domainName[..n] == name
  }

  /** Append `text` (and a dot before it, if text is there) to the name buffer. */
  method AppendLabel(domainName: array<Byte>, n: nat, text: seq<Byte>, ghost name: seq<Byte>) returns (n': nat)
    requires Gathered(domainName, n, name)
    requires n + (if n > 0 then 1 else 0) + |text| < domainName.Length
    modifies domainName
    ensures Gathered(domainName, n', (if name != [] then name + [Hostnames.DOT] else name) + text)
    ensures n' < domainName.Length
  {
    n' := n;
    if n > 0 {
      domainName[n'] := Hostnames.DOT;
      n' := n' + 1;
    }
    ghost var dotted := if name != [] then name + [Hostnames.DOT] else name;
    assert domainName[..n'] == dotted;
    forall i | 0 <= i < |text| {
      domainName[n' + i] := text[i];
    }
    assert domainName[..n' + |text|] == dotted + text;
    n' := n' + |text|;
  }

  /** The label loop of parse_dns_question. */
  method ReadLabels(packet: seq<Byte>, domainName: array<Byte>)
    returns (error: Option<PortalDns.Error>, o: nat, n: nat)
    requires HEADER <= |packet| && domainName.Length > 0
    modifies domainName
    ensures match ScanName(packet, HEADER, [], domainName.Length)
            case NameError(e) => error == Some(e)
            case NameDone(end, name) =>
              error == None && o == end && n < domainName.Length && Gathered(domainName, n, name)
  {
    error, o, n := None, HEADER, 0;
    ghost var name: seq<Byte> := [];
    ghost var size := domainName.Length;
    while o < |packet|
      invariant HEADER <= o <= |packet| && n < size && Gathered(domainName, n, name)
      invariant ScanName(packet, HEADER, [], size) == ScanName(packet, o, name, size)
    {
      var labelLength: nat := packet[o];
      o := o + 1;
      if labelLength == 0 {
        return;
      }
      if labelLength >= 0x40 {
        error := Some(NotSupported);
        return;
      }
      if o + labelLength > |packet| {
        error := Some(PortalDns.InvalidSize);
        return;
      }
      if n > 0 && n + 1 >= domainName.Length {
        error := Some(PortalDns.InvalidSize);
        return;
      }
      if n + (if n > 0 then 1 else 0) + labelLength >= domainName.Length {
        error := Some(PortalDns.InvalidSize);
        return;
      }
      var text := packet[o..o + labelLength];
      n := AppendLabel(domainName, n, text, name);
      name := (if name != [] then name + [Hostnames.DOT] else name) + text;
      o := o + labelLength;
    }
  }

  /** parse_dns_question: on success the dotted name is in the buffer, terminated. */
  method ParseDnsQuestion(packet: seq<Byte>, domainName: array<Byte>)
    returns (error: Option<PortalDns.Error>, questionEnd: nat, queryType: U16, queryClass: U16)
    requires domainName.Length > 0
    modifies domainName
    ensures match ParseQuestion(packet, domainName.Length)
            case Rejected(e) => error == Some(e)
            case Question(name, end, t, c) =>
              && error == None && questionEnd == end && queryType == t && queryClass == c
              && |name| < domainName.Length && domainName[..|name|] == name && domainName[|name|] == 0
  {
    questionEnd, queryType, queryClass := 0, 0, 0;
    if |packet| < HEADER {
      error := Some(PortalDns.InvalidSize);
      return;
    }
    if packet[2] >= 0x80 || packet[2] / 8 % 16 != 0 {
      error := Some(NotSupported);
      return;
    }
    if U16At(packet, 4) != 1 {
      error := Some(NotSupported);
      return;
    }
    var o, n;
    error, o, n := ReadLabels(packet, domainName);
    if error.Some? {
      return;
    }
    domainName[n] := 0;
    if o + 4 > |packet| {
      error := Some(PortalDns.InvalidSize);
      return;
    }
    queryType := U16At(packet, o);
    queryClass := U16At(packet, o + 2);
    questionEnd := o + 4;
  }

  /** The answer choice of build_dns_response; `upstream` is the resolver's result if asked. */
  method Choose(
    portal: Portal, rules: RuleTable, domain: seq<Byte>, queryType: U16, queryClass: U16,
    authorized: bool, upstream: Option<Ipv4>, ghost q: Question)
    returns (code: nat, answer: Option<Ipv4>)
    requires rules.Valid() && q.Question? && domain == UpToNul(q.name)
    requires queryType == q.queryType && queryClass == q.queryClass
    ensures Reply(code, answer) == Decide(portal.(blocked := rules.View().hostnames), q, authorized, upstream)
    ensures code < 0x10
  {
    code, answer := 0, None;
    var address := queryType == TYPE_A && queryClass == CLASS_IN;
    if address && portal.externalEnabled && Lower(domain) == Lower(UpToNul(portal.externalDomain)) {
      answer := Some(portal.externalIpv4);
      return;
    }
    if authorized && queryClass == CLASS_IN {
      var refused := rules.IsHostnameBlocked(domain);
      if refused {
        code := REFUSED;
        return;
      }
    }
    if address {
      if !authorized {
        answer := Some(portal.portalIpv4);
      } else if domain != [] && upstream.Some? {
        answer := upstream;
      } else {
        code := SERVER_FAILURE;
      }
    }
  }

  /** Copy the header and the question and patch the header in place. */
  method CopyQuestion(
    request: seq<Byte>, questionEnd: nat, authorized: bool, code: nat, answers: nat, response: array<Byte>)
    requires HEADER <= questionEnd <= |request| && questionEnd <= response.Length && code < 0x10 && answers < 0x100
    modifies response
    ensures response[..questionEnd] ==
            request[..2] + HeaderTail(request[2] % 2 == 1, authorized, code, answers) + request[HEADER..questionEnd]
  {
    forall i | 0 <= i < questionEnd {
      response[i] := request[i];
    }
    response[2] := 0x80 + (if request[2] % 2 == 1 then 1 else 0) + (if authorized then 0 else 4);
    response[3] := (if authorized then 0x80 else 0) + code;
    response[4], response[5] := 0, 1;
    response[6], response[7] := 0, answers;
    response[8], response[9], response[10], response[11] := 0, 0, 0, 0;
  }

  /** The writes of build_dns_response: copied question, patched header, optional answer. */
  method WriteResponse(
    request: seq<Byte>, questionEnd: nat, authorized: bool, code: nat, answer: Option<Ipv4>, response: array<Byte>)
    returns (length: int)
    requires HEADER <= questionEnd <= |request| && questionEnd <= response.Length && code < 0x10
    modifies response
    ensures var head := request[..2]
                + HeaderTail(request[2] % 2 == 1, authorized, code, if answer.Some? then 1 else 0)
                + request[HEADER..questionEnd];
            if answer.None? then length == questionEnd && response[..length] == head
            else if questionEnd + ANSWER > response.Length then length == -1
            else length == questionEnd + ANSWER && response[..length] == head + AnswerBytes(answer.value)
  {
    hide HeaderTail, AnswerBytes;
    CopyQuestion(request, questionEnd, authorized, code, if answer.Some? then 1 else 0, response);
    if answer.None? {
      return questionEnd;
    }
    if questionEnd + ANSWER > response.Length {
      return -1;
    }
    ghost var head := response[..questionEnd];
    var bytes := AnswerBytes(answer.value);
    forall i | 0 <= i < ANSWER {
      response[questionEnd + i] := bytes[i];
    }
    assert response[..questionEnd + ANSWER] == head + bytes;
    length := questionEnd + ANSWER;
  }

  /** build_dns_response: the length written, or -1. */
  method BuildDnsResponse(
    request: seq<Byte>, portal: Portal, rules: RuleTable, authorized: bool, upstream: Option<Ipv4>,
    response: array<Byte>)
    returns (length: int)
    requires rules.Valid() && response as object !in rules.Repr()
    modifies response
    ensures match Respond(request, portal.(blocked := rules.View().hostnames), authorized, upstream, response.Length)
            case None => length == -1
            case Some(m) => length == |m| <= response.Length && response[..length] == m
  {
    var domainName := new Byte[NAME_SIZE](_ => 0);
    var error, questionEnd, queryType, queryClass := ParseDnsQuestion(request, domainName);
    if error.Some? {
      return -1;
    }
    if questionEnd > response.Length {
      return -1;
    }
    ghost var q := ParseQuestion(request, NAME_SIZE);
    TerminatedText(domainName[..], q.name);
    var domain := UpToNul(domainName[..]);
    var code, answer := Choose(portal, rules, domain, queryType, queryClass, authorized, upstream, q);
    length := WriteResponse(request, questionEnd, authorized, code, answer, response);
  }
}
