/** Who gets which answer from the Portal's DNS server. */
module PortalAnswers {
  import opened Bytes
  import opened PortalDns
  import Hostnames

  // ----- what a response says on the wire -----

  predicate IsAnswer(m: seq<Byte>, end: nat, ip: Ipv4) {
    && |m| == end + 16 && 12 <= end
    && m[3] % 0x10 == 0 && U16At(m, 6) == 1
    && m[end..] == [0xC0, 12, 0, 1, 0, 1, 0, 0, 0, 5, 0, 4] + ip
  }

  predicate IsEmpty(m: seq<Byte>, end: nat, code: nat) {
    |m| == end && 12 <= end && m[3] % 0x10 == code && U16At(m, 6) == 0
  }

  /** The header: QR set, RD copied, AA for a client without access, RA for one with, and no records
      but the question and perhaps an answer. */
  predicate IsResponseTo(m: seq<Byte>, p: seq<Byte>, authorized: bool)
    requires |m| >= 12 && |p| >= 12
  {
    && m[0] == p[0] && m[1] == p[1]
    && m[2] == 0x80 + (if authorized then 0 else 4) + p[2] % 2
    && m[3] / 0x10 == (if authorized then 8 else 0)
    && m[4] == 0 && m[5] == 1 && U16At(m, 8) == 0 && U16At(m, 10) == 0
  }

  // ----- the rules -----

  predicate SameText(s: seq<Byte>, t: seq<Byte>) {
    |s| == |t| && forall i | 0 <= i < |s| :: Hostnames.SameButCase(s[i], t[i])
  }

  /** The address of the external Portal is asked for. */
  predicate AsksExternal(portal: Portal, q: Question)
    requires q.Question?
  {
    && q.queryType == 1 && q.queryClass == 1 && portal.externalEnabled
    && SameText(UpToNul(q.name), UpToNul(portal.externalDomain))
  }

  lemma LowerSame(s: seq<Byte>, t: seq<Byte>)
    ensures Lower(s) == Lower(t) <==> SameText(s, t)
  {
    if Lower(s) == Lower(t) {
      assert |s| == |Lower(s)| == |t|;
      forall i | 0 <= i < |s| ensures Hostnames.SameButCase(s[i], t[i]) {
        assert Lower(s)[i] == Lower(t)[i];
      }
    }
  }

  lemma ExternalMeans(portal: Portal, q: Question)
    requires q.Question?
    ensures IsExternal(portal, q) <==> AsksExternal(portal, q)
  {
    LowerSame(UpToNul(q.name), UpToNul(portal.externalDomain));
  }

  /** The policy refuses the name. */
  predicate Refused(portal: Portal, q: Question)
    requires q.Question?
  {
    q.queryClass == 1 && Hostnames.NamedByRule(portal.blocked, UpToNul(q.name))
  }

  /** The response with a given outcome, and when it fits. */
  lemma OutcomeSays(p: seq<Byte>, portal: Portal, authorized: bool, upstream: Option<Ipv4>, capacity: nat)
    requires ParseQuestion(p, 256).Question?
    ensures var q, m := ParseQuestion(p, 256), Respond(p, portal, authorized, upstream, capacity);
            var r := Decide(portal, q, authorized, upstream);
            && (m.Some? <==> q.end + (if r.answer.Some? then 16 else 0) <= capacity)
            && (m.Some? && r.answer.Some? && r.code == 0 ==> IsAnswer(m.value, q.end, r.answer.value))
            && (m.Some? && r.answer.None? ==> IsEmpty(m.value, q.end, r.code))
  {
    hide ParseQuestion, IsExternal, Hostnames.Blocked;
    var q, m := ParseQuestion(p, 256), Respond(p, portal, authorized, upstream, capacity);
    var r := Decide(portal, q, authorized, upstream);
    if m.Some? && r.answer.Some? {
      assert m.value[q.end..] == AnswerBytes(r.answer.value);
    }
  }

  lemma HeaderSays(p: seq<Byte>, portal: Portal, authorized: bool, upstream: Option<Ipv4>, capacity: nat)
    requires Respond(p, portal, authorized, upstream, capacity).Some?
    ensures var m := Respond(p, portal, authorized, upstream, capacity).value;
            |m| >= 12 && |p| >= 12 && IsResponseTo(m, p, authorized)
  {
    hide IsExternal, Hostnames.Blocked, AnswerBytes, ScanName;
  }

  // ----- who gets what -----

  /** A client without access: the response has nothing to do with the block rules or the resolver; every
      address query but that for the external Portal ends in the Portal's own address. */
  lemma WithoutAccess(p: seq<Byte>, portal: Portal, upstream: Option<Ipv4>, capacity: nat,
                      blocked: seq<seq<Byte>>, upstream': Option<Ipv4>)
    ensures Respond(p, portal, false, upstream, capacity)
         == Respond(p, portal.(blocked := blocked), false, upstream', capacity)
    ensures var q, m := ParseQuestion(p, 256), Respond(p, portal, false, upstream, capacity);
            m.Some? ==>
              && q.Question?
              && (AsksExternal(portal, q) ==> IsAnswer(m.value, q.end, portal.externalIpv4))
              && (!AsksExternal(portal, q) && q.queryType == 1 && q.queryClass == 1 ==>
                    IsAnswer(m.value, q.end, portal.portalIpv4))
              && (q.queryType != 1 || q.queryClass != 1 ==> IsEmpty(m.value, q.end, 0))
  {
    hide ParseQuestion, IsExternal, AsksExternal, IsAnswer, IsEmpty, AnswerBytes, HeaderTail;
    var q := ParseQuestion(p, 256);
    if q.Question? {
      ExternalMeans(portal, q);
      SameExternal(portal, portal.(blocked := blocked), q);
      OutcomeSays(p, portal, false, upstream, capacity);
      ExternalIsAddress(portal, q);
    }
  }

  lemma SameExternal(a: Portal, b: Portal, q: Question)
    requires q.Question? && a.externalEnabled == b.externalEnabled && a.externalDomain == b.externalDomain
    ensures IsExternal(a, q) <==> IsExternal(b, q)
  {
  }

  lemma ExternalIsAddress(portal: Portal, q: Question)
    requires q.Question?
    ensures AsksExternal(portal, q) ==> q.queryType == 1 && q.queryClass == 1
  {
  }

  /** A client with access: the response has nothing to do with the Portal's own address; it is REFUSED
      exactly for the Internet class, a name that is not the external Portal's and that the policy blocks;
      any other address query ends in what the resolver found, or in SERVFAIL. */
  lemma WithAccess(p: seq<Byte>, portal: Portal, upstream: Option<Ipv4>, capacity: nat, own: Ipv4)
    ensures Respond(p, portal, true, upstream, capacity)
         == Respond(p, portal.(portalIpv4 := own), true, upstream, capacity)
    ensures var q, m := ParseQuestion(p, 256), Respond(p, portal, true, upstream, capacity);
            m.Some? ==>
              && q.Question?
              && (AsksExternal(portal, q) ==> IsAnswer(m.value, q.end, portal.externalIpv4))
              && (IsEmpty(m.value, q.end, 5) <==> !AsksExternal(portal, q) && Refused(portal, q))
              && (!AsksExternal(portal, q) && !Refused(portal, q) ==>
                    if q.queryType != 1 || q.queryClass != 1 then IsEmpty(m.value, q.end, 0)
                    else if upstream.Some? && UpToNul(q.name) != [] then IsAnswer(m.value, q.end, upstream.value)
                    else IsEmpty(m.value, q.end, 2))
  {
    hide ParseQuestion, IsExternal, AsksExternal, AnswerBytes, HeaderTail;
    hide Hostnames.Blocked, Hostnames.NamedByRule, Respond;
    var q := ParseQuestion(p, 256);
    OwnAddressUnused(p, portal, upstream, capacity, own);
    RejectedUnanswered(p, portal, true, upstream, capacity);
    if q.Question? {
      ExternalMeans(portal, q);
      OutcomeSays(p, portal, true, upstream, capacity);
      Hostnames.PolicyIsLabelSuffix(portal.blocked, UpToNul(q.name));
    }
  }

  lemma RejectedUnanswered(p: seq<Byte>, portal: Portal, authorized: bool, upstream: Option<Ipv4>, capacity: nat)
    ensures ParseQuestion(p, 256).Rejected? ==> Respond(p, portal, authorized, upstream, capacity).None?
  {
  }

  lemma OwnAddressUnused(p: seq<Byte>, portal: Portal, upstream: Option<Ipv4>, capacity: nat, own: Ipv4)
    ensures Respond(p, portal, true, upstream, capacity)
         == Respond(p, portal.(portalIpv4 := own), true, upstream, capacity)
  {
    hide ParseQuestion, IsExternal, AnswerBytes, HeaderTail, Hostnames.Blocked;
    if ParseQuestion(p, 256).Question? {
      SameExternal(portal, portal.(portalIpv4 := own), ParseQuestion(p, 256));
    }
  }

  /** Exactly the questions that are read and whose response fits are answered at all. */
  lemma AnsweredAtAll(p: seq<Byte>, portal: Portal, authorized: bool, upstream: Option<Ipv4>, capacity: nat)
    ensures var q, m := ParseQuestion(p, 256), Respond(p, portal, authorized, upstream, capacity);
            if q.Rejected? then m.None?
            else
              var address := q.queryType == 1 && q.queryClass == 1;
              var external := AsksExternal(portal, q);
              var found := external || (address && (if authorized then !Refused(portal, q) && upstream.Some?
                                                       && UpToNul(q.name) != [] else true));
              m.Some? <==> q.end + (if found then 16 else 0) <= capacity
  {
    hide ParseQuestion, IsExternal, AsksExternal, AnswerBytes, HeaderTail;
    hide Hostnames.Blocked, Hostnames.NamedByRule, Respond;
    var q := ParseQuestion(p, 256);
    RejectedUnanswered(p, portal, authorized, upstream, capacity);
    if q.Question? {
      ExternalMeans(portal, q);
      OutcomeSays(p, portal, authorized, upstream, capacity);
      Hostnames.PolicyIsLabelSuffix(portal.blocked, UpToNul(q.name));
    }
  }
}
