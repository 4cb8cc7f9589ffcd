/** Host names as label lists (section 2.3.4 of RFC 1035, section 2.1 of RFC 1123), their
    normal form, and the blocking policy over them. */
module Hostnames {
  import opened Bytes

  const DOT := '.' as int
  const HYPHEN := '-' as int
  const MAX_NAME := 253
  const MAX_LABEL := 63
  const HOSTNAME_SIZE := 256

  // ----- labels -----

  /** A label list after one more character. */
  function Grow(ls: seq<seq<Byte>>, c: Byte): (ls': seq<seq<Byte>>)
    requires ls != []
    ensures ls' != []
  {
    if c == DOT then ls + [[]] else ls[|ls| - 1 := ls[|ls| - 1] + [c]]
  }

  /** The dot-separated labels of a name; the empty name is one empty label. */
  function Labels(s: seq<Byte>): (ls: seq<seq<Byte>>)
    ensures ls != []
    decreases |s|
  {
    if s == [] then [[]] else Grow(Labels(s[..|s| - 1]), s[|s| - 1])
  }

  function LastLabel(s: seq<Byte>): seq<Byte> {
    Labels(s)[|Labels(s)| - 1]
  }

  /** Labels joined by dots. */
  function Dotted(ls: seq<seq<Byte>>): seq<Byte>
    decreases |ls|
  {
    if ls == [] then []
    else if |ls| == 1 then ls[0]
    else Dotted(ls[..|ls| - 1]) + [DOT] + ls[|ls| - 1]
  }

  lemma {:induction false} LabelsDotted(s: seq<Byte>)
    ensures Dotted(Labels(s)) == s
    decreases |s|
  {
    if s != [] {
      var t, c := s[..|s| - 1], s[|s| - 1];
      var init := Labels(t);
      LabelsDotted(t);
      assert s == t + [c];
      if c == DOT {
        assert (init + [[]])[..|init|] == init;
      } else if |init| > 1 {
        var ls := Labels(s);
        assert ls[..|ls| - 1] == init[..|init| - 1];
      }
    }
  }

  lemma GrowAppend(a: seq<seq<Byte>>, b: seq<seq<Byte>>, c: Byte)
    requires b != []
    ensures Grow(a + b, c) == a + Grow(b, c)
  {
  }

  lemma {:induction false} LabelsAppend(s: seq<Byte>, t: seq<Byte>)
    ensures Labels(s + [DOT] + t) == Labels(s) + Labels(t)
    decreases |t|
  {
    var u := s + [DOT] + t;
    if t == [] {
      assert u[..|u| - 1] == s;
    } else {
      var t' := t[..|t| - 1];
      assert u[..|u| - 1] == s + [DOT] + t';
      LabelsAppend(s, t');
      GrowAppend(Labels(s), Labels(t'), t[|t| - 1]);
    }
  }

  lemma {:induction false} DottedAppend(p: seq<seq<Byte>>, q: seq<seq<Byte>>)
    requires p != [] && q != []
    ensures Dotted(p + q) == Dotted(p) + [DOT] + Dotted(q)
    decreases |q|
  {
    var q' := q[..|q| - 1];
    assert (p + q)[..|p + q| - 1] == p + q';
    if |q| > 1 {
      DottedAppend(p, q');
      assert Dotted(p) + [DOT] + Dotted(q') + [DOT] + q[|q| - 1]
          == Dotted(p) + [DOT] + (Dotted(q') + [DOT] + q[|q| - 1]);
    } else {
      assert p + q' == p;
    }
  }

  /** More characters leave all labels but the last alone and extend the last. */
  lemma {:induction false} LabelsExtend(s: seq<Byte>, u: seq<Byte>)
    ensures var a, b := Labels(s), Labels(s + u);
            && |a| <= |b|
            && a[..|a| - 1] == b[..|a| - 1]
            && a[|a| - 1] <= b[|a| - 1]
    decreases |u|
  {
    if u == [] {
      assert s + u == s;
    } else {
      LabelsExtend(s, u[..|u| - 1]);
      assert (s + u)[..|s + u| - 1] == s + u[..|u| - 1];
      var a, b, c := Labels(s), Labels(s + u[..|u| - 1]), Labels(s + u);
      assert forall i | 0 <= i < |b| - 1 :: c[i] == b[i];
      assert b[|b| - 1] <= c[|b| - 1];
    }
  }

  // ----- legal names and their normal form -----

  predicate LetterDigit(c: Byte) {
    'a' as int <= c <= 'z' as int || 'A' as int <= c <= 'Z' as int || '0' as int <= c <= '9' as int
  }

  /** Letters, digits and inner hyphens, so far; the label may still grow. */
  predicate OpenLabel(l: seq<Byte>) {
    && |l| <= MAX_LABEL
    && (forall i | 0 <= i < |l| :: LetterDigit(l[i]) || l[i] == HYPHEN)
    && (l != [] ==> l[0] != HYPHEN)
  }

  predicate LegalLabel(l: seq<Byte>) {
    OpenLabel(l) && l != [] && l[|l| - 1] != HYPHEN
  }

  predicate LegalName(s: seq<Byte>) {
    |s| <= MAX_NAME && forall i | 0 <= i < |Labels(s)| :: LegalLabel(Labels(s)[i])
  }

  /** One trailing dot of an absolute name removed. */
  function Strip(s: seq<Byte>): seq<Byte> {
    if s != [] && s[|s| - 1] == DOT then s[..|s| - 1] else s
  }

  function Normal(s: seq<Byte>): Option<seq<Byte>> {
    if LegalName(Strip(s)) then Some(Lower(Strip(s))) else None
  }

  lemma {:induction false} LowerLabels(s: seq<Byte>)
    ensures |Labels(Lower(s))| == |Labels(s)|
    ensures forall i | 0 <= i < |Labels(s)| :: Labels(Lower(s))[i] == Lower(Labels(s)[i])
    decreases |s|
  {
    if s != [] {
      var t, c := s[..|s| - 1], s[|s| - 1];
      assert Lower(s)[..|s| - 1] == Lower(t);
      LowerLabels(t);
    }
  }

  lemma LowerLegal(s: seq<Byte>)
    ensures LegalName(Lower(s)) <==> LegalName(s)
  {
    LowerLabels(s);
    forall i | 0 <= i < |Labels(s)|
      ensures LegalLabel(Labels(Lower(s))[i]) <==> LegalLabel(Labels(s)[i])
    {
      LowerLabelLegal(Labels(s)[i]);
    }
  }

  lemma LowerLabelLegal(l: seq<Byte>)
    ensures LegalLabel(Lower(l)) <==> LegalLabel(l)
  {
    var m := Lower(l);
    assert forall i | 0 <= i < |l| :: LetterDigit(m[i]) == LetterDigit(l[i]) && (m[i] == HYPHEN <==> l[i] == HYPHEN);
  }

  lemma LegalEnd(s: seq<Byte>)
    requires LegalName(s)
    ensures s != [] && s[|s| - 1] != DOT
  {
    var ls := Labels(s);
    assert LegalLabel(ls[|ls| - 1]);
  }

  /** Legal names have no NUL. */
  lemma LegalNoNul(s: seq<Byte>)
    requires LegalName(s)
    ensures 0 !in s
  {
    forall i | 0 <= i < |s| ensures s[i] != 0 {
      LegalPrefix(s, s[..i]);
      LegalPrefix(s, s[..i + 1]);
      OpenStep(s[..i], s[i]);
      assert s[..i] + [s[i]] == s[..i + 1];
      var l := LastLabel(s[..i]);
      assert (l + [s[i]])[|l|] == s[i];
    }
  }

  lemma LowerTwice(s: seq<Byte>)
    ensures Lower(Lower(s)) == Lower(s)
  {
  }

  lemma NormalIdempotent(s: seq<Byte>)
    requires Normal(s).Some?
    ensures Normal(Normal(s).value) == Normal(s)
  {
    var t := Strip(s);
    LowerLegal(t);
    LegalEnd(Lower(t));
    LowerTwice(t);
  }

  /** The same letter in either case, or the same character. */
  predicate SameButCase(c: Byte, d: Byte) {
    c == d || ('A' as int <= c <= 'Z' as int && d == c + 32) || ('A' as int <= d <= 'Z' as int && c == d + 32)
  }

  lemma LowerSameButCase(c: Byte)
    ensures SameButCase(c, LowerByte(c)) && !('A' as int <= LowerByte(c) <= 'Z' as int)
  {
  }

  /** The labels of a host name: 1 to 63 letters, digits and hyphens, none at either end. */
  predicate HostLabel(l: seq<Byte>) {
    && 1 <= |l| <= 63 && l[0] != '-' as int && l[|l| - 1] != '-' as int
    && forall i | 0 <= i < |l| ::
         || 'a' as int <= l[i] <= 'z' as int || 'A' as int <= l[i] <= 'Z' as int
         || '0' as int <= l[i] <= '9' as int || l[i] == '-' as int
  }

  lemma LegalIsHostLabel(l: seq<Byte>)
    ensures LegalLabel(l) <==> HostLabel(l)
  {
    if HostLabel(l) {
      assert forall i | 0 <= i < |l| :: LetterDigit(l[i]) || l[i] == HYPHEN;
    }
    if LegalLabel(l) {
      assert forall i | 0 <= i < |l| :: LetterDigit(l[i]) || l[i] == HYPHEN;
      assert HostLabel(l);
    }
  }

  /** At most 253 characters in host labels. */
  predicate HostName(s: seq<Byte>) {
    |s| <= 253 && forall i | 0 <= i < |Labels(s)| :: HostLabel(Labels(s)[i])
  }

  lemma LegalIsHostName(s: seq<Byte>)
    ensures LegalName(s) <==> HostName(s)
  {
    hide LegalLabel, HostLabel;
    forall i | 0 <= i < |Labels(s)| ensures LegalLabel(Labels(s)[i]) <==> HostLabel(Labels(s)[i]) {
      LegalIsHostLabel(Labels(s)[i]);
    }
  }

  /** The name less one trailing dot. */
  function Undotted(s: seq<Byte>): seq<Byte> {
    if |s| > 0 && s[|s| - 1] == '.' as int then s[..|s| - 1] else s
  }

  /** A name normalizes exactly when it is a host name, one trailing dot aside; its normal form is the same
      text without capitals. */
  lemma NormalizesHostNames(s: seq<Byte>)
    ensures var t := Undotted(s);
            && (Normal(s).Some? <==> HostName(t))
            && (Normal(s).Some? ==>
                  var n := Normal(s).value;
                  |n| == |t| && forall i | 0 <= i < |n| ::
                    SameButCase(t[i], n[i]) && !('A' as int <= n[i] <= 'Z' as int))
  {
    var t := Undotted(s);
    assert t == Strip(s);
    LegalIsHostName(t);
    forall i | 0 <= i < |t| ensures SameButCase(t[i], Lower(t)[i]) && !('A' as int <= Lower(t)[i] <= 'Z' as int) {
      LowerSameButCase(t[i]);
    }
  }

  /** Names equal but for the case of their letters normalize alike. */
  lemma NormalSameButCase(s: seq<Byte>, t: seq<Byte>)
    requires |s| == |t| && forall i | 0 <= i < |s| :: SameButCase(s[i], t[i])
    ensures Normal(s) == Normal(t)
  {
    assert Lower(s) == Lower(t);
    NormalIgnoresCase(s, t);
  }

  /** Names that differ only in ASCII case normalize alike. */
  lemma NormalIgnoresCase(s: seq<Byte>, t: seq<Byte>)
    requires Lower(s) == Lower(t)
    ensures Normal(s) == Normal(t)
  {
    assert |s| == |Lower(s)| == |t|;
    assert forall i | 0 <= i < |s| :: LowerByte(s[i]) == Lower(s)[i] == LowerByte(t[i]);
    assert Lower(Strip(s)) == Lower(Strip(t));
    LowerLegal(Strip(s));
    LowerLegal(Strip(t));
  }

  /** One more trailing dot makes no difference except to a legal name that already has one. */
  lemma NormalIgnoresOneDot(s: seq<Byte>)
    ensures Normal(s + [DOT]) == Normal(s) <==> !(s != [] && s[|s| - 1] == DOT && LegalName(s[..|s| - 1]))
  {
    assert Strip(s + [DOT]) == s;
    if s != [] && s[|s| - 1] == DOT && LegalName(s) {
      LegalEnd(s);
    }
  }

  /** For one: "a." is "a", but "a.." is refused. */
  lemma SecondDotRefused()
    ensures var a := ['a' as int];
            Normal(a + [DOT]) == Some(a) && Normal(a + [DOT] + [DOT]) == None
  {
    var a: seq<Byte> := ['a' as int];
    assert [] + a == a;
    assert a[..0] == [] && Labels([]) == [[]];
    assert Labels(a) == Grow([[]], a[0]) == [[] + [a[0]]] == [a];
    assert LegalName(a);
    assert Strip(a + [DOT]) == a && Lower(a) == a;
    assert Strip(a + [DOT] + [DOT]) == a + [DOT];
    if LegalName(a + [DOT]) {
      LegalEnd(a + [DOT]);
    }
  }

  // ----- the policy -----

  /** The comparison the rule scan makes: equal, or preceded by a dot at the end. */
  predicate Matches(name: seq<Byte>, rule: seq<Byte>) {
    || name == rule
    || (|name| > |rule| && name[|name| - |rule| - 1] == DOT && name[|name| - |rule|..] == rule)
  }

  predicate Blocked(rules: seq<seq<Byte>>, host: seq<Byte>) {
    rules != [] && (Normal(host).None? || exists i | 0 <= i < |rules| :: Matches(Normal(host).value, rules[i]))
  }

  predicate LabelSuffix(short: seq<seq<Byte>>, long: seq<seq<Byte>>) {
    |short| <= |long| && long[|long| - |short|..] == short
  }

  lemma MatchIsLabelSuffix(name: seq<Byte>, rule: seq<Byte>)
    ensures Matches(name, rule) <==> LabelSuffix(Labels(rule), Labels(name))
  {
    var a, r := Labels(name), Labels(rule);
    if Matches(name, rule) && name != rule {
      var s := name[..|name| - |rule| - 1];
      assert name == s + [DOT] + rule;
      LabelsAppend(s, rule);
      assert a[|a| - |r|..] == r;
    }
    if LabelSuffix(r, a) {
      var p := a[..|a| - |r|];
      LabelsDotted(name);
      LabelsDotted(rule);
      assert a == p + r;
      if p == [] {
        assert a == r;
      } else {
        DottedAppend(p, r);
        assert name == Dotted(p) + [DOT] + rule;
      }
    }
  }

  /** There are rules, and some rule's label list ends the name's label list, or the name is none that
      a rule could name. */
  predicate NamedByRule(rules: seq<seq<Byte>>, host: seq<Byte>) {
    rules != [] && (Normal(host).None? ||
      exists i | 0 <= i < |rules| :: LabelSuffix(Labels(rules[i]), Labels(Normal(host).value)))
  }

  /** With at least one rule: blocked exactly when the name has no normal form, or some rule's
      label list ends the name's label list. */
  lemma PolicyIsLabelSuffix(rules: seq<seq<Byte>>, host: seq<Byte>)
    ensures Blocked(rules, host) <==> NamedByRule(rules, host)
  {
    if Normal(host).Some? {
      forall i | 0 <= i < |rules|
        ensures Matches(Normal(host).value, rules[i]) <==> LabelSuffix(Labels(rules[i]), Labels(Normal(host).value))
      {
        MatchIsLabelSuffix(Normal(host).value, rules[i]);
      }
    }
  }

  /** More rules block more: what is blocked stays blocked. */
  lemma BlockedMonotone(rules: seq<seq<Byte>>, more: seq<seq<Byte>>, host: seq<Byte>)
    requires rules <= more && Blocked(rules, host)
    ensures Blocked(more, host)
  {
  }

  // ----- the normalizer -----

  /** All labels finished and legal but the last, which may still grow. */
  predicate OpenName(s: seq<Byte>) {
    var ls := Labels(s);
    (forall i | 0 <= i < |ls| - 1 :: LegalLabel(ls[i])) && OpenLabel(ls[|ls| - 1])
  }

  /** Every prefix of a legal name is open. */
  lemma LegalPrefix(s: seq<Byte>, t: seq<Byte>)
    requires t <= s
    ensures LegalName(s) ==> OpenName(t)
  {
    var u := s[|t|..];
    assert s == t + u;
    LabelsExtend(t, u);
    var a, b := Labels(t), Labels(s);
    if LegalName(s) {
      forall i | 0 <= i < |a| - 1 ensures LegalLabel(a[i]) {
        assert a[i] == a[..|a| - 1][i] == b[..|a| - 1][i] == b[i];
      }
      assert LegalLabel(b[|a| - 1]);
      var l, m := a[|a| - 1], b[|a| - 1];
      assert forall i | 0 <= i < |l| :: l[i] == m[i];
    }
  }

  /** How one more character keeps a name open. */
  lemma OpenStep(s: seq<Byte>, c: Byte)
    requires OpenName(s)
    ensures LastLabel(s + [c]) == if c == DOT then [] else LastLabel(s) + [c]
    ensures OpenName(s + [c]) <==> if c == DOT then LegalLabel(LastLabel(s)) else OpenLabel(LastLabel(s) + [c])
  {
    var t, ls := s + [c], Labels(s);
    assert t[..|t| - 1] == s;
    assert Labels(t) == Grow(ls, c);
    if c == DOT {
      assert Labels(t)[|ls| - 1] == LastLabel(s);
      assert forall i | 0 <= i < |ls| :: Labels(t)[i] == ls[i];
    } else {
      assert forall i | 0 <= i < |ls| - 1 :: Labels(t)[i] == ls[i];
    }
  }

  /** The first `i` characters are open and the current label is the last `k` of them. */
  predicate OpenAt(s: seq<Byte>, i: nat, k: nat) {
    k <= i <= |s| && OpenName(s[..i]) && LastLabel(s[..i]) == s[i - k..i]
  }

  /** Whether character `i` keeps the name open, decided by looking at one or two characters. */
  predicate Continues(s: seq<Byte>, i: nat, k: nat)
    requires k <= i < |s|
  {
    if s[i] == DOT then k > 0 && s[i - 1] != HYPHEN
    else (LetterDigit(s[i]) || (s[i] == HYPHEN && k > 0)) && k < MAX_LABEL
  }

  /** One more character of a name that is open so far. */
  lemma NextChar(s: seq<Byte>, i: nat, k: nat)
    requires i < |s| && OpenAt(s, i, k)
    ensures var l := s[i - k..i];
            && OpenLabel(l)
            && (OpenName(s[..i + 1]) <==> if s[i] == DOT then LegalLabel(l) else OpenLabel(l + [s[i]]))
            && LastLabel(s[..i + 1]) == (if s[i] == DOT then [] else s[i - k..i + 1])
  {
    hide OpenLabel, LegalLabel;
    OpenStep(s[..i], s[i]);
    assert s[..i] + [s[i]] == s[..i + 1];
    assert s[i - k..i] + [s[i]] == s[i - k..i + 1];
  }

  /** What keeps a label open, and what may end one. */
  lemma LabelContinues(l: seq<Byte>, c: Byte)
    requires OpenLabel(l)
    ensures OpenLabel(l + [c]) <==> (LetterDigit(c) || (c == HYPHEN && l != [])) && |l| < MAX_LABEL
    ensures LegalLabel(l) <==> l != [] && l[|l| - 1] != HYPHEN
  {
    assert (l + [c])[|l|] == c;
    assert l != [] ==> (l + [c])[0] == l[0];
    assert forall i | 0 <= i < |l| :: (l + [c])[i] == l[i];
  }

  lemma CharStep(s: seq<Byte>, i: nat, k: nat)
    requires i < |s| && OpenAt(s, i, k)
    ensures Continues(s, i, k) ==> OpenAt(s, i + 1, if s[i] == DOT then 0 else k + 1)
    ensures !Continues(s, i, k) ==> !LegalName(s)
  {
    hide LegalName, OpenName, OpenLabel, LegalLabel, LastLabel, LetterDigit;
    var l := s[i - k..i];
    NextChar(s, i, k);
    LabelContinues(l, s[i]);
    LegalPrefix(s, s[..i + 1]);
    assert k > 0 ==> l[k - 1] == s[i - 1];
  }

  /** The end of a name whose last label is its last `k` characters. */
  lemma NameEnd(s: seq<Byte>, k: nat)
    requires |s| <= MAX_NAME && OpenAt(s, |s|, k)
    ensures LegalName(s) <==> k > 0 && s[|s| - 1] != HYPHEN
  {
    assert s[..|s|] == s;
    var l := s[|s| - k..];
    assert k > 0 ==> l[k - 1] == s[|s| - 1];
  }

  /** The character loop of normalize_hostname over a name already stripped of its dot. */
  method NormalizeLabels(s: seq<Byte>, output: array<Byte>) returns (ok: bool)
    requires 0 < |s| <= MAX_NAME && |s| < output.Length
    modifies output
    ensures ok == LegalName(s)
    ensures ok ==> output[..|s|] == Lower(s) && output[|s|] == 0
  {
    var labelLength := 0;
    for i := 0 to |s|
      invariant forall j | 0 <= j < i :: output[j] == LowerByte(s[j])
      invariant OpenAt(s, i, labelLength)
    {
      var value := s[i];
      CharStep(s, i, labelLength);
      if value == DOT {
        if labelLength == 0 || output[i - 1] == HYPHEN {
          return false;
        }
        output[i] := DOT;
        labelLength := 0;
        continue;
      }
      if !LetterDigit(value) && value != HYPHEN {
        return false;
      }
      if labelLength == 0 && value == HYPHEN {
        return false;
      }
      labelLength := labelLength + 1;
      if labelLength > MAX_LABEL {
        return false;
      }
      output[i] := LowerByte(value);
    }
    NameEnd(s, labelLength);
    if labelLength == 0 || output[|s| - 1] == HYPHEN {
      return false;
    }
    output[|s|] := 0;
    ok := true;
  }

  /** normalize_hostname: on success the normal form and its terminator are in the buffer. */
  method NormalizeHostname(input: seq<Byte>, output: array<Byte>) returns (ok: bool)
    requires output.Length == HOSTNAME_SIZE
    modifies output
    ensures ok == Normal(input).Some?
    ensures ok ==> var n := Normal(input).value;
                   |n| < output.Length && output[..|n|] == n && output[|n|] == 0
  {
    var length := |input|;
    if length > 0 && input[length - 1] == DOT {
      length := length - 1;
    }
    assert Strip(input) == input[..length];
    if length == 0 || length > MAX_NAME || length >= output.Length {
      assert !LegalLabel([]);
      assert length == 0 ==> Labels(Strip(input))[0] == [];
      return false;
    }
    ok := NormalizeLabels(input[..length], output);
  }
}
