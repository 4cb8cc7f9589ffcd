/** What each storage call is answered and leaves behind, case by case, and the recovery bookkeeping
    over whole runs. */
module WifiAnswers {
  import opened Bytes
  import opened WifiConfig

  // ----- what is accepted -----

  /** An SSID of 1 to 32 bytes, and no password or one of 8 to 63. */
  predicate Joinable(c: Credentials) {
    1 <= |c.ssid| <= 32 && (|c.password| == 0 || 8 <= |c.password| <= 63)
  }

  /** A version, a request id of 1 to 63 bytes and joinable credentials. */
  predicate Stageable(c: Config) {
    c.version > 0 && 1 <= |c.requestId| <= 63 && Joinable(c.credentials)
  }

  lemma ValidMeans(c: Config)
    ensures ValidCredentials(c.credentials) <==> Joinable(c.credentials)
    ensures ValidConfig(c) <==> Stageable(c)
  {
  }

  /** The identity is the stored candidate's or the active one. */
  predicate Known(u: Slots, c: Config) {
    || (u.pending.Some? && u.pending.value.requestId == c.requestId && u.pending.value.version == c.version)
    || u.active == Some((c.requestId, c.version))
  }

  /** Some stored version is `v` or higher. */
  predicate Reached(u: Slots, v: nat) {
    (u.pending.Some? && u.pending.value.version >= v) || (u.active.Some? && u.active.value.1 >= v)
  }

  /** Every answer to a staging, each exactly when: a configuration that is none, a known identity, a version
      below a stored one, another identity with the highest stored version, or a new highest version. */
  lemma StageAnswer(s: Store, c: Config)
    requires Inv(s)
    ensures var (s', e, r) := Stage(s, c);
            var u := View(s);
            && (e == InvalidArg <==> !Stageable(c)) && (e == Ok <==> Stageable(c))
            && (e == Ok ==>
                  && (r == Idempotent <==> Known(u, c))
                  && (r == StaleVersion <==> !Known(u, c) && Reached(u, c.version + 1))
                  && (r == VersionConflict <==>
                        !Known(u, c) && Reached(u, c.version) && !Reached(u, c.version + 1))
                  && (r == Stored <==> !Reached(u, c.version)))
            && View(s') == if e == Ok && r == Stored then u.(pending := Some(c)) else u
  {
    hide Stage, View, LoadCandidate, LoadActive, LoadCredentials;
    ValidMeans(c);
    StageViewed(s, c);
    SlotsRefinement(s, c, c.credentials, c.requestId, c.version);
  }

  lemma StageViewed(s: Store, c: Config)
    requires Inv(s)
    ensures var (_, e, r) := Stage(s, c);
            var u := View(s);
            && e == (if ValidConfig(c) then Ok else InvalidArg)
            && (ValidConfig(c) ==>
                  && (r == Idempotent <==> Known(u, c))
                  && (r == StaleVersion <==> !Known(u, c) && c.version < HighestOf(u))
                  && (r == VersionConflict <==> !Known(u, c) && c.version == HighestOf(u))
                  && (r == Stored <==> c.version > HighestOf(u)))
  {
    hide LoadCredentials;
    LoadersViewed(s);
    hide Inv, LoadCandidate, LoadActive, ValidConfig;
  }

  /** Under the invariant the loaders find what the view shows, or nothing. */
  lemma LoadersViewed(s: Store)
    requires Inv(s)
    ensures View(s).pending.Some? ==> LoadCandidate(s) == Success(View(s).pending.value)
    ensures View(s).pending.None? ==> LoadCandidate(s) == Failure(NotFound)
    ensures LoadActive(s) == Success(View(s).active)
  {
    NothingTorn(s);
  }

  /** No recovery mark is left. */
  predicate Unmarked(s: Store) {
    RecoveryTriggered !in s.numbers && RecoveryRetry !in s.numbers
  }

  predicate SameMarks(s: Store, s': Store) {
    && (RecoveryTriggered in s'.numbers <==> RecoveryTriggered in s.numbers)
    && (RecoveryRetry in s'.numbers <==> RecoveryRetry in s.numbers)
    && (RecoveryTriggered in s.numbers ==> s'.numbers[RecoveryTriggered] == s.numbers[RecoveryTriggered])
    && (RecoveryRetry in s.numbers ==> s'.numbers[RecoveryRetry] == s.numbers[RecoveryRetry])
  }

  /** A Portal save with joinable credentials leaves them alone in the configuration and no recovery mark;
      any other is refused and changes nothing. */
  lemma SaveAnswer(s: Store, c: Credentials)
    requires Inv(s)
    ensures var (s', e) := Save(s, c);
            && e == (if Joinable(c) then Ok else InvalidArg)
            && (if Joinable(c) then View(s') == Slots(Some(c), None, None) && Unmarked(s') else s' == s)
  {
    SaveRefines(s, c);
    hide View;
  }

  /** A promotion with an identity makes the candidate of that identity current and active, its slot empty
      and the recovery marks gone; without a candidate, or with another one stored, it changes nothing. */
  lemma PromoteAnswer(s: Store, requestId: seq<Byte>, version: nat)
    requires Inv(s)
    ensures var (s', e) := Promote(s, requestId, version);
            var p := View(s).pending;
            && (e == InvalidArg <==> requestId == [] || version == 0)
            && (e == NotFound <==> requestId != [] && version > 0 && p.None?)
            && (e == InvalidState <==> requestId != [] && version > 0 && p.Some?
                                       && (p.value.requestId != requestId || p.value.version != version))
            && (e == Ok <==> p.Some? && p.value.requestId == requestId && p.value.version == version)
            && (if e == Ok then
                  View(s') == Slots(Some(p.value.credentials), Some((requestId, version)), None) && Unmarked(s')
                else s' == s)
  {
    PromoteRefines(s, requestId, version);
    LoadersViewed(s);
    ValidPending(s);
    PromoteUnmarks(s, requestId, version);
    hide Inv, View, LoadCandidate, LoadActive, LoadCredentials, WithPromotion, Unmarked;
  }

  lemma PromoteUnmarks(s: Store, requestId: seq<Byte>, version: nat)
    ensures Promote(s, requestId, version).1 == Ok ==> Unmarked(Promote(s, requestId, version).0)
    ensures Promote(s, requestId, version).1 != Ok ==> Promote(s, requestId, version).0 == s
  {
    hide WithCredentials, WithActive, WithoutCandidate;
    if Promote(s, requestId, version).1 == Ok {
      var c := LoadCandidate(s).value;
      RecoveryGone(WithoutCandidate(WithActive(WithCredentials(s, c.credentials), c.requestId, c.version)));
    }
  }

  lemma RecoveryGone(s: Store)
    ensures Unmarked(WithoutRecovery(s))
  {
    assert RecoveryTriggered in RECOVERY_NUMBERS && RecoveryRetry in RECOVERY_NUMBERS;
  }

  /** A clear takes current credentials and active version and nothing else. */
  lemma ClearAnswer(s: Store)
    requires Inv(s)
    ensures var (s', e) := Clear(s);
            e == Ok && View(s') == Slots(None, None, View(s).pending) && SameMarks(s, s')
  {
    ClearRefines(s);
    ClearMarks(s);
    hide View, Clear, SameMarks;
  }

  lemma ClearMarks(s: Store)
    ensures Clear(s).1 == Ok && SameMarks(s, Clear(s).0)
  {
    var t := Clear(s).0;
    assert forall k | k != ActiveVersion :: k in t.numbers <==> k in s.numbers;
  }

  /** On any flash contents whatever: a candidate or active pair that is there but cannot be read fails a
      staging and a promotion with its error, and nothing changes. */
  lemma UnreadableRefused(s: Store, c: Config, requestId: seq<Byte>, version: nat)
    ensures var (s', e, _) := Stage(s, c);
            Stageable(c) ==>
              (if LoadCandidate(s).Failure? && LoadCandidate(s) != Failure(NotFound) then
                 s' == s && Failure(e) == LoadCandidate(s)
               else if LoadActive(s).Failure? then s' == s && Failure(e) == LoadActive(s)
               else e == Ok)
    ensures LoadCandidate(s).Failure? && requestId != [] && version > 0 ==>
              var (s', e) := Promote(s, requestId, version); s' == s && Failure(e) == LoadCandidate(s)
  {
    ValidMeans(c);
    hide LoadCandidate, LoadActive, WithCandidate, WithPromotion, ValidConfig;
  }

  // ----- recovery bookkeeping -----

  /** Successful promotions and Portal saves start it afresh. */
  predicate Restarts(s: Store, a: Attempt) {
    (a.op.OpSave? || a.op.OpPromote?) && Perform(s, a).1.error == Ok
  }

  function RetryCount(s: Store): nat {
    if RecoveryRetry in s.numbers then s.numbers[RecoveryRetry] else 0
  }

  predicate Triggered(s: Store) {
    RecoveryTriggered in s.numbers && s.numbers[RecoveryTriggered] == 1
  }

  /** Unreachable verdicts counted since the last restart, `n` of them before these attempts. */
  function Counted(s: Store, attempts: seq<Attempt>, n: nat): nat
    decreases |attempts|
  {
    if attempts == [] then n
    else
      var a := attempts[0];
      Counted(Perform(s, a).0, attempts[1..],
              if Restarts(s, a) then 0 else if a.op.OpIncrementRetry? && !a.faulted then n + 1 else n)
  }

  /** Whether the last word on the recovery flag was to set it. */
  function Flagged(s: Store, attempts: seq<Attempt>, up: bool): bool
    decreases |attempts|
  {
    if attempts == [] then up
    else
      var a := attempts[0];
      Flagged(Perform(s, a).0, attempts[1..],
              if Restarts(s, a) || (a.op.OpClearTriggered? && !a.faulted) then false
              else up || (a.op.OpSetTriggered? && !a.faulted))
  }

  /** One attempt moves the bookkeeping so. */
  lemma MarksMove(s: Store, a: Attempt)
    requires Inv(s)
    ensures var s' := Perform(s, a).0;
            && RetryCount(s') == (if Restarts(s, a) then 0
                                  else if a.op.OpIncrementRetry? && !a.faulted && RetryCount(s) < 255
                                    then RetryCount(s) + 1
                                  else RetryCount(s))
            && (Triggered(s') <==>
                  if Restarts(s, a) || (a.op.OpClearTriggered? && !a.faulted) then false
                  else Triggered(s) || (a.op.OpSetTriggered? && !a.faulted))
  {
    hide Inv, LoadCandidate, LoadActive, LoadCredentials;
    match a.op {
      case OpSave(c) => SaveMarks(s, c);
      case OpStage(c) => StageMarks(s, c);
      case OpPromote(q, v) => PromoteUnmarks(s, q, v);
      case _ =>
    }
  }

  lemma SaveMarks(s: Store, c: Credentials)
    ensures var (s', e) := Save(s, c); if e == Ok then Unmarked(s') else s' == s
  {
  }

  lemma StageMarks(s: Store, c: Config)
    ensures SameMarks(s, Stage(s, c).0)
  {
    hide LoadCandidate, LoadActive;
  }

  /** Over every run the stored counter is the number of unreachable verdicts since the last save or
      promotion, stopped at 255, and the flag is the last word on it. */
  lemma {:induction false} BookkeepingExact(s: Store, attempts: seq<Attempt>, n: nat)
    requires Inv(s) && RetryCount(s) == Min(255, n)
    ensures RetryCount(Final(s, attempts)) == Min(255, Counted(s, attempts, n))
    ensures Triggered(Final(s, attempts)) <==> Flagged(s, attempts, Triggered(s))
    decreases |attempts|
  {
    if attempts != [] {
      hide Inv, Perform, Restarts, RetryCount, Triggered;
      var a := attempts[0];
      MarksMove(s, a);
      PerformKeepsInv(s, a);
      BookkeepingExact(Perform(s, a).0, attempts[1..],
                       if Restarts(s, a) then 0 else if a.op.OpIncrementRetry? && !a.faulted then n + 1 else n);
    }
  }

  // ----- entries found on flash -----

  /** The text is there and fits its buffer. */
  predicate Readable(s: Store, k: TextKey, size: nat) {
    k in s.texts && |s.texts[k]| < size
  }

  /** The first entry after the SSID that cannot be read is missing. */
  predicate Broken(s: Store) {
    if !Readable(s, CandPassword, 64) then CandPassword !in s.texts
    else if !Readable(s, CandRequest, 64) then CandRequest !in s.texts
    else CandVersion !in s.numbers
  }

  /** On any flash contents whatever: a candidate is found exactly when all its four entries are there and make
      up a stageable configuration; without an SSID there is none; half of one is reported as torn. */
  lemma CandidateFound(s: Store)
    ensures var r := LoadCandidate(s);
            var whole := Readable(s, CandSsid, 33) && Readable(s, CandPassword, 64) && Readable(s, CandRequest, 64)
              && CandVersion in s.numbers;
            && (r == Failure(NotFound) <==> CandSsid !in s.texts)
            && (whole ==>
                  var c := Config(Credentials(s.texts[CandSsid], s.texts[CandPassword]), s.texts[CandRequest],
                                  s.numbers[CandVersion]);
                  r == if Stageable(c) then Success(c) else Failure(InvalidArg))
            && (r.Success? ==> whole)
            && (r == Failure(InvalidState) <==> Readable(s, CandSsid, 33) && Broken(s))
  {
  }

  /** Likewise the active pair: none without either entry, torn with one only or an empty one. */
  lemma ActiveFound(s: Store)
    ensures var r := LoadActive(s);
            && (r == Success(None) <==> ActiveRequest !in s.texts && ActiveVersion !in s.numbers)
            && (forall q, v :: r == Success(Some((q, v))) <==>
                  && ActiveRequest in s.texts && ActiveVersion in s.numbers
                  && s.texts[ActiveRequest] == q && s.numbers[ActiveVersion] == v
                  && 1 <= |q| <= 63 && v > 0)
            && (r.Failure? ==> r.error == InvalidLength || r.error == InvalidState)
            && (r == Failure(InvalidLength) <==> ActiveRequest in s.texts && |s.texts[ActiveRequest]| >= 64)
  {
  }

  /** And the current credentials, which are absent without either text. */
  lemma CredentialsFound(s: Store)
    ensures var r := LoadCredentials(s);
            && (forall c :: r == Success(c) <==>
                  && StaSsid in s.texts && StaPassword in s.texts && Joinable(c)
                  && c == Credentials(s.texts[StaSsid], s.texts[StaPassword]))
            && (r == Failure(NotFound) <==>
                  StaSsid !in s.texts || (Readable(s, StaSsid, 33) && StaPassword !in s.texts))
  {
  }
}
