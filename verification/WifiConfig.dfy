/** The dual-slot upstream WiFi configuration as stored: what each operation does to it, what
    every run keeps, and how versions move. */
module WifiConfig {
  import opened Bytes

  const SSID_SIZE := 33
  const PASSWORD_SIZE := 64
  const REQUEST_ID_SIZE := 64
  const RETRY_MAX := 255

  datatype TextKey = StaSsid | StaPassword | CandSsid | CandPassword | CandRequest | ActiveRequest
  datatype NumberKey = CandVersion | ActiveVersion | RecoveryTriggered | RecoveryRetry

  /** The namespace as last committed, or a handle's working copy of it. */
  datatype Store = Store(texts: map<TextKey, seq<Byte>>, numbers: map<NumberKey, nat>)

  const EMPTY := Store(map[], map[])

  datatype Error = Ok | NotFound | InvalidArg | InvalidState | InvalidLength | NvsNotFound | FlashError

  /** Buffer texts as strnlen reads them: as long as the buffer when unterminated. */
  datatype Credentials = Credentials(ssid: seq<Byte>, password: seq<Byte>)
  datatype Config = Config(credentials: Credentials, requestId: seq<Byte>, version: nat)

  datatype Result<+T> = Success(value: T) | Failure(error: Error)

  datatype StageResult = Stored | Idempotent | StaleVersion | VersionConflict

  // ----- validity -----

  predicate ValidCredentials(c: Credentials) {
    && 0 < |c.ssid| < SSID_SIZE
    && |c.password| < PASSWORD_SIZE
    && (|c.password| > 0 ==> |c.password| >= 8)
  }

  predicate ValidConfig(c: Config) {
    && c.version != 0
    && 0 < |c.requestId| < REQUEST_ID_SIZE
    && ValidCredentials(c.credentials)
  }

  // ----- reading -----

  /** nvs_get_str into a buffer of `size` bytes. */
  function GetText(s: Store, k: TextKey, size: nat): Result<seq<Byte>> {
    if k !in s.texts then Failure(NvsNotFound)
    else if |s.texts[k]| >= size then Failure(InvalidLength)
    else Success(s.texts[k])
  }

  function GetNumber(s: Store, k: NumberKey): Result<nat> {
    if k in s.numbers then Success(s.numbers[k]) else Failure(NvsNotFound)
  }

  /** A missing key after the first one marks a torn candidate. */
  function Torn(e: Error): Error {
    if e == NvsNotFound then InvalidState else e
  }

  function LoadCandidate(s: Store): Result<Config> {
    var ssid := GetText(s, CandSsid, SSID_SIZE);
    if ssid.Failure? then Failure(if ssid.error == NvsNotFound then NotFound else ssid.error) else
    var password := GetText(s, CandPassword, PASSWORD_SIZE);
    if password.Failure? then Failure(Torn(password.error)) else
    var request := GetText(s, CandRequest, REQUEST_ID_SIZE);
    if request.Failure? then Failure(Torn(request.error)) else
    var version := GetNumber(s, CandVersion);
    if version.Failure? then Failure(Torn(version.error)) else
    var c := Config(Credentials(ssid.value, password.value), request.value, version.value);
    if ValidConfig(c) then Success(c) else Failure(InvalidArg)
  }

  /** The active pair: None when both keys are missing. */
  function LoadActive(s: Store): Result<Option<(seq<Byte>, nat)>> {
    var request := GetText(s, ActiveRequest, REQUEST_ID_SIZE);
    var version := GetNumber(s, ActiveVersion);
    if request == Failure(NvsNotFound) && version == Failure(NvsNotFound) then Success(None)
    else if request.Failure? || version.Failure? || request.value == [] || version.value == 0 then
      Failure(if request.Failure? && request.error != NvsNotFound then request.error else InvalidState)
    else Success(Some((request.value, version.value)))
  }

  function LoadCredentials(s: Store): Result<Credentials> {
    var ssid := GetText(s, StaSsid, SSID_SIZE);
    if ssid.Failure? then Failure(if ssid.error == NvsNotFound then NotFound else ssid.error) else
    var password := GetText(s, StaPassword, PASSWORD_SIZE);
    if password.Failure? then Failure(if password.error == NvsNotFound then NotFound else password.error) else
    var c := Credentials(ssid.value, password.value);
    if ValidCredentials(c) then Success(c) else Failure(InvalidArg)
  }

  // ----- writing -----

  const CANDIDATE_TEXTS := {CandSsid, CandPassword, CandRequest}
  const RECOVERY_NUMBERS := {RecoveryTriggered, RecoveryRetry}

  function WithCredentials(s: Store, c: Credentials): Store {
    s.(texts := s.texts[StaSsid := c.ssid][StaPassword := c.password])
  }

  function WithCandidate(s: Store, c: Config): Store {
    Store(s.texts[CandSsid := c.credentials.ssid][CandPassword := c.credentials.password][CandRequest := c.requestId],
          s.numbers[CandVersion := c.version])
  }

  function WithActive(s: Store, requestId: seq<Byte>, version: nat): Store {
    Store(s.texts[ActiveRequest := requestId], s.numbers[ActiveVersion := version])
  }

  function WithoutCandidate(s: Store): Store {
    Store(s.texts - CANDIDATE_TEXTS, s.numbers - {CandVersion})
  }

  function WithoutActive(s: Store): Store {
    Store(s.texts - {ActiveRequest}, s.numbers - {ActiveVersion})
  }

  function WithoutRecovery(s: Store): Store {
    s.(numbers := s.numbers - RECOVERY_NUMBERS)
  }

  function WithoutCredentials(s: Store): Store {
    s.(texts := s.texts - {StaSsid, StaPassword})
  }

  /** The candidate made current and active, its slot and the recovery marks cleared. */
  function WithPromotion(s: Store, c: Config): Store {
    WithoutRecovery(WithoutCandidate(WithActive(WithCredentials(s, c.credentials), c.requestId, c.version)))
  }

  // ----- operations -----

  /** A Portal save: new current credentials, all control metadata gone. */
  function Save(s: Store, c: Credentials): (Store, Error) {
    if !ValidCredentials(c) then (s, InvalidArg)
    else (WithoutRecovery(WithoutActive(WithoutCandidate(WithCredentials(s, c)))), Ok)
  }

  function Max(a: nat, b: nat): nat {
    if a > b then a else b
  }

  function Stage(s: Store, c: Config): (Store, Error, StageResult) {
    if !ValidConfig(c) then (s, InvalidArg, Stored) else
    var pending := LoadCandidate(s);
    if pending.Failure? && pending.error != NotFound then (s, pending.error, Stored) else
    var active := LoadActive(s);
    if active.Failure? then (s, active.error, Stored) else
    if pending.Success? && pending.value.version == c.version && pending.value.requestId == c.requestId
    then (s, Ok, Idempotent) else
    if active.value == Some((c.requestId, c.version)) then (s, Ok, Idempotent) else
    var highest := Max(if pending.Success? then pending.value.version else 0,
                       if active.value.Some? then active.value.value.1 else 0);
    if c.version < highest then (s, Ok, StaleVersion)
    else if c.version == highest then (s, Ok, VersionConflict)
    else (WithCandidate(s, c), Ok, Stored)
  }

  function Promote(s: Store, requestId: seq<Byte>, version: nat): (Store, Error) {
    if requestId == [] || version == 0 then (s, InvalidArg) else
    match LoadCandidate(s)
    case Failure(e) => (s, e)
    case Success(c) =>
      if c.version != version || c.requestId != requestId then (s, InvalidState)
      else (WithPromotion(s, c), Ok)
  }

  function Clear(s: Store): (Store, Error) {
    (WithoutActive(WithoutCredentials(s)), Ok)
  }

  function IncrementRetry(s: Store): (Store, Error) {
    var count := if RecoveryRetry in s.numbers then s.numbers[RecoveryRetry] else 0;
    (s.(numbers := s.numbers[RecoveryRetry := if count < RETRY_MAX then count + 1 else count]), Ok)
  }

  function SetTriggered(s: Store): (Store, Error) {
    (s.(numbers := s.numbers[RecoveryTriggered := 1]), Ok)
  }

  function ClearTriggered(s: Store): (Store, Error) {
    (s.(numbers := s.numbers - {RecoveryTriggered}), Ok)
  }

  // ----- the invariant -----

  predicate CandidateAbsent(s: Store) {
    s.texts.Keys !! CANDIDATE_TEXTS && CandVersion !in s.numbers
  }

  predicate CredentialsAbsent(s: Store) {
    StaSsid !in s.texts && StaPassword !in s.texts
  }

  function ActiveFloor(s: Store): nat {
    if ActiveVersion in s.numbers then s.numbers[ActiveVersion] else 0
  }

  /** Current credentials, active pair and candidate are each whole and valid or absent; an
      active pair comes with current credentials and lies below any candidate. */
  predicate Inv(s: Store) {
    && (CredentialsAbsent(s) || LoadCredentials(s).Success?)
    && (CandidateAbsent(s) || LoadCandidate(s).Success?)
    && LoadActive(s).Success?
    && (LoadActive(s).value.Some? ==> LoadCredentials(s).Success?)
    && (LoadCandidate(s).Success? ==> LoadCandidate(s).value.version > ActiveFloor(s))
  }

  /** What Inv leaves of the loaders' results: no torn and no invalid entry is reachable. */
  lemma NothingTorn(s: Store)
    requires Inv(s)
    ensures LoadCandidate(s).Success? || (LoadCandidate(s) == Failure(NotFound) && CandidateAbsent(s))
    ensures LoadCredentials(s).Success? || LoadCredentials(s) == Failure(NotFound)
    ensures LoadActive(s) == if ActiveVersion !in s.numbers then Success(None)
                             else Success(Some((s.texts[ActiveRequest], s.numbers[ActiveVersion])))
  {
  }

  datatype Op =
    | OpSave(credentials: Credentials)
    | OpStage(config: Config)
    | OpPromote(requestId: seq<Byte>, version: nat)
    | OpClear
    | OpIncrementRetry
    | OpSetTriggered
    | OpClearTriggered

  /** One operation; `faulted` when some NVS call of it failed, which leaves the store alone. */
  datatype Attempt = Attempt(op: Op, faulted: bool)

  datatype Report = Report(error: Error, stage: StageResult)

  function Perform(s: Store, a: Attempt): (Store, Report) {
    if a.faulted then (s, Report(FlashError, Stored))
    else match a.op
      case OpSave(c) => var (s', e) := Save(s, c); (s', Report(e, Stored))
      case OpStage(c) => var (s', e, r) := Stage(s, c); (s', Report(e, r))
      case OpPromote(q, v) => var (s', e) := Promote(s, q, v); (s', Report(e, Stored))
      case OpClear => var (s', e) := Clear(s); (s', Report(e, Stored))
      case OpIncrementRetry => var (s', e) := IncrementRetry(s); (s', Report(e, Stored))
      case OpSetTriggered => var (s', e) := SetTriggered(s); (s', Report(e, Stored))
      case OpClearTriggered => var (s', e) := ClearTriggered(s); (s', Report(e, Stored))
  }

  function Final(s: Store, attempts: seq<Attempt>): Store
    decreases |attempts|
  {
    if attempts == [] then s else Final(Perform(s, attempts[0]).0, attempts[1..])
  }

  lemma StageKeepsInv(s: Store, c: Config)
    requires Inv(s)
    ensures Inv(Stage(s, c).0)
  {
    NothingTorn(s);
    var s' := Stage(s, c).0;
    if s' != s {
      assert LoadCandidate(s') == Success(c);
      assert LoadActive(s') == LoadActive(s) && LoadCredentials(s') == LoadCredentials(s);
    }
  }

  lemma PromoteKeepsInv(s: Store, requestId: seq<Byte>, version: nat)
    requires Inv(s)
    ensures Inv(Promote(s, requestId, version).0)
  {
    var s' := Promote(s, requestId, version).0;
    if Promote(s, requestId, version).1 == Ok {
      var c := LoadCandidate(s).value;
      assert LoadCredentials(s') == Success(c.credentials);
      assert LoadActive(s') == Success(Some((c.requestId, c.version)));
      assert CandidateAbsent(s');
    }
  }

  lemma SaveKeepsInv(s: Store, c: Credentials)
    requires Inv(s)
    ensures Inv(Save(s, c).0)
  {
    if ValidCredentials(c) {
      var s' := Save(s, c).0;
      assert LoadCredentials(s') == Success(c) && CandidateAbsent(s') && LoadActive(s') == Success(None);
    }
  }

  lemma RestKeepsInv(s: Store)
    requires Inv(s)
    ensures Inv(Clear(s).0) && Inv(IncrementRetry(s).0) && Inv(SetTriggered(s).0) && Inv(ClearTriggered(s).0)
  {
    var s' := Clear(s).0;
    assert CredentialsAbsent(s') && LoadActive(s') == Success(None);
    assert LoadCandidate(s') == LoadCandidate(s) && (CandidateAbsent(s) ==> CandidateAbsent(s'));
    SameConfig(s, IncrementRetry(s).0);
    SameConfig(s, SetTriggered(s).0);
    SameConfig(s, ClearTriggered(s).0);
  }

  /** Recovery bookkeeping is outside the configuration. */
  lemma SameConfig(s: Store, s': Store)
    requires Inv(s) && s'.texts == s.texts
    requires s'.numbers - RECOVERY_NUMBERS == s.numbers - RECOVERY_NUMBERS
    ensures Inv(s') && LoadCandidate(s') == LoadCandidate(s) && LoadActive(s') == LoadActive(s)
    ensures LoadCredentials(s') == LoadCredentials(s)
  {
    forall k | k !in RECOVERY_NUMBERS
      ensures k in s'.numbers <==> k in s.numbers
      ensures k in s.numbers ==> s'.numbers[k] == s.numbers[k]
    {
      assert k in s'.numbers <==> k in s'.numbers - RECOVERY_NUMBERS;
      assert k in s.numbers <==> k in s.numbers - RECOVERY_NUMBERS;
    }
  }

  lemma PerformKeepsInv(s: Store, a: Attempt)
    requires Inv(s)
    ensures Inv(Perform(s, a).0)
  {
    RestKeepsInv(s);
    match a.op {
      case OpSave(c) => SaveKeepsInv(s, c);
      case OpStage(c) => StageKeepsInv(s, c);
      case OpPromote(q, v) => PromoteKeepsInv(s, q, v);
      case _ =>
    }
  }

  /** Every run from an empty store, with any operation failing anywhere, keeps the invariant. */
  lemma {:induction false} StorageInvariant(s: Store, attempts: seq<Attempt>)
    requires s == EMPTY || Inv(s)
    ensures Inv(Final(s, attempts))
    decreases |attempts|
  {
    assert Inv(EMPTY);
    if attempts != [] {
      PerformKeepsInv(s, attempts[0]);
      StorageInvariant(Perform(s, attempts[0]).0, attempts[1..]);
    }
  }

  // ----- staging in isolation -----

  /** Staging never touches current credentials or the active pair; replaying the pending or the
      active identity changes nothing; what it stores lies above every known version. */
  lemma StageIsolated(s: Store, c: Config)
    requires Inv(s) && ValidConfig(c)
    ensures var (s', e, r) := Stage(s, c);
            && e == Ok
            && LoadCredentials(s') == LoadCredentials(s) && LoadActive(s') == LoadActive(s)
            && (r != Stored ==> s' == s)
            && (r == Stored ==> LoadCandidate(s') == Success(c) && c.version > Highest(s))
            && (r == Idempotent <==>
                  || (LoadCandidate(s).Success? && LoadCandidate(s).value.requestId == c.requestId
                      && LoadCandidate(s).value.version == c.version)
                  || LoadActive(s).value == Some((c.requestId, c.version)))
            && (r == Stored <==> c.version > Highest(s))
  {
    NothingTorn(s);
  }

  function Highest(s: Store): nat {
    Max(if CandVersion in s.numbers then s.numbers[CandVersion] else 0, ActiveFloor(s))
  }

  // ----- version history -----

  predicate IsReset(a: Attempt) {
    a.op.OpSave? || a.op.OpClear?
  }

  predicate NoReset(attempts: seq<Attempt>) {
    forall i | 0 <= i < |attempts| :: !IsReset(attempts[i])
  }

  /** Versions reported STORED, in order. */
  function StoredVersions(s: Store, attempts: seq<Attempt>): seq<nat>
    decreases |attempts|
  {
    if attempts == [] then []
    else
      var a := attempts[0];
      var (s', r) := Perform(s, a);
      (if a.op.OpStage? && r == Report(Ok, Stored) then [a.op.config.version] else [])
        + StoredVersions(s', attempts[1..])
  }

  /** Versions successfully promoted, in order. */
  function PromotedVersions(s: Store, attempts: seq<Attempt>): seq<nat>
    decreases |attempts|
  {
    if attempts == [] then []
    else
      var a := attempts[0];
      var (s', r) := Perform(s, a);
      (if a.op.OpPromote? && r.error == Ok then [a.op.version] else []) + PromotedVersions(s', attempts[1..])
  }

  predicate Increasing(floor: nat, vs: seq<nat>)
    decreases |vs|
  {
    vs == [] || (floor < vs[0] && Increasing(vs[0], vs[1..]))
  }

  predicate Subsequence(a: seq<nat>, b: seq<nat>)
    decreases |b|
  {
    a == [] || (b != [] && ((a[0] == b[0] && Subsequence(a[1..], b[1..])) || Subsequence(a, b[1..])))
  }

  function PendingVersions(s: Store): seq<nat> {
    if CandVersion in s.numbers then [s.numbers[CandVersion]] else []
  }

  lemma StageMoves(s: Store, c: Config)
    requires Inv(s)
    ensures var (s', e, r) := Stage(s, c);
            if e == Ok && r == Stored then
              c.version > Highest(s) && Highest(s') == c.version
              && ActiveFloor(s') == ActiveFloor(s) && PendingVersions(s') == [c.version]
            else s' == s
  {
    NothingTorn(s);
  }

  lemma PromoteMoves(s: Store, requestId: seq<Byte>, version: nat)
    requires Inv(s)
    ensures var (s', e) := Promote(s, requestId, version);
            if e == Ok then
              PendingVersions(s) == [version] && version > ActiveFloor(s) && PendingVersions(s') == []
              && ActiveFloor(s') == version && Highest(s') == Highest(s)
            else s' == s
  {
    NothingTorn(s);
  }

  lemma BookkeepingMoves(s: Store, s': Store)
    requires s' in {IncrementRetry(s).0, SetTriggered(s).0, ClearTriggered(s).0}
    ensures Highest(s') == Highest(s) && ActiveFloor(s') == ActiveFloor(s) && PendingVersions(s') == PendingVersions(s)
  {
  }

  /** How one operation other than a reset moves the versions. */
  lemma VersionsMove(s: Store, a: Attempt)
    requires Inv(s) && !IsReset(a)
    ensures var (s', r) := Perform(s, a);
            if a.op.OpStage? && r == Report(Ok, Stored) then
              a.op.config.version > Highest(s) && Highest(s') == a.op.config.version
              && ActiveFloor(s') == ActiveFloor(s) && PendingVersions(s') == [a.op.config.version]
            else if a.op.OpPromote? && r.error == Ok then
              PendingVersions(s) == [a.op.version] && a.op.version > ActiveFloor(s) && PendingVersions(s') == []
              && ActiveFloor(s') == a.op.version && Highest(s') == Highest(s)
            else
              && Highest(s') == Highest(s) && ActiveFloor(s') == ActiveFloor(s)
              && PendingVersions(s') == PendingVersions(s)
  {
    hide Inv, Stage, Promote, IncrementRetry, SetTriggered, ClearTriggered, Highest, ActiveFloor, PendingVersions;
    match a.op {
      case OpStage(c) => StageMoves(s, c);
      case OpPromote(q, v) => PromoteMoves(s, q, v);
      case OpIncrementRetry => BookkeepingMoves(s, IncrementRetry(s).0);
      case OpSetTriggered => BookkeepingMoves(s, SetTriggered(s).0);
      case OpClearTriggered => BookkeepingMoves(s, ClearTriggered(s).0);
    }
  }

  /** Between two resets stored versions strictly increase above all known ones, promoted ones
      strictly increase above the active one, and promoted ones are, in order, among the one
      pending at the start and the stored ones. */
  lemma {:induction false} VersionHistory(s: Store, attempts: seq<Attempt>)
    requires Inv(s) && NoReset(attempts)
    ensures Increasing(Highest(s), StoredVersions(s, attempts))
    ensures Increasing(ActiveFloor(s), PromotedVersions(s, attempts))
    ensures Subsequence(PromotedVersions(s, attempts), PendingVersions(s) + StoredVersions(s, attempts))
    decreases |attempts|
  {
    if attempts != [] {
      var a, rest := attempts[0], attempts[1..];
      var (s', r) := Perform(s, a);
      assert !IsReset(attempts[0]) && forall i | 0 <= i < |rest| :: rest[i] == attempts[i + 1];
      PerformKeepsInv(s, a);
      VersionHistory(s', rest);
      VersionsMove(s, a);
      HistoryStep(s, s', a, r, StoredVersions(s', rest), PromotedVersions(s', rest));
    }
  }

  lemma HistoryStep(s: Store, s': Store, a: Attempt, r: Report, stored: seq<nat>, promoted: seq<nat>)
    requires Inv(s) && !IsReset(a) && (s', r) == Perform(s, a)
    requires Increasing(Highest(s'), stored) && Increasing(ActiveFloor(s'), promoted)
    requires Subsequence(promoted, PendingVersions(s') + stored)
    ensures var stored' := (if a.op.OpStage? && r == Report(Ok, Stored) then [a.op.config.version] else []) + stored;
            var promoted' := (if a.op.OpPromote? && r.error == Ok then [a.op.version] else []) + promoted;
            && Increasing(Highest(s), stored') && Increasing(ActiveFloor(s), promoted')
            && Subsequence(promoted', PendingVersions(s) + stored')
  {
    VersionsMove(s, a);
    if a.op.OpStage? && r == Report(Ok, Stored) {
      var v := a.op.config.version;
      assert [] + promoted == promoted && ([v] + stored)[1..] == stored;
      var all := PendingVersions(s) + ([v] + stored);
      if PendingVersions(s) != [] {
        assert all[1..] == [v] + stored;
      } else {
        assert all == [v] + stored;
      }
    } else if a.op.OpPromote? && r.error == Ok {
      var v := a.op.version;
      assert [] + stored == stored;
      assert ([v] + promoted)[1..] == promoted && ([v] + stored)[1..] == stored;
    } else {
      assert [] + stored == stored && [] + promoted == promoted;
    }
  }

  /** Promotions after a reset come from stagings after it, in every continuation, exactly when
      the reset left no candidate behind: a Portal save never does, a credential clear may. */
  lemma PromotedAreStored(s: Store)
    requires Inv(s)
    ensures (forall attempts | NoReset(attempts) ::
               Subsequence(PromotedVersions(s, attempts), StoredVersions(s, attempts)))
            <==> CandidateAbsent(s)
  {
    NothingTorn(s);
    if CandidateAbsent(s) {
      forall attempts | NoReset(attempts)
        ensures Subsequence(PromotedVersions(s, attempts), StoredVersions(s, attempts))
      {
        VersionHistory(s, attempts);
        assert PendingVersions(s) + StoredVersions(s, attempts) == StoredVersions(s, attempts);
      }
    } else {
      var c := LoadCandidate(s).value;
      var attempts := [Attempt(OpPromote(c.requestId, c.version), false)];
      assert NoReset(attempts);
      var s' := Perform(s, attempts[0]).0;
      assert attempts[1..] == [];
      assert PromotedVersions(s, attempts) == [c.version] + PromotedVersions(s', []);
      assert StoredVersions(s, attempts) == [] + StoredVersions(s', []);
      assert !Subsequence(PromotedVersions(s, attempts), StoredVersions(s, attempts));
    }
  }

  lemma ResetsAndCandidates(s: Store, c: Credentials)
    requires Inv(s) && ValidCredentials(c)
    ensures CandidateAbsent(Save(s, c).0)
    ensures CandidateAbsent(Clear(s).0) <==> CandidateAbsent(s)
  {
  }

  // ----- the two slots, seen without keys -----

  /** What the store means to the protocol that uses it. */
  datatype Slots = Slots(current: Option<Credentials>, active: Option<(seq<Byte>, nat)>, pending: Option<Config>)

  function ToOption<T>(r: Result<T>): Option<T> {
    if r.Success? then Some(r.value) else None
  }

  function View(s: Store): Slots {
    Slots(ToOption(LoadCredentials(s)),
          if LoadActive(s).Success? then LoadActive(s).value else None,
          ToOption(LoadCandidate(s)))
  }

  function HighestOf(u: Slots): nat {
    Max(if u.pending.Some? then u.pending.value.version else 0, if u.active.Some? then u.active.value.1 else 0)
  }

  predicate SlotsInv(u: Slots) {
    && (u.pending.Some? ==>
          && ValidConfig(u.pending.value)
          && (u.active.Some? ==> u.pending.value.version > u.active.value.1))
    && (u.active.Some? ==> u.current.Some?)
  }

  function StageSlots(u: Slots, c: Config): Slots {
    if ValidConfig(c) && c.version > HighestOf(u) then u.(pending := Some(c)) else u
  }

  function PromoteSlots(u: Slots, requestId: seq<Byte>, version: nat): (Slots, Error) {
    if requestId == [] || version == 0 then (u, InvalidArg)
    else if u.pending.None? then (u, NotFound)
    else if u.pending.value.version != version || u.pending.value.requestId != requestId then (u, InvalidState)
    else (Slots(Some(u.pending.value.credentials), Some((requestId, version)), None), Ok)
  }

  function SaveSlots(u: Slots, c: Credentials): Slots {
    if ValidCredentials(c) then Slots(Some(c), None, None) else u
  }

  function ClearSlots(u: Slots): Slots {
    Slots(None, None, u.pending)
  }

  /** On every legal store the keyed operations are exactly the operations on the two slots. */
  lemma SlotsRefinement(s: Store, config: Config, credentials: Credentials, requestId: seq<Byte>, version: nat)
    requires Inv(s)
    ensures SlotsInv(View(s))
    ensures View(Stage(s, config).0) == StageSlots(View(s), config)
    ensures View(Promote(s, requestId, version).0) == PromoteSlots(View(s), requestId, version).0
    ensures Promote(s, requestId, version).1 == PromoteSlots(View(s), requestId, version).1
    ensures View(Save(s, credentials).0) == SaveSlots(View(s), credentials)
    ensures View(Clear(s).0) == ClearSlots(View(s))
    ensures View(SetTriggered(s).0) == View(ClearTriggered(s).0) == View(IncrementRetry(s).0) == View(s)
  {
    hide Inv, SlotsInv, View, Stage, StageSlots, Promote, PromoteSlots, Save, SaveSlots, Clear, ClearSlots;
    StageRefines(s, config);
    PromoteRefines(s, requestId, version);
    SaveRefines(s, credentials);
    ClearRefines(s);
    BookkeepingRefines(s);
  }

  lemma BookkeepingRefines(s: Store)
    requires Inv(s)
    ensures View(SetTriggered(s).0) == View(ClearTriggered(s).0) == View(IncrementRetry(s).0) == View(s)
  {
    SameConfig(s, IncrementRetry(s).0);
    SameConfig(s, SetTriggered(s).0);
    SameConfig(s, ClearTriggered(s).0);
  }

  lemma StageRefines(s: Store, c: Config)
    requires Inv(s)
    ensures SlotsInv(View(s)) && View(Stage(s, c).0) == StageSlots(View(s), c)
  {
    NothingTorn(s);
    if ValidConfig(c) {
      StageIsolated(s, c);
    }
  }

  lemma PromotionViewed(s: Store, c: Config)
    requires ValidConfig(c)
    ensures View(WithPromotion(s, c)) == Slots(Some(c.credentials), Some((c.requestId, c.version)), None)
  {
    var s' := WithPromotion(s, c);
    assert LoadCredentials(s') == Success(c.credentials);
    assert LoadActive(s') == Success(Some((c.requestId, c.version)));
    assert CandidateAbsent(s');
  }

  lemma PromoteRefines(s: Store, requestId: seq<Byte>, version: nat)
    requires Inv(s)
    ensures View(Promote(s, requestId, version).0) == PromoteSlots(View(s), requestId, version).0
    ensures Promote(s, requestId, version).1 == PromoteSlots(View(s), requestId, version).1
  {
    NothingTorn(s);
    ValidPending(s);
    hide Inv, LoadCandidate, LoadActive, LoadCredentials, WithPromotion, ValidConfig;
    if LoadCandidate(s).Success? {
      PromotionViewed(s, LoadCandidate(s).value);
    }
  }

  lemma ValidPending(s: Store)
    ensures LoadCandidate(s).Success? ==> ValidConfig(LoadCandidate(s).value)
  {
  }

  lemma SaveRefines(s: Store, c: Credentials)
    requires Inv(s)
    ensures View(Save(s, c).0) == SaveSlots(View(s), c)
  {
  }

  lemma ClearRefines(s: Store)
    requires Inv(s)
    ensures View(Clear(s).0) == ClearSlots(View(s))
  {
  }
}
