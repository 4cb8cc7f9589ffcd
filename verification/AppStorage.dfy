/** The storage calls themselves, over a namespace handle any of whose calls may fail. */
module AppStorage {
  import opened Bytes
  import opened WifiConfig

  /** The flash namespace: what is committed, and the working copy of the handle in use. A
      failing call changes nothing; a commit takes effect at once or not at all. */
  class Namespace {
    var committed: Store
    var working: Store
    var failures: nat

    constructor ()
      ensures committed == EMPTY
    {
      committed, working, failures := EMPTY, EMPTY, 0;
    }

    /** Whether this call meets a flash fault. */
    method Attempt() returns (e: Error)
      modifies this`failures
      ensures e == Ok || e == FlashError
      ensures failures == old(failures) + if e == FlashError then 1 else 0
    {
      if * {
        failures := failures + 1;
        e := FlashError;
      } else {
        e := Ok;
      }
    }

    method Open() returns (e: Error)
      modifies this`working, this`failures
      ensures e == Ok || (e == FlashError && failures > old(failures))
      ensures failures >= old(failures)
      ensures e == Ok ==> working == committed
    {
      e := Attempt();
      working := committed;
    }

    method SetText(k: TextKey, v: seq<Byte>) returns (e: Error)
      modifies this`working, this`failures
      ensures e == Ok || (e == FlashError && failures > old(failures))
      ensures failures >= old(failures)
      ensures e == Ok ==> working == old(working).(texts := old(working).texts[k := v])
    {
      e := Attempt();
      if e == Ok {
        working := working.(texts := working.texts[k := v]);
      }
    }

    method SetNumber(k: NumberKey, v: nat) returns (e: Error)
      modifies this`working, this`failures
      ensures e == Ok || (e == FlashError && failures > old(failures))
      ensures failures >= old(failures)
      ensures e == Ok ==> working == old(working).(numbers := old(working).numbers[k := v])
    {
      e := Attempt();
      if e == Ok {
        working := working.(numbers := working.numbers[k := v]);
      }
    }

    /** erase_key_if_present on a text key; a missing key is no error. */
    method EraseText(k: TextKey) returns (e: Error, changed: bool)
      modifies this`working, this`failures
      ensures e == Ok || (e == FlashError && failures > old(failures))
      ensures failures >= old(failures)
      ensures e == Ok ==> working == old(working).(texts := old(working).texts - {k})
      ensures e == Ok ==> changed == (k in old(working).texts)
    {
      changed := false;
      e := Attempt();
      if e == Ok {
        changed := k in working.texts;
        working := working.(texts := working.texts - {k});
      }
    }

    method EraseNumber(k: NumberKey) returns (e: Error, changed: bool)
      modifies this`working, this`failures
      ensures e == Ok || (e == FlashError && failures > old(failures))
      ensures failures >= old(failures)
      ensures e == Ok ==> working == old(working).(numbers := old(working).numbers - {k})
      ensures e == Ok ==> changed == (k in old(working).numbers)
    {
      changed := false;
      e := Attempt();
      if e == Ok {
        changed := k in working.numbers;
        working := working.(numbers := working.numbers - {k});
      }
    }

    method ReadText(k: TextKey, size: nat) returns (r: WifiConfig.Result<seq<Byte>>)
      modifies this`failures
      ensures failures >= old(failures)
      ensures r == GetText(working, k, size) || (r == Failure(FlashError) && failures > old(failures))
    {
      var e := Attempt();
      r := if e == Ok then GetText(working, k, size) else Failure(FlashError);
    }

    method ReadNumber(k: NumberKey) returns (r: WifiConfig.Result<nat>)
      modifies this`failures
      ensures failures >= old(failures)
      ensures r == GetNumber(working, k) || (r == Failure(FlashError) && failures > old(failures))
    {
      var e := Attempt();
      r := if e == Ok then GetNumber(working, k) else Failure(FlashError);
    }

    method Commit() returns (e: Error)
      modifies this`committed, this`failures
      ensures e == Ok || (e == FlashError && failures > old(failures))
      ensures failures >= old(failures)
      ensures committed == if e == Ok then working else old(committed)
    {
      e := Attempt();
      if e == Ok {
        committed := working;
      }
    }

    // ----- app_storage.c -----

    /** erase_candidate_from_handle. */
    method EraseCandidate() returns (e: Error, changed: bool)
      modifies this`working, this`failures
      ensures e == Ok || (e == FlashError && failures > old(failures))
      ensures failures >= old(failures)
      ensures e == Ok ==> working == WithoutCandidate(old(working))
      ensures e == Ok ==> (changed <==> !CandidateAbsent(old(working)))
    {
      changed := false;
      ghost var w := working;
      var c;
      e, c := EraseText(CandSsid);
      if e != Ok {
        return;
      }
      changed := changed || c;
      e, c := EraseText(CandPassword);
      if e != Ok {
        return;
      }
      changed := changed || c;
      e, c := EraseText(CandRequest);
      if e != Ok {
        return;
      }
      changed := changed || c;
      e, c := EraseNumber(CandVersion);
      if e != Ok {
        return;
      }
      changed := changed || c;
      assert working.texts == w.texts - CANDIDATE_TEXTS;
    }

    /** load_candidate_from_handle. */
    method ReadCandidate() returns (r: WifiConfig.Result<Config>)
      modifies this`failures
      ensures failures >= old(failures)
      ensures r == LoadCandidate(working) || (r == Failure(FlashError) && failures > old(failures))
    {
      var ssid := ReadText(CandSsid, SSID_SIZE);
      if ssid == Failure(NvsNotFound) {
        return Failure(NotFound);
      }
      if ssid.Failure? {
        return Failure(ssid.error);
      }
      var password := ReadText(CandPassword, PASSWORD_SIZE);
      if password.Failure? {
        return Failure(Torn(password.error));
      }
      var request := ReadText(CandRequest, REQUEST_ID_SIZE);
      if request.Failure? {
        return Failure(Torn(request.error));
      }
      var version := ReadNumber(CandVersion);
      if version.Failure? {
        return Failure(Torn(version.error));
      }
      var c := Config(Credentials(ssid.value, password.value), request.value, version.value);
      r := if ValidConfig(c) then Success(c) else Failure(InvalidArg);
    }

    /** load_metadata_pair on the active keys: both reads are always made. */
    method ReadActive() returns (r: WifiConfig.Result<Option<(seq<Byte>, nat)>>)
      modifies this`failures
      ensures failures >= old(failures)
      ensures r == LoadActive(working) || (r == Failure(FlashError) && failures > old(failures))
    {
      var request := ReadText(ActiveRequest, REQUEST_ID_SIZE);
      var version := ReadNumber(ActiveVersion);
      if request == Failure(NvsNotFound) && version == Failure(NvsNotFound) {
        return Success(None);
      }
      if request.Failure? || version.Failure? || request.value == [] || version.value == 0 {
        if request.Failure? && request.error != NvsNotFound {
          return Failure(request.error);
        }
        if version.Failure? && version.error != NvsNotFound {
          return Failure(version.error);
        }
        return Failure(InvalidState);
      }
      r := Success(Some((request.value, version.value)));
    }

    /** What every storage operation promises: all of its effect, or a flash fault and none. */
    ghost predicate Performed(was: Store, spec: (Store, Error), e: Error, failuresBefore: nat)
      reads this
    {
      if e == FlashError then committed == was && failures > failuresBefore
      else (committed, e) == spec
    }

    /** app_storage_save_wifi_credentials. */
    method SaveWifiCredentials(c: Credentials) returns (e: Error)
      modifies this
      ensures Performed(old(committed), Save(old(committed), c), e, old(failures))
    {
      ghost var was := committed;
      if !ValidCredentials(c) {
        return InvalidArg;
      }
      var changed;
      e := Open();
      if e != Ok {
        return;
      }
      e := SetText(StaSsid, c.ssid);
      if e == Ok {
        e := SetText(StaPassword, c.password);
      }
      if e == Ok {
        e, changed := EraseCandidate();
      }
      if e == Ok {
        e, changed := EraseText(ActiveRequest);
      }
      if e == Ok {
        e, changed := EraseNumber(ActiveVersion);
      }
      if e == Ok {
        e, changed := EraseNumber(RecoveryTriggered);
      }
      if e == Ok {
        e, changed := EraseNumber(RecoveryRetry);
      }
      if e == Ok {
        assert working == Save(was, c).0 by {
          assert working.numbers == Save(was, c).0.numbers;
        }
        e := Commit();
      }
    }

    /** app_storage_stage_candidate_wifi_config. */
    method StageCandidate(c: Config) returns (e: Error, result: StageResult)
      modifies this
      ensures var (s, e', r) := Stage(old(committed), c);
              Performed(old(committed), (s, e'), e, old(failures)) && (e != FlashError ==> result == r)
    {
      result := Stored;
      if !ValidConfig(c) {
        e := InvalidArg;
        return;
      }
      e := Open();
      if e != Ok {
        return;
      }
      var pending := ReadCandidate();
      e := if pending.Failure? && pending.error != NotFound then pending.error else Ok;
      var active: WifiConfig.Result<Option<(seq<Byte>, nat)>> := Success(None);
      if e == Ok {
        active := ReadActive();
        e := if active.Failure? then active.error else Ok;
      }
      if e != Ok {
        return;
      }
      if pending.Success? && pending.value.version == c.version && pending.value.requestId == c.requestId {
        result := Idempotent;
        return;
      }
      if active.value.Some? && active.value.value.1 == c.version && active.value.value.0 == c.requestId {
        result := Idempotent;
        return;
      }
      var highest := 0;
      if pending.Success? && pending.value.version > highest {
        highest := pending.value.version;
      }
      if active.value.Some? && active.value.value.1 > highest {
        highest := active.value.value.1;
      }
      if c.version < highest {
        result := StaleVersion;
        return;
      }
      if c.version == highest && highest != 0 {
        result := VersionConflict;
        return;
      }
      e := StoreCandidate(c);
    }

    /** The writes of a staging and their single commit. */
    method StoreCandidate(c: Config) returns (e: Error)
      requires working == committed
      modifies this
      ensures Performed(old(committed), (WithCandidate(old(committed), c), Ok), e, old(failures))
    {
      e := SetText(CandSsid, c.credentials.ssid);
      if e == Ok {
        e := SetText(CandPassword, c.credentials.password);
      }
      if e == Ok {
        e := SetText(CandRequest, c.requestId);
      }
      if e == Ok {
        e := SetNumber(CandVersion, c.version);
      }
      if e == Ok {
        e := Commit();
      }
    }

    /** app_storage_promote_candidate_wifi_config. */
    method PromoteCandidate(requestId: seq<Byte>, version: nat) returns (e: Error)
      modifies this
      ensures Performed(old(committed), Promote(old(committed), requestId, version), e, old(failures))
    {
      if requestId == [] || version == 0 {
        return InvalidArg;
      }
      e := Open();
      if e != Ok {
        return;
      }
      var pending := ReadCandidate();
      if pending.Failure? {
        return pending.error;
      }
      var c := pending.value;
      if c.version != version || c.requestId != requestId {
        return InvalidState;
      }
      e := StorePromotion(c);
    }

    /** The writes of a promotion and their single commit. */
    method StorePromotion(c: Config) returns (e: Error)
      requires working == committed
      modifies this
      ensures Performed(old(committed), (WithPromotion(old(committed), c), Ok), e, old(failures))
    {
      ghost var was := committed;
      var changed;
      e := SetText(StaSsid, c.credentials.ssid);
      if e == Ok {
        e := SetText(StaPassword, c.credentials.password);
      }
      if e == Ok {
        e := SetText(ActiveRequest, c.requestId);
      }
      if e == Ok {
        e := SetNumber(ActiveVersion, c.version);
      }
      if e == Ok {
        e, changed := EraseCandidate();
      }
      if e == Ok {
        e, changed := EraseNumber(RecoveryTriggered);
      }
      if e == Ok {
        e, changed := EraseNumber(RecoveryRetry);
      }
      if e == Ok {
        assert working == WithPromotion(was, c) by {
          assert working.numbers == WithPromotion(was, c).numbers;
        }
        e := Commit();
      }
    }

    /** app_storage_clear_wifi_credentials: no commit when nothing was there. */
    method ClearWifiCredentials() returns (e: Error)
      modifies this
      ensures Performed(old(committed), Clear(old(committed)), e, old(failures))
    {
      ghost var was := committed;
      e := Open();
      if e != Ok {
        return;
      }
      var changed, c1, c2, c3, c4 := false, false, false, false, false;
      e, c1 := EraseText(StaSsid);
      if e == Ok {
        e, c2 := EraseText(StaPassword);
      }
      if e == Ok {
        e, c3 := EraseText(ActiveRequest);
      }
      if e == Ok {
        e, c4 := EraseNumber(ActiveVersion);
      }
      changed := c1 || c2 || c3 || c4;
      if e == Ok {
        assert working.texts == Clear(was).0.texts;
        if changed {
          e := Commit();
        } else {
          assert was.texts - {StaSsid, StaPassword} - {ActiveRequest} == was.texts;
          assert was.numbers - {ActiveVersion} == was.numbers;
        }
      }
    }

    /** app_storage_increment_recovery_retry. */
    method IncrementRecoveryRetry() returns (e: Error)
      modifies this
      ensures Performed(old(committed), IncrementRetry(old(committed)), e, old(failures))
    {
      e := Open();
      if e != Ok {
        return;
      }
      var read := ReadNumber(RecoveryRetry);
      if read.Failure? && read.error != NvsNotFound {
        return read.error;
      }
      var count := if read.Success? then read.value else 0;
      if count < RETRY_MAX {
        count := count + 1;
      }
      e := SetNumber(RecoveryRetry, count);
      if e == Ok {
        e := Commit();
      }
    }

    /** app_storage_set_recovery_triggered. */
    method SetRecoveryTriggered() returns (e: Error)
      modifies this
      ensures Performed(old(committed), SetTriggered(old(committed)), e, old(failures))
    {
      e := Open();
      if e != Ok {
        return;
      }
      e := SetNumber(RecoveryTriggered, 1);
      if e == Ok {
        e := Commit();
      }
    }

    /** app_storage_clear_recovery_triggered. */
    method ClearRecoveryTriggered() returns (e: Error)
      modifies this
      ensures Performed(old(committed), ClearTriggered(old(committed)), e, old(failures))
    {
      var changed;
      e := Open();
      if e != Ok {
        return;
      }
      e, changed := EraseNumber(RecoveryTriggered);
      if e == Ok {
        e := Commit();
      }
    }

    /** app_storage_load_wifi_credentials. */
    method LoadWifiCredentials() returns (r: WifiConfig.Result<Credentials>)
      modifies this`working, this`failures
      ensures r == LoadCredentials(committed) || (r == Failure(FlashError) && failures > old(failures))
    {
      var e := Open();
      if e != Ok {
        return Failure(e);
      }
      var ssid := ReadText(StaSsid, SSID_SIZE);
      if ssid.Failure? {
        return Failure(if ssid.error == NvsNotFound then NotFound else ssid.error);
      }
      var password := ReadText(StaPassword, PASSWORD_SIZE);
      if password.Failure? {
        return Failure(if password.error == NvsNotFound then NotFound else password.error);
      }
      var c := Credentials(ssid.value, password.value);
      r := if ValidCredentials(c) then Success(c) else Failure(InvalidArg);
    }

    /** app_storage_load_candidate_wifi_config. */
    method LoadCandidateConfig() returns (r: WifiConfig.Result<Config>)
      modifies this`working, this`failures
      ensures r == LoadCandidate(committed) || (r == Failure(FlashError) && failures > old(failures))
    {
      var e := Open();
      if e != Ok {
        return Failure(e);
      }
      r := ReadCandidate();
    }
  }
}
