/** Factory reset across power cuts: the live reset, the durable marker and the
    recovery at boot.

    An operation may fail, with part of its effect or none, and the power may go at
    any of them; nothing has an effect afterwards until the next start. A state in
    which the power went is therefore any state between two operations. A cut brings
    back one of the states of the repository directory since it was last synchronised. */
module FactoryReset {
  import opened Errors

  const PENDING := 1
  /** The largest blob id: the store never creates it, and while a file has it neither
      mounting nor deleting all blobs succeeds. */
  const LAST_ID := UINT64_MAX

  /** The settings record, by what a load makes of it. */
  datatype Settings = Unprovisioned | Provisioned(text: string) | Undecodable

  /** The repository directory: blobs and temporary files. */
  datatype Repository = Repository(blobs: set<nat>, temps: set<nat>)

  const EMPTY := Repository({}, {})

  datatype Marker = NoReset | ResetPending | MarkerError(code: Error)

  datatype Outcome = Outcome(durablyAccepted: bool, recoveryRequired: bool, primary: Error)

  datatype Command = Reset | PowerCut | Start | Change(settings: Settings, repository: Repository, synchronise: bool)

  class Device {
    // Durable.
    var marker: Option<nat>
    var settings: Settings
    var repository: Repository
    /** Earlier states of the directory that a power cut may still bring back. */
    var pending: seq<Repository>
    /** Every change of the directory is durable at once, as on the device. */
    const journaled: bool

    // Lost with the power.
    var power: bool
    var started: bool
    var running: bool
    var sessions: set<nat>
    var restartOwned: bool

    /** No operation fails on its own account and the power stays. */
    var reliable: bool

    /** What ordinary operation last left behind: the record, and the directory states
        that a cut might have brought back. */
    ghost var keptSettings: Settings
    ghost var kept: set<Repository>
    /** A reset was durably accepted and its marker has not been cleared since. */
    ghost var owed: bool
    /** How many resets cleared their marker although they had begun on an empty
        directory while an earlier state that was not empty could still come back. */
    ghost var badResets: nat

    constructor (s: Settings, r: Repository, atOnce: bool)
      ensures Valid() && marker == None && settings == s && repository == r && journaled == atOnce
      ensures !running && !started && power && badResets == 0 && !owed
    {
      marker, settings, repository, pending, journaled := None, s, r, [], atOnce;
      power, started, running, sessions, restartOwned, reliable := true, false, false, {}, false, false;
      keptSettings, kept, owed, badResets := s, {r}, false, 0;
    }

    /** The directory as it is, and as a power cut may bring it back. */
    ghost function Candidates(): (c: seq<Repository>)
      reads this`pending, this`repository
      ensures repository in c && forall p <- pending :: p in c
    {
      pending + [repository]
    }

    static ghost predicate AllEmpty(states: seq<Repository>) {
      forall r <- states :: r == EMPTY
    }

    /** Everything is erased, and no power cut brings anything back. */
    ghost predicate Erased()
      reads this`settings, this`pending, this`repository
    {
      settings == Unprovisioned && repository == EMPTY && AllEmpty(pending)
    }

    /** Nothing that a reset destroys has been touched. */
    ghost predicate Untouched()
      reads this
    {
      settings == keptSettings && forall r <- Candidates() :: r in kept
    }

    /** Whatever a power cut brings back, a recovery can repair it. */
    ghost predicate Repairable()
      reads this`settings, this`pending, this`repository
    {
      settings != Undecodable && NoLastId()
    }

    ghost predicate NoLastId()
      reads this`pending, this`repository
    {
      LAST_ID !in repository.blobs && forall r <- pending :: LAST_ID !in r.blobs
    }

    /** Crash atomicity: without the marker there is no half-done reset, and an
        accepted reset keeps its marker until everything is erased. */
    ghost predicate Valid()
      reads this
    {
      && (marker == None && badResets == 0 ==> Untouched() || Erased())
      && (owed ==> marker == Some(PENDING))
      && (journaled ==> pending == [] && badResets == 0)
      && (!started ==> pending == [] && !running)
    }

    // ---- Operations ----

    method Attempt() returns (ok: bool)
      modifies this`power
      ensures power ==> old(power)
      ensures ok ==> power
      ensures reliable && old(power) ==> ok
    {
      var cut: bool, fails: bool := *, *;
      power := power && (reliable || !cut);
      ok := power && (reliable || !fails);
    }

    method Failure() returns (error: Error)
      ensures error != NoError && error != NotFound
    {
      var full: bool := *;
      error := if full then StorageFull else StorageUnavailable;
    }

    method ReadValue() returns (error: Error, value: nat)
      modifies this`power
      ensures error == NoError ==> marker == Some(value)
      ensures error == NotFound ==> marker == None
      ensures reliable && old(power) ==> power && (error == NoError || error == NotFound)
    {
      var ok := Attempt();
      value := 0;
      if !ok { error := Failure(); return; }
      if marker == None { return NotFound, value; }
      error, value := NoError, marker.value;
    }

    /** A failed write or erase may still have taken effect. */
    method WriteValue(value: nat) returns (error: Error)
      modifies this`power, this`marker
      ensures marker == Some(value) || marker == old(marker)
      ensures error == NoError ==> marker == Some(value)
      ensures reliable && old(power) ==> power && error == NoError
    {
      var ok := Attempt();
      var effect: bool := *;
      error := StoreValue(value, ok, power && effect);
    }

    method StoreValue(value: nat, ok: bool, effect: bool) returns (error: Error)
      modifies this`marker
      ensures marker == if ok || effect then Some(value) else old(marker)
      ensures error == NoError <==> ok
    {
      error := NoError;
      if ok || effect { marker := Some(value); }
      if !ok { error := Failure(); }
    }

    method EraseValue() returns (error: Error)
      modifies this`power, this`marker
      ensures marker == None || marker == old(marker)
      ensures error == NoError || error == NotFound ==> marker == None
      ensures reliable && old(power) ==> power && (error == NoError || error == NotFound)
    {
      var ok := Attempt();
      var effect: bool := *;
      error := if marker == None then NotFound else NoError;
      if ok || (power && effect) { marker := None; }
      if !ok { error := Failure(); }
    }

    method EraseSettings() returns (error: Error)
      modifies this`power, this`settings
      ensures settings == Unprovisioned || settings == old(settings)
      ensures error == NoError ==> settings == Unprovisioned && old(settings) != Undecodable
      ensures reliable && old(power) ==> power && (old(settings) != Undecodable ==> error == NoError)
    {
      var ok := Attempt();
      var effect: bool := *;
      error := NoError;
      if settings == Undecodable { return StorageCorrupt; }
      if ok || (power && effect) { settings := Unprovisioned; }
      if !ok { error := Failure(); }
    }

    /** One change of the directory. */
    method ChangeDirectory(next: Repository)
      modifies this`repository, this`pending
      ensures repository == next && pending == if journaled then old(pending) else old(pending) + [old(repository)]
    {
      if !journaled { pending := pending + [repository]; }
      repository := next;
    }

    method SyncDirectory() returns (error: Error)
      modifies this`power, this`pending
      ensures pending == if error == NoError then [] else old(pending)
      ensures reliable && old(power) ==> power && error == NoError
    {
      error := Harmless();
      if error == NoError { pending := []; }
    }

    /** After a sweep: if it removed something, nothing of earlier can come back; if
        not, nothing has changed, and nothing was synchronised. */
    twostate predicate Swept()
      reads this
    {
      if repository == old(repository) then pending == old(pending) else pending == []
    }

    /** `storage_blob_delete_all`: fails if it cannot scan, goes on past a blob that resists, and synchronises
        the directory only if it has deleted one. */
    method DeleteBlobs() returns (error: Error)
      modifies this`power, this`repository, this`pending
      ensures repository.blobs <= old(repository).blobs && repository.temps == old(repository).temps
      ensures old(NoLastId()) ==> NoLastId()
      ensures journaled && old(pending) == [] ==> pending == []
      ensures error == NoError ==> repository.blobs == {} && Swept()
      ensures LAST_ID in old(repository).blobs ==> error != NoError && repository == old(repository) && pending == old(pending)
      ensures reliable && old(power) ==> power && (LAST_ID !in old(repository).blobs ==> error == NoError)
    {
      error := Harmless();
      if error != NoError { return; }
      if LAST_ID in repository.blobs { return StorageFull; }
      var todo, deleted := repository.blobs, 0;
      while todo != {}
        invariant todo <= repository.blobs <= old(repository).blobs && repository.temps == old(repository).temps
        invariant journaled && old(pending) == [] ==> pending == []
        invariant old(NoLastId()) ==> NoLastId()
        invariant error == NoError ==> repository.blobs == todo
        invariant deleted == 0 <==> repository == old(repository)
        invariant deleted == 0 ==> pending == old(pending)
        invariant reliable && old(power) ==> power && error == NoError
        decreases todo
      {
        var id :| id in todo;
        var ok := Attempt();
        if ok {
          ChangeDirectory(repository.(blobs := repository.blobs - {id}));
          deleted := deleted + 1;
        } else {
          var failure := Failure();
          error := FirstError(error, failure);
        }
        todo := todo - {id};
      }
      if deleted > 0 {
        var synced := SyncDirectory();
        error := FirstError(error, synced);
      }
    }

    /** `storage_blob_recover_startup`: fails if it cannot read the directory, stops at
        the first failure, and synchronises the
        directory only if it has removed a file. */
    method CleanupTemporaryFiles() returns (error: Error)
      modifies this`power, this`repository, this`pending
      ensures repository.temps <= old(repository).temps && repository.blobs == old(repository).blobs
      ensures old(NoLastId()) ==> NoLastId()
      ensures journaled && old(pending) == [] ==> pending == []
      ensures error == NoError ==> repository.temps == {} && Swept()
      ensures reliable && old(power) ==> power && error == NoError
    {
      error := Harmless();
      var removed := 0;
      while repository.temps != {} && error == NoError
        invariant repository.temps <= old(repository).temps && repository.blobs == old(repository).blobs
        invariant journaled && old(pending) == [] ==> pending == []
        invariant old(NoLastId()) ==> NoLastId()
        invariant removed == 0 <==> repository == old(repository)
        invariant removed == 0 ==> pending == old(pending)
        invariant reliable && old(power) ==> power && error == NoError
        decreases repository.temps, error == NoError
      {
        var file :| file in repository.temps;
        var ok := Attempt();
        if ok {
          ChangeDirectory(repository.(temps := repository.temps - {file}));
          removed := removed + 1;
        } else {
          error := Failure();
        }
      }
      if error == NoError && removed > 0 { error := SyncDirectory(); }
    }

    /** An operation that touches nothing durable. */
    method Harmless() returns (error: Error)
      modifies this`power
      ensures reliable && old(power) ==> power && error == NoError
    {
      var ok := Attempt();
      error := NoError;
      if !ok { error := Failure(); }
    }

    /** `device_settings_init` loads the record. */
    method SettingsInit() returns (error: Error)
      modifies this`power
      ensures error == NoError ==> settings != Undecodable
      ensures reliable && old(power) ==> power && (error == NoError <==> settings != Undecodable)
    {
      error := Harmless();
      if error == NoError && settings == Undecodable { error := StorageCorrupt; }
    }

    /** Mounting clears upload debris and scans. */
    method StorageMount() returns (error: Error)
      modifies this`power, this`repository, this`pending
      ensures repository.temps <= old(repository).temps && repository.blobs == old(repository).blobs
      ensures old(NoLastId()) ==> NoLastId()
      ensures journaled && old(pending) == [] ==> pending == []
      ensures error == NoError ==> LAST_ID !in repository.blobs && (old(pending) == [] ==> pending == [])
      ensures reliable && old(power) ==> power && (error == NoError <==> LAST_ID !in repository.blobs)
    {
      error := CleanupTemporaryFiles();
      if error == NoError { error := Harmless(); }
      if error == NoError && LAST_ID in repository.blobs { error := StorageFull; }
    }

    // ---- The marker: `factory_reset_state_core` ----

    method ReadState() returns (m: Marker)
      modifies this`power
      ensures m == NoReset ==> marker == None
      ensures m == ResetPending ==> marker == Some(PENDING)
      ensures m.MarkerError? ==> m.code != NoError
      ensures reliable && old(power) && marker == Some(PENDING) ==> power && m == ResetPending
      ensures reliable && old(power) && marker == None ==> power && m == NoReset
      ensures reliable && old(power) ==> power
    {
      var error, value := ReadValue();
      if error == NotFound { return NoReset; }
      if error != NoError { return MarkerError(error); }
      m := if value == PENDING then ResetPending else MarkerError(StorageCorrupt);
    }

    method Clear() returns (error: Error)
      modifies this`power, this`marker
      ensures marker == None || marker == old(marker)
      ensures error == NoError ==> marker == None
      ensures reliable && old(power) ==> power && error == NoError
    {
      error := EraseValue();
      if error == NotFound { error := NoError; }
    }

    // ---- The live reset ----

    /** The states that may still come back after everything was erased: the directory
        is synchronised only by a sweep that removes something. */
    ghost function Remaining(r: Repository, earlier: seq<Repository>): seq<Repository> {
      if r == EMPTY then earlier else []
    }

    static ghost predicate LeavesNothing(r: Repository, earlier: seq<Repository>) {
      r != EMPTY || AllEmpty(earlier)
    }

    /** `device_controls_reset_engine_factory_reset`. A reset that completes is durable
        if and only if the directory held something when it began, or no earlier state
        that did could still come back. */
    method FactoryReset() returns (outcome: Outcome)
      requires Valid() && running
      modifies this`power, this`marker, this`settings, this`repository, this`pending, this`sessions,
        this`restartOwned, this`owed, this`badResets
      ensures Valid()
      ensures !outcome.durablyAccepted ==>
        outcome.primary != NoError && settings == old(settings) && repository == old(repository) && pending == old(pending)
      ensures outcome.durablyAccepted ==> owed || marker == None
      ensures outcome.durablyAccepted ==> (outcome.recoveryRequired <==> outcome.primary != NoError)
      ensures outcome.durablyAccepted && !outcome.recoveryRequired ==>
        && marker == None && settings == Unprovisioned && repository == EMPTY && sessions == {} && restartOwned
        && pending == Remaining(old(repository), old(pending))
        && (Erased() <==> LeavesNothing(old(repository), old(pending)))
      ensures badResets == old(badResets) +
        if outcome.durablyAccepted && marker == None && !LeavesNothing(old(repository), old(pending)) then 1 else 0
      ensures marker == None || marker == Some(PENDING) || marker == old(marker)
      ensures old(Repairable()) ==> Repairable()
      ensures reliable && old(power) ==> outcome.durablyAccepted && (outcome.recoveryRequired <==> !old(Recoverable()))
    {
      var marked := WriteValue(PENDING);
      outcome := AfterMark(marked);
    }

    /** The rest of the reset, after the marker's write. */
    method AfterMark(marked: Error) returns (outcome: Outcome)
      requires running && started && (journaled ==> pending == [] && badResets == 0)
      requires marked == NoError ==> marker == Some(PENDING)
      requires marked != NoError && marker == None ==> Valid()
      requires owed ==> marker == Some(PENDING)
      modifies this`power, this`marker, this`settings, this`repository, this`pending, this`sessions
      modifies this`restartOwned, this`owed, this`badResets
      ensures Valid()
      ensures marked == NoError ==>
        badResets == old(badResets) + if marker == None && !LeavesNothing(old(repository), old(pending)) then 1 else 0
      ensures marker == None || marker == old(marker)
      ensures old(Repairable()) ==> Repairable()
      ensures marked != NoError ==> outcome == Outcome(false, false, marked) && unchanged(this)
      ensures marked == NoError ==>
        && outcome.durablyAccepted && (owed || marker == None)
        && (outcome.recoveryRequired <==> outcome.primary != NoError)
        && (!outcome.recoveryRequired ==>
              && marker == None && settings == Unprovisioned && repository == EMPTY && sessions == {} && restartOwned
              && pending == Remaining(old(repository), old(pending)))
      ensures marked == NoError && reliable && old(power) ==> (outcome.recoveryRequired <==> !old(Recoverable()))
    {
      if marked != NoError { return Outcome(false, false, marked); }
      owed := true;
      var first := EraseEverything();
      first := Finish(first);
      outcome := Outcome(true, first != NoError, first);
    }

    /** The restart is scheduled in any case; the marker goes only after no error. */
    method Finish(erased: Error) returns (first: Error)
      requires owed && started && running && marker == Some(PENDING) && (journaled ==> pending == [] && badResets == 0)
      requires erased == NoError ==> settings == Unprovisioned && repository == EMPTY
      modifies this`power, this`marker, this`restartOwned, this`owed, this`badResets
      ensures Valid() && (owed || marker == None) && (marker == None || marker == old(marker))
      ensures badResets == old(badResets) + if marker == None && !AllEmpty(pending) then 1 else 0
      ensures marker == None ==> erased == NoError
      ensures first == NoError ==> erased == NoError && marker == None && restartOwned
      ensures reliable && old(power) ==> (first == NoError <==> erased == NoError)
    {
      var scheduled := Harmless();
      restartOwned := restartOwned || scheduled == NoError;
      first := FirstError(erased, scheduled);
      if first == NoError {
        first := Clear();
        owed := owed && marker != None;
        badResets := badResets + if marker == None && !AllEmpty(pending) then 1 else 0;
      }
    }

    /** The erasing steps. */
    method EraseEverything() returns (first: Error)
      modifies this`power, this`settings, this`repository, this`pending, this`sessions
      ensures journaled && old(pending) == [] ==> pending == []
      ensures old(Repairable()) ==> Repairable()
      ensures first == NoError ==>
        && settings == Unprovisioned && repository == EMPTY && sessions == {}
        && pending == Remaining(old(repository), old(pending))
      ensures reliable && old(power) ==> power && (first == NoError <==> old(Recoverable()))
    {
      first := EraseSettings();
      if first == NoError {
        var error := InvalidateSessions();
        first := FirstError(first, error);
        error := DeleteBlobs();
        first := FirstError(first, error);
        error := CleanupTemporaryFiles();
        first := FirstError(first, error);
      }
    }

    method InvalidateSessions() returns (error: Error)
      modifies this`power, this`sessions
      ensures error == NoError ==> sessions == {}
      ensures reliable && old(power) ==> power && error == NoError
    {
      error := Harmless();
      if error == NoError { sessions := {}; }
    }

    // ---- Recovery at boot ----

    /** What a recovery cannot repair. */
    predicate Recoverable()
      reads this`settings, this`repository
    {
      settings != Undecodable && LAST_ID !in repository.blobs
    }

    /** `factory_reset_recovery_engine_run`, once after the power came on. */
    method Recover() returns (result: Error, recovered: bool)
      requires Valid() && !running && pending == []
      modifies this`power, this`marker, this`settings, this`repository, this`pending, this`owed
      ensures (marker == None && badResets == 0 ==> Untouched() || Erased()) && (owed ==> marker == Some(PENDING))
      ensures journaled ==> pending == []
      ensures marker == None || marker == old(marker)
      ensures old(Repairable()) ==> Repairable()
      ensures reliable && old(power) && old(marker) == None ==> power && result == NoError
      ensures result == NoError ==> marker == None && (recovered <==> old(marker) != None)
      ensures result == NoError && recovered ==> Erased()
      ensures old(marker) == None ==>
        settings == old(settings) && repository == old(repository) && pending == [] && marker == None && owed == old(owed)
      ensures reliable && old(power) && old(marker) == Some(PENDING) ==> power && (result == NoError <==> old(Recoverable()))
    {
      recovered := false;
      var state := ReadState();
      if state.MarkerError? { return state.code, recovered; }
      if state == NoReset { return NoError, recovered; }

      result := SettingsInit();
      if result != NoError { return; }
      var first := EraseSettings();
      var error := Harmless();
      first := FirstError(first, error);
      if first != NoError { return first, recovered; }

      result := StorageMount();
      if result != NoError { return; }
      first := DeleteBlobs();
      error := CleanupTemporaryFiles();
      first := FirstError(first, error);
      error := Harmless();
      first := FirstError(first, error);
      if first != NoError { return first, recovered; }

      assert Erased();
      result := Clear();
      owed := owed && marker != None;
      if result != NoError { return; }
      recovered := true;
    }

    /** Ordinary startup, once after the power came on: it goes on only after a recovery
        without error. */
    method StartUp() returns (result: Error, recovered: bool)
      requires Valid() && !started
      modifies this`power, this`marker, this`settings, this`repository, this`pending, this`owed, this`running, this`started
      ensures Valid() && (running <==> result == NoError)
      ensures running ==> marker == None && (badResets == 0 ==> Untouched() || Erased())
      ensures marker == None || marker == old(marker)
      ensures old(Repairable()) ==> Repairable()
      ensures old(marker) == None ==> settings == old(settings) && repository == old(repository)
      ensures reliable && old(power) && old(marker) == None ==> (running <==> settings != Undecodable)
      ensures reliable && old(power) && old(marker) == Some(PENDING) ==>
        (running <==> old(Recoverable())) && (running ==> Erased() && recovered)
    {
      result, recovered := Recover();
      started := true;
      if result != NoError { return; }
      result := SettingsInit();
      running := result == NoError;
    }

    // ---- Every run ----

    /** The power goes and comes back, with some state of the directory. */
    method CutPower(nextReliable: bool)
      requires Valid()
      modifies this
      ensures Valid() && !running && !started && power && reliable == nextReliable && pending == []
      ensures marker == old(marker) && settings == old(settings) && owed == old(owed) && badResets == old(badResets)
      ensures repository in old(Candidates())
      ensures old(Repairable()) ==> Repairable()
    {
      var which: nat := *;
      CutPowerTo(if 0 <= which < |pending| then which else |pending|, nextReliable);
    }

    /** The same with the earlier state of this index, or the latest one. */
    method CutPowerTo(which: nat, nextReliable: bool)
      requires Valid() && which <= |pending|
      modifies this
      ensures Valid() && !running && !started && power && reliable == nextReliable && pending == []
      ensures marker == old(marker) && settings == old(settings) && owed == old(owed) && badResets == old(badResets)
      ensures repository == old(Candidates())[which]
      ensures old(Repairable()) ==> Repairable()
    {
      var back := if which < |pending| then pending[which] else repository;
      assert back == Candidates()[which];
      repository, pending := back, [];
      power, started, running, sessions, restartOwned, reliable := true, false, false, {}, false, nextReliable;
    }

    /** An ordinary change; it may leave its directory change unsynchronised. */
    method ChangeOrdinarily(s: Settings, r: Repository, synchronise: bool)
      requires Valid() && running
      modifies this
      ensures Valid() && badResets == old(badResets) && marker == old(marker)
      ensures old(Repairable()) && s != Undecodable && LAST_ID !in r.blobs ==> Repairable()
    {
      settings := s;
      ChangeDirectory(r);
      if synchronise { pending := []; }
      keptSettings := s;
      kept := set c | c in Candidates();
    }

    method Obey(command: Command)
      requires Valid()
      modifies this
      ensures Valid()
      ensures badResets == old(badResets) ||
        (badResets == old(badResets) + 1 && marker == None && BadReset(command, old(running), old(repository), old(pending)))
      ensures marker == None || marker == Some(PENDING) || marker == old(marker)
      ensures old(Repairable()) && IsRepairable(command) ==> Repairable()
    {
      match command
      case Reset => if running { var outcome := FactoryReset(); }
      case PowerCut => CutPower(false);
      case Start => if !started && power { var result, recovered := StartUp(); }
      case Change(s, r, synchronise) => if running && power { ChangeOrdinarily(s, r, synchronise); }
    }

    static ghost predicate BadReset(command: Command, running: bool, r: Repository, earlier: seq<Repository>) {
      command.Reset? && running && !LeavesNothing(r, earlier)
    }

    /** Ordinary operation writes records that decode, and never a blob with the last id. */
    static predicate IsRepairable(command: Command) {
      command.Change? ==> command.settings != Undecodable && LAST_ID !in command.repository.blobs
    }

    /** Any history of resets, starts, changes and power cuts. Unless a reset has gone
        through on an empty directory while a state that was not empty could still come
        back, there is never a half-done reset without the marker; on a file system where directory
        changes are durable at once no reset is like that. */
    method Run(commands: seq<Command>)
      requires Valid()
      modifies this
      ensures Valid() && old(badResets) <= badResets && (journaled ==> badResets == 0)
      ensures marker == None && badResets == 0 ==> Untouched() || Erased()
      ensures owed ==> marker == Some(PENDING)
      ensures marker == None || marker == Some(PENDING) || marker == old(marker)
      ensures old(Repairable()) && (forall c <- commands :: IsRepairable(c)) ==> Repairable()
    {
      var index := 0;
      while index < |commands|
        invariant index <= |commands| && Valid() && old(badResets) <= badResets
        invariant marker == None || marker == Some(PENDING) || marker == old(marker)
        invariant old(Repairable()) && (forall c <- commands :: IsRepairable(c)) ==> Repairable()
      {
        Obey(commands[index]);
        index := index + 1;
      }
    }

    /** The power goes, and the next boot is reliable. With the marker pending it ends
        erased, with the marker cleared and ordinary startup reached, if whatever the
        power cut may bring back can be repaired, and fails if none of it can; with no
        marker nothing is touched. */
    method ReliableBoot() returns (result: Error, recovered: bool)
      requires Valid()
      modifies this
      ensures Valid() && badResets == old(badResets) && (marker == None || marker == old(marker))
      ensures running <==> result == NoError
      ensures old(marker) == Some(PENDING) && old(Repairable()) ==>
        result == NoError && recovered && marker == None && Erased() && !owed
      ensures old(marker) == Some(PENDING) && (old(settings) == Undecodable || forall r <- old(Candidates()) :: LAST_ID in r.blobs) ==>
        result != NoError
      ensures old(marker) == None ==>
        && marker == None && settings == old(settings) && repository in old(Candidates())
        && (result == NoError <==> settings != Undecodable)
      ensures result == NoError ==> marker == None && (badResets == 0 ==> Untouched() || Erased())
    {
      CutPower(true);
      result, recovered := StartUp();
    }

    /** After any history in which ordinary operation leaves nothing that cannot be
        repaired, one reliable boot ends with no marker, nothing owed and ordinary
        startup reached, untouched or erased. */
    method RunThenReliableBoot(commands: seq<Command>) returns (result: Error)
      requires Valid()
      modifies this
      ensures Valid()
      ensures old(Repairable()) && (forall c <- commands :: IsRepairable(c)) && (old(marker) == None || old(marker) == Some(PENDING)) ==>
        result == NoError
      ensures result == NoError ==> marker == None && running && !owed && (badResets == 0 ==> Untouched() || Erased())
    {
      Run(commands);
      var recovered;
      result, recovered := ReliableBoot();
    }

    // ---- What is not promised ----

    /** A reset on an empty directory synchronises nothing: it completes without error,
        and a power cut then brings back an earlier state, with no marker left. */
    method ResetThenReturn(which: nat) returns (outcome: Outcome)
      requires Valid() && running && reliable && power && settings != Undecodable
      requires repository == EMPTY && which < |pending| && pending[which] != EMPTY
      modifies this
      ensures outcome == Outcome(true, false, NoError)
      ensures marker == None && settings == Unprovisioned && repository == old(pending)[which] && repository != EMPTY
    {
      outcome := FactoryReset();
      CutPowerTo(which, false);
    }

    /** A marker write that is reported as failed, and so refused, may still lead to a
        reset at the next boot. */
    method RefusedThenReset() returns (outcome: Outcome, result: Error)
      requires Valid() && running && marker == None && Recoverable()
      modifies this
      ensures !outcome.durablyAccepted && result == NoError && Erased() && marker == None
    {
      var marked := StoreValue(PENDING, false, true);
      outcome := AfterMark(marked);
      CutPowerTo(|pending|, true);
      var recovered;
      result, recovered := StartUp();
    }
  }
}
