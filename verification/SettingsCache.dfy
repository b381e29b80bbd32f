/** The settings core and its storage: a cached value that must agree with the record
    in flash, also when a commit fails in doubt. */
module SettingsCache {
  import opened Errors
  import opened Utf8
  import opened RecordLayout
  import opened SettingsCodec
  import SettingsBuffers

  // ---- The default ----

  const DEFAULT_NAME: seq<Byte> :=
    [0x45, 0x53, 0x50, 0x33, 0x32, 0x20, 0x4D, 0x61, 0x63, 0x72, 0x6F, 0x20, 0x4B, 0x65, 0x79, 0x62, 0x6F, 0x61, 0x72, 0x64]

  /** `app_v2_device_settings_init_unprovisioned`. */
  function Default(): Settings {
    Unprovisioned(DEFAULT_NAME + Zeros(NAME_FIELD - |DEFAULT_NAME|), Zeros(SALT_BYTES), Zeros(VERIFIER_BYTES),
                  Zeros(PACKAGE_FIELD), Zeros(SSID_FIELD), Zeros(PASSPHRASE_FIELD))
  }

  lemma EmptyText(n: nat)
    requires n > 0
    ensures TextLength(Zeros(n)) == 0 && Text(Zeros(n)) == [] && Canonical(Zeros(n)) == Zeros(n)
    ensures ValidText(Zeros(n), 0, 0) && ValidUuidOrEmpty(Zeros(n))
  {
    TextEnds(Zeros(n), 0);
  }

  lemma DefaultNameText()
    ensures var name := DEFAULT_NAME + Zeros(NAME_FIELD - |DEFAULT_NAME|);
      TextLength(name) == 20 && Text(name) == DEFAULT_NAME && Canonical(name) == name && ValidText(name, 1, NAME_MAX)
  {
    var name := DEFAULT_NAME + Zeros(NAME_FIELD - |DEFAULT_NAME|);
    assert forall i :: 0 <= i < 20 ==> name[i] == DEFAULT_NAME[i] != 0;
    TextEnds(name, 20);
    AsciiIsUtf8(DEFAULT_NAME);
  }

  /** Unprovisioned settings with empty texts around a device name. */
  function Unprovisioned(name: seq<Byte>, salt: seq<Byte>, verifier: seq<Byte>, package: seq<Byte>,
                         ssid: seq<Byte>, passphrase: seq<Byte>): Settings {
    Settings(false, CREDENTIAL_VERSION, PASSWORD_ALGORITHM_VERSION, 0, salt, verifier, 0,
             DEFAULT_RETENTION, false, false, package, name, ssid, passphrase, ssid, passphrase)
  }

  lemma UnprovisionedIsValid(name: seq<Byte>, salt: seq<Byte>, verifier: seq<Byte>, package: seq<Byte>,
                             ssid: seq<Byte>, passphrase: seq<Byte>)
    requires AllZero(salt) && AllZero(verifier) && ValidUuidOrEmpty(package) && ValidText(name, 1, NAME_MAX)
    requires ValidText(ssid, 0, 0) && ValidText(passphrase, 0, 0)
    requires Canonical(package) == package && Canonical(name) == name && Canonical(ssid) == ssid
    requires Canonical(passphrase) == passphrase
    ensures var s := Unprovisioned(name, salt, verifier, package, ssid, passphrase);
      Valid(s) && CanonicalSettings(s) == s
  {
    hide AllZero;
    hide ValidText;
    hide ValidUuidOrEmpty;
    hide Canonical;
  }

  lemma DefaultIsValid()
    ensures Shaped(Default()) && Valid(Default()) && CanonicalSettings(Default()) == Default()
  {
    EmptyText(PACKAGE_FIELD);
    EmptyText(SSID_FIELD);
    EmptyText(PASSPHRASE_FIELD);
    DefaultNameText();
    hide Valid;
    hide CanonicalSettings;
    hide Canonical;
    hide ValidText;
    hide ValidUuidOrEmpty;
    hide TextLength;
    UnprovisionedIsValid(DEFAULT_NAME + Zeros(NAME_FIELD - |DEFAULT_NAME|), Zeros(SALT_BYTES), Zeros(VERIFIER_BYTES),
                         Zeros(PACKAGE_FIELD), Zeros(SSID_FIELD), Zeros(PASSPHRASE_FIELD));
  }

  // ---- What a stored record means ----

  /** The settings in force: the decoded record, the default without one, none when the
      record cannot be decoded. */
  function Effective(durable: Option<seq<Byte>>): Option<Settings> {
    match durable
    case None => Some(Default())
    case Some(record) =>
      match DecodeSettings(record)
      case Ok(s) => Some(s)
      case _ => None
  }

  lemma EffectiveRecord(s: Settings)
    requires Shaped(s) && Valid(s)
    ensures Effective(Some(RecordOf(s))) == Some(CanonicalSettings(s))
  {
    DecodeEncode(s);
  }

  lemma WrongLengthIsNotEffective(durable: Option<seq<Byte>>)
    ensures durable.Some? && |durable.value| != RECORD_BYTES ==> Effective(durable) == None
  {}

  lemma EffectiveIsCanonical(durable: Option<seq<Byte>>, s: Settings)
    requires Effective(durable) == Some(s)
    ensures Shaped(s) && Valid(s) && CanonicalSettings(s) == s
  {
    hide DecodeSettings;
    hide Valid;
    hide CanonicalSettings;
    if durable.None? { DefaultIsValid(); } else { EncodeDecode(durable.value); }
  }

  lemma SameRecordSameText(a: Settings, b: Settings)
    requires Shaped(a) && Valid(a) && Shaped(b) && Valid(b) && RecordOf(a) == RecordOf(b)
    ensures CanonicalSettings(a) == CanonicalSettings(b)
  {
    DecodeEncode(a);
    DecodeEncode(b);
  }

  class Cache {
    /** The committed record in flash. */
    var durable: Option<seq<Byte>>
    /** A record set through the open handle and not yet committed. */
    var staged: Option<seq<Byte>>
    var handleOpen: bool

    var current: Settings
    var loaded: bool
    var recordPresent: bool
    /** No storage operation fails. */
    const reliable: bool

    constructor (record: Option<seq<Byte>>, quiet: bool)
      ensures Consistent() && durable == record && !loaded && reliable == quiet
    {
      durable, staged, handleOpen, reliable := record, None, false, quiet;
      current, loaded, recordPresent := Default(), false, false;
    }

    /** Whenever a value is cached, it is the one in force. */
    ghost predicate Consistent()
      reads this
    {
      && staged == None
      && (loaded ==>
          && Shaped(current) && Valid(current)
          && Effective(durable) == Some(CanonicalSettings(current))
          && recordPresent == durable.Some?)
    }

    // ---- Storage operations ----

    method StorageError() returns (error: Error)
      ensures error == StorageFull || error == StorageCorrupt || error == StorageUnavailable
    {
      var full: bool, length: bool := *, *;
      error := if full then StorageFull else if length then StorageCorrupt else StorageUnavailable;
    }

    method OpenHandle() returns (error: Error)
      modifies this`handleOpen
      ensures error == NoError <==> handleOpen
      ensures old(handleOpen) ==> handleOpen
      ensures error == NoError || error == StorageFull || error == StorageCorrupt || error == StorageUnavailable
      ensures reliable ==> error == NoError
    {
      if handleOpen { return NoError; }
      var ok: bool := *;
      if !ok && !reliable { error := StorageError(); return; }
      handleOpen := true;
      error := NoError;
    }

    /** `reopen_settings_handle`: closing drops what was set and not committed. */
    method ReopenHandle() returns (error: Error)
      modifies this`handleOpen, this`staged
      ensures staged == (if old(handleOpen) then None else old(staged))
      ensures error == NoError <==> handleOpen
    {
      if handleOpen { handleOpen, staged := false, None; }
      error := OpenHandle();
    }

    /** `read_record`. */
    method ReadRecord() returns (error: Error, record: seq<Byte>)
      requires staged == None
      ensures error == NoError ==> durable == Some(record) && |record| == RECORD_BYTES
      ensures error == NotFound ==> durable == None
      ensures error == InvalidArgument <==> !handleOpen
      ensures error != CommitUncertain
      ensures reliable && handleOpen ==>
        (error == NoError <==> durable.Some? && |durable.value| == RECORD_BYTES) && (error == NotFound <==> durable == None)
    {
      record := [];
      if !handleOpen { return InvalidArgument, record; }
      var ok: bool := *;
      if !ok && !reliable { error := StorageError(); return; }
      if durable == None { return NotFound, record; }
      if |durable.value| != RECORD_BYTES { return StorageCorrupt, record; }
      error, record := NoError, durable.value;
    }

    method SetBlob(record: seq<Byte>) returns (error: Error)
      requires handleOpen
      modifies this`staged
      ensures error == NoError ==> staged == Some(record)
      ensures error == NoError || error == StorageFull || error == StorageCorrupt || error == StorageUnavailable
      ensures reliable ==> error == NoError
    {
      var ok: bool, partial: bool := *, *;
      ok := ok || reliable;
      error := NoError;
      if ok || partial { staged := Some(record); }
      if !ok { error := StorageError(); }
    }

    /** A failed commit may have taken effect. */
    method CommitBlob() returns (error: Error)
      requires handleOpen && staged.Some?
      modifies this`staged, this`durable
      ensures error == NoError ==> durable == old(staged) && staged == None
      ensures durable == old(durable) || durable == old(staged)
      ensures error == NoError || error == StorageFull || error == StorageCorrupt || error == StorageUnavailable
      ensures reliable ==> error == NoError
    {
      var ok: bool, effect: bool := *, *;
      ok := ok || reliable;
      error := NoError;
      if ok || effect { durable := staged; }
      if ok { staged := None; } else { error := StorageError(); }
    }

    // ---- Atomic replacement ----

    /** `replace_record_atomic`. */
    method ReplaceRecordAtomic(record: seq<Byte>) returns (result: Error)
      requires staged == None
      modifies this`staged, this`durable, this`handleOpen
      ensures staged == None
      ensures durable == old(durable) || durable == Some(record)
      ensures result == NoError ==> durable == Some(record)
      ensures result != NoError && result != CommitUncertain ==> durable == old(durable)
      ensures |record| != RECORD_BYTES ==> result == InvalidArgument
      ensures reliable && old(handleOpen) && |record| == RECORD_BYTES ==> result == NoError
    {
      if !handleOpen || |record| != RECORD_BYTES { return InvalidArgument; }
      result := SetBlob(record);
      if result != NoError {
        var reopened := ReopenHandle();
        return;
      }
      result := CommitBlob();
      if result == NoError { return; }
      result := ReconcileFailedCommit(record, result);
    }

    /** `reconcile_failed_commit`: only reading the record back settles the doubt. */
    method ReconcileFailedCommit(candidate: seq<Byte>, commitError: Error) returns (result: Error)
      requires handleOpen && commitError != NoError && commitError != CommitUncertain
      modifies this`staged, this`handleOpen
      ensures staged == None
      ensures result == NoError ==> durable == Some(candidate)
      ensures result != NoError && result != CommitUncertain ==> durable != Some(candidate)
    {
      var reopened := ReopenHandle();
      if reopened != NoError { return CommitUncertain; }
      var error, persisted := ReadRecord();
      if error == NoError { return if persisted == candidate then NoError else commitError; }
      if error == NotFound { return commitError; }
      result := CommitUncertain;
    }

    // ---- The core ----

    method InvalidateLoadedState()
      modifies this`current, this`loaded, this`recordPresent
      ensures !loaded
    {
      current, loaded, recordPresent := Default(), false, false;
    }

    /** `device_settings_core_load`. */
    method Load() returns (result: Error, settings: Settings)
      requires Consistent()
      modifies this`current, this`loaded, this`recordPresent
      ensures Consistent()
      ensures result == NoError ==>
        loaded && settings == current && Effective(durable) == Some(CanonicalSettings(settings))
      ensures result != NoError ==> !loaded && !old(loaded) && result != CommitUncertain
      ensures old(loaded) ==> current == old(current)
      ensures reliable && handleOpen ==> (result == NoError <==> Effective(durable).Some?)
    {
      hide DecodeSettings;
      hide Valid;
      hide CanonicalSettings;
      hide Default;
      if loaded { return NoError, current; }
      settings := Default();
      var error, record := ReadRecord();
      if error == NotFound {
        DefaultIsValid();
        current, loaded, recordPresent := settings, true, false;
        return NoError, settings;
      }
      if error != NoError {
        WrongLengthIsNotEffective(durable);
        return error, settings;
      }
      var decoded := SettingsBuffers.DecodeRecord(record);
      match decoded
      case Ok(s) =>
        EffectiveIsCanonical(durable, s);
        current, loaded, recordPresent := s, true, true;
        result, settings := NoError, s;
      case _ => result := StorageCorrupt;
    }

    /** `encode_settings`. */
    method EncodeSettings(s: Settings) returns (result: Error, record: seq<Byte>)
      requires Shaped(s)
      ensures result == NoError || result == InvalidArgument
      ensures result == NoError <==> Valid(s)
      ensures result == NoError ==> record == RecordOf(s) && |record| == RECORD_BYTES
    {
      hide Valid;
      var buffer := new Byte[RECORD_BYTES](_ => 0);
      var encoded := SettingsBuffers.Encode(s, buffer);
      record := buffer[..];
      result := if encoded == SettingsBuffers.Done then NoError else InvalidArgument;
    }

    /** `device_settings_core_replace`. Success puts the candidate in force, a certain
        failure changes nothing, and doubt drops the cached value. */
    method Replace(candidate: Settings) returns (result: Error, changed: bool)
      requires Consistent() && Shaped(candidate)
      modifies this
      ensures Consistent()
      ensures result == NoError ==>
        && loaded && Effective(durable) == Some(CanonicalSettings(candidate))
        && durable == if changed then Some(RecordOf(candidate)) else old(durable)
      ensures result == NoError && old(loaded) ==> (changed <==> RecordOf(old(current)) != RecordOf(candidate))
      ensures result == CommitUncertain ==> !loaded && (durable == old(durable) || durable == Some(RecordOf(candidate)))
      ensures result != NoError && result != CommitUncertain ==>
        durable == old(durable) && (old(loaded) ==> loaded && current == old(current))
      ensures result != NoError ==> !changed
      ensures !Valid(candidate) ==> result != NoError
      ensures reliable && old(handleOpen) && Effective(old(durable)).Some? ==> (result == NoError <==> Valid(candidate))
    {
      hide DecodeSettings;
      hide Valid;
      hide CanonicalSettings;
      hide RecordOf;
      hide Effective;
      changed := false;
      var settings;
      result, settings := Load();
      if result != NoError { return; }
      var currentRecord, candidateRecord;
      result, currentRecord := EncodeSettings(current);
      if result == NoError { result, candidateRecord := EncodeSettings(candidate); }
      if result != NoError { return; }
      if currentRecord == candidateRecord {
        SameRecordSameText(current, candidate);
        return NoError, false;
      }
      result := ReplaceRecordAtomic(candidateRecord);
      if result == CommitUncertain {
        InvalidateLoadedState();
      } else if result == NoError {
        EffectiveRecord(candidate);
        current, recordPresent, changed := candidate, true, true;
      }
    }

    /** `device_settings_core_factory_reset`: afterwards the default is in force. */
    method FactoryReset() returns (result: Error, changed: bool)
      requires Consistent()
      modifies this
      ensures Consistent()
      ensures result == NoError ==> Effective(durable) == Some(Default())
      ensures result != NoError && result != CommitUncertain ==> durable == old(durable)
      ensures reliable && old(handleOpen) && Effective(old(durable)).Some? ==> result == NoError
    {
      hide Default;
      hide Effective;
      hide Valid;
      hide CanonicalSettings;
      hide RecordOf;
      DefaultIsValid();
      result, changed := Replace(Default());
    }

    /** `device_settings_init`: a record that cannot be decoded stops the start. */
    method Init() returns (result: Error)
      requires Consistent() && !loaded
      modifies this
      ensures Consistent() && durable == old(durable)
      ensures result == NoError <==> loaded
      ensures result == NoError ==> Effective(durable) == Some(CanonicalSettings(current))
      ensures reliable ==> (result == NoError <==> Effective(durable).Some?)
    {
      hide Effective;
      hide Valid;
      result := OpenHandle();
      if result != NoError { return; }
      var settings;
      result, settings := Load();
    }

    /** The power goes: everything but the committed record is lost. */
    method Restart()
      requires Consistent()
      modifies this
      ensures Consistent() && durable == old(durable) && !loaded
    {
      staged, handleOpen := None, false;
      InvalidateLoadedState();
    }

    /** Any sequence of replacements and restarts keeps cache and flash in agreement. */
    method Run(commands: seq<Option<Settings>>)
      requires Consistent() && forall c <- commands :: c.Some? ==> Shaped(c.value)
      modifies this
      ensures Consistent()
    {
      hide Consistent;
      var index := 0;
      while index < |commands|
        invariant index <= |commands| && Consistent()
      {
        match commands[index] {
          case None => StartAgain();
          case Some(s) =>
            assert commands[index] in commands;
            var result, changed := Replace(s);
        }
        index := index + 1;
      }
    }

    method StartAgain()
      requires Consistent()
      modifies this
      ensures Consistent()
    {
      Restart();
      var result := Init();
    }
  }
}
