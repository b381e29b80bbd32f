/** The device settings record: 344 bytes with fields at fixed offsets. */
module SettingsCodec {
  import opened Errors
  import opened Utf8
  import opened RecordLayout

  const MAGIC := 0x324b4d45
  const RECORD_VERSION := 1
  const RECORD_BYTES := 344
  const CREDENTIAL_VERSION := 1
  const PASSWORD_ALGORITHM_VERSION := 1
  const SALT_BYTES := 16
  const VERIFIER_BYTES := 32
  const NAME_MAX := 32
  const SSID_MAX := 32
  const PASSPHRASE_MIN := 8
  const PASSPHRASE_MAX := 63
  const UUID_BYTES := 36
  const RETENTION_MAX := 100
  const DEFAULT_RETENTION := 5

  const PACKAGE_FIELD := 37
  const NAME_FIELD := 33
  const SSID_FIELD := 33
  const PASSPHRASE_FIELD := 64

  /** A text is a buffer of fixed capacity that ends at its first zero byte. */
  datatype Settings = Settings(
    provisioned: bool, credentialVersion: nat, passwordAlgorithm: nat, iterations: nat,
    salt: seq<Byte>, verifier: seq<Byte>, nextBlobId: nat, retention: nat,
    requireConfirmation: bool, stationConfigured: bool,
    packageId: seq<Byte>, deviceName: seq<Byte>, apSsid: seq<Byte>, apPassphrase: seq<Byte>,
    stationSsid: seq<Byte>, stationPassphrase: seq<Byte>)

  /** The widths the C types enforce. */
  predicate Shaped(s: Settings) {
    && s.credentialVersion < 0x1_0000 && s.passwordAlgorithm < 0x1_0000
    && s.iterations < 0x1_0000_0000 && s.nextBlobId < 0x1_0000_0000_0000_0000 && s.retention < 256
    && |s.salt| == SALT_BYTES && |s.verifier| == VERIFIER_BYTES
    && |s.packageId| == PACKAGE_FIELD && |s.deviceName| == NAME_FIELD
    && |s.apSsid| == SSID_FIELD && |s.apPassphrase| == PASSPHRASE_FIELD
    && |s.stationSsid| == SSID_FIELD && |s.stationPassphrase| == PASSPHRASE_FIELD
  }

  // ---- Texts ----

  /** Where the text ends: the buffer's first zero, or its capacity. */
  function TextLength(buffer: seq<Byte>): (length: nat)
    ensures length <= |buffer| && (length < |buffer| ==> buffer[length] == 0)
    ensures forall i :: 0 <= i < length ==> buffer[i] != 0
  {
    if buffer == [] || buffer[0] == 0 then 0 else 1 + TextLength(buffer[1..])
  }

  function Text(buffer: seq<Byte>): seq<Byte> { buffer[..TextLength(buffer)] }

  function Zeros(n: nat): (z: seq<Byte>)
    ensures |z| == n && AllZero(z)
  {
    seq(n, _ => 0)
  }

  /** The same text with nothing behind it. */
  function Canonical(buffer: seq<Byte>): (c: seq<Byte>)
    ensures |c| == |buffer|
  {
    Text(buffer) + Zeros(|buffer| - TextLength(buffer))
  }

  predicate Terminated(buffer: seq<Byte>) { TextLength(buffer) < |buffer| }

  lemma TextEnds(buffer: seq<Byte>, length: nat)
    requires length <= |buffer| && (length < |buffer| ==> buffer[length] == 0)
    requires forall i :: 0 <= i < length ==> buffer[i] != 0
    ensures TextLength(buffer) == length
  {}

  lemma CanonicalText(buffer: seq<Byte>)
    ensures TextLength(Canonical(buffer)) == TextLength(buffer)
    ensures Text(Canonical(buffer)) == Text(buffer) && Canonical(Canonical(buffer)) == Canonical(buffer)
  {
    var c, n := Canonical(buffer), TextLength(buffer);
    assert forall i :: 0 <= i < n ==> c[i] == buffer[i];
    TextEnds(c, n);
    assert c[..n] == Text(buffer);
  }

  /** `valid_text`. */
  predicate ValidText(buffer: seq<Byte>, minimum: nat, maximum: nat) {
    Terminated(buffer) && minimum <= TextLength(buffer) <= maximum && ValidUtf8(Text(buffer))
  }

  predicate IsHyphenIndex(i: nat) { i == 8 || i == 13 || i == 18 || i == 23 }

  /** `valid_uuid_or_empty`: empty or a lower-case version 4 UUID. */
  predicate ValidUuidOrEmpty(buffer: seq<Byte>) {
    && Terminated(buffer)
    && (TextLength(buffer) != 0 ==>
        && TextLength(buffer) == UUID_BYTES
        && (forall i :: 0 <= i < UUID_BYTES ==>
              if IsHyphenIndex(i) then buffer[i] == 0x2D else 0x30 <= buffer[i] <= 0x39 || 0x61 <= buffer[i] <= 0x66)
        && buffer[14] == 0x34 && (buffer[19] == 0x38 || buffer[19] == 0x39 || buffer[19] == 0x61 || buffer[19] == 0x62))
  }

  // ---- Validation ----

  predicate CredentialPresent(s: Settings) { s.iterations != 0 && !AllZero(s.salt) && !AllZero(s.verifier) }

  predicate CredentialAbsent(s: Settings) { s.iterations == 0 && AllZero(s.salt) && AllZero(s.verifier) }

  /** A station passphrase may be empty: an open network. */
  predicate StationPassphraseValid(buffer: seq<Byte>) {
    Terminated(buffer) && (TextLength(buffer) == 0 || ValidText(buffer, PASSPHRASE_MIN, PASSPHRASE_MAX))
  }

  predicate StationValid(s: Settings) {
    if s.stationConfigured then ValidText(s.stationSsid, 1, SSID_MAX) && StationPassphraseValid(s.stationPassphrase)
    else ValidText(s.stationSsid, 0, 0) && ValidText(s.stationPassphrase, 0, 0)
  }

  /** `app_v2_device_settings_validate`. */
  predicate Valid(s: Settings) {
    && s.credentialVersion == CREDENTIAL_VERSION && s.passwordAlgorithm == PASSWORD_ALGORITHM_VERSION
    && s.retention <= RETENTION_MAX
    && ValidUuidOrEmpty(s.packageId) && ValidText(s.deviceName, 1, NAME_MAX)
    && StationValid(s)
    && if s.provisioned then
         CredentialPresent(s) && ValidText(s.apSsid, 1, SSID_MAX) && ValidText(s.apPassphrase, PASSPHRASE_MIN, PASSPHRASE_MAX)
       else CredentialAbsent(s) && ValidText(s.apSsid, 0, 0) && ValidText(s.apPassphrase, 0, 0)
  }

  /** Texts cleared behind their terminators. */
  function CanonicalSettings(s: Settings): Settings {
    s.(packageId := Canonical(s.packageId), deviceName := Canonical(s.deviceName),
       apSsid := Canonical(s.apSsid), apPassphrase := Canonical(s.apPassphrase),
       stationSsid := Canonical(s.stationSsid), stationPassphrase := Canonical(s.stationPassphrase))
  }

  lemma CanonicalValid(s: Settings)
    ensures Valid(CanonicalSettings(s)) <==> Valid(s)
    ensures CanonicalSettings(CanonicalSettings(s)) == CanonicalSettings(s)
  {
    CanonicalText(s.packageId);
    CanonicalUuid(s.packageId);
    CanonicalText(s.deviceName);
    CanonicalText(s.apSsid);
    CanonicalText(s.apPassphrase);
    CanonicalText(s.stationSsid);
    CanonicalText(s.stationPassphrase);
    hide Canonical;
    hide Text;
    hide ValidUuidOrEmpty;
    hide ValidUtf8;
  }

  lemma CanonicalUuid(buffer: seq<Byte>)
    ensures ValidUuidOrEmpty(Canonical(buffer)) <==> ValidUuidOrEmpty(buffer)
  {
    CanonicalText(buffer);
    var c := Canonical(buffer);
    assert forall i :: 0 <= i < TextLength(buffer) ==> c[i] == buffer[i];
  }

  // ---- The layout ----

  const OFFSETS: seq<nat> := [0, 4, 6, 8, 10, 12, 16, 32, 64, 72, 73, 74, 75, 76, 77, 78, 80, 117, 150, 183, 247, 280]
  const WIDTHS: seq<nat> := [4, 2, 2, 2, 2, 4, 16, 32, 8, 1, 1, 1, 1, 1, 1, 2, 37, 33, 33, 64, 33, 64]

  const RESERVED_SEND_MODE := 72
  const RESERVED_SHOW_SOURCE := 74

  lemma LayoutFits()
    ensures Contiguous(OFFSETS, WIDTHS) && |OFFSETS| == 22 && End(OFFSETS, WIDTHS, 22) == RECORD_BYTES
  {}

  function Flag(b: bool): seq<Byte> { [if b then 1 else 0] }

  /** The fields of the encoded record, in order. */
  function FieldOf(s: Settings, k: nat): seq<Byte>
    requires s.retention < 256
  {
    match k
    case 0 => LittleEndian(MAGIC, 4)
    case 1 => LittleEndian(RECORD_VERSION, 2)
    case 2 => LittleEndian(RECORD_BYTES, 2)
    case 3 => LittleEndian(s.credentialVersion, 2)
    case 4 => LittleEndian(s.passwordAlgorithm, 2)
    case 5 => LittleEndian(s.iterations, 4)
    case 6 => s.salt
    case 7 => s.verifier
    case 8 => LittleEndian(s.nextBlobId, 8)
    case 9 => [0]
    case 10 => [s.retention]
    case 11 => [0]
    case 12 => Flag(s.requireConfirmation)
    case 13 => Flag(s.provisioned)
    case 14 => Flag(s.stationConfigured)
    case 15 => [0, 0]
    case _ => TextFieldOf(s, k)
  }

  function TextFieldOf(s: Settings, k: nat): seq<Byte> {
    match k
    case 16 => Canonical(s.packageId)
    case 17 => Canonical(s.deviceName)
    case 18 => Canonical(s.apSsid)
    case 19 => Canonical(s.apPassphrase)
    case 20 => Canonical(s.stationSsid)
    case _ => Canonical(s.stationPassphrase)
  }

  function Fields(s: Settings): (fields: seq<seq<Byte>>)
    requires s.retention < 256
    ensures |fields| == 22
  {
    seq(22, k => if k >= 0 then FieldOf(s, k) else [])
  }

  lemma FieldsFit(s: Settings)
    requires Shaped(s)
    ensures HasWidths(Fields(s), WIDTHS)
  {
    forall k | 0 <= k < 22 ensures |Fields(s)[k]| == WIDTHS[k] {
      FieldFits(s, k);
    }
  }

  lemma FieldFits(s: Settings, k: nat)
    requires Shaped(s) && k < 22
    ensures |FieldOf(s, k)| == WIDTHS[k]
  {}

  function RecordOf(s: Settings): seq<Byte>
    requires Shaped(s)
  {
    Flatten(Fields(s))
  }

  function Slice(record: seq<Byte>, k: nat): (field: seq<Byte>)
    requires |record| == RECORD_BYTES && k < |OFFSETS|
    ensures |field| == WIDTHS[k]
  {
    record[OFFSETS[k]..OFFSETS[k] + WIDTHS[k]]
  }

  datatype Decoded = Ok(settings: Settings) | InvalidLength | Corrupt | UnsupportedVersion

  /** `copy_record_text`: what a stored text must be. */
  predicate IsTextField(field: seq<Byte>) {
    Terminated(field) && ValidUtf8(Text(field)) && AllZero(field[TextLength(field) + 1..])
  }

  predicate FlagsOk(record: seq<Byte>)
    requires |record| == RECORD_BYTES
  {
    && AllZero(Slice(record, 15)) && record[RESERVED_SEND_MODE] <= 1 && record[73] <= RETENTION_MAX
    && record[RESERVED_SHOW_SOURCE] <= 1 && record[75] <= 1 && record[76] <= 1 && record[77] <= 1
  }

  function SettingsIn(record: seq<Byte>): Settings
    requires |record| == RECORD_BYTES
  {
    Settings(record[76] != 0, CREDENTIAL_VERSION, PASSWORD_ALGORITHM_VERSION, FromLittleEndian(Slice(record, 5)),
             Slice(record, 6), Slice(record, 7), FromLittleEndian(Slice(record, 8)), record[73],
             record[75] != 0, record[77] != 0,
             Slice(record, 16), Slice(record, 17), Slice(record, 18), Slice(record, 19), Slice(record, 20), Slice(record, 21))
  }

  predicate TextsOk(s: Settings) {
    && IsTextField(s.packageId) && IsTextField(s.deviceName) && IsTextField(s.apSsid)
    && IsTextField(s.apPassphrase) && IsTextField(s.stationSsid) && IsTextField(s.stationPassphrase)
  }

  /** `app_v2_device_settings_decode`. */
  function DecodeSettings(record: seq<Byte>): Decoded {
    if |record| != RECORD_BYTES then InvalidLength
    else if FromLittleEndian(Slice(record, 0)) != MAGIC then Corrupt
    else if FromLittleEndian(Slice(record, 1)) != RECORD_VERSION then UnsupportedVersion
    else if FromLittleEndian(Slice(record, 2)) != RECORD_BYTES then Corrupt
    else if FromLittleEndian(Slice(record, 3)) != CREDENTIAL_VERSION
         || FromLittleEndian(Slice(record, 4)) != PASSWORD_ALGORITHM_VERSION then UnsupportedVersion
    else if !FlagsOk(record) then Corrupt
    else if !TextsOk(SettingsIn(record)) || !Valid(SettingsIn(record)) then Corrupt
    else Ok(SettingsIn(record))
  }

  // ---- Round trips ----

  /** The record has these fields at their offsets. */
  ghost predicate Holds(record: seq<Byte>, s: Settings) {
    |record| == RECORD_BYTES && s.retention < 256 && forall k :: 0 <= k < 22 ==> Slice(record, k) == FieldOf(s, k)
  }

  lemma RecordHolds(s: Settings)
    requires Shaped(s)
    ensures Holds(RecordOf(s), s)
  {
    LayoutFits();
    FieldsFit(s);
    var fields := Fields(s);
    assert forall k :: 0 <= k < 22 ==> fields[k] == FieldOf(s, k);
    PrefixLength(fields, OFFSETS, WIDTHS, 22);
    assert fields[..22] == fields;
    hide Fields;
    hide FieldOf;
    forall k | 0 <= k < 22 ensures Slice(RecordOf(s), k) == FieldOf(s, k) {
      FieldAt(fields, OFFSETS, WIDTHS, k);
    }
  }

  lemma HoldsOnly(a: seq<Byte>, b: seq<Byte>, s: Settings)
    requires Holds(a, s) && Holds(b, s)
    ensures a == b
  {
    LayoutFits();
    hide FieldOf;
    forall k | 0 <= k < 22
      ensures OFFSETS[k] + WIDTHS[k] <= RECORD_BYTES
      ensures a[OFFSETS[k]..OFFSETS[k] + WIDTHS[k]] == b[OFFSETS[k]..OFFSETS[k] + WIDTHS[k]]
    {
      assert Slice(a, k) == Slice(b, k);
    }
    SameFields(a, b, OFFSETS, WIDTHS, 22);
    assert a[..RECORD_BYTES] == a && b[..RECORD_BYTES] == b;
  }

  lemma CanonicalIsTextField(buffer: seq<Byte>)
    requires Terminated(buffer) && ValidUtf8(Text(buffer))
    ensures IsTextField(Canonical(buffer))
  {
    CanonicalText(buffer);
  }

  lemma TextFieldIsCanonical(field: seq<Byte>)
    requires IsTextField(field)
    ensures Canonical(field) == field
  {
    var n := TextLength(field);
    assert field == field[..n] + [field[n]] + field[n + 1..];
    assert Zeros(|field| - n) == [0] + field[n + 1..];
  }

  /** A UUID is ASCII. */
  lemma UuidIsUtf8(buffer: seq<Byte>)
    requires ValidUuidOrEmpty(buffer)
    ensures ValidUtf8(Text(buffer))
  {
    AsciiIsUtf8(Text(buffer));
  }

  lemma {:induction false} AsciiIsUtf8(s: seq<Byte>)
    requires forall i :: 0 <= i < |s| ==> s[i] <= 0x7F
    ensures ValidUtf8(s)
    decreases |s|
  {
    if s != [] { AsciiIsUtf8(s[1..]); }
  }

  lemma Powers()
    ensures Pow256(2) == 0x1_0000 && Pow256(4) == 0x1_0000_0000 && Pow256(8) == 0x1_0000_0000_0000_0000
  {
    assert Pow256(1) == 256 && Pow256(3) == 0x100_0000;
    assert Pow256(5) == 0x100_0000_0000 && Pow256(6) == 0x1_0000_0000_0000 && Pow256(7) == 0x100_0000_0000_0000;
  }

  /** The number fields of an encoded record. */
  lemma NumbersRead(s: Settings, r: seq<Byte>)
    requires Shaped(s) && Holds(r, s)
    ensures FromLittleEndian(Slice(r, 0)) == MAGIC && FromLittleEndian(Slice(r, 1)) == RECORD_VERSION
    ensures FromLittleEndian(Slice(r, 2)) == RECORD_BYTES
    ensures FromLittleEndian(Slice(r, 3)) == s.credentialVersion && FromLittleEndian(Slice(r, 4)) == s.passwordAlgorithm
    ensures FromLittleEndian(Slice(r, 5)) == s.iterations && FromLittleEndian(Slice(r, 8)) == s.nextBlobId
  {
    Powers();
    hide Slice;
    hide LittleEndian;
    hide FromLittleEndian;
    hide Pow256;
    hide TextFieldOf;
    ReadsWhatWasWritten(MAGIC, 4);
    ReadsWhatWasWritten(RECORD_VERSION, 2);
    ReadsWhatWasWritten(RECORD_BYTES, 2);
    ReadsWhatWasWritten(s.credentialVersion, 2);
    ReadsWhatWasWritten(s.passwordAlgorithm, 2);
    ReadsWhatWasWritten(s.iterations, 4);
    ReadsWhatWasWritten(s.nextBlobId, 8);
  }

  /** The single bytes of a record. */
  lemma SingleBytes(r: seq<Byte>)
    requires |r| == RECORD_BYTES
    ensures Slice(r, 9) == [r[72]] && Slice(r, 10) == [r[73]] && Slice(r, 11) == [r[74]] && Slice(r, 12) == [r[75]]
    ensures Slice(r, 13) == [r[76]] && Slice(r, 14) == [r[77]]
  {}

  lemma FlagsHold(s: Settings, r: seq<Byte>)
    requires Shaped(s) && Holds(r, s)
    ensures r[72] == 0 && r[73] == s.retention && r[74] == 0 && AllZero(Slice(r, 15))
    ensures r[75] == (if s.requireConfirmation then 1 else 0)
    ensures r[76] == (if s.provisioned then 1 else 0) && r[77] == (if s.stationConfigured then 1 else 0)
  {
    SingleBytes(r);
    hide Slice;
    hide LittleEndian;
    hide TextFieldOf;
    assert Slice(r, 15) == FieldOf(s, 15) == [0, 0];
    assert Slice(r, 9) == FieldOf(s, 9) && Slice(r, 10) == FieldOf(s, 10) && Slice(r, 11) == FieldOf(s, 11);
    assert Slice(r, 12) == FieldOf(s, 12) && Slice(r, 13) == FieldOf(s, 13) && Slice(r, 14) == FieldOf(s, 14);
  }

  lemma BytesHold(s: Settings, r: seq<Byte>)
    requires Shaped(s) && Holds(r, s)
    ensures Slice(r, 6) == s.salt && Slice(r, 7) == s.verifier
    ensures Slice(r, 16) == Canonical(s.packageId) && Slice(r, 17) == Canonical(s.deviceName)
    ensures Slice(r, 18) == Canonical(s.apSsid) && Slice(r, 19) == Canonical(s.apPassphrase)
    ensures Slice(r, 20) == Canonical(s.stationSsid) && Slice(r, 21) == Canonical(s.stationPassphrase)
  {
    hide Slice;
    hide LittleEndian;
    hide Canonical;
  }

  /** What the decoder finds in an encoded record. */
  lemma EncodedHolds(s: Settings, r: seq<Byte>)
    requires Shaped(s) && Valid(s) && Holds(r, s)
    ensures FlagsOk(r) && SettingsIn(r) == CanonicalSettings(s)
  {
    NumbersRead(s, r);
    FlagsHold(s, r);
    BytesHold(s, r);
    hide Slice;
    hide FieldOf;
    hide FromLittleEndian;
    hide Canonical;
  }

  lemma TextsEncodeOk(s: Settings)
    requires Shaped(s) && Valid(s)
    ensures TextsOk(CanonicalSettings(s))
  {
    UuidIsUtf8(s.packageId);
    CanonicalIsTextField(s.packageId);
    CanonicalIsTextField(s.deviceName);
    CanonicalIsTextField(s.apSsid);
    CanonicalIsTextField(s.apPassphrase);
    CanonicalIsTextField(s.stationSsid);
    StationPassphraseUtf8(s);
    CanonicalIsTextField(s.stationPassphrase);
  }

  lemma StationPassphraseUtf8(s: Settings)
    requires StationValid(s)
    ensures Terminated(s.stationPassphrase) && ValidUtf8(Text(s.stationPassphrase))
  {
    if TextLength(s.stationPassphrase) == 0 {
      assert Text(s.stationPassphrase) == [];
    }
  }

  /** Decoding an encoded record gives the settings back, texts up to their ends. */
  lemma DecodeEncode(s: Settings)
    requires Shaped(s) && Valid(s)
    ensures DecodeSettings(RecordOf(s)) == Ok(CanonicalSettings(s))
  {
    RecordHolds(s);
    var r := RecordOf(s);
    EncodedHolds(s, r);
    NumbersRead(s, r);
    TextsEncodeOk(s);
    CanonicalValid(s);
    hide RecordOf;
    hide Slice;
    hide FieldOf;
    hide SettingsIn;
    hide FlagsOk;
    hide TextsOk;
    hide CanonicalSettings;
    hide FromLittleEndian;
  }

  /** The record with the two bytes of the removed preferences set to zero. */
  function Normal(record: seq<Byte>): seq<Byte>
    requires |record| == RECORD_BYTES
  {
    record[RESERVED_SEND_MODE := 0][RESERVED_SHOW_SOURCE := 0]
  }

  lemma NormalSlices(record: seq<Byte>)
    requires |record| == RECORD_BYTES
    ensures forall k :: 0 <= k < |OFFSETS| && k != 9 && k != 11 ==> Slice(Normal(record), k) == Slice(record, k)
    ensures Slice(Normal(record), 9) == [0] && Slice(Normal(record), 11) == [0]
  {
    var n := Normal(record);
    forall k | 0 <= k < |OFFSETS| && k != 9 && k != 11 ensures Slice(n, k) == Slice(record, k) {
      assert OFFSETS[k] + WIDTHS[k] <= 72 || (OFFSETS[k] == 73 && WIDTHS[k] == 1) || 75 <= OFFSETS[k];
    }
  }

  /** The fields of accepted settings are the record's own. */
  lemma NumberFieldsKept(record: seq<Byte>, k: nat)
    requires DecodeSettings(record).Ok? && (k < 6 || k == 8)
    ensures SettingsIn(record).retention < 256 && FieldOf(SettingsIn(record), k) == Slice(record, k)
  {
    WritesWhatWasRead(Slice(record, k));
    hide Slice;
    hide LittleEndian;
    hide FromLittleEndian;
    hide TextFieldOf;
    hide TextsOk;
    hide Valid;
  }

  lemma SaltKept(record: seq<Byte>, k: nat)
    requires |record| == RECORD_BYTES && (k == 6 || k == 7)
    ensures FieldOf(SettingsIn(record), k) == Slice(record, k)
  {
    hide Slice;
    hide LittleEndian;
    hide FromLittleEndian;
    hide TextFieldOf;
  }

  lemma FlagFieldsKept(record: seq<Byte>, k: nat)
    requires |record| == RECORD_BYTES && FlagsOk(record) && 9 <= k < 16
    ensures FieldOf(SettingsIn(record), k) == Slice(Normal(record), k)
  {
    SingleBytes(record);
    NormalSlices(record);
    assert Slice(record, 15) == [0, 0];
    hide Normal;
    hide Slice;
    hide LittleEndian;
    hide FromLittleEndian;
    hide TextFieldOf;
  }

  lemma TextFieldsKept(record: seq<Byte>, k: nat)
    requires |record| == RECORD_BYTES && TextsOk(SettingsIn(record)) && 16 <= k < 22
    ensures TextFieldOf(SettingsIn(record), k) == Slice(record, k)
  {
    TextFieldIsCanonical(Slice(record, k));
    hide Slice;
    hide Canonical;
    hide FromLittleEndian;
    hide IsTextField;
  }

  lemma DecodedShape(record: seq<Byte>)
    requires DecodeSettings(record).Ok?
    ensures FlagsOk(record) && Shaped(SettingsIn(record)) && TextsOk(SettingsIn(record))
  {
    Powers();
    WritesWhatWasRead(Slice(record, 5));
    WritesWhatWasRead(Slice(record, 8));
    hide FromLittleEndian;
    hide LittleEndian;
    hide Pow256;
    hide Valid;
    hide TextsOk;
  }

  lemma DecodedFields(record: seq<Byte>)
    requires DecodeSettings(record).Ok?
    ensures Holds(Normal(record), SettingsIn(record))
  {
    DecodedShape(record);
    NormalSlices(record);
    var s := SettingsIn(record);
    assert |record| == RECORD_BYTES;
    hide DecodeSettings;
    hide Normal;
    hide SettingsIn;
    hide Slice;
    hide TextsOk;
    hide FlagsOk;
    forall k | 0 <= k < 22 ensures Slice(Normal(record), k) == FieldOf(s, k) {
      DecodedField(record, k);
    }
  }

  lemma DecodedField(record: seq<Byte>, k: nat)
    requires DecodeSettings(record).Ok? && FlagsOk(record) && TextsOk(SettingsIn(record)) && k < 22
    ensures SettingsIn(record).retention < 256 && FieldOf(SettingsIn(record), k) == Slice(Normal(record), k)
  {
    NormalSlices(record);
    assert |record| == RECORD_BYTES;
    hide DecodeSettings;
    hide Normal;
    hide Slice;
    hide TextsOk;
    hide FlagsOk;
    if k < 6 || k == 8 {
      NumberFieldsKept(record, k);
    } else if k < 8 {
      SaltKept(record, k);
    } else if k < 16 {
      FlagFieldsKept(record, k);
    } else {
      TextFieldsKept(record, k);
    }
  }

  lemma DecodedIsCanonical(s: Settings)
    requires TextsOk(s)
    ensures CanonicalSettings(s) == s
  {
    TextFieldIsCanonical(s.packageId);
    TextFieldIsCanonical(s.deviceName);
    TextFieldIsCanonical(s.apSsid);
    TextFieldIsCanonical(s.apPassphrase);
    TextFieldIsCanonical(s.stationSsid);
    TextFieldIsCanonical(s.stationPassphrase);
    hide Canonical;
    hide IsTextField;
  }

  /** Encoding an accepted record again gives the same record, but for the two bytes of
      removed preferences; so encoding is idempotent and loses nothing else. */
  lemma EncodeDecode(record: seq<Byte>)
    requires DecodeSettings(record).Ok?
    ensures var s := DecodeSettings(record).settings;
      Shaped(s) && Valid(s) && CanonicalSettings(s) == s && RecordOf(s) == Normal(record)
  {
    var s := SettingsIn(record);
    DecodedShape(record);
    DecodedFields(record);
    DecodedIsCanonical(s);
    RecordHolds(s);
    HoldsOnly(RecordOf(s), Normal(record), s);
    hide RecordOf;
    hide SettingsIn;
    hide Normal;
    hide FieldOf;
    hide CanonicalSettings;
    hide Slice;
  }

  /** The accepted records are exactly the encodings of valid settings, except that the
      two bytes of removed preferences may be one. */
  lemma AcceptedExactly(record: seq<Byte>)
    ensures DecodeSettings(record).Ok? <==>
      && |record| == RECORD_BYTES && record[RESERVED_SEND_MODE] <= 1 && record[RESERVED_SHOW_SOURCE] <= 1
      && exists s :: Shaped(s) && Valid(s) && RecordOf(s) == Normal(record)
  {
    hide Valid;
    if DecodeSettings(record).Ok? {
      EncodeDecode(record);
      assert Shaped(DecodeSettings(record).settings);
    }
    if |record| == RECORD_BYTES && record[RESERVED_SEND_MODE] <= 1 && record[RESERVED_SHOW_SOURCE] <= 1 {
      forall s | Shaped(s) && Valid(s) && RecordOf(s) == Normal(record) ensures DecodeSettings(record).Ok? {
        DecodeEncode(s);
        SameButReserved(record);
      }
    }
  }

  /** The decoder does not look at the two bytes beyond their being zero or one. */
  lemma SameButReserved(record: seq<Byte>)
    requires |record| == RECORD_BYTES && record[RESERVED_SEND_MODE] <= 1 && record[RESERVED_SHOW_SOURCE] <= 1
    requires DecodeSettings(Normal(record)).Ok?
    ensures DecodeSettings(record) == DecodeSettings(Normal(record))
  {
    NormalSlices(record);
    SingleBytes(record);
    SingleBytes(Normal(record));
    hide Slice;
    hide FromLittleEndian;
    hide Valid;
    hide TextsOk;
    assert SettingsIn(record) == SettingsIn(Normal(record));
  }
}
