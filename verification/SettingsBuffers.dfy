/** The encoder and decoder of the settings record as they work on buffers. */
module SettingsBuffers {
  import opened Utf8
  import opened RecordLayout
  import opened SettingsCodec

  datatype Encoded = Done | WrongLength | Invalid

  /** `bounded_length`. */
  method BoundedLength(buffer: seq<Byte>) returns (length: nat)
    ensures length == TextLength(buffer)
  {
    length := 0;
    while length < |buffer| && buffer[length] != 0
      invariant length <= |buffer| && forall i :: 0 <= i < length ==> buffer[i] != 0
    {
      length := length + 1;
    }
    TextEnds(buffer, length);
  }

  /** `copy_record_text` of a stored field: accepted texts are kept whole. */
  method CheckRecordText(field: seq<Byte>) returns (ok: bool)
    ensures ok == IsTextField(field)
  {
    var terminator := BoundedLength(field);
    if terminator == |field| { return false; }
    ok := IsValidUtf8(field[..terminator]);
    if ok { ok := BytesAreZero(field[terminator + 1..]); }
  }

  /** Field `k` of the settings is next in the buffer. */
  ghost predicate UpTo(record: seq<Byte>, s: Settings, k: nat)
    requires s.retention < 256
  {
    Written(record, Fields(s), OFFSETS, WIDTHS, k)
  }

  lemma NextField(record: seq<Byte>, s: Settings, k: nat)
    requires Shaped(s) && UpTo(record, s, k) && k < 22
    ensures |FieldOf(s, k)| == WIDTHS[k] && OFFSETS[k] + WIDTHS[k] <= |record|
    ensures UpTo(Patch(record, OFFSETS[k], FieldOf(s, k)), s, k + 1)
  {
    FieldFits(s, k);
    assert Fields(s)[k] == FieldOf(s, k);
    WrittenNext(record, Fields(s), OFFSETS, WIDTHS, k);
  }

  method PutNumber(record: array<Byte>, ghost s: Settings, k: nat, value: nat)
    requires Shaped(s) && k < 22 && UpTo(record[..], s, k) && FieldOf(s, k) == LittleEndian(value, WIDTHS[k])
    modifies record
    ensures UpTo(record[..], s, k + 1)
  {
    NextField(record[..], s, k);
    WriteNumber(record, OFFSETS[k], value, WIDTHS[k]);
  }

  method PutBytes(record: array<Byte>, ghost s: Settings, k: nat, bytes: seq<Byte>)
    requires Shaped(s) && k < 22 && UpTo(record[..], s, k) && FieldOf(s, k) == bytes
    modifies record
    ensures UpTo(record[..], s, k + 1)
  {
    NextField(record[..], s, k);
    WriteBytes(record, OFFSETS[k], bytes);
  }

  /** `write_record_text`: copies the text only; the rest of its field is zero already. */
  method PutText(record: array<Byte>, ghost s: Settings, k: nat, text: seq<Byte>)
    requires Shaped(s) && k < 22 && UpTo(record[..], s, k) && FieldOf(s, k) == Canonical(text)
    modifies record
    ensures UpTo(record[..], s, k + 1)
  {
    NextField(record[..], s, k);
    ZeroBehind(record[..], s, k, text);
    var length := BoundedLength(text);
    WriteBytes(record, OFFSETS[k], text[..length]);
  }

  lemma ZeroBehind(record: seq<Byte>, s: Settings, k: nat, text: seq<Byte>)
    requires Shaped(s) && k < 22 && UpTo(record, s, k) && FieldOf(s, k) == Canonical(text)
    requires OFFSETS[k] + |text| <= |record|
    ensures Patch(record, OFFSETS[k], Text(text)) == Patch(record, OFFSETS[k], Canonical(text))
  {
    var at, n := OFFSETS[k], TextLength(text);
    LayoutFits();
    assert End(OFFSETS, WIDTHS, k) == at;
    assert record[at + n..] == Zeros(|text| - n) + record[at + |text|..];
  }

  /** `memset` of the record. */
  method Clear(record: array<Byte>)
    modifies record
    ensures forall i :: 0 <= i < record.Length ==> record[..][i] == 0
  {
    forall i | 0 <= i < record.Length { record[i] := 0; }
  }

  /** `app_v2_device_settings_encode`: the buffer becomes the record, or is left alone. */
  method Encode(s: Settings, record: array<Byte>) returns (result: Encoded)
    requires Shaped(s)
    modifies record
    ensures result == WrongLength <==> record.Length != RECORD_BYTES
    ensures result == Invalid <==> record.Length == RECORD_BYTES && !Valid(s)
    ensures result == Done ==> record[..] == RecordOf(s)
    ensures result != Done ==> record[..] == old(record[..])
  {
    hide Valid;
    if record.Length != RECORD_BYTES { return WrongLength; }
    if !Valid(s) { return Invalid; }
    Clear(record);
    StartRecord(record[..], s);
    hide UpTo;
    WriteHead(record, s);
    WriteCredentials(record, s);
    WriteFlags(record, s);
    WriteTexts(record, s);
    FinishRecord(record[..], s);
    result := Done;
  }

  lemma StartRecord(record: seq<Byte>, s: Settings)
    requires Shaped(s) && |record| == RECORD_BYTES && forall i :: 0 <= i < |record| ==> record[i] == 0
    ensures UpTo(record, s, 0)
  {
    LayoutFits();
    FieldsFit(s);
    WrittenNone(record, Fields(s), OFFSETS, WIDTHS);
  }

  lemma FinishRecord(record: seq<Byte>, s: Settings)
    requires Shaped(s) && UpTo(record, s, 22)
    ensures record == RecordOf(s)
  {
    WrittenAll(record, Fields(s), OFFSETS, WIDTHS);
  }

  lemma SkipZero(record: seq<Byte>, s: Settings, k: nat)
    requires Shaped(s) && UpTo(record, s, k) && (k == 9 || k == 11 || k == 15)
    ensures UpTo(record, s, k + 1)
  {
    assert Fields(s)[k] == FieldOf(s, k);
    WrittenZero(record, Fields(s), OFFSETS, WIDTHS, k);
  }

  method WriteHead(record: array<Byte>, s: Settings)
    requires Shaped(s) && UpTo(record[..], s, 0)
    modifies record
    ensures UpTo(record[..], s, 6)
  {
    hide UpTo;
    hide LittleEndian;
    PutNumber(record, s, 0, MAGIC);
    PutNumber(record, s, 1, RECORD_VERSION);
    PutNumber(record, s, 2, RECORD_BYTES);
    PutNumber(record, s, 3, s.credentialVersion);
    PutNumber(record, s, 4, s.passwordAlgorithm);
    PutNumber(record, s, 5, s.iterations);
  }

  method WriteCredentials(record: array<Byte>, s: Settings)
    requires Shaped(s) && UpTo(record[..], s, 6)
    modifies record
    ensures UpTo(record[..], s, 9)
  {
    hide UpTo;
    hide LittleEndian;
    PutBytes(record, s, 6, s.salt);
    PutBytes(record, s, 7, s.verifier);
    PutNumber(record, s, 8, s.nextBlobId);
  }

  method WriteFlags(record: array<Byte>, s: Settings)
    requires Shaped(s) && UpTo(record[..], s, 9)
    modifies record
    ensures UpTo(record[..], s, 16)
  {
    hide UpTo;
    hide LittleEndian;
    SkipZero(record[..], s, 9);
    PutBytes(record, s, 10, [s.retention]);
    SkipZero(record[..], s, 11);
    PutBytes(record, s, 12, Flag(s.requireConfirmation));
    PutBytes(record, s, 13, Flag(s.provisioned));
    PutBytes(record, s, 14, Flag(s.stationConfigured));
    SkipZero(record[..], s, 15);
  }

  method WriteTexts(record: array<Byte>, s: Settings)
    requires Shaped(s) && UpTo(record[..], s, 16)
    modifies record
    ensures UpTo(record[..], s, 22)
  {
    hide UpTo;
    hide LittleEndian;
    hide Canonical;
    PutText(record, s, 16, s.packageId);
    PutText(record, s, 17, s.deviceName);
    PutText(record, s, 18, s.apSsid);
    PutText(record, s, 19, s.apPassphrase);
    PutText(record, s, 20, s.stationSsid);
    PutText(record, s, 21, s.stationPassphrase);
  }

  // ---- Decoding ----

  method CheckTexts(s: Settings) returns (ok: bool)
    ensures ok == TextsOk(s)
  {
    hide IsTextField;
    ok := CheckRecordText(s.packageId);
    if ok { ok := CheckRecordText(s.deviceName); }
    if ok { ok := CheckRecordText(s.apSsid); }
    if ok { ok := CheckRecordText(s.apPassphrase); }
    if ok { ok := CheckRecordText(s.stationSsid); }
    if ok { ok := CheckRecordText(s.stationPassphrase); }
  }

  method ReadField(record: seq<Byte>, k: nat) returns (value: nat)
    requires |record| == RECORD_BYTES && k < |OFFSETS|
    ensures value == FromLittleEndian(Slice(record, k))
  {
    value := ReadNumber(record, OFFSETS[k], WIDTHS[k]);
  }

  /** The checks of `app_v2_device_settings_decode` before any field is copied. */
  method CheckHead(record: seq<Byte>) returns (refused: Decoded, ok: bool)
    requires |record| == RECORD_BYTES
    ensures ok ==> HeadOk(record) && FlagsOk(record)
    ensures !ok ==> refused == DecodeSettings(record) && !refused.Ok?
  {
    hide Slice;
    hide FromLittleEndian;
    hide SettingsIn;
    hide TextsOk;
    hide Valid;
    refused, ok := Corrupt, false;
    var value := ReadField(record, 0);
    if value != MAGIC { return; }
    value := ReadField(record, 1);
    if value != RECORD_VERSION { return UnsupportedVersion, ok; }
    value := ReadField(record, 2);
    if value != RECORD_BYTES { return; }
    value := ReadField(record, 3);
    var algorithm := ReadField(record, 4);
    if value != CREDENTIAL_VERSION || algorithm != PASSWORD_ALGORITHM_VERSION { return UnsupportedVersion, ok; }
    var zero := BytesAreZero(Slice(record, 15));
    if !zero || record[RESERVED_SEND_MODE] > 1 || record[73] > RETENTION_MAX || record[RESERVED_SHOW_SOURCE] > 1
       || record[75] > 1 || record[76] > 1 || record[77] > 1
    {
      return;
    }
    ok := true;
  }

  predicate HeadOk(record: seq<Byte>)
    requires |record| == RECORD_BYTES
  {
    && FromLittleEndian(Slice(record, 0)) == MAGIC && FromLittleEndian(Slice(record, 1)) == RECORD_VERSION
    && FromLittleEndian(Slice(record, 2)) == RECORD_BYTES && FromLittleEndian(Slice(record, 3)) == CREDENTIAL_VERSION
    && FromLittleEndian(Slice(record, 4)) == PASSWORD_ALGORITHM_VERSION
  }

  /** `app_v2_device_settings_decode`. */
  method DecodeRecord(record: seq<Byte>) returns (result: Decoded)
    ensures result == DecodeSettings(record)
  {
    hide Slice;
    hide FlagsOk;
    hide FromLittleEndian;
    hide TextsOk;
    hide Valid;
    if |record| != RECORD_BYTES { return InvalidLength; }
    var ok;
    result, ok := CheckHead(record);
    if !ok { return; }
    var iterations := ReadField(record, 5);
    var nextBlobId := ReadField(record, 8);
    var decoded := Settings(record[76] != 0, CREDENTIAL_VERSION, PASSWORD_ALGORITHM_VERSION, iterations,
      Slice(record, 6), Slice(record, 7), nextBlobId, record[73], record[75] != 0, record[77] != 0,
      Slice(record, 16), Slice(record, 17), Slice(record, 18), Slice(record, 19), Slice(record, 20), Slice(record, 21));
    ok := CheckTexts(decoded);
    result := if ok && Valid(decoded) then Ok(decoded) else Corrupt;
  }
}
