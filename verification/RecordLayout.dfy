/** Fixed layouts and little-endian numbers: the byte-level half of the settings
    record. */
module RecordLayout {
  import opened Utf8

  // ---- Little-endian numbers ----

  function Pow256(n: nat): (p: nat)
    ensures p >= 1
  {
    if n == 0 then 1 else 256 * Pow256(n - 1)
  }

  function LittleEndian(value: nat, n: nat): (bytes: seq<Byte>)
    ensures |bytes| == n
  {
    if n == 0 then [] else [value % 256] + LittleEndian(value / 256, n - 1)
  }

  function FromLittleEndian(bytes: seq<Byte>): nat {
    if bytes == [] then 0 else bytes[0] + 256 * FromLittleEndian(bytes[1..])
  }

  lemma {:induction false} ReadsWhatWasWritten(value: nat, n: nat)
    requires value < Pow256(n)
    ensures FromLittleEndian(LittleEndian(value, n)) == value
  {
    if n > 0 {
      ReadsWhatWasWritten(value / 256, n - 1);
      assert LittleEndian(value, n)[1..] == LittleEndian(value / 256, n - 1);
    }
  }

  lemma {:induction false} WritesWhatWasRead(bytes: seq<Byte>)
    ensures LittleEndian(FromLittleEndian(bytes), |bytes|) == bytes && FromLittleEndian(bytes) < Pow256(|bytes|)
    decreases |bytes|
  {
    if bytes != [] {
      WritesWhatWasRead(bytes[1..]);
      var rest := FromLittleEndian(bytes[1..]);
      assert (bytes[0] + 256 * rest) / 256 == rest && (bytes[0] + 256 * rest) % 256 == bytes[0];
      assert bytes == [bytes[0]] + bytes[1..];
    }
  }

  /** `value >> (8 * index)`. */
  function ShiftRight(value: nat, index: nat): nat {
    if index == 0 then value else ShiftRight(value / 256, index - 1)
  }

  /** The byte that the loop of `write_u32_le` stores at `index`. */
  lemma {:induction false} ByteAt(value: nat, index: nat)
    ensures LittleEndian(value, index + 1) == LittleEndian(value, index) + [ShiftRight(value, index) % 256]
  {
    if index > 0 { ByteAt(value / 256, index - 1); }
  }

  lemma {:induction false} ReadOneMore(bytes: seq<Byte>, b: Byte)
    ensures FromLittleEndian(bytes + [b]) == FromLittleEndian(bytes) + b * Pow256(|bytes|)
    decreases |bytes|
  {
    if bytes != [] {
      assert (bytes + [b])[1..] == bytes[1..] + [b];
      ReadOneMore(bytes[1..], b);
    }
  }

  // ---- Laying out fields one after another ----

  function Flatten(fields: seq<seq<Byte>>): seq<Byte> {
    if fields == [] then [] else Flatten(fields[..|fields| - 1]) + fields[|fields| - 1]
  }

  /** The offsets leave no gap between fields of these widths. */
  ghost predicate Contiguous(offsets: seq<nat>, widths: seq<nat>) {
    && |offsets| == |widths| > 0 && offsets[0] == 0
    && forall k :: 0 < k < |offsets| ==> offsets[k] == offsets[k - 1] + widths[k - 1]
  }

  function End(offsets: seq<nat>, widths: seq<nat>, k: nat): nat
    requires |offsets| == |widths| && k <= |offsets|
  {
    if k == 0 then 0 else offsets[k - 1] + widths[k - 1]
  }

  ghost predicate HasWidths(fields: seq<seq<Byte>>, widths: seq<nat>) {
    |fields| == |widths| && forall k :: 0 <= k < |fields| ==> |fields[k]| == widths[k]
  }

  lemma FlattenStep(fields: seq<seq<Byte>>, k: nat)
    requires k < |fields|
    ensures Flatten(fields[..k + 1]) == Flatten(fields[..k]) + fields[k]
  {
    assert fields[..k + 1][..k] == fields[..k];
  }

  lemma {:induction false} PrefixLength(fields: seq<seq<Byte>>, offsets: seq<nat>, widths: seq<nat>, k: nat)
    requires Contiguous(offsets, widths) && HasWidths(fields, widths) && k <= |fields|
    ensures |Flatten(fields[..k])| == End(offsets, widths, k)
  {
    if k > 0 {
      PrefixLength(fields, offsets, widths, k - 1);
      FlattenStep(fields, k - 1);
    }
  }

  lemma {:induction false} PrefixOfWhole(fields: seq<seq<Byte>>, k: nat)
    requires k <= |fields|
    ensures Flatten(fields[..k]) <= Flatten(fields)
    decreases |fields| - k
  {
    if k == |fields| {
      assert fields[..k] == fields;
    } else {
      FlattenStep(fields, k);
      PrefixOfWhole(fields, k + 1);
    }
  }

  /** Each field is found at its offset. */
  lemma FieldAt(fields: seq<seq<Byte>>, offsets: seq<nat>, widths: seq<nat>, k: nat)
    requires Contiguous(offsets, widths) && HasWidths(fields, widths) && k < |fields|
    ensures offsets[k] + widths[k] <= |Flatten(fields)|
    ensures Flatten(fields)[offsets[k]..offsets[k] + widths[k]] == fields[k]
  {
    PrefixLength(fields, offsets, widths, k);
    PrefixLength(fields, offsets, widths, k + 1);
    FlattenStep(fields, k);
    PrefixOfWhole(fields, k + 1);
    var whole, before, upTo := Flatten(fields), Flatten(fields[..k]), Flatten(fields[..k + 1]);
    assert upTo == whole[..|upTo|];
    assert upTo[|before|..] == fields[k];
  }

  /** Records that agree on every field are equal. */
  lemma {:induction false} SameFields(a: seq<Byte>, b: seq<Byte>, offsets: seq<nat>, widths: seq<nat>, k: nat)
    requires Contiguous(offsets, widths) && k <= |offsets|
    requires End(offsets, widths, k) <= |a| && End(offsets, widths, k) <= |b|
    requires forall j :: 0 <= j < k ==> offsets[j] + widths[j] <= |a| && offsets[j] + widths[j] <= |b|
    requires forall j :: 0 <= j < k ==> a[offsets[j]..offsets[j] + widths[j]] == b[offsets[j]..offsets[j] + widths[j]]
    ensures a[..End(offsets, widths, k)] == b[..End(offsets, widths, k)]
  {
    if k > 0 {
      var from, to := offsets[k - 1], offsets[k - 1] + widths[k - 1];
      assert End(offsets, widths, k - 1) == from;
      SameFields(a, b, offsets, widths, k - 1);
      assert a[..to] == a[..from] + a[from..to] && b[..to] == b[..from] + b[from..to];
    }
  }

  // ---- The record buffer ----

  /** The first `k` fields are written and the rest of the buffer is still zero. */
  ghost predicate Written(record: seq<Byte>, fields: seq<seq<Byte>>, offsets: seq<nat>, widths: seq<nat>, k: nat) {
    && Contiguous(offsets, widths) && HasWidths(fields, widths) && k <= |fields|
    && End(offsets, widths, |fields|) == |record| && End(offsets, widths, k) <= |record|
    && record[..End(offsets, widths, k)] == Flatten(fields[..k])
    && forall i :: End(offsets, widths, k) <= i < |record| ==> record[i] == 0
  }

  function Patch(record: seq<Byte>, at: nat, bytes: seq<Byte>): seq<Byte>
    requires at + |bytes| <= |record|
  {
    record[..at] + bytes + record[at + |bytes|..]
  }

  lemma {:induction false} EndsIncrease(offsets: seq<nat>, widths: seq<nat>, j: nat, k: nat)
    requires Contiguous(offsets, widths) && j <= k <= |offsets|
    ensures End(offsets, widths, j) <= End(offsets, widths, k)
    decreases k
  {
    if j < k {
      EndsIncrease(offsets, widths, j, k - 1);
      if k > 1 { assert offsets[k - 1] == offsets[k - 2] + widths[k - 2]; }
    }
  }

  lemma WrittenNext(record: seq<Byte>, fields: seq<seq<Byte>>, offsets: seq<nat>, widths: seq<nat>, k: nat)
    requires Written(record, fields, offsets, widths, k) && k < |fields|
    ensures offsets[k] + |fields[k]| <= |record|
    ensures Written(Patch(record, offsets[k], fields[k]), fields, offsets, widths, k + 1)
  {
    EndsIncrease(offsets, widths, k + 1, |fields|);
    FlattenStep(fields, k);
    var after := Patch(record, offsets[k], fields[k]);
    assert End(offsets, widths, k) == offsets[k];
    assert after[..End(offsets, widths, k + 1)] == record[..offsets[k]] + fields[k];
  }

  /** A zero field needs no writing. */
  lemma WrittenZero(record: seq<Byte>, fields: seq<seq<Byte>>, offsets: seq<nat>, widths: seq<nat>, k: nat)
    requires Written(record, fields, offsets, widths, k) && k < |fields|
    requires forall i :: 0 <= i < |fields[k]| ==> fields[k][i] == 0
    ensures Written(record, fields, offsets, widths, k + 1)
  {
    WrittenNext(record, fields, offsets, widths, k);
    var at := offsets[k];
    assert End(offsets, widths, k) == at;
    assert Patch(record, at, fields[k]) == record;
  }

  lemma WrittenAll(record: seq<Byte>, fields: seq<seq<Byte>>, offsets: seq<nat>, widths: seq<nat>)
    requires Written(record, fields, offsets, widths, |fields|)
    ensures record == Flatten(fields)
  {
    assert fields[..|fields|] == fields && record[..|record|] == record;
  }

  lemma WrittenNone(record: seq<Byte>, fields: seq<seq<Byte>>, offsets: seq<nat>, widths: seq<nat>)
    requires Contiguous(offsets, widths) && HasWidths(fields, widths)
    requires End(offsets, widths, |fields|) == |record| && forall i :: 0 <= i < |record| ==> record[i] == 0
    ensures Written(record, fields, offsets, widths, 0)
  {}

  // ---- The loops ----

  /** `write_u16_le`, `write_u32_le`, `write_u64_le`. */
  method WriteNumber(record: array<Byte>, at: nat, value: nat, width: nat)
    requires at + width <= record.Length
    modifies record
    ensures record[..] == Patch(old(record[..]), at, LittleEndian(value, width))
  {
    ghost var before := record[..];
    var index := 0;
    while index < width
      invariant index <= width
      invariant record[..] == Patch(before, at, LittleEndian(value, index))
    {
      ByteAt(value, index);
      record[at + index] := ShiftRight(value, index) % 256;
      index := index + 1;
    }
  }

  /** `read_u16_le`, `read_u32_le`, `read_u64_le`: the shifted bytes do not overlap, so
      joining them is adding them. */
  method ReadNumber(record: seq<Byte>, at: nat, width: nat) returns (value: nat)
    requires at + width <= |record|
    ensures value == FromLittleEndian(record[at..at + width])
  {
    value := 0;
    var index := 0;
    while index < width
      invariant index <= width && value == FromLittleEndian(record[at..at + index])
    {
      ReadOneMore(record[at..at + index], record[at + index]);
      assert record[at..at + index] + [record[at + index]] == record[at..at + index + 1];
      value := value + record[at + index] * Pow256(index);
      index := index + 1;
    }
  }

  /** `memcpy` into the record. */
  method WriteBytes(record: array<Byte>, at: nat, bytes: seq<Byte>)
    requires at + |bytes| <= record.Length
    modifies record
    ensures record[..] == Patch(old(record[..]), at, bytes)
  {
    ghost var before := record[..];
    var index := 0;
    while index < |bytes|
      invariant index <= |bytes|
      invariant record[..] == Patch(before, at, bytes[..index])
    {
      record[at + index] := bytes[index];
      index := index + 1;
    }
    assert bytes[..|bytes|] == bytes;
  }

  predicate AllZero(bytes: seq<Byte>) { forall i :: 0 <= i < |bytes| ==> bytes[i] == 0 }

  /** `bytes_are_zero`. */
  method BytesAreZero(bytes: seq<Byte>) returns (zero: bool)
    ensures zero == AllZero(bytes)
  {
    var index := 0;
    while index < |bytes|
      invariant index <= |bytes| && AllZero(bytes[..index])
    {
      if bytes[index] != 0 { return false; }
      index := index + 1;
    }
    zero := true;
  }
}
