/** Blob file names, the next id after a scan, and the newest-first order. */
module BlobNames {
  import opened Errors

  const ID_DIGITS := 20
  const FINAL_SUFFIX: string := ".gz"
  const TEMP_SUFFIX: string := ".gz.tmp"

  predicate IsBlobId(id: nat) { 1 <= id <= UINT64_MAX }

  // ---- Names ----

  predicate IsDigit(c: char) { '0' <= c <= '9' }

  function DigitValue(c: char): nat
    requires IsDigit(c)
  {
    c as int - '0' as int
  }

  predicate AllDigits(text: string) { forall c <- text :: IsDigit(c) }

  function Value(digits: string): nat
    requires AllDigits(digits)
  {
    if digits == [] then 0
    else Value(digits[..|digits| - 1]) * 10 + DigitValue(digits[|digits| - 1])
  }

  /** `n` in decimal, padded with zeros to `width`. */
  function Padded(n: nat, width: nat): (digits: string)
    ensures |digits| == width && AllDigits(digits)
  {
    if width == 0 then [] else Padded(n / 10, width - 1) + [(n % 10 + '0' as int) as char]
  }

  function Power(n: nat): (p: nat)
    ensures p >= 1
  {
    if n == 0 then 1 else 10 * Power(n - 1)
  }

  /** `storage_blob_format_filename` for a nonzero id, with either suffix. */
  function NameOf(id: nat, suffix: string): string { Padded(id, ID_DIGITS) + suffix }

  /** What a name parses to, in unbounded arithmetic. */
  function ParseName(name: string, suffix: string): (id: Option<nat>)
    ensures id.Some? ==> IsBlobId(id.value)
  {
    if |name| != ID_DIGITS + |suffix| || name[ID_DIGITS..] != suffix || !AllDigits(name[..ID_DIGITS]) then None
    else if IsBlobId(Value(name[..ID_DIGITS])) then Some(Value(name[..ID_DIGITS]))
    else None
  }

  lemma {:induction false} ValuePadded(n: nat, width: nat)
    requires n < Power(width)
    ensures Value(Padded(n, width)) == n
  {
    if width > 0 {
      ValuePadded(n / 10, width - 1);
      assert Padded(n, width)[..width - 1] == Padded(n / 10, width - 1);
    }
  }

  lemma LastDigit(v: nat, d: nat)
    requires d < 10
    ensures (v * 10 + d) / 10 == v && (v * 10 + d) % 10 == d
  {}

  lemma {:induction false} PaddedValue(digits: string)
    requires AllDigits(digits)
    ensures Padded(Value(digits), |digits|) == digits && Value(digits) < Power(|digits|)
  {
    if digits != [] {
      var init, last := digits[..|digits| - 1], digits[|digits| - 1];
      PaddedValue(init);
      assert Value(digits) == Value(init) * 10 + DigitValue(last) && 0 <= DigitValue(last) < 10;
      LastDigit(Value(init), DigitValue(last));
      assert digits == init + [last];
    }
  }

  lemma {:induction false} PrefixValue(digits: string, k: nat)
    requires AllDigits(digits) && k <= |digits|
    ensures AllDigits(digits[..k]) && Value(digits[..k]) <= Value(digits)
    decreases |digits|
  {
    if k < |digits| {
      var init := digits[..|digits| - 1];
      PrefixValue(init, k);
      assert init[..k] == digits[..k];
    } else {
      assert digits[..k] == digits;
    }
  }

  lemma TwentyDigits()
    ensures UINT64_MAX < Power(ID_DIGITS)
  {
    assert Power(5) == 100000;
    assert Power(10) == 100000 * 100000 by { assert Power(6) == 1000000; }
    assert Power(15) == Power(10) * 100000;
    assert Power(20) == Power(15) * 100000;
  }

  /** Formatting and parsing are inverse on all 64-bit ids but zero, so a blob has
      exactly one canonical and one temporary name. */
  lemma NameRoundTrip(name: string, suffix: string, id: nat)
    requires IsBlobId(id)
    ensures ParseName(name, suffix) == Some(id) <==> name == NameOf(id, suffix)
  {
    TwentyDigits();
    ValuePadded(id, ID_DIGITS);
    var made := NameOf(id, suffix);
    assert made[..ID_DIGITS] == Padded(id, ID_DIGITS) && made[ID_DIGITS..] == suffix;
    if ParseName(name, suffix) == Some(id) {
      PaddedValue(name[..ID_DIGITS]);
      assert name == name[..ID_DIGITS] + name[ID_DIGITS..];
    }
  }

  function FinalName(id: nat): string { NameOf(id, FINAL_SUFFIX) }
  function TempName(id: nat): string { NameOf(id, TEMP_SUFFIX) }
  function FinalId(name: string): (id: Option<nat>)
    ensures id.Some? ==> IsBlobId(id.value)
  { ParseName(name, FINAL_SUFFIX) }
  function TempId(name: string): (id: Option<nat>)
    ensures id.Some? ==> IsBlobId(id.value)
  { ParseName(name, TEMP_SUFFIX) }

  lemma NamesApart(id: nat, other: nat)
    requires IsBlobId(id) && IsBlobId(other)
    ensures FinalId(FinalName(id)) == Some(id) && TempId(TempName(id)) == Some(id)
    ensures FinalId(TempName(id)) == None && TempId(FinalName(id)) == None
    ensures FinalName(id) != TempName(other)
    ensures id != other ==> FinalName(id) != FinalName(other) && TempName(id) != TempName(other)
  {
    NameRoundTrip(FinalName(id), FINAL_SUFFIX, id);
    NameRoundTrip(TempName(id), TEMP_SUFFIX, id);
    NameRoundTrip(FinalName(other), FINAL_SUFFIX, other);
    NameRoundTrip(TempName(other), TEMP_SUFFIX, other);
    assert |FinalName(id)| == 23 && |TempName(other)| == 27 && |TempName(id)| == 27;
  }

  lemma FinalNames(name: string)
    requires FinalId(name).Some?
    ensures name == FinalName(FinalId(name).value)
  {
    NameRoundTrip(name, FINAL_SUFFIX, FinalId(name).value);
  }

  lemma TempNames(name: string)
    requires TempId(name).Some?
    ensures name == TempName(TempId(name).value)
  {
    NameRoundTrip(name, TEMP_SUFFIX, TempId(name).value);
  }

  /** The loop of `storage_blob_parse_filename` and `storage_blob_parse_temporary_filename`:
      its guard keeps the value inside 64 bits and rejects exactly the larger ones. */
  method Parse(name: string, suffix: string) returns (id: Option<nat>)
    ensures id == ParseName(name, suffix)
  {
    if |name| != ID_DIGITS + |suffix| || name[ID_DIGITS..] != suffix { return None; }
    ghost var digits := name[..ID_DIGITS];
    var value: nat := 0;
    var index := 0;
    while index < ID_DIGITS
      invariant index <= ID_DIGITS && AllDigits(digits[..index])
      invariant value == Value(digits[..index]) && value <= UINT64_MAX
    {
      var c := name[index];
      if !IsDigit(c) {
        assert c in digits;
        return None;
      }
      assert digits[..index + 1][..index] == digits[..index];
      assert Value(digits[..index + 1]) == value * 10 + DigitValue(c);
      if value > (UINT64_MAX - DigitValue(c)) / 10 {
        if AllDigits(digits) { PrefixValue(digits, index + 1); }
        return None;
      }
      value := value * 10 + DigitValue(c);
      index := index + 1;
    }
    assert digits[..ID_DIGITS] == digits;
    id := if value == 0 then None else Some(value);
  }

  // ---- The next id ----

  datatype NextId = NextId(id: nat) | NextIdFull | NextIdInvalid

  /** `storage_blob_derive_next_id`. */
  function DeriveNextId(persisted: nat, maxId: Option<nat>): NextId {
    if maxId == Some(0) then NextIdInvalid
    else
      var base := if persisted == 0 then 1 else persisted;
      match maxId
      case None => NextId(base)
      case Some(id) =>
        if id == UINT64_MAX then NextIdFull
        else if base < id + 1 then NextId(id + 1)
        else NextId(base)
  }

  /** The least id that is neither below the counter nor in use at or above it. */
  lemma NextIdIsLeast(persisted: nat, maxId: Option<nat>, candidate: nat)
    requires DeriveNextId(persisted, maxId).NextId?
    ensures var next := DeriveNextId(persisted, maxId).id;
      next <= candidate <==> 1 <= candidate && persisted <= candidate && (maxId.Some? ==> maxId.value < candidate)
  {}

  // ---- Newest first ----

  datatype Entry = Entry(id: nat, storedBytes: nat)

  predicate NewestFirst(entries: seq<Entry>) {
    forall i, j :: 0 <= i < j < |entries| ==> entries[i].id >= entries[j].id
  }

  /** Where insertion puts a candidate behind all entries that are not older. */
  function Insert(entries: seq<Entry>, candidate: Entry): seq<Entry> {
    if entries == [] || entries[|entries| - 1].id >= candidate.id then entries + [candidate]
    else Insert(entries[..|entries| - 1], candidate) + [entries[|entries| - 1]]
  }

  function Sorted(entries: seq<Entry>): seq<Entry> {
    if entries == [] then [] else Insert(Sorted(entries[..|entries| - 1]), entries[|entries| - 1])
  }

  lemma {:induction false} InsertContents(entries: seq<Entry>, candidate: Entry)
    ensures multiset(Insert(entries, candidate)) == multiset(entries) + multiset{candidate}
    ensures |Insert(entries, candidate)| == |entries| + 1
  {
    if entries != [] && entries[|entries| - 1].id < candidate.id {
      var init := entries[..|entries| - 1];
      assert entries == init + [entries[|entries| - 1]];
      InsertContents(init, candidate);
    }
  }

  lemma InsertMembers(entries: seq<Entry>, candidate: Entry)
    ensures forall e <- Insert(entries, candidate) :: e == candidate || e in entries
  {
    InsertContents(entries, candidate);
    hide Insert;
    forall e | e in Insert(entries, candidate) ensures e == candidate || e in entries {
      assert e in multiset(Insert(entries, candidate));
    }
  }

  lemma {:induction false} InsertOrdered(entries: seq<Entry>, candidate: Entry)
    requires NewestFirst(entries)
    ensures NewestFirst(Insert(entries, candidate))
  {
    if entries != [] && entries[|entries| - 1].id < candidate.id {
      var init, last := entries[..|entries| - 1], entries[|entries| - 1];
      InsertOrdered(init, candidate);
      InsertMembers(init, candidate);
      var inserted := Insert(init, candidate);
      assert Insert(entries, candidate) == inserted + [last];
      hide Insert;
      forall i | 0 <= i < |inserted| ensures inserted[i].id >= last.id {
        assert inserted[i] in inserted;
      }
    }
  }

  lemma {:induction false} SortedIsNewestFirst(entries: seq<Entry>)
    ensures NewestFirst(Sorted(entries)) && multiset(Sorted(entries)) == multiset(entries)
    ensures |Sorted(entries)| == |entries|
  {
    if entries != [] {
      var init := entries[..|entries| - 1];
      assert entries == init + [entries[|entries| - 1]];
      SortedIsNewestFirst(init);
      hide Insert;
      InsertOrdered(Sorted(init), entries[|entries| - 1]);
      InsertContents(Sorted(init), entries[|entries| - 1]);
    }
  }

  /** `storage_blob_sort_newest_first`, in place. */
  method SortNewestFirst(entries: array<Entry>)
    modifies entries
    ensures entries[..] == Sorted(old(entries[..]))
    ensures NewestFirst(entries[..]) && multiset(entries[..]) == multiset(old(entries[..]))
  {
    ghost var was := entries[..];
    hide Insert;
    var index := 0;
    while index < entries.Length
      invariant index <= entries.Length
      invariant entries[..][..index] == Sorted(was[..index])
      invariant entries[..][index..] == was[index..]
    {
      ghost var before := entries[..];
      assert entries[index] == before[index..][0] == was[index];
      SortedStep(was, index);
      ShiftAndPlace(entries, index, entries[index]);
      assert before[index + 1..] == before[index..][1..] && was[index + 1..] == was[index..][1..];
      index := index + 1;
    }
    assert was[..|was|] == was && entries[..][..entries.Length] == entries[..];
    SortedIsNewestFirst(was);
  }

  lemma SortedStep(entries: seq<Entry>, k: nat)
    requires k < |entries|
    ensures Sorted(entries[..k + 1]) == Insert(Sorted(entries[..k]), entries[k])
  {
    assert entries[..k + 1][..k] == entries[..k];
  }

  /** The inner loop. */
  method ShiftAndPlace(entries: array<Entry>, index: nat, candidate: Entry)
    requires index < entries.Length && entries[index] == candidate
    modifies entries
    ensures entries[..][..index + 1] == Insert(old(entries[..])[..index], candidate)
    ensures entries[..][index + 1..] == old(entries[..])[index + 1..]
  {
    ghost var before := entries[..];
    ghost var was := before[..index];
    hide Insert;
    hide Shifted;
    assert was[..index] == was && was[index..] == [];
    ShiftedNone(before, index);
    var destination := index;
    while destination > 0 && entries[destination - 1].id < candidate.id
      invariant destination <= index < entries.Length == |before|
      invariant Shifted(entries[..], before, index, destination)
      invariant Insert(was, candidate) == Insert(was[..destination], candidate) + was[destination..]
    {
      ghost var now := entries[..];
      ShiftedStep(now, before, index, destination);
      InsertStep(was, destination, candidate);
      entries[destination] := entries[destination - 1];
      assert entries[..] == now[destination := now[destination - 1]];
      destination := destination - 1;
    }
    ghost var now := entries[..];
    ShiftedPlaced(now, before, index, destination, candidate);
    InsertEnd(was[..destination], candidate);
    entries[destination] := candidate;
    assert entries[..] == now[destination := candidate];
  }

  /** Everything from `destination` up to `index` has moved up by one. */
  ghost predicate Shifted(now: seq<Entry>, before: seq<Entry>, index: nat, destination: nat) {
    && |now| == |before| && destination <= index < |now|
    && (forall k :: 0 <= k < destination ==> now[k] == before[k])
    && (forall k :: destination < k <= index ==> now[k] == before[k - 1])
    && (forall k :: index < k < |now| ==> now[k] == before[k])
  }

  lemma ShiftedNone(before: seq<Entry>, index: nat)
    requires index < |before|
    ensures Shifted(before, before, index, index)
  {}

  lemma ShiftedStep(now: seq<Entry>, before: seq<Entry>, index: nat, destination: nat)
    requires Shifted(now, before, index, destination) && destination > 0
    ensures now[destination - 1] == before[..index][destination - 1]
    ensures Shifted(now[destination := now[destination - 1]], before, index, destination - 1)
  {}

  lemma ShiftedPlaced(now: seq<Entry>, before: seq<Entry>, index: nat, destination: nat, candidate: Entry)
    requires Shifted(now, before, index, destination)
    ensures destination > 0 ==> now[destination - 1] == before[..index][..destination][destination - 1]
    ensures var after := now[destination := candidate];
      && after[..index + 1] == before[..index][..destination] + [candidate] + before[..index][destination..]
      && after[index + 1..] == before[index + 1..]
  {}

  lemma InsertEnd(entries: seq<Entry>, candidate: Entry)
    requires entries == [] || entries[|entries| - 1].id >= candidate.id
    ensures Insert(entries, candidate) == entries + [candidate]
  {}

  lemma InsertStep(was: seq<Entry>, destination: nat, candidate: Entry)
    requires 0 < destination <= |was| && was[destination - 1].id < candidate.id
    requires Insert(was, candidate) == Insert(was[..destination], candidate) + was[destination..]
    ensures Insert(was, candidate) == Insert(was[..destination - 1], candidate) + was[destination - 1..]
  {
    assert was[..destination][..destination - 1] == was[..destination - 1];
    assert was[destination - 1..] == [was[destination - 1]] + was[destination..];
  }
}
