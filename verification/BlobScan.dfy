/** Reading the repository directory. The order of entries is the file system's. */
module BlobScan {
  import opened Errors
  import opened BlobNames
  import opened BlobFiles

  datatype Summary = Summary(validCount: nat, invalidCount: nat, temporaryCount: nat, maxId: Option<nat>, nextId: nat)

  const EMPTY_SUMMARY := Summary(0, 0, 0, None, 0)

  /** The scan so far: `left` is what the directory has yet to return. */
  ghost predicate ScanUpTo(d: Directory, left: set<string>, entries: seq<Entry>, s: Summary) {
    && left <= d.Keys
    && (forall e <- entries :: IsListed(d, e) && FinalName(e.id) !in left)
    && (forall name | name in d && name !in left && FinalId(name).Some? && d[name].File? ::
          Entry(FinalId(name).value, |d[name].bytes|) in entries)
    && Distinct(entries)
    && s.temporaryCount == |Debris(d) - left|
    && |entries| + s.invalidCount + s.temporaryCount + |left| == |d|
    && IsMaxId(entries, s.maxId)
  }

  ghost predicate Distinct(entries: seq<Entry>) {
    forall i, j :: 0 <= i < j < |entries| ==> entries[i].id != entries[j].id
  }

  lemma ScanStarts(d: Directory)
    ensures ScanUpTo(d, d.Keys, [], EMPTY_SUMMARY)
  {
    assert Debris(d) - d.Keys == {};
  }

  /** `process_directory_entry`: what one name adds. */
  function Process(d: Directory, name: string, entries: seq<Entry>, s: Summary): (seq<Entry>, Summary)
    requires name in d
  {
    if FinalId(name).Some? && d[name].File? then
      var id := FinalId(name).value;
      (entries + [Entry(id, |d[name].bytes|)],
       if s.maxId == None || id > s.maxId.value then s.(maxId := Some(id)) else s)
    else if IsDebris(d, name) && FinalId(name) == None then (entries, s.(temporaryCount := s.temporaryCount + 1))
    else (entries, s.(invalidCount := s.invalidCount + 1))
  }

  lemma OneLess(d: Directory, left: set<string>, name: string)
    requires name in left && left <= d.Keys
    ensures |left - {name}| == |left| - 1
    ensures IsDebris(d, name) ==> |Debris(d) - (left - {name})| == |Debris(d) - left| + 1
    ensures !IsDebris(d, name) ==> |Debris(d) - (left - {name})| == |Debris(d) - left|
  {
    if IsDebris(d, name) {
      assert Debris(d) - (left - {name}) == (Debris(d) - left) + {name};
    } else {
      assert Debris(d) - (left - {name}) == Debris(d) - left;
    }
  }

  lemma DebrisIsNotFinal(d: Directory, name: string)
    requires IsDebris(d, name)
    ensures FinalId(name) == None
  {
    TempNames(name);
    NamesApart(TempId(name).value, TempId(name).value);
  }

  lemma MaxGrows(entries: seq<Entry>, maxId: Option<nat>, e: Entry)
    requires IsMaxId(entries, maxId)
    ensures IsMaxId(entries + [e], if maxId == None || e.id > maxId.value then Some(e.id) else maxId)
  {
    var more := entries + [e];
    assert e in more && forall f <- entries :: f in more;
    assert forall f <- more :: f == e || f in entries;
  }

  lemma ProcessBlob(d: Directory, left: set<string>, name: string, entries: seq<Entry>, s: Summary)
    requires ScanUpTo(d, left, entries, s) && name in left && FinalId(name).Some? && d[name].File?
    ensures var (entries', s') := Process(d, name, entries, s); ScanUpTo(d, left - {name}, entries', s')
  {
    hide Debris;
    hide IsMaxId;
    var (entries', s') := Process(d, name, entries, s);
    var id := FinalId(name).value;
    var e := Entry(id, |d[name].bytes|);
    assert name == FinalName(id) by { FinalNames(name); }
    assert !IsDebris(d, name) by { if IsDebris(d, name) { DebrisIsNotFinal(d, name); } }
    OneLess(d, left, name);
    MaxGrows(entries, s.maxId, e);
    assert forall f <- entries' :: f in entries || f == e;
    assert forall f <- entries :: f in entries';
    assert e in entries';
    forall i, j | 0 <= i < j < |entries'| ensures entries'[i].id != entries'[j].id {
      if j == |entries| { assert entries[i] in entries; }
    }
  }

  lemma ProcessOther(d: Directory, left: set<string>, name: string, entries: seq<Entry>, s: Summary)
    requires ScanUpTo(d, left, entries, s) && name in left && !(FinalId(name).Some? && d[name].File?)
    ensures var (entries', s') := Process(d, name, entries, s); ScanUpTo(d, left - {name}, entries', s')
  {
    hide Debris;
    hide IsMaxId;
    hide Distinct;
    if IsDebris(d, name) { DebrisIsNotFinal(d, name); }
    OneLess(d, left, name);
  }

  // ---- Sorting the entries ----

  lemma {:induction false} DistinctCounts(entries: seq<Entry>, e: Entry)
    requires Distinct(entries)
    ensures multiset(entries)[e] <= 1
  {
    if entries != [] {
      var init, last := entries[..|entries| - 1], entries[|entries| - 1];
      assert entries == init + [last];
      DistinctCounts(init, e);
      assert last !in init by {
        forall k | 0 <= k < |init| ensures init[k] != last { assert entries[k] == init[k]; }
      }
    }
  }

  lemma TwiceCounts(entries: seq<Entry>, i: nat, j: nat)
    requires i < j < |entries| && entries[i] == entries[j]
    ensures multiset(entries)[entries[i]] >= 2
  {
    assert entries == entries[..j] + entries[j..];
    assert entries[i] == entries[..j][i] && entries[j] == entries[j..][0];
    assert entries[i] in entries[..j] && entries[i] in entries[j..];
  }

  lemma SameId(entries: seq<Entry>, e: Entry, f: Entry)
    requires Distinct(entries) && e in entries && f in entries && e.id == f.id
    ensures e == f
  {
    var i :| 0 <= i < |entries| && entries[i] == e;
    var j :| 0 <= j < |entries| && entries[j] == f;
  }

  lemma SortedStrictly(found: seq<Entry>, sorted: seq<Entry>)
    requires Distinct(found) && NewestFirst(sorted) && multiset(sorted) == multiset(found)
    ensures forall i, j :: 0 <= i < j < |sorted| ==> sorted[i].id > sorted[j].id
    ensures forall e :: e in sorted <==> e in found
  {
    forall e ensures e in sorted <==> e in found {
      assert e in multiset(sorted) <==> e in multiset(found);
    }
    forall i, j | 0 <= i < j < |sorted| ensures sorted[i].id > sorted[j].id {
      assert sorted[i] in sorted && sorted[j] in sorted;
      if sorted[i].id == sorted[j].id {
        SameId(found, sorted[i], sorted[j]);
        TwiceCounts(sorted, i, j);
        DistinctCounts(found, sorted[i]);
        assert false;
      }
    }
  }

  method SortEntries(found: seq<Entry>) returns (sorted: seq<Entry>)
    requires Distinct(found)
    ensures |sorted| == |found| && forall e :: e in sorted <==> e in found
    ensures forall i, j :: 0 <= i < j < |sorted| ==> sorted[i].id > sorted[j].id
  {
    var entries := new Entry[|found|](i requires 0 <= i < |found| => found[i]);
    assert entries[..] == found;
    SortNewestFirst(entries);
    sorted := entries[..];
    assert |multiset(sorted)| == |multiset(found)|;
    SortedStrictly(found, sorted);
  }

  lemma ProcessAny(d: Directory, left: set<string>, name: string, entries: seq<Entry>, s: Summary)
    requires ScanUpTo(d, left, entries, s) && name in left
    ensures name in d
    ensures var (entries', s') := Process(d, name, entries, s); ScanUpTo(d, left - {name}, entries', s')
  {
    hide IsListed;
    hide Debris;
    if FinalId(name).Some? && d[name].File? { ProcessBlob(d, left, name, entries, s); }
    else { ProcessOther(d, left, name, entries, s); }
  }

  lemma ScanEnds(d: Directory, entries: seq<Entry>, s: Summary)
    requires ScanUpTo(d, {}, entries, s)
    ensures Distinct(entries) && IsMaxId(entries, s.maxId)
    ensures s.temporaryCount == |Debris(d)| && |entries| + s.invalidCount + s.temporaryCount == |d|
    ensures s.maxId != Some(0) && (s.maxId == Some(UINT64_MAX) ==> HasLastId(d))
    ensures forall e <- entries :: IsListed(d, e)
    ensures forall name | name in d && FinalId(name).Some? && d[name].File? ::
          Entry(FinalId(name).value, |d[name].bytes|) in entries
  {
    assert Debris(d) - {} == Debris(d);
    if s.maxId.Some? {
      var e :| e in entries && e.id == s.maxId.value;
      assert IsListed(d, e);
    }
  }

  lemma SortedLists(d: Directory, found: seq<Entry>, sorted: seq<Entry>, maxId: Option<nat>)
    requires IsMaxId(found, maxId) && |sorted| == |found| && forall e :: e in sorted <==> e in found
    requires forall i, j :: 0 <= i < j < |sorted| ==> sorted[i].id > sorted[j].id
    requires forall e <- found :: IsListed(d, e)
    requires forall name | name in d && FinalId(name).Some? && d[name].File? ::
          Entry(FinalId(name).value, |d[name].bytes|) in found
    ensures IsMaxId(sorted, maxId) && Lists(d, sorted)
  {
    hide IsListed;
  }

  /** What a successful scan tells. */
  ghost predicate ScanTells(d: Directory, persisted: nat, summary: Summary, entries: seq<Entry>) {
    && Lists(d, entries) && summary.validCount == |entries| && IsMaxId(entries, summary.maxId)
    && summary.temporaryCount == |Debris(d)|
    && summary.validCount + summary.invalidCount + summary.temporaryCount == |d|
    && DeriveNextId(persisted, summary.maxId) == NextId(summary.nextId)
  }

  /** The directory loop. */
  method ScanEntries(d: Directory, reliable: bool) returns (ok: bool, found: seq<Entry>, summary: Summary)
    ensures ok ==> ScanUpTo(d, {}, found, summary)
    ensures reliable ==> ok
  {
    hide ScanUpTo;
    hide Process;
    hide Debris;
    found, summary := [], EMPTY_SUMMARY;
    var left := d.Keys;
    ScanStarts(d);
    while left != {}
      invariant ScanUpTo(d, left, found, summary)
      decreases |left|
    {
      var readOk: bool, statOk: bool := *, *;
      if !readOk && !reliable { return false, found, summary; }
      var name :| name in left;
      if (FinalId(name).Some? || TempId(name).Some?) && !statOk && !reliable { return false, found, summary; }
      ProcessAny(d, left, name, found, summary);
      var (more, counted) := Process(d, name, found, summary);
      found, summary := more, counted;
      Shrinks(left, name);
      left := left - {name};
    }
    ok := true;
  }

  lemma Shrinks(left: set<string>, name: string)
    requires name in left
    ensures |left - {name}| < |left|
  {}

  /** `storage_blob_scan_with_ops`: on success the entries are the directory's blobs,
      newest first, and the next id is past them all. When no operation fails it
      succeeds unless a blob has the last id. */
  method Scan(d: Directory, persisted: nat, reliable: bool) returns (result: Error, summary: Summary, entries: seq<Entry>)
    ensures result != NoError ==> entries == []
    ensures result == NoError ==> ScanTells(d, persisted, summary, entries)
    ensures result == StorageFull ==> HasLastId(d)
    ensures reliable && !HasLastId(d) ==> result == NoError
  {
    hide ScanUpTo;
    hide Debris;
    hide Lists;
    hide IsMaxId;
    hide IsListed;
    hide FinalName;
    summary, entries := EMPTY_SUMMARY, [];
    var canOpen: bool, canClose: bool := *, *;
    if !canOpen && !reliable { return IoError, summary, entries; }
    var ok, found;
    ok, found, summary := ScanEntries(d, reliable);
    if !ok || (!canClose && !reliable) { return IoError, summary, entries; }
    ScanEnds(d, found, summary);
    summary := summary.(validCount := |found|);
    match DeriveNextId(persisted, summary.maxId)
    case NextIdFull =>
      result := StorageFull;
    case NextIdInvalid =>
      result := InvalidArgument;
    case NextId(id) =>
      summary := summary.(nextId := id);
      entries := SortEntries(found);
      SortedLists(d, found, entries, summary.maxId);
      result := NoError;
  }
}
