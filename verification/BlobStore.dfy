/** The blob store: staged uploads, the id counter, deletion, recovery and power cuts.

    Every file operation may fail, and at any of them the power may go: from then on
    nothing has an effect until `PowerCut` restarts the device. A cut brings back one
    of the directory states since the directory was last synchronised. */
module BlobStore {
  import opened Errors
  import opened BlobNames
  import opened BlobFiles
  import opened BlobScan

  const BLOB_MAX_BYTES := 131072

  datatype Upload = Upload(attached: bool, active: bool, id: nat, expected: nat, stored: nat,
                           finalOwned: bool, committed: bool)

  const NO_UPLOAD := Upload(false, false, 0, 0, 0, false, false)

  datatype Commitment = NotApplicable | NotCommitted | Committed | Uncertain

  datatype Detailed = Detailed(primary: Error, cleanup: Error, state: Commitment)

  ghost predicate Increasing(ids: seq<nat>) {
    forall i, j :: 0 <= i < j < |ids| ==> ids[i] < ids[j]
  }

  ghost predicate Below(ids: seq<nat>, bound: nat) { forall id <- ids :: id < bound }

  /** Every committed blob is still kept, unless it was deleted. */
  ghost predicate Remembered(committed: seq<nat>, kept: map<string, Bytes>, deleted: set<string>) {
    forall id <- committed :: FinalName(id) in kept || FinalName(id) in deleted
  }

  lemma RememberedMore(committed: seq<nat>, kept: map<string, Bytes>, deleted: set<string>, id: nat, bytes: Bytes)
    requires Remembered(committed, kept, deleted)
    ensures Remembered(committed + [id], kept[FinalName(id) := bytes], deleted)
  {}

  lemma Extended(ids: seq<nat>, id: nat)
    requires Increasing(ids) && Below(ids, id)
    ensures Increasing(ids + [id]) && Below(ids + [id], id + 1)
  {
    forall i | 0 <= i < |ids| ensures ids[i] < id { assert ids[i] in ids; }
  }

  /** What the temporary file of an upload holds. */
  ghost predicate IsStaged(d: Directory, upload: Upload, accepted: Bytes, leaked: nat) {
    && TempName(upload.id) in d && d[TempName(upload.id)].File?
    && |accepted| == upload.stored
    && FileHolds(d[TempName(upload.id)].bytes, accepted, leaked)
  }

  lemma StagedMore(before: Directory, after: Directory, upload: Upload, accepted: Bytes, leaked: nat, data: Bytes, written: nat)
    requires IsStaged(before, upload, accepted, leaked) && written <= |data|
    requires var name := TempName(upload.id);
      || after == before[name := File(before[name].bytes + data[..written], false)]
      || (written == 0 && after == before)
    ensures written == |data| ==> IsStaged(after, upload.(stored := upload.stored + |data|), accepted + data, leaked)
    ensures written < |data| ==> IsStaged(after, upload, accepted, leaked + written)
    ensures before[TempName(upload.id) := after[TempName(upload.id)]] == after
  {}

  /** The upload's temporary file has become its blob and nothing else has changed:
      the blob is complete exactly when no failed write left bytes behind. */
  ghost predicate Activated(before: Directory, after: Directory, id: nat, expected: nat, accepted: Bytes, leaked: nat) {
    var temp, final := TempName(id), FinalName(id);
    && temp in before && before[temp].File? && final !in before && temp !in after
    && final in after && after[final] == File(before[temp].bytes, true)
    && after - {final} == before - {temp}
    && |accepted| == expected
    && |after[final].bytes| == expected + leaked
    && (after[final].bytes == accepted <==> leaked == 0)
  }

  /** What a rename leaves on record. */
  function UploadRecord(upload: Upload, accepted: Bytes, bytes: Bytes, leaked: nat): Record {
    Record(upload.id, upload.expected, accepted, bytes, leaked)
  }

  lemma ActivatedNow(before: Directory, staged: Directory, after: Directory, upload: Upload, accepted: Bytes, leaked: nat)
    requires var temp, final := TempName(upload.id), FinalName(upload.id);
      && temp in before && before[temp].File? && temp in staged && final !in staged && temp != final
      && staged == before[temp := File(before[temp].bytes, true)]
      && after == (staged - {temp})[final := staged[temp]]
      && FileHolds(before[temp].bytes, accepted, leaked) && |accepted| == upload.expected
    ensures Activated(before, after, upload.id, upload.expected, accepted, leaked)
    ensures FinalName(upload.id) in after && after[FinalName(upload.id)].bytes == before[TempName(upload.id)].bytes
  {
    var temp, final := TempName(upload.id), FinalName(upload.id);
    assert after - {final} == before - {temp};
  }

  /** The ids given out, and what became of them. */
  ghost predicate IdsOk(committed: seq<nat>, kept: map<string, Bytes>, deleted: set<string>, counter: nat,
                        booted: bool, nextId: nat) {
    && Increasing(committed) && Below(committed, counter) && Remembered(committed, kept, deleted)
    && counter <= UINT64_MAX && (booted ==> Below(committed, nextId))
  }

  lemma IdsCommitted(committed: seq<nat>, kept: map<string, Bytes>, deleted: set<string>, counter: nat,
                     booted: bool, nextId: nat, id: nat, bytes: Bytes)
    requires IdsOk(committed, kept, deleted, counter, booted, nextId) && Below(committed, id) && id < UINT64_MAX
    ensures IdsOk(committed + [id], kept[FinalName(id) := bytes], deleted, id + 1, booted, id + 1)
  {
    Extended(committed, id);
    RememberedMore(committed, kept, deleted, id, bytes);
    hide Increasing;
    hide Below;
    hide Remembered;
  }

  lemma IdsCounter(committed: seq<nat>, kept: map<string, Bytes>, deleted: set<string>, counter: nat,
                   booted: bool, nextId: nat, id: nat)
    requires IdsOk(committed, kept, deleted, counter, booted, nextId) && Below(committed, id) && id < UINT64_MAX
    ensures IdsOk(committed, kept, deleted, id + 1, booted, nextId)
  {}

  lemma IdsDeleted(committed: seq<nat>, kept: map<string, Bytes>, deleted: set<string>, counter: nat,
                   booted: bool, nextId: nat, name: string)
    requires IdsOk(committed, kept, deleted, counter, booted, nextId)
    ensures IdsOk(committed, kept - {name}, deleted + {name}, counter, booted, nextId)
  {}

  lemma IdsForward(committed: seq<nat>, kept: map<string, Bytes>, deleted: set<string>, counter: nat,
                   booted: bool, nextId: nat, later: nat)
    requires IdsOk(committed, kept, deleted, counter, booted, nextId) && nextId <= later
    ensures IdsOk(committed, kept, deleted, counter, booted, later)
  {}

  lemma ScanMovesOn(d: Directory, persisted: nat, summary: Summary, entries: seq<Entry>)
    requires ScanTells(d, persisted, summary, entries)
    ensures persisted <= summary.nextId
  {}

  lemma IdsNext(committed: seq<nat>, kept: map<string, Bytes>, deleted: set<string>, counter: nat,
                booted: bool, nextId: nat)
    requires IdsOk(committed, kept, deleted, counter, booted, nextId)
    ensures IdsOk(committed, kept, deleted, counter, false, 0) && counter <= UINT64_MAX
    ensures forall next | next >= counter :: IdsOk(committed, kept, deleted, counter, true, next)
  {
    hide Increasing;
    hide Remembered;
  }

  ghost predicate UploadOk(upload: Upload, committed: seq<nat>, d: Directory, accepted: Bytes, leaked: nat) {
    && (upload.attached ==> IsBlobId(upload.id))
    && (upload.active ==>
          && upload.attached && !upload.committed && !upload.finalOwned && upload.stored <= upload.expected
          && Below(committed, upload.id) && IsStaged(d, upload, accepted, leaked))
  }

  lemma UploadBegun(upload: Upload, committed: seq<nat>, d: Directory)
    requires upload.attached && upload.active && upload.stored == 0 && !upload.committed && !upload.finalOwned
    requires IsBlobId(upload.id) && Below(committed, upload.id)
    requires TempName(upload.id) in d && d[TempName(upload.id)] == File([], false)
    ensures UploadOk(upload, committed, d, [], 0)
  {}

  lemma UploadFile(upload: Upload, committed: seq<nat>, d: Directory, accepted: Bytes, leaked: nat)
    requires UploadOk(upload, committed, d, accepted, leaked) && upload.active
    ensures TempName(upload.id) in d && d[TempName(upload.id)].File? && |accepted| == upload.stored
    ensures FileHolds(d[TempName(upload.id)].bytes, accepted, leaked)
    ensures IsBlobId(upload.id) && Below(committed, upload.id) && !upload.committed && !upload.finalOwned
  {}

  lemma UploadFlags(upload: Upload, committed: seq<nat>, d: Directory, accepted: Bytes, leaked: nat)
    requires UploadOk(upload, committed, d, accepted, leaked)
    ensures upload.active ==> !upload.committed && !upload.finalOwned
  {}

  lemma UploadOver(upload: Upload, committed: seq<nat>, d: Directory, accepted: Bytes, leaked: nat)
    requires !upload.active && (upload.attached ==> IsBlobId(upload.id))
    ensures UploadOk(upload, committed, d, accepted, leaked)
  {}

  lemma ActivatedFile(before: Directory, after: Directory, id: nat, expected: nat, accepted: Bytes, leaked: nat)
    requires Activated(before, after, id, expected, accepted, leaked)
    ensures FinalName(id) in after && after[FinalName(id)].File?
  {}

  /** Changes to other names leave the upload alone. */
  lemma UploadElsewhere(upload: Upload, committed: seq<nat>, d: Directory, accepted: Bytes, leaked: nat, name: string)
    requires UploadOk(upload, committed, d, accepted, leaked)
    requires upload.attached ==> name != TempName(upload.id)
    ensures UploadOk(upload, committed, d - {name}, accepted, leaked)
  {}

  lemma UploadWritten(before: Directory, after: Directory, upload: Upload, committed: seq<nat>,
                      accepted: Bytes, leaked: nat, data: Bytes, written: nat)
    requires UploadOk(upload, committed, before, accepted, leaked) && upload.active
    requires written <= |data| <= upload.expected - upload.stored
    requires var name := TempName(upload.id);
      name in before && before[name].File? &&
      ( after == before[name := File(before[name].bytes + data[..written], false)]
        || (written == 0 && after == before))
    ensures written == |data| ==>
      UploadOk(upload.(stored := upload.stored + |data|), committed, after, accepted + data, leaked)
    ensures written < |data| ==> UploadOk(upload, committed, after, accepted, leaked + written)
    ensures var name := TempName(upload.id); name in after && before[name := after[name]] == after
  {
    hide Below;
    StagedMore(before, after, upload, accepted, leaked, data, written);
  }

  /** Whatever is missing was a blob, and the rest is as it was. */
  ghost predicate OnlyBlobsGone(before: Directory, after: Directory) {
    && (forall name <- after :: name in before && after[name] == before[name])
    && (forall name <- before :: name !in after ==> FinalId(name).Some? && before[name].File?)
  }

  lemma NothingGone(d: Directory)
    ensures OnlyBlobsGone(d, d)
  {}

  lemma OneFewer(before: Directory, middle: Directory, name: string)
    requires OnlyBlobsGone(before, middle) && name in middle && FinalId(name).Some? && middle[name].File?
    ensures OnlyBlobsGone(before, middle - {name}) && |middle - {name}| == |middle| - 1
  {
    assert (middle - {name}).Keys == middle.Keys - {name};
    assert |middle.Keys| == |middle| && |(middle - {name}).Keys| == |middle - {name}|;
  }

  /** The first `index` entries have been visited. */
  ghost predicate Swept(before: Directory, d: Directory, entries: seq<Entry>, index: nat, first: Error, count: nat) {
    && index <= |entries| && OnlyBlobsGone(before, d) && |d| + count == |before|
    && (first == NoError ==> forall i :: 0 <= i < index ==> FinalName(entries[i].id) !in d)
    && (count == 0 ==> d == before)
  }

  lemma SweptNone(d: Directory, entries: seq<Entry>)
    ensures Swept(d, d, entries, 0, NoError, 0)
  {}

  lemma SweptNext(before: Directory, d: Directory, entries: seq<Entry>, index: nat, first: Error, count: nat,
                  d': Directory, error: Error)
    requires Swept(before, d, entries, index, first, count) && index < |entries|
    requires var name := FinalName(entries[index].id);
      if error == NoError then name in d && d[name].File? && FinalId(name).Some? && d' == d - {name} else d' == d
    ensures Swept(before, d', entries, index + 1, FirstError(first, error), if error == NoError then count + 1 else count)
  {
    if error == NoError { OneFewer(before, d, FinalName(entries[index].id)); }
    hide FinalName;
    hide OnlyBlobsGone;
  }

  lemma SweptAll(before: Directory, d: Directory, entries: seq<Entry>, first: Error, count: nat)
    requires Swept(before, d, entries, |entries|, first, count)
    ensures OnlyBlobsGone(before, d) && |d| + count == |before| && (count == 0 ==> d == before)
    ensures first == NoError ==> forall e <- entries :: FinalName(e.id) !in d
  {
    hide FinalName;
  }

  lemma ListedIds(d: Directory, entries: seq<Entry>)
    requires Lists(d, entries)
    ensures forall e <- entries :: e.id <= UINT64_MAX
  {
    forall e | e in entries ensures e.id <= UINT64_MAX { assert IsListed(d, e); }
  }

  lemma NoBlobLeft(before: Directory, after: Directory, entries: seq<Entry>)
    requires Lists(before, entries) && OnlyBlobsGone(before, after)
    requires forall e <- entries :: FinalName(e.id) !in after
    ensures Blobs(after) == map[]
  {
    forall name | name in before && FinalId(name).Some? && before[name].File? ensures name !in after {
      FinalNames(name);
      var e := Entry(FinalId(name).value, |before[name].bytes|);
      assert e in entries;
    }
  }

  predicate HasBlob(d: Directory, id: nat) { FinalName(id) in d && d[FinalName(id)].File? }

  /** The entries from `index` on are blobs of the directory, each listed once. */
  ghost predicate Remaining(d: Directory, entries: seq<Entry>, index: nat) {
    && (forall i, j :: 0 <= i < j < |entries| ==> entries[i].id > entries[j].id)
    && (forall i :: index <= i < |entries| ==> IsBlobId(entries[i].id) && HasBlob(d, entries[i].id))
  }

  lemma RemainingStart(d: Directory, entries: seq<Entry>)
    requires Lists(d, entries)
    ensures Remaining(d, entries, 0)
  {
    forall i | 0 <= i < |entries| ensures IsBlobId(entries[i].id) && HasBlob(d, entries[i].id) {
      assert IsListed(d, entries[i]);
    }
  }

  lemma RemainingNext(d: Directory, entries: seq<Entry>, index: nat)
    requires Remaining(d, entries, index) && index < |entries|
    ensures entries[index].id != 0 && HasBlob(d, entries[index].id)
    ensures Remaining(d - {FinalName(entries[index].id)}, entries, index + 1)
  {
    forall i | index < i < |entries| ensures HasBlob(d - {FinalName(entries[index].id)}, entries[i].id) {
      NamesApart(entries[index].id, entries[i].id);
    }
  }

  lemma LastIdStopsScan(d: Directory, persisted: nat, summary: Summary, entries: seq<Entry>)
    requires ScanTells(d, persisted, summary, entries)
    ensures !HasLastId(d)
  {
    if HasLastId(d) {
      NamesApart(UINT64_MAX, UINT64_MAX);
      var e := Entry(UINT64_MAX, |d[FinalName(UINT64_MAX)].bytes|);
      assert e in entries;
      ListedIds(d, entries);
    }
  }

  /** The debris among the names already read is gone. */
  ghost predicate Recovered(d0: Directory, left: set<string>, d: Directory, removed: nat) {
    left <= d0.Keys && d == d0 - (Debris(d0) - left) && removed == |Debris(d0) - left|
  }

  lemma RecoverStarts(d: Directory)
    ensures Recovered(d, d.Keys, d, 0)
  {
    assert Debris(d) - d.Keys == {};
  }

  lemma RecoverStep(d0: Directory, left: set<string>, d: Directory, removed: nat, name: string)
    requires Recovered(d0, left, d, removed) && name in left
    ensures name in d && d[name] == d0[name]
    ensures IsDebris(d, name) <==> IsDebris(d0, name)
    ensures IsDebris(d, name) ==> Recovered(d0, left - {name}, d - {name}, removed + 1)
    ensures !IsDebris(d, name) ==> Recovered(d0, left - {name}, d, removed)
  {
    if IsDebris(d0, name) {
      assert Debris(d0) - (left - {name}) == (Debris(d0) - left) + {name};
    } else {
      assert Debris(d0) - (left - {name}) == Debris(d0) - left;
    }
  }

  lemma RecoverEnds(d0: Directory, left: set<string>, d: Directory, removed: nat)
    requires Recovered(d0, left, d, removed)
    ensures var gone := Debris(d0) - left;
      gone <= Debris(d0) && d == d0 - gone && removed == |gone| && (left == {} ==> gone == Debris(d0))
  {}

  lemma NoDebrisGone(d: Directory)
    ensures {} <= Debris(d) && d == d - {}
  {}

  lemma DebrisGone(d: Directory)
    ensures Debris(d - Debris(d)) == {}
  {}

  lemma ScanIsFresh(d: Directory, persisted: nat, summary: Summary, entries: seq<Entry>)
    requires ScanTells(d, persisted, summary, entries) && persisted <= UINT64_MAX
    ensures persisted <= summary.nextId && 1 <= summary.nextId
    ensures FinalName(summary.nextId) in d ==> d[FinalName(summary.nextId)].Other?
  {
    ListedIds(d, entries);
    var next := summary.nextId;
    if summary.maxId.Some? {
      var e :| e in entries && e.id == summary.maxId.value;
      assert next <= UINT64_MAX;
    }
    NamesApart(next, next);
    assert forall e <- entries :: e.id != next;
  }

  lemma RunMeans(d: Directory, pending: seq<Directory>, records: set<Record>, kept: map<string, Bytes>)
    requires DiskOk(d, pending, records, kept)
    ensures forall name <- d :: FinalId(name).Some? && d[name].File? ==>
      exists r :: r in records && r.id == FinalId(name).value && r.bytes == d[name].bytes && WellRecorded(r)
  {}

  datatype Command =
    | BeginUpload(expected: nat) | WriteUpload(data: Bytes) | CommitUpload | AbortUpload
    | DeleteBlob(id: nat) | DeleteBlobs | ListBlobs | CutPower | StartUp

  lemma TempIsNotFinal(name: string)
    requires TempId(name).Some?
    ensures FinalId(name) == None
  {
    TempNames(name);
    NamesApart(TempId(name).value, TempId(name).value);
  }

  /** What a call of an upload came to. */
  datatype Event =
    | Began(id: nat, expected: nat)
    | Wrote(data: Bytes)
    | WriteFailed(data: Bytes)
    | Renamed(id: nat)    // committed, or uncertain

  /** A refused write leaves no trace. */
  function WriteEvents(data: Bytes, result: Error): seq<Event> {
    if result == NoError then [Wrote(data)] else if result == InvalidArgument then [] else [WriteFailed(data)]
  }

  class Store {
    // Durable.
    var dir: Directory
    /** Earlier directory states that a power cut may still bring back. */
    var pending: seq<Directory>
    var counter: nat
    var power: bool

    /** No operation fails on its own account and the power stays. */
    const reliable: bool

    // Lost with the power.
    var booted: bool
    var state: Summary
    var upload: Upload

    /** Of the current upload: the bytes its writes accepted, and how many more a
        failed write had put into the file before it failed. */
    ghost var accepted: Bytes
    ghost var leaked: nat

    // History.
    /** The ids reported as committed, in order. */
    ghost var committed: seq<nat>
    /** Committed blobs that nobody has deleted. */
    ghost var kept: map<string, Bytes>
    ghost var records: set<Record>
    /** What the calls of uploads came to. */
    ghost var log: seq<Event>
    /** Names that a deletion has removed. */
    ghost var deleted: set<string>

    constructor (d: Directory, counter0: nat, quiet: bool)
      requires counter0 <= UINT64_MAX && forall name <- d :: d[name].File? ==> d[name].durable
      ensures Valid() && dir == d && pending == [] && counter == counter0
      ensures committed == [] && kept == Blobs(d) && records == RecordsOf(d) && deleted == {}
      ensures !booted && power && reliable == quiet && upload == NO_UPLOAD && log == []
    {
      dir, pending, counter, power, reliable := d, [], counter0, true, quiet;
      booted, state, upload := false, EMPTY_SUMMARY, NO_UPLOAD;
      accepted, leaked, committed, kept, records, deleted := [], 0, [], Blobs(d), RecordsOf(d), {};
      log := [];
      InitiallyGood(d);
    }

    ghost predicate Valid()
      reads this
    {
      && DiskOk(dir, pending, records, kept)
      && IdsOk(committed, kept, deleted, counter, booted, state.nextId)
      && UploadOk(upload, committed, dir, accepted, leaked)
    }

    // ---- File operations ----

    /** Nothing fails and the power is on. */
    ghost predicate Steady()
      reads this`power
    {
      reliable && power
    }

    /** One operation: it may fail, and it certainly fails without power. */
    method Attempt() returns (ok: bool)
      modifies this`power
      ensures power ==> old(power)
      ensures ok ==> power
      ensures reliable && old(power) ==> ok
    {
      var cut: bool, fails: bool := *, *;
      power := power && (reliable || !cut);
      ok := power && (reliable || !fails);
    }

    method IoFailure() returns (error: Error)
      ensures error == StorageFull || error == IoError
    {
      var full: bool := *;
      error := if full then StorageFull else IoError;
    }

    /** Creates the file exclusively. */
    method OpenTemporary(name: string) returns (error: Error)
      modifies this`power, this`dir, this`pending
      ensures error == NoError || error == StorageFull || error == IoError
      ensures error == NoError ==>
        name !in old(dir) && dir == old(dir)[name := File([], false)] && pending == old(pending) + [old(dir)]
      ensures error != NoError ==> dir == old(dir) && pending == old(pending)
      ensures old(Steady()) ==> power && (error == NoError <==> name !in old(dir))
    {
      var ok := Attempt();
      if !ok || name in dir { error := IoFailure(); return; }
      pending := pending + [dir];
      dir := dir[name := File([], false)];
      error := NoError;
    }

    /** Writes what there is room for, or less on a failure. */
    method WriteStream(name: string, data: Bytes, room: nat) returns (written: nat)
      requires name in dir && dir[name].File?
      modifies this`power, this`dir
      ensures written <= |data|
      ensures dir == old(dir)[name := File(old(dir)[name].bytes + data[..written], false)]
           || (written == 0 && dir == old(dir))
      ensures old(Steady()) ==> power && written == if room < |data| then room else |data|
    {
      var ok := Attempt();
      var count: nat := *;
      if !power { return 0; }
      written := if ok && room < |data| then room else if ok then |data| else if 0 <= count < |data| then count else 0;
      dir := dir[name := File(dir[name].bytes + data[..written], false)];
    }

    /** A failed flush may leave anything in the file. */
    method FlushStream(name: string) returns (ok: bool)
      requires name in dir && dir[name].File?
      modifies this`power, this`dir
      ensures ok ==> dir == old(dir)
      ensures !ok ==> name in dir && dir[name].File? && dir == old(dir)[name := dir[name]]
      ensures old(Steady()) ==> power && ok
    {
      ok := Attempt();
      if !ok && power {
        var junk: Bytes := *;
        dir := dir[name := File(junk, false)];
      }
    }

    method SyncStream(name: string) returns (ok: bool)
      requires name in dir && dir[name].File?
      modifies this`power, this`dir
      ensures dir == if ok then old(dir)[name := File(old(dir)[name].bytes, true)] else old(dir)
      ensures old(Steady()) ==> power && ok
    {
      ok := Attempt();
      if ok { dir := dir[name := File(dir[name].bytes, true)]; }
    }

    /** `require_path_absent`. */
    method RequireAbsent(name: string) returns (error: Error)
      modifies this`power
      ensures error == NoError ==> name !in dir
      ensures error == Conflict ==> name in dir
      ensures old(Steady()) ==> power && (error == NoError <==> name !in dir)
    {
      var ok := Attempt();
      if !ok { error := IoFailure(); return; }
      error := if name in dir then Conflict else NoError;
    }

    /** A failed update of the counter may still have taken effect. */
    method PersistNextId(next: nat) returns (error: Error)
      modifies this`power, this`counter
      ensures error == NoError ==> counter == next
      ensures counter == next || counter == old(counter)
      ensures old(Steady()) ==> power && error == NoError
    {
      var ok := Attempt();
      var effect: bool, full: bool := *, *;
      if ok || (power && effect) { counter := next; }
      error := if ok then NoError else if full then StorageFull else StorageUnavailable;
    }

    method Rename(from: string, to: string) returns (ok: bool)
      requires from in dir && from != to
      modifies this`power, this`dir, this`pending
      ensures ok ==> dir == (old(dir) - {from})[to := old(dir)[from]] && pending == old(pending) + [old(dir)]
      ensures !ok ==> dir == old(dir) && pending == old(pending)
      ensures old(Steady()) ==> power && ok
    {
      ok := Attempt();
      if ok {
        pending := pending + [dir];
        dir := (dir - {from})[to := dir[from]];
      }
    }

    method Unlink(name: string) returns (error: Error)
      modifies this`power, this`dir, this`pending
      ensures error == NoError ==> name in old(dir) && dir == old(dir) - {name} && pending == old(pending) + [old(dir)]
      ensures error != NoError ==> dir == old(dir) && pending == old(pending)
      ensures error == NotFound ==> name !in dir
      ensures old(Steady()) ==> power && (error == NoError || error == NotFound)
    {
      var ok := Attempt();
      if !ok { error := IoFailure(); return; }
      if name !in dir { return NotFound; }
      pending := pending + [dir];
      dir := dir - {name};
      error := NoError;
    }

    method SyncParent() returns (ok: bool)
      modifies this`power, this`pending
      ensures ok ==> power
      ensures pending == if ok then [] else old(pending)
      ensures old(Steady()) ==> ok
    {
      ok := Attempt();
      if ok { pending := []; }
    }

    /** `unlink_path_if_present` on a name that is no blob's. */
    method UnlinkIfPresent(name: string) returns (error: Error)
      requires DiskOk(dir, pending, records, kept) && FinalId(name) == None
      modifies this`power, this`dir, this`pending
      ensures DiskOk(dir, pending, records, kept)
      ensures dir == old(dir) || dir == old(dir) - {name}
      ensures error == NoError ==> name !in dir
      ensures old(Steady()) ==> power && error == NoError
    {
      DiskTemp(dir, pending, records, kept, name, Other);
      hide DiskOk;
      error := Unlink(name);
      if error == NotFound { error := NoError; }
    }

    // ---- Uploads ----

    /** `storage_blob_upload_begin`. */
    method Begin(expected: nat) returns (result: Error)
      requires Valid() && booted
      modifies this`power, this`dir, this`pending, this`upload, this`accepted, this`leaked, this`log
      ensures Valid()
      ensures log == old(log) + if result == NoError then [Began(upload.id, expected)] else []
      ensures result == NoError ==>
        && 0 < expected <= BLOB_MAX_BYTES && state.nextId < UINT64_MAX
        && upload == Upload(true, true, state.nextId, expected, 0, false, false) && accepted == [] && leaked == 0
        && FinalName(upload.id) !in old(dir) && TempName(upload.id) !in old(dir)
        && dir == old(dir)[TempName(upload.id) := File([], false)]
      ensures result != NoError ==> upload == NO_UPLOAD && dir == old(dir) && pending == old(pending)
      ensures expected == 0 || expected > BLOB_MAX_BYTES ==> result == InvalidArgument
      ensures old(Steady()) ==>
        power && (result == NoError <==>
          && 0 < expected <= BLOB_MAX_BYTES && 0 < state.nextId < UINT64_MAX
          && FinalName(state.nextId) !in old(dir) && TempName(state.nextId) !in old(dir))
    {
      hide DiskOk;
      hide Increasing;
      hide Below;
      hide Remembered;
      hide TempName;
      hide FinalName;
      upload, accepted, leaked := NO_UPLOAD, [], 0;
      UploadOver(upload, committed, dir, accepted, leaked);
      hide UploadOk;
      var id := state.nextId;
      assert Below(committed, id);
      hide IdsOk;
      if id == 0 || expected == 0 || expected > BLOB_MAX_BYTES { return InvalidArgument; }
      if id >= UINT64_MAX { return StorageFull; }
      result := RequireAbsent(FinalName(id));
      if result != NoError { return; }
      result := RequireAbsent(TempName(id));
      if result != NoError { return; }
      result := OpenUpload(id, expected);
    }

    /** The temporary file, and the upload that owns it. */
    method OpenUpload(id: nat, expected: nat) returns (result: Error)
      requires Valid() && upload == NO_UPLOAD && accepted == [] && leaked == 0
      requires IsBlobId(id) && Below(committed, id) && TempName(id) !in dir
      modifies this`power, this`dir, this`pending, this`upload, this`log
      ensures Valid()
      ensures log == old(log) + if result == NoError then [Began(id, expected)] else []
      ensures result == NoError ==>
        && upload == Upload(true, true, id, expected, 0, false, false)
        && dir == old(dir)[TempName(id) := File([], false)]
      ensures result != NoError ==> upload == NO_UPLOAD && dir == old(dir) && pending == old(pending)
      ensures old(Steady()) ==> power && result == NoError
    {
      hide DiskOk;
      hide Below;
      hide IdsOk;
      hide TempName;
      hide FinalName;
      NamesApart(id, id);
      DiskTemp(dir, pending, records, kept, TempName(id), File([], false));
      result := OpenTemporary(TempName(id));
      if result != NoError {
        UploadOver(upload, committed, dir, accepted, leaked);
        return;
      }
      upload := Upload(true, true, id, expected, 0, false, false);
      log := log + [Began(id, expected)];
      UploadBegun(upload, committed, dir);
    }

    /** `storage_blob_upload_write`: the data counts only if all of it was written; a
        part that was written before a failure stays in the file uncounted. */
    method Write(data: Bytes) returns (result: Error)
      requires Valid()
      modifies this`power, this`dir, this`upload, this`accepted, this`leaked, this`log
      ensures Valid()
      ensures log == old(log) + WriteEvents(data, result)
      ensures result == InvalidArgument <==>
        !(data != [] && old(upload).active && |data| <= old(upload.expected - upload.stored))
      ensures result == InvalidArgument ==>
        dir == old(dir) && upload == old(upload) && accepted == old(accepted) && leaked == old(leaked)
      ensures result == NoError ==>
        accepted == old(accepted) + data && leaked == old(leaked) && upload == old(upload).(stored := old(upload.stored) + |data|)
      ensures result != NoError ==>
        && accepted == old(accepted) && upload == old(upload)
        && (leaked == old(leaked) || old(leaked) < leaked < old(leaked) + |data|)
      ensures old(Steady()) ==> power && (result == NoError || result == InvalidArgument)
      ensures OnlyAt(old(dir), dir, TempName(upload.id))
    {
      hide OnlyAt;
      hide TempName;
      var room: nat := *;
      room := if reliable || room < 0 then |data| else room;
      result := WriteWithRoom(data, room);
    }

    /** The same on a file system that has room for so many bytes. */
    method WriteWithRoom(data: Bytes, room: nat) returns (result: Error)
      requires Valid()
      modifies this`power, this`dir, this`upload, this`accepted, this`leaked, this`log
      ensures Valid()
      ensures log == old(log) + WriteEvents(data, result)
      ensures result == InvalidArgument <==>
        !(data != [] && old(upload).active && |data| <= old(upload.expected - upload.stored))
      ensures result == InvalidArgument ==>
        dir == old(dir) && upload == old(upload) && accepted == old(accepted) && leaked == old(leaked) && power == old(power)
      ensures result == NoError ==>
        accepted == old(accepted) + data && leaked == old(leaked) && upload == old(upload).(stored := old(upload.stored) + |data|)
      ensures result != NoError ==>
        && accepted == old(accepted) && upload == old(upload)
        && (leaked == old(leaked) || old(leaked) < leaked < old(leaked) + |data|)
      ensures old(Steady()) && result != InvalidArgument ==>
        && power && (result == NoError <==> |data| <= room)
        && (result != NoError ==> leaked == old(leaked) + room)
      ensures OnlyAt(old(dir), dir, TempName(upload.id))
    {
      hide OnlyAt;
      hide DiskOk;
      hide UploadOk;
      hide IdsOk;
      hide TempName;
      OnlyAtOne(dir, TempName(upload.id), Other);
      if data == [] || !upload.active || |data| > upload.expected - upload.stored { return InvalidArgument; }
      var written := StageData(data, room);
      result := NoError;
      if written != |data| { result := IoFailure(); }
      log := log + WriteEvents(data, result);
    }

    /** The write to the stream, and its account. */
    method StageData(data: Bytes, room: nat) returns (written: nat)
      requires Valid() && upload.active && 0 < |data| <= upload.expected - upload.stored
      modifies this`power, this`dir, this`upload, this`accepted, this`leaked
      ensures Valid() && written <= |data|
      ensures written == |data| ==>
        accepted == old(accepted) + data && leaked == old(leaked) && upload == old(upload).(stored := old(upload.stored) + |data|)
      ensures written < |data| ==> accepted == old(accepted) && leaked == old(leaked) + written && upload == old(upload)
      ensures old(Steady()) ==> power && written == if room < |data| then room else |data|
      ensures OnlyAt(old(dir), dir, TempName(upload.id))
    {
      UploadFile(upload, committed, dir, accepted, leaked);
      hide OnlyAt;
      hide DiskOk;
      hide UploadOk;
      hide IdsOk;
      hide TempName;
      var name := TempName(upload.id);
      NamesApart(upload.id, upload.id);
      ghost var before := dir;
      written := WriteStream(name, data, room);
      DiskTemp(before, pending, records, kept, name, dir[name]);
      OnlyAtOne(before, name, dir[name]);
      UploadWritten(before, dir, upload, committed, accepted, leaked, data, written);
      if written == |data| {
        accepted := accepted + data;
        upload := upload.(stored := upload.stored + |data|);
      } else {
        leaked := leaked + written;
      }
    }

    /** `close_staged_stream`: success means the staged bytes are durable. */
    method CloseStaged() returns (result: Error)
      requires Valid() && upload.active
      modifies this`power, this`dir, this`upload
      ensures upload == old(upload).(active := false)
      ensures DiskOk(dir, pending, records, kept)
      ensures var name := TempName(upload.id);
        && name in dir && dir[name].File? && dir == old(dir)[name := dir[name]]
        && (result == NoError ==> dir[name] == File(old(dir)[name].bytes, true))
      ensures old(Steady()) ==> power && result == NoError
    {
      UploadFile(upload, committed, dir, accepted, leaked);
      hide DiskOk;
      hide UploadOk;
      hide IdsOk;
      hide TempName;
      var name := TempName(upload.id);
      NamesApart(upload.id, upload.id);
      ghost var before := dir;
      result := NoError;
      var ok := FlushStream(name);
      if !ok { result := IoFailure(); }
      if result == NoError {
        ok := SyncStream(name);
        if !ok { result := IoFailure(); }
      }
      ok := Attempt();
      if !ok && result == NoError { result := IoFailure(); }
      upload := upload.(active := false);
      DiskTemp(before, pending, records, kept, name, dir[name]);
      assert dir == before[name := dir[name]];
    }

    /** `cleanup_failure`. */
    method CleanupFailure(name: string, primary: Error) returns (result: Detailed)
      requires DiskOk(dir, pending, records, kept) && FinalId(name) == None
      modifies this`power, this`dir, this`pending
      ensures DiskOk(dir, pending, records, kept)
      ensures dir == old(dir) || dir == old(dir) - {name}
      ensures result.primary == primary && result.state == NotCommitted
      ensures old(Steady()) ==> power
    {
      hide DiskOk;
      var cleanup := UnlinkIfPresent(name);
      result := Detailed(primary, cleanup, NotCommitted);
    }

    /** What a commit does before its rename: after it the staged bytes are durable,
        the canonical name is free and the counter is past the id. */
    method PrepareCommit() returns (error: Error)
      requires Valid() && upload.active
      modifies this`power, this`dir, this`upload, this`counter
      ensures DiskOk(dir, pending, records, kept) && upload == old(upload).(active := false)
      ensures counter == old(counter) || counter == upload.id + 1
      ensures var temp := TempName(upload.id);
        && temp in dir && dir[temp].File? && dir == old(dir)[temp := dir[temp]]
        && (error == NoError ==>
              dir[temp] == File(old(dir)[temp].bytes, true) && FinalName(upload.id) !in dir && counter == upload.id + 1)
      ensures old(Steady()) ==> power && (error == NoError <==> FinalName(upload.id) !in dir)
    {
      error := CloseStaged();
      hide DiskOk;
      hide UploadOk;
      hide IdsOk;
      hide TempName;
      hide FinalName;
      if error == NoError { error := RequireAbsent(FinalName(upload.id)); }
      if error == NoError { error := PersistNextId(upload.id + 1); }
    }

    /** The rename of a commit: the upload's bytes become the blob's. */
    method Activate() returns (ok: bool)
      requires DiskOk(dir, pending, records, kept) && IsBlobId(upload.id)
      requires TempName(upload.id) in dir && FinalName(upload.id) !in dir && dir[TempName(upload.id)].File?
      requires dir[TempName(upload.id)].durable
      requires FileHolds(dir[TempName(upload.id)].bytes, accepted, leaked) && |accepted| == upload.expected
      modifies this`power, this`dir, this`pending, this`records
      ensures DiskOk(dir, pending, records, kept)
      ensures records == if ok then old(records) + {UploadRecord(upload, accepted, old(dir)[TempName(upload.id)].bytes, leaked)} else old(records)
      ensures !ok ==> dir == old(dir)
      ensures ok ==> dir == (old(dir) - {TempName(upload.id)})[FinalName(upload.id) := old(dir)[TempName(upload.id)]]
      ensures old(Steady()) ==> power && ok
    {
      hide DiskOk;
      hide TempName;
      hide FinalName;
      var temp, final := TempName(upload.id), FinalName(upload.id);
      NamesApart(upload.id, upload.id);
      ghost var r := UploadRecord(upload, accepted, dir[temp].bytes, leaked);
      DiskRename(dir, pending, records, kept, temp, final, r);
      ok := Rename(temp, final);
      if ok { records := records + {r}; }
    }

    /** The part of a commit up to its rename, with its cleanup. */
    method CommitStaged() returns (error: Error, cleanup: Error)
      requires Valid() && upload.active && upload.stored == upload.expected
      modifies this`power, this`dir, this`pending, this`records, this`upload, this`counter
      ensures DiskOk(dir, pending, records, kept)
      ensures upload == old(upload).(active := false, finalOwned := error == NoError)
      ensures counter == old(counter) || counter == upload.id + 1
      ensures error != NoError ==> OnlyAt(old(dir), dir, TempName(upload.id))
      ensures error == NoError ==>
        && counter == upload.id + 1 && Activated(old(dir), dir, upload.id, upload.expected, accepted, leaked)
        && records == old(records) + {UploadRecord(upload, accepted, dir[FinalName(upload.id)].bytes, leaked)}
      ensures error != NoError ==> records == old(records)
      ensures old(Steady()) ==> power && (error == NoError <==> FinalName(upload.id) !in old(dir))
    {
      UploadFile(upload, committed, dir, accepted, leaked);
      assert !upload.finalOwned;
      hide DiskOk;
      hide UploadOk;
      hide IdsOk;
      hide FileHolds;
      hide TempName;
      hide FinalName;
      hide OnlyAt;
      hide Activated;
      cleanup := NoError;
      NamesApart(upload.id, upload.id);
      ghost var before := dir;
      error := PrepareCommit();
      ghost var staged := dir;
      if error == NoError {
        var renamed := Activate();
        if !renamed { error := IoFailure(); }
      }
      if error != NoError {
        OnlyAtOne(before, TempName(upload.id), staged[TempName(upload.id)]);
        OnlyAtTwice(before, staged, TempName(upload.id));
        var result := CleanupFailure(TempName(upload.id), error);
        cleanup := result.cleanup;
        return;
      }
      ActivatedNow(before, staged, dir, upload, accepted, leaked);
      upload := upload.(finalOwned := true);
    }

    /** `storage_blob_upload_commit_result` with the core it wraps. */
    method Commit() returns (result: Detailed, entry: Option<Entry>)
      requires Valid()
      modifies this
      ensures Valid()
      ensures result.state == Committed <==> result.primary == NoError
      ensures result.state != NotApplicable && (entry.Some? <==> result.state == Committed)
      ensures booted == old(booted) && deleted == old(deleted)
      ensures log == old(log) + if result.state == Committed || result.state == Uncertain then [Renamed(upload.id)] else []
      ensures committed == old(committed) + if result.state == Committed then [old(upload.id)] else []
      ensures !(old(upload).active && old(upload).stored == old(upload).expected) ==>
        result.primary == InvalidArgument && result.state == NotCommitted && unchanged(this)
      ensures upload.id == old(upload).id && upload.expected == old(upload).expected && upload.attached == old(upload).attached
      ensures result.state == NotCommitted ==>
        && kept == old(kept) && state == old(state)
        && upload.committed == old(upload).committed && upload.finalOwned == old(upload).finalOwned
        && OnlyAt(old(dir), dir, TempName(upload.id)) && records == old(records)
      ensures accepted == old(accepted) && leaked == old(leaked) && (upload.active ==> upload == old(upload))
      ensures result.state == Committed || result.state == Uncertain ==>
        && old(upload).active && upload.finalOwned && counter == upload.id + 1 && upload.id < UINT64_MAX
        && Activated(old(dir), dir, upload.id, upload.expected, accepted, leaked)
        && records == old(records) + {UploadRecord(upload, accepted, dir[FinalName(upload.id)].bytes, leaked)}
      ensures result.state == Uncertain ==> kept == old(kept) && state == old(state)
      ensures result.state == Committed ==>
        var final := FinalName(upload.id);
        && entry == Some(Entry(upload.id, upload.expected))
        && kept == old(kept)[final := dir[final].bytes] && pending == []
        && state.nextId == upload.id + 1
      ensures old(Steady()) && old(upload).active && old(upload).stored == old(upload).expected && old(upload).id < UINT64_MAX ==>
        (result.state == Committed <==> FinalName(upload.id) !in old(dir))
    {
      hide DiskOk;
      hide IdsOk;
      hide UploadOk;
      hide TempName;
      hide FinalName;
      OnlyAtOne(dir, TempName(upload.id), Other);
      hide OnlyAt;
      hide Activated;
      UploadFlags(upload, committed, dir, accepted, leaked);
      if !upload.active || upload.committed || upload.stored != upload.expected {
        return Detailed(InvalidArgument, NoError, NotCommitted), None;
      }
      if upload.id >= UINT64_MAX { return Detailed(StorageFull, NoError, NotCommitted), None; }
      result := CommitReady();
      if result.state != NotCommitted { log := log + [Renamed(upload.id)]; }
      entry := if result.state == Committed then Some(Entry(upload.id, upload.stored)) else None;
    }

    /** The commit of an upload that has all its bytes. */
    method CommitReady() returns (result: Detailed)
      requires Valid() && upload.active && upload.stored == upload.expected && upload.id < UINT64_MAX
      modifies this`power, this`dir, this`pending, this`records, this`upload, this`counter
      modifies this`state, this`kept, this`committed
      ensures Valid() && result.state != NotApplicable
      ensures result.state == Committed <==> result.primary == NoError
      ensures committed == old(committed) + if result.state == Committed then [old(upload.id)] else []
      ensures upload == old(upload).(active := false, finalOwned := result.state != NotCommitted, committed := result.state == Committed)
      ensures result.state != Committed ==> kept == old(kept) && state == old(state)
      ensures result.state == NotCommitted ==> OnlyAt(old(dir), dir, TempName(upload.id))
      ensures result.state != NotCommitted ==>
        && counter == upload.id + 1 && Activated(old(dir), dir, upload.id, upload.expected, accepted, leaked)
        && records == old(records) + {UploadRecord(upload, accepted, dir[FinalName(upload.id)].bytes, leaked)}
      ensures result.state == NotCommitted ==> records == old(records)
      ensures result.state == Committed ==>
        var final := FinalName(upload.id);
        && final in dir && dir[final].File? && kept == old(kept)[final := dir[final].bytes] && pending == []
        && state.nextId == upload.id + 1
      ensures old(Steady()) ==> (result.state == Committed <==> FinalName(upload.id) !in old(dir))
    {
      hide DiskOk;
      hide IdsOk;
      hide Below;
      hide UploadOk;
      hide TempName;
      hide FinalName;
      hide OnlyAt;
      hide Activated;
      UploadFile(upload, committed, dir, accepted, leaked);
      IdsCounter(committed, kept, deleted, counter, booted, state.nextId, upload.id);
      var error, cleanup := CommitStaged();
      UploadOver(upload, committed, dir, accepted, leaked);
      if error != NoError { return Detailed(error, cleanup, NotCommitted); }
      ActivatedFile(old(dir), dir, upload.id, upload.expected, accepted, leaked);
      var synced := Acknowledge();
      UploadOver(upload, committed, dir, accepted, leaked);
      if !synced {
        error := IoFailure();
        return Detailed(error, NoError, Uncertain);
      }
      result := Detailed(NoError, NoError, Committed);
    }

    /** After the rename: once the directory is synchronised the upload is committed. */
    method Acknowledge() returns (ok: bool)
      requires DiskOk(dir, pending, records, kept) && IdsOk(committed, kept, deleted, counter, booted, state.nextId)
      requires IsBlobId(upload.id) && upload.id < UINT64_MAX && counter == upload.id + 1 && Below(committed, upload.id)
      requires !upload.active && FinalName(upload.id) in dir && dir[FinalName(upload.id)].File?
      modifies this`power, this`pending, this`upload, this`state, this`kept, this`committed
      ensures DiskOk(dir, pending, records, kept) && IdsOk(committed, kept, deleted, counter, booted, state.nextId)
      ensures upload == old(upload).(committed := old(upload).committed || ok)
      ensures !ok ==> kept == old(kept) && committed == old(committed) && state == old(state)
      ensures ok ==>
        && pending == [] && committed == old(committed) + [upload.id] && state.nextId == upload.id + 1
        && kept == old(kept)[FinalName(upload.id) := dir[FinalName(upload.id)].bytes]
      ensures old(Steady()) ==> ok
    {
      DiskSynced(dir, pending, records, kept);
      hide DiskOk;
      hide IdsOk;
      hide Below;
      hide FinalName;
      ok := SyncParent();
      if ok {
        upload := upload.(committed := true);
        RecordCommitted(Entry(upload.id, upload.stored));
      }
    }

    /** `storage_blob_record_committed_entry`, which is also when the blob counts as
        kept. */
    method RecordCommitted(e: Entry)
      requires IsBlobId(e.id) && e.id < UINT64_MAX && counter == e.id + 1 && Below(committed, e.id)
      requires DiskOk(dir, [], records, kept) && IdsOk(committed, kept, deleted, counter, booted, state.nextId)
      requires FinalName(e.id) in dir && dir[FinalName(e.id)].File?
      modifies this`state, this`kept, this`committed
      ensures DiskOk(dir, [], records, kept) && IdsOk(committed, kept, deleted, counter, booted, state.nextId)
      ensures kept == old(kept)[FinalName(e.id) := dir[FinalName(e.id)].bytes] && committed == old(committed) + [e.id]
      ensures state.nextId == e.id + 1
    {
      hide DiskOk;
      hide IdsOk;
      hide Below;
      NamesApart(e.id, e.id);
      DiskKeep(dir, records, kept, FinalName(e.id));
      IdsCommitted(committed, kept, deleted, counter, booted, state.nextId, e.id, dir[FinalName(e.id)].bytes);
      kept := kept[FinalName(e.id) := dir[FinalName(e.id)].bytes];
      committed := committed + [e.id];
      state := state.(validCount := state.validCount + 1, nextId := e.id + 1,
                      maxId := if state.maxId == None || e.id > state.maxId.value then Some(e.id) else state.maxId);
    }

    /** `storage_blob_upload_abort`: what has become a blob stays. */
    method Abort() returns (result: Error)
      requires Valid()
      modifies this`power, this`dir, this`pending, this`upload
      ensures Valid()
      ensures !old(upload).attached ==> result == InvalidArgument
      ensures !old(upload).attached || old(upload).committed || old(upload).finalOwned ==> unchanged(this)
      ensures OnlyAt(old(dir), dir, TempName(upload.id)) && upload == old(upload).(active := upload.active)
      ensures upload.active ==> old(upload).active
      ensures result == NoError && !upload.committed && !upload.finalOwned ==> TempName(upload.id) !in dir && !upload.active
      ensures old(Steady()) && old(upload).attached ==> result == NoError
    {
      OnlyAtOne(dir, TempName(upload.id), Other);
      if !upload.attached { return InvalidArgument; }
      if upload.committed || upload.finalOwned { return NoError; }
      hide DiskOk;
      hide IdsOk;
      hide IsStaged;
      hide Below;
      hide TempName;
      hide OnlyAt;
      NamesApart(upload.id, upload.id);
      result := NoError;
      if upload.active {
        var ok := Attempt();
        if !ok { result := IoFailure(); }
        upload := upload.(active := false);
      }
      var cleanup := UnlinkIfPresent(TempName(upload.id));
      if result == NoError { result := cleanup; }
    }

    // ---- Deletion ----

    /** `storage_blob_delete_with_ops`. */
    method DeleteOne(id: nat) returns (result: Error)
      requires Valid() && id <= UINT64_MAX
      modifies this`power, this`dir, this`pending, this`kept, this`deleted
      ensures Valid()
      ensures result == NoError ==>
        var name := FinalName(id);
        && name in old(dir) && old(dir)[name].File? && FinalId(name).Some?
        && dir == old(dir) - {name} && kept == old(kept) - {name} && deleted == old(deleted) + {name}
      ensures result != NoError ==> dir == old(dir) && kept == old(kept) && deleted == old(deleted) && pending == old(pending)
      ensures result == NotFound && id != 0 ==> FinalName(id) !in dir
      ensures old(Steady()) ==> power && (result == NoError <==> id != 0 && HasBlob(old(dir), id))
    {
      hide DiskOk;
      hide IdsOk;
      hide UploadOk;
      hide FinalName;
      if id == 0 { return InvalidArgument; }
      result := StatRegular(FinalName(id));
      if result != NoError { return; }
      result := RemoveBlob(id);
    }

    /** `stat_regular_blob`. */
    method StatRegular(name: string) returns (error: Error)
      modifies this`power
      ensures error == NoError ==> name in dir && dir[name].File?
      ensures error == NotFound ==> name !in dir
      ensures old(Steady()) ==> power && (error == NoError <==> name in dir && dir[name].File?)
    {
      var ok := Attempt();
      if !ok { return IoError; }
      if name !in dir { return NotFound; }
      error := if dir[name].File? then NoError else StorageCorrupt;
    }

    method RemoveBlob(id: nat) returns (result: Error)
      requires Valid() && IsBlobId(id) && FinalName(id) in dir
      modifies this`power, this`dir, this`pending, this`kept, this`deleted
      ensures Valid() && FinalId(FinalName(id)).Some?
      ensures result != NotFound
      ensures result == NoError ==>
        dir == old(dir) - {FinalName(id)} && kept == old(kept) - {FinalName(id)} && deleted == old(deleted) + {FinalName(id)}
      ensures result != NoError ==> dir == old(dir) && kept == old(kept) && deleted == old(deleted) && pending == old(pending)
      ensures old(Steady()) ==> power && result == NoError
    {
      hide DiskOk;
      hide IdsOk;
      hide FinalName;
      hide TempName;
      var name := FinalName(id);
      NamesApart(id, if upload.attached then upload.id else id);
      UploadElsewhere(upload, committed, dir, accepted, leaked, name);
      hide UploadOk;
      DiskDelete(dir, pending, records, kept, name);
      IdsDeleted(committed, kept, deleted, counter, booted, state.nextId, name);
      result := Unlink(name);
      if result == NoError {
        kept := kept - {name};
        deleted := deleted + {name};
      } else {
        result := IoError;
      }
    }

    /** `storage_blob_delete`: success is durable. */
    method Delete(id: nat) returns (result: Error)
      requires Valid() && booted && id <= UINT64_MAX
      modifies this`power, this`dir, this`pending, this`kept, this`deleted, this`state
      ensures Valid() && state.nextId == old(state).nextId
      ensures id == 0 ==> result == InvalidArgument
      ensures result == NoError ==>
        && FinalName(id) in old(dir) && dir == old(dir) - {FinalName(id)} && kept == old(kept) - {FinalName(id)}
        && pending == []
      ensures (dir == old(dir) && kept == old(kept)) || dir == old(dir) - {FinalName(id)}
      ensures old(Steady()) ==> (result == NoError <==> id != 0 && HasBlob(old(dir), id))
    {
      hide FinalName;
      if id == 0 { return InvalidArgument; }
      result := DeleteOne(id);
      if result != NoError { return; }
      DiskSynced(dir, pending, records, kept);
      hide DiskOk;
      hide IdsOk;
      hide UploadOk;
      RecordDeleted();
      var synced := SyncParent();
      result := if synced then NoError else IoError;
    }

    /** `storage_blob_record_deleted_entry`. */
    method RecordDeleted()
      modifies this`state
      ensures state == old(state).(validCount := state.validCount)
    {
      if state.validCount > 0 { state := state.(validCount := state.validCount - 1); }
    }

    /** The deletions of `storage_blob_delete_all_with_ops`, one for each scanned blob:
        a blob that resists does not keep the others. */
    method DeleteEach(entries: seq<Entry>) returns (first: Error, count: nat)
      requires Valid() && forall e <- entries :: e.id <= UINT64_MAX
      modifies this`power, this`dir, this`pending, this`kept, this`deleted
      ensures Valid()
      ensures OnlyBlobsGone(old(dir), dir) && |dir| + count == |old(dir)|
      ensures first == NoError ==> forall e <- entries :: FinalName(e.id) !in dir
      ensures count == 0 ==> dir == old(dir) && kept == old(kept)
      ensures old(Steady()) && Lists(old(dir), entries) ==> power && first == NoError
    {
      hide DiskOk;
      hide IdsOk;
      hide UploadOk;
      hide FinalName;
      hide HasBlob;
      ghost var calm := Steady() && Lists(dir, entries);
      if calm { RemainingStart(dir, entries); }
      hide Lists;
      hide Remaining;
      SweptNone(dir, entries);
      hide Swept;
      first, count := NoError, 0;
      var index := 0;
      while index < |entries|
        invariant index <= |entries| && Valid()
        invariant Swept(old(dir), dir, entries, index, first, count) && (count == 0 ==> kept == old(kept))
        invariant calm ==> power && first == NoError && Remaining(dir, entries, index)
      {
        first, count := VisitEntry(entries, index, first, count, old(dir), calm);
        index := index + 1;
      }
      SweptAll(old(dir), dir, entries, first, count);
    }

    /** `delete_all_visit_entry`: a failure is kept if it is the first, and never stops. */
    method VisitEntry(entries: seq<Entry>, index: nat, first0: Error, count0: nat, ghost before: Directory, ghost calm: bool)
      returns (first: Error, count: nat)
      requires Valid() && index < |entries| && entries[index].id <= UINT64_MAX
      requires Swept(before, dir, entries, index, first0, count0)
      requires calm ==> Steady() && first0 == NoError && Remaining(dir, entries, index)
      modifies this`power, this`dir, this`pending, this`kept, this`deleted
      ensures Valid() && Swept(before, dir, entries, index + 1, first, count)
      ensures count0 <= count && (count == 0 ==> kept == old(kept))
      ensures calm ==> power && first == NoError && Remaining(dir, entries, index + 1)
    {
      hide DiskOk;
      hide IdsOk;
      hide UploadOk;
      hide FinalName;
      hide HasBlob;
      if calm { RemainingNext(dir, entries, index); }
      hide Remaining;
      hide Swept;
      var error := DeleteOne(entries[index].id);
      SweptNext(before, old(dir), entries, index, first0, count0, dir, error);
      first := FirstError(first0, error);
      count := if error == NoError then count0 + 1 else count0;
    }

    /** `storage_blob_delete_all_with_ops`. */
    method DeleteScanned() returns (result: Error, count: nat)
      requires Valid()
      modifies this`power, this`dir, this`pending, this`kept, this`deleted
      ensures Valid()
      ensures OnlyBlobsGone(old(dir), dir) && |dir| + count == |old(dir)|
      ensures result == NoError ==> Blobs(dir) == map[]
      ensures HasLastId(old(dir)) ==> result != NoError && dir == old(dir)
      ensures count == 0 ==> dir == old(dir) && kept == old(kept)
      ensures old(Steady()) ==> power && (result == NoError <==> !HasLastId(old(dir)))
    {
      hide DiskOk;
      hide IdsOk;
      hide UploadOk;
      hide HasLastId;
      hide Blobs;
      NothingGone(dir);
      hide OnlyBlobsGone;
      var summary, entries;
      count := 0;
      result, summary, entries := Scan(dir, 0, reliable);
      if result != NoError { return; }
      LastIdStopsScan(dir, 0, summary, entries);
      ListedIds(dir, entries);
      hide ScanTells;
      hide Lists;
      result, count := DeleteEach(entries);
      if result == NoError { NoBlobLeft(old(dir), dir, entries); }
    }

    /** `storage_blob_delete_all`: success leaves no blob; nothing but blobs is removed. */
    method DeleteAll() returns (result: Error, count: nat)
      requires Valid()
      modifies this`power, this`dir, this`pending, this`kept, this`deleted, this`state
      ensures Valid() && state.nextId == old(state).nextId
      ensures OnlyBlobsGone(old(dir), dir) && |dir| + count == |old(dir)|
      ensures result == NoError ==> Blobs(dir) == map[] && (count > 0 ==> pending == [])
      ensures HasLastId(old(dir)) ==> result != NoError && dir == old(dir)
      ensures old(Steady()) ==> (result == NoError <==> !HasLastId(old(dir)))
    {
      hide DiskOk;
      hide IdsOk;
      hide UploadOk;
      hide HasLastId;
      hide Blobs;
      hide OnlyBlobsGone;
      result, count := DeleteScanned();
      DiskSynced(dir, pending, records, kept);
      var index := 0;
      while index < count
        modifies this`state
        invariant state.nextId == old(state).nextId
      {
        RecordDeleted();
        index := index + 1;
      }
      if count > 0 {
        var synced := SyncParent();
        if !synced && result == NoError { result := IoError; }
      }
    }

    // ---- Startup ----

    /** `storage_blob_list`: a failed listing leaves the inventory as it was. */
    method List() returns (result: Error, entries: seq<Entry>)
      requires Valid() && booted
      modifies this`state
      ensures Valid() && state.nextId >= old(state).nextId
      ensures result == NoError ==> ScanTells(dir, old(state).nextId, state, entries)
      ensures result != NoError ==> state == old(state)
      ensures reliable && !HasLastId(dir) ==> result == NoError
    {
      hide DiskOk;
      hide IdsOk;
      hide UploadOk;
      hide HasLastId;
      hide ScanTells;
      var visitorFails: bool := *;
      if reliable { visitorFails := false; }
      var summary;
      result, summary, entries := Scan(dir, state.nextId, reliable);
      if result == NoError && visitorFails { result := InternalError; }
      if result != NoError { return; }
      ScanMovesOn(dir, state.nextId, summary, entries);
      IdsForward(committed, kept, deleted, counter, booted, state.nextId, summary.nextId);
      state := summary;
    }

    /** `storage_blob_recover_with_ops`: success removes exactly the regular files with
        a valid temporary name, and failure only some of them. */
    method Recover() returns (result: Error, removed: nat, ghost gone: set<string>)
      requires Valid() && !upload.active
      modifies this`power, this`dir, this`pending
      ensures Valid()
      ensures gone <= Debris(old(dir)) && dir == old(dir) - gone && removed == |gone|
      ensures result == NoError ==> gone == Debris(old(dir))
      ensures old(Steady()) ==> power && result == NoError
    {
      hide DiskOk;
      hide IdsOk;
      hide UploadOk;
      NoDebrisGone(dir);
      hide Debris;
      var canOpen := Attempt();
      if !canOpen { return IoError, 0, {}; }
      result, removed, gone := RecoverEntries();
      var closed := Attempt();
      if !closed && result == NoError { result := IoError; }
    }

    /** The directory loop of the recovery. */
    method RecoverEntries() returns (result: Error, removed: nat, ghost gone: set<string>)
      requires Valid() && !upload.active
      modifies this`power, this`dir, this`pending
      ensures Valid()
      ensures gone <= Debris(old(dir)) && dir == old(dir) - gone && removed == |gone|
      ensures result == NoError ==> gone == Debris(old(dir))
      ensures old(Steady()) ==> power && result == NoError
    {
      hide DiskOk;
      hide IdsOk;
      hide UploadOk;
      hide Debris;
      hide IsDebris;
      hide Recovered;
      ghost var d0 := dir;
      removed := 0;
      RecoverStarts(d0);
      var left := dir.Keys;
      result := NoError;
      while left != {} && result == NoError
        invariant Valid() && Recovered(d0, left, dir, removed)
        invariant old(Steady()) ==> power && result == NoError
        decreases |left|, result == NoError
      {
        var name, found;
        result, name, found := RecoverNext(left, d0, removed);
        if result == NoError {
          Shrinks(left, name);
          removed := removed + if found then 1 else 0;
          left := left - {name};
        }
      }
      RecoverEnds(d0, left, dir, removed);
      gone := Debris(d0) - left;
    }

    /** Reads the next name and deals with it. */
    method RecoverNext(left: set<string>, ghost d0: Directory, ghost removed: nat)
      returns (error: Error, name: string, found: bool)
      requires Valid() && !upload.active && left != {} && Recovered(d0, left, dir, removed)
      modifies this`power, this`dir, this`pending
      ensures Valid() && name in left
      ensures error != NoError ==> Recovered(d0, left, dir, removed)
      ensures error == NoError ==> Recovered(d0, left - {name}, dir, removed + if found then 1 else 0)
      ensures old(Steady()) ==> power && error == NoError
    {
      hide DiskOk;
      hide IdsOk;
      hide UploadOk;
      hide IsDebris;
      name :| name in left;
      found := false;
      RecoverStep(d0, left, dir, removed, name);
      hide Recovered;
      var read := Attempt();
      if !read { return IoError, name, found; }
      error, found := RecoverEntry(name);
    }

    /** One name of the recovery loop. */
    method RecoverEntry(name: string) returns (error: Error, found: bool)
      requires Valid() && !upload.active && name in dir
      modifies this`power, this`dir, this`pending
      ensures Valid()
      ensures error != NoError ==> dir == old(dir)
      ensures error == NoError ==> (found <==> IsDebris(old(dir), name)) && dir == if found then old(dir) - {name} else old(dir)
      ensures old(Steady()) ==> power && error == NoError
    {
      hide DiskOk;
      hide IdsOk;
      found := false;
      if TempId(name) == None { return NoError, found; }
      var ok := Attempt();
      if !ok { return IoError, found; }
      if !dir[name].File? { return NoError, found; }
      TempIsNotFinal(name);
      DiskTemp(dir, pending, records, kept, name, Other);
      var unlinked := Unlink(name);
      if unlinked != NoError { return IoError, found; }
      found := true;
      error := NoError;
    }

    /** `storage_prepare_directories`: recovery, then the counter, then the scan. After
        success no debris is left and the next id is free. */
    method Boot() returns (result: Error)
      requires Valid() && !booted && upload == NO_UPLOAD
      modifies this`power, this`dir, this`pending, this`booted, this`state
      ensures Valid() && booted == (result == NoError)
      ensures exists gone: set<string> :: gone <= Debris(old(dir)) && dir == old(dir) - gone
      ensures result == NoError ==>
        && dir == old(dir) - Debris(old(dir)) && Debris(dir) == {}
        && counter <= state.nextId && 1 <= state.nextId
        && (FinalName(state.nextId) in dir ==> dir[FinalName(state.nextId)].Other?)
      ensures old(Steady()) ==> (result == NoError <==> !HasLastId(dir))
    {
      hide DiskOk;
      hide IdsOk;
      hide UploadOk;
      hide Blobs;
      NoDebrisGone(dir);
      DebrisGone(dir);
      hide Debris;
      var prepared := Attempt();
      if !prepared { return IoError; }
      ghost var gone;
      result, gone := RecoverStartup();
      if result != NoError { return; }
      var read: bool, corrupt: bool := *, *;
      if !read && !reliable { return if corrupt then StorageCorrupt else StorageUnavailable; }
      result := ScanStartup();
    }

    /** `storage_blob_recover_startup`. */
    method RecoverStartup() returns (result: Error, ghost gone: set<string>)
      requires Valid() && !upload.active
      modifies this`power, this`dir, this`pending
      ensures Valid()
      ensures gone <= Debris(old(dir)) && dir == old(dir) - gone
      ensures result == NoError ==> gone == Debris(old(dir))
      ensures old(Steady()) ==> power && result == NoError
    {
      hide IdsOk;
      hide UploadOk;
      hide Debris;
      var removed;
      result, removed, gone := Recover();
      DiskSynced(dir, pending, records, kept);
      hide DiskOk;
      if result == NoError && removed > 0 {
        var synced := SyncParent();
        if !synced { result := IoError; }
      }
    }

    /** `storage_blob_scan_startup` with the counter read from storage. */
    method ScanStartup() returns (result: Error)
      requires Valid() && !booted
      modifies this`booted, this`state
      ensures Valid() && booted == (result == NoError)
      ensures result == NoError ==>
        && counter <= state.nextId && 1 <= state.nextId
        && (FinalName(state.nextId) in dir ==> dir[FinalName(state.nextId)].Other?)
      ensures reliable ==> (result == NoError <==> !HasLastId(dir))
    {
      hide DiskOk;
      hide UploadOk;
      hide Blobs;
      hide FinalName;
      state := EMPTY_SUMMARY;
      IdsNext(committed, kept, deleted, counter, booted, 0);
      hide IdsOk;
      var summary, entries;
      result, summary, entries := Scan(dir, counter, reliable);
      if result != NoError { return; }
      ScanIsFresh(dir, counter, summary, entries);
      LastIdStopsScan(dir, counter, summary, entries);
      hide ScanTells;
      state := summary;
      booted := true;
    }

    /** The power goes and comes back: one of the directory states since the last
        synchronisation is there, and unsynchronised bytes may be anything. */
    method PowerCut() returns (ghost back: Directory, ghost junk: map<string, Bytes>)
      requires Valid()
      modifies this
      ensures Valid() && !booted && upload == NO_UPLOAD && power && pending == []
      ensures (back == old(dir) || back in old(pending)) && dir == AfterCut(back, junk)
      ensures kept == old(kept) && committed == old(committed) && deleted == old(deleted) && records == old(records)
      ensures counter == old(counter) && log == old(log)
    {
      var which: nat := *;
      var bytes: map<string, Bytes> := *;
      var found := if 0 <= which < |pending| then pending[which] else dir;
      back, junk := found, bytes;
      DiskCut(dir, pending, records, kept, back, junk);
      IdsNext(committed, kept, deleted, counter, booted, state.nextId);
      hide DiskOk;
      hide IdsOk;
      dir, pending, power := AfterCut(found, bytes), [], true;
      booted, state, upload := false, EMPTY_SUMMARY, NO_UPLOAD;
    }

    // ---- Every run ----

    /** One command; the service answers only after a successful start. */
    method Obey(command: Command)
      requires Valid()
      modifies this
      ensures Valid() && old(committed) <= committed
    {
      hide DiskOk;
      hide IdsOk;
      hide UploadOk;
      match command
      case BeginUpload(expected) => if booted { var result := Begin(expected); }
      case WriteUpload(data) => var result := Write(data);
      case CommitUpload => var result, entry := Commit();
      case AbortUpload => var result := Abort();
      case DeleteBlob(id) => if booted && id <= UINT64_MAX { var result := Delete(id); }
      case DeleteBlobs => var result, count := DeleteAll();
      case ListBlobs => if booted { var result, entries := List(); }
      case CutPower => var back, junk := PowerCut();
      case StartUp => if !booted && upload == NO_UPLOAD { var result := Boot(); }
    }

    /** Any sequence of commands, whatever fails and wherever the power goes: ids are
        reported as committed in increasing order, every committed blob that was not
        deleted is in place, every visible blob is the file of one finished upload,
        and that file is the accepted bytes unless a failed write had left some. */
    method Run(commands: seq<Command>)
      requires Valid()
      modifies this
      ensures Valid() && old(committed) <= committed
      ensures forall i, j :: 0 <= i < j < |committed| ==> committed[i] < committed[j]
      ensures forall id <- committed :: FinalName(id) in kept || FinalName(id) in deleted
      ensures forall name <- kept :: name in dir && dir[name] == File(kept[name], true)
      ensures forall name <- dir :: FinalId(name).Some? && dir[name].File? ==>
        exists r :: r in records && r.id == FinalId(name).value && r.bytes == dir[name].bytes && WellRecorded(r)
    {
      var index := 0;
      while index < |commands|
        invariant index <= |commands| && Valid() && old(committed) <= committed
      {
        Obey(commands[index]);
        index := index + 1;
      }
      RunMeans(dir, pending, records, kept);
    }
  }
}
