/** What callers of the blob store can rely on over whole runs: which callers are sure
    that every blob they see is one complete upload, and what happens to the others. */
module BlobRuns {
  import opened Errors
  import opened BlobNames
  import opened BlobFiles
  import opened BlobStore

  /** What a caller knows of the upload in progress from the answers it got: its id,
      the size announced, the bytes of its successful writes, and whether a failed
      write of more than one byte may have left some of them behind. */
  datatype Tally = Tally(id: nat, announced: nat, gathered: Bytes, spoilt: bool)

  function TallyOf(log: seq<Event>): Tally {
    if log == [] then Tally(0, 0, [], false)
    else
      var t := TallyOf(log[..|log| - 1]);
      match log[|log| - 1]
      case Began(id, expected) => Tally(id, expected, [], false)
      case Wrote(data) => t.(gathered := t.gathered + data)
      case WriteFailed(data) => t.(spoilt := t.spoilt || |data| >= 2)
      case Renamed(_) => t
  }

  lemma TallyNext(log: seq<Event>, event: Event)
    ensures var t := TallyOf(log);
      TallyOf(log + [event]) ==
        match event
        case Began(id, expected) => Tally(id, expected, [], false)
        case Wrote(data) => t.(gathered := t.gathered + data)
        case WriteFailed(data) => t.(spoilt := t.spoilt || |data| >= 2)
        case Renamed(_) => t
  {
    assert (log + [event])[..|log|] == log;
  }

  /** No upload was committed after one of its writes had failed. */
  ghost predicate Careful(log: seq<Event>) {
    forall k :: 0 <= k < |log| && log[k].Renamed? ==> !TallyOf(log[..k]).spoilt
  }

  lemma CarefulNext(log: seq<Event>, event: Event)
    requires Careful(log) && (event.Renamed? ==> !TallyOf(log).spoilt)
    ensures Careful(log + [event])
  {
    var more := log + [event];
    forall k | 0 <= k < |more| && more[k].Renamed? ensures !TallyOf(more[..k]).spoilt {
      assert more[..k] == log[..k];
    }
  }

  /** The record is what one upload came to: all that was announced, and nothing else
      in the file unless a write had failed. */
  ghost predicate EndsUpload(r: Record, log: seq<Event>, k: nat) {
    && k < |log| && log[k] == Renamed(r.id) && r.id < UINT64_MAX
    && var t := TallyOf(log[..k]);
      && t.id == r.id && t.announced == r.expected && t.gathered == r.accepted
      && (!t.spoilt ==> r.leaked == 0)
  }

  ghost predicate FromUpload(r: Record, log: seq<Event>) {
    exists k: nat :: EndsUpload(r, log, k)
  }

  lemma FromUploadNext(r: Record, log: seq<Event>, event: Event)
    requires FromUpload(r, log)
    ensures FromUpload(r, log + [event])
  {
    var k: nat :| EndsUpload(r, log, k);
    assert (log + [event])[..k] == log[..k];
    assert EndsUpload(r, log + [event], k);
  }

  lemma FromUploadNow(r: Record, log: seq<Event>)
    requires r.id < UINT64_MAX
    requires var t := TallyOf(log);
      t.id == r.id && t.announced == r.expected && t.gathered == r.accepted && (!t.spoilt ==> r.leaked == 0)
    ensures FromUpload(r, log + [Renamed(r.id)])
  {
    assert (log + [Renamed(r.id)])[..|log|] == log;
    assert EndsUpload(r, log + [Renamed(r.id)], |log|);
  }

  ghost predicate AllExplained(records: set<Record>, found: set<Record>, log: seq<Event>) {
    forall r <- records :: r in found || FromUpload(r, log)
  }

  lemma AllExplainedNext(records: set<Record>, found: set<Record>, log: seq<Event>, event: Event)
    requires AllExplained(records, found, log)
    ensures AllExplained(records, found, log + [event])
  {
    forall r | r in records && r !in found ensures FromUpload(r, log + [event]) {
      FromUploadNext(r, log, event);
    }
  }

  /** The upload in progress is what its caller was told. */
  ghost predicate Follows(upload: Upload, accepted: Bytes, leaked: nat, log: seq<Event>) {
    upload.active ==>
      var t := TallyOf(log);
      && upload.id == t.id && upload.expected == t.announced && accepted == t.gathered
      && (!t.spoilt ==> leaked == 0)
  }

  /** Every record and the upload in progress are what the calls came to. */
  ghost predicate InStep(store: Store, found: set<Record>)
    reads store
  {
    && store.Valid() && AllExplained(store.records, found, store.log)
    && Follows(store.upload, store.accepted, store.leaked, store.log)
  }

  // ---- Every call keeps the account ----

  method ServeBegin(store: Store, expected: nat, ghost found: set<Record>) returns (result: Error)
    requires InStep(store, found) && store.booted
    modifies store
    ensures InStep(store, found) && store.committed == old(store.committed)
    ensures store.log == old(store.log) + if result == NoError then [Began(store.upload.id, expected)] else []
  {
    hide AllExplained;
    hide TallyOf;
    ghost var log := store.log;
    result := store.Begin(expected);
    if result == NoError {
      TallyNext(log, Began(store.upload.id, expected));
      AllExplainedNext(store.records, found, log, Began(store.upload.id, expected));
    } else {
      assert store.log == log;
    }
  }

  method ServeWrite(store: Store, data: Bytes, ghost found: set<Record>) returns (result: Error)
    requires InStep(store, found)
    modifies store
    ensures InStep(store, found) && store.committed == old(store.committed)
    ensures store.log == old(store.log) + WriteEvents(data, result)
  {
    hide AllExplained;
    hide TallyOf;
    ghost var log := store.log;
    result := store.Write(data);
    if result == InvalidArgument {
      assert store.log == log;
    } else {
      ghost var event := WriteEvents(data, result)[0];
      assert store.log == log + [event];
      TallyNext(log, event);
      AllExplainedNext(store.records, found, log, event);
    }
  }

  method ServeCommit(store: Store, ghost found: set<Record>) returns (result: Detailed)
    requires InStep(store, found)
    modifies store
    ensures InStep(store, found) && old(store.committed) <= store.committed
    ensures store.log ==
      old(store.log) + if result.state == Committed || result.state == Uncertain then [Renamed(store.upload.id)] else []
  {
    hide TallyOf;
    ghost var log, records := store.log, store.records;
    var entry;
    result, entry := store.Commit();
    if result.state == Committed || result.state == Uncertain {
      ghost var r := UploadRecord(store.upload, store.accepted, store.dir[FinalName(store.upload.id)].bytes, store.leaked);
      TallyNext(log, Renamed(store.upload.id));
      FromUploadNow(r, log);
      AllExplainedNext(records, found, log, Renamed(store.upload.id));
    } else {
      assert store.log == log;
    }
  }

  /** The commands that are no part of an upload. */
  method ServeOther(store: Store, command: Command)
    requires store.Valid() && !command.BeginUpload? && !command.WriteUpload? && !command.CommitUpload?
    modifies store
    ensures store.Valid() && store.committed == old(store.committed) && store.records == old(store.records)
    ensures store.log == old(store.log)
    ensures store.upload.active ==>
      store.upload == old(store.upload) && store.accepted == old(store.accepted) && store.leaked == old(store.leaked)
  {
    hide DiskOk;
    hide IdsOk;
    hide UploadOk;
    hide OnlyBlobsGone;
    hide HasLastId;
    hide HasBlob;
    hide Debris;
    match command {
      case AbortUpload => var result := store.Abort();
      case DeleteBlob(id) => if store.booted && id <= UINT64_MAX { var result := store.Delete(id); }
      case DeleteBlobs => var result, count := store.DeleteAll();
      case ListBlobs => if store.booted { var result, entries := store.List(); }
      case CutPower => var back, junk := store.PowerCut();
      case StartUp => if !store.booted && store.upload == NO_UPLOAD { var result := store.Boot(); }
    }
  }

  /** One command. A careful caller, once a write has failed, neither writes on nor
      commits before it has begun anew. */
  method Serve(store: Store, command: Command, ghost found: set<Record>, careful: bool, failed: bool) returns (failedNow: bool)
    requires InStep(store, found) && (TallyOf(store.log).spoilt ==> failed)
    requires careful ==> Careful(store.log)
    modifies store
    ensures InStep(store, found) && (TallyOf(store.log).spoilt ==> failedNow)
    ensures careful ==> Careful(store.log)
    ensures old(store.committed) <= store.committed && old(store.log) <= store.log
  {
    hide Careful;
    hide TallyOf;
    hide AllExplained;
    failedNow := failed;
    ghost var log := store.log;
    if command.BeginUpload? {
      if store.booted {
        var result := ServeBegin(store, command.expected, found);
        if result == NoError { failedNow := false; }
      }
    } else if command.WriteUpload? {
      if !careful || !failed {
        var result := ServeWrite(store, command.data, found);
        failedNow := failed || (result != NoError && result != InvalidArgument);
      }
    } else if command.CommitUpload? {
      if !careful || !failed { var result := ServeCommit(store, found); }
    } else {
      ServeOther(store, command);
    }
    LogGrown(log, store.log);
    if careful && store.log != log { CarefulNext(log, store.log[|log|]); }
  }

  lemma LogGrown(log: seq<Event>, more: seq<Event>)
    requires log <= more && |more| <= |log| + 1
    ensures more == log || more == log + [more[|log|]]
    ensures more != log ==>
      var t := TallyOf(log);
      TallyOf(more).spoilt ==
        match more[|log|]
        case Began(_, _) => false
        case Wrote(_) => t.spoilt
        case WriteFailed(data) => t.spoilt || |data| >= 2
        case Renamed(_) => t.spoilt
  {
    if more != log {
      TallyNext(log, more[|log|]);
      assert more == log + [more[|log|]];
    }
  }

  // ---- What can be seen ----

  /** Every visible blob was there from the start, or is the file of one upload: all
      that was announced, and apart from bytes that failed writes had left, exactly
      what its successful writes delivered. */
  ghost predicate Explained(d: Directory, found: set<Record>, log: seq<Event>) {
    forall name <- d :: FinalId(name).Some? && d[name].File? ==>
      || Recorded(found, FinalId(name).value, d[name].bytes)
      || exists r :: IsFileOf(r, FinalId(name).value, d[name].bytes, log)
  }

  ghost predicate IsFileOf(r: Record, id: nat, bytes: Bytes, log: seq<Event>) {
    r.id == id && r.bytes == bytes && WellRecorded(r) && FromUpload(r, log)
  }

  /** The bytes are all that one upload announced and delivered. */
  ghost predicate IsUpload(id: nat, bytes: Bytes, log: seq<Event>) {
    exists k :: 0 <= k < |log| && log[k] == Renamed(id) && TallyOf(log[..k]) == Tally(id, |bytes|, bytes, false)
  }

  /** Every visible blob was there from the start or is one complete upload. */
  ghost predicate WholeBlobs(d: Directory, found: set<Record>, log: seq<Event>) {
    forall name <- d :: FinalId(name).Some? && d[name].File? ==>
      Recorded(found, FinalId(name).value, d[name].bytes) || IsUpload(FinalId(name).value, d[name].bytes, log)
  }

  lemma GoodIsExplained(d: Directory, records: set<Record>, kept: map<string, Bytes>, found: set<Record>, log: seq<Event>)
    requires Good(d, records, kept) && AllExplained(records, found, log) && forall r <- records :: WellRecorded(r)
    ensures Explained(d, found, log)
  {
    hide FromUpload;
    hide WellRecorded;
    forall name | name in d && FinalId(name).Some? && d[name].File? && !Recorded(found, FinalId(name).value, d[name].bytes)
      ensures exists r :: IsFileOf(r, FinalId(name).value, d[name].bytes, log)
    {
      var r :| r in records && r.id == FinalId(name).value && r.bytes == d[name].bytes;
      assert IsFileOf(r, FinalId(name).value, d[name].bytes, log);
    }
  }

  lemma CarefulIsWhole(d: Directory, found: set<Record>, log: seq<Event>)
    requires Explained(d, found, log) && Careful(log)
    ensures WholeBlobs(d, found, log)
  {
    hide TallyOf;
    forall name | name in d && FinalId(name).Some? && d[name].File? && !Recorded(found, FinalId(name).value, d[name].bytes)
      ensures IsUpload(FinalId(name).value, d[name].bytes, log)
    {
      var r :| IsFileOf(r, FinalId(name).value, d[name].bytes, log);
      var k: nat :| EndsUpload(r, log, k);
      assert TallyOf(log[..k]) == Tally(r.id, |r.bytes|, r.bytes, false);
    }
  }

  /** Whatever state a power cut brings back. */
  lemma CutIsExplained(store: Store, back: Directory, junk: map<string, Bytes>, found: set<Record>)
    requires InStep(store, found) && back in store.pending + [store.dir]
    ensures Explained(AfterCut(back, junk), found, store.log) && Explained(store.dir, found, store.log)
    ensures Careful(store.log) ==> WholeBlobs(AfterCut(back, junk), found, store.log) && WholeBlobs(store.dir, found, store.log)
  {
    hide AllExplained;
    hide Careful;
    hide Explained;
    GoodAfterCut(back, junk, store.records, store.kept);
    GoodIsExplained(AfterCut(back, junk), store.records, store.kept, found, store.log);
    GoodIsExplained(store.dir, store.records, store.kept, found, store.log);
    if Careful(store.log) {
      CarefulIsWhole(AfterCut(back, junk), found, store.log);
      CarefulIsWhole(store.dir, found, store.log);
    }
  }

  /** No upload ever gets the last id. */
  lemma NoLastId(d: Directory, found: set<Record>, records: set<Record>, kept: map<string, Bytes>, log: seq<Event>)
    requires Good(d, records, kept) && AllExplained(records, found, log) && forall r <- found :: r.id < UINT64_MAX
    ensures !HasLastId(d)
  {
    NamesApart(UINT64_MAX, UINT64_MAX);
    assert forall r <- records :: r.id < UINT64_MAX;
  }

  /** A store over its whole life, whatever fails and wherever the power goes. For any
      callers every blob that is visible now, or would be after a power cut at this
      moment, was there from the start or is the file of one upload, as the answers of
      `Begin`, `Write` and `Commit` say. For careful callers it is complete: exactly the
      bytes that the upload's writes accepted, and as many as were announced. */
  method RunFromStart(d: Directory, counter: nat, quiet: bool, commands: seq<Command>, careful: bool) returns (store: Store)
    requires counter <= UINT64_MAX && forall name <- d :: d[name].File? ==> d[name].durable
    ensures store.Valid() && fresh(store)
    ensures Explained(store.dir, RecordsOf(d), store.log)
    ensures forall back, junk :: back in store.pending + [store.dir] ==>
      Explained(AfterCut(back, junk), RecordsOf(d), store.log)
    ensures careful ==> Careful(store.log)
    ensures Careful(store.log) ==> WholeBlobs(store.dir, RecordsOf(d), store.log)
    ensures Careful(store.log) ==> forall back, junk :: back in store.pending + [store.dir] ==>
      WholeBlobs(AfterCut(back, junk), RecordsOf(d), store.log)
    ensures !HasLastId(d) ==> !HasLastId(store.dir)
    ensures Increasing(store.committed)
  {
    store := new Store(d, counter, quiet);
    ghost var found := RecordsOf(d);
    var index, failed := 0, false;
    while index < |commands|
      invariant index <= |commands| && InStep(store, found) && fresh(store)
      invariant (TallyOf(store.log).spoilt ==> failed) && (careful ==> Careful(store.log))
    {
      failed := Serve(store, commands[index], found, careful, failed);
      index := index + 1;
    }
    hide Explained;
    hide WholeBlobs;
    hide Careful;
    CutIsExplained(store, store.dir, map[], found);
    forall back, junk | back in store.pending + [store.dir]
      ensures Explained(AfterCut(back, junk), found, store.log)
      ensures Careful(store.log) ==> WholeBlobs(AfterCut(back, junk), found, store.log)
    {
      CutIsExplained(store, back, junk, found);
    }
    if !HasLastId(d) {
      NoLastIdFound(d);
      NoLastId(store.dir, found, store.records, store.kept, store.log);
    }
  }

  lemma NoLastIdFound(d: Directory)
    requires !HasLastId(d)
    ensures forall r <- RecordsOf(d) :: r.id < UINT64_MAX
  {
    forall r | r in RecordsOf(d) ensures r.id < UINT64_MAX {
      var name :| name in d && FinalId(name).Some? && d[name].File? && r == AsFound(FinalId(name).value, d[name].bytes);
      FinalNames(name);
    }
  }

  /** The others: from any upload in progress, let one write of at least two bytes fail
      after `k` of them, then write all that is missing and commit. Every call but the
      failed write reports success, and the blob has `k` bytes too many. */
  method CommitSpoilt(store: Store, data: Bytes, k: nat, rest: Bytes)
    returns (failed: Error, written: Error, result: Detailed)
    requires store.Valid() && store.Steady() && store.upload.active && store.leaked == 0 && store.upload.id < UINT64_MAX
    requires FinalName(store.upload.id) !in store.dir
    requires 2 <= |data| <= |rest| == store.upload.expected - store.upload.stored && 1 <= k < |data|
    modifies store
    ensures failed != NoError && failed != InvalidArgument && written == NoError && result.state == Committed
    ensures store.log == old(store.log) + [WriteFailed(data), Wrote(rest), Renamed(old(store.upload.id))]
    ensures var final := FinalName(old(store.upload.id));
      && store.accepted == old(store.accepted) + rest
      && final in store.dir && store.dir[final].File? && store.dir[final].durable
      && |store.dir[final].bytes| == old(store.upload.expected) + k && store.dir[final].bytes != store.accepted
  {
    hide DiskOk;
    hide IdsOk;
    hide UploadOk;
    hide TempName;
    hide FinalName;
    UploadFile(store.upload, store.committed, store.dir, store.accepted, store.leaked);
    NamesApart(store.upload.id, store.upload.id);
    ghost var id, d0 := store.upload.id, store.dir;
    failed := store.WriteWithRoom(data, k);
    StillFree(d0, store.dir, TempName(id), FinalName(id));
    ghost var d1 := store.dir;
    written := store.WriteWithRoom(rest, |rest|);
    StillFree(d1, store.dir, TempName(id), FinalName(id));
    var entry;
    result, entry := store.Commit();
  }

  lemma StillFree(before: Directory, after: Directory, name: string, free: string)
    requires OnlyAt(before, after, name) && free != name && free !in before
    ensures free !in after
  {
    assert free in after ==> free in after - {name};
  }
}
