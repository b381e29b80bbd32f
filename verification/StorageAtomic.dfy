/** Atomic replacement of a file: stage beside it, verify, rename over it.

    As in the blob store, every operation may fail, and the power may go at any of
    them; a cut brings back one of the directory states since the last
    synchronisation, with arbitrary bytes in files that were not synchronised. */
module StorageAtomic {
  import opened Errors
  import opened BlobFiles
  import opened BlobStore

  const PATH_MAX_BYTES := 256
  const BUFFER_BYTES := 256

  /** The path of the staged copy, unless a path is too long. */
  function TemporaryPath(path: string): Option<string> {
    if |path| + 4 >= PATH_MAX_BYTES then None else Some(path + ".tmp")
  }

  function At(d: Directory, path: string): Option<Node> {
    if path in d then Some(d[path]) else None
  }

  /** At `path` the directory shows the new node, or what one of the earlier ones shows. */
  ghost predicate OldOrNew(d: Directory, path: string, earlier: seq<Directory>, next: Node) {
    At(d, path) == Some(next) || exists e <- earlier :: At(d, path) == At(e, path)
  }

  datatype Transfer = Moved(count: nat) | Interrupted | Broken

  class FileSystem {
    var dir: Directory
    /** Earlier directory states that a power cut may still bring back. */
    var pending: seq<Directory>
    var power: bool
    /** Signals yet to arrive: only these interrupt an operation. */
    var signals: nat
    /** No operation fails on its own account and the power stays; writes and reads may
        still be short or interrupted. */
    const reliable: bool
    /** Files can be synchronised at all. */
    const syncSupported: bool

    constructor (d: Directory, arriving: nat, quiet: bool, canSync: bool)
      ensures dir == d && pending == [] && power && signals == arriving && reliable == quiet && syncSupported == canSync
    {
      dir, pending, power, signals, reliable, syncSupported := d, [], true, arriving, quiet, canSync;
    }

    ghost predicate Steady()
      reads this`power
    {
      reliable && power
    }

    // ---- Operations ----

    method Attempt() returns (ok: bool)
      modifies this`power
      ensures power ==> old(power)
      ensures ok ==> power
      ensures old(Steady()) ==> ok
    {
      var cut: bool, fails: bool := *, *;
      power := power && (reliable || !cut);
      ok := power && (reliable || !fails);
    }

    method IoFailure() returns (error: Error)
      ensures error == StorageFull || error == IoError
    {
      var full: bool := *;
      error := if full then StorageFull else IoError;
    }

    method OpenTruncated(name: string) returns (ok: bool)
      modifies this`power, this`dir, this`pending
      ensures ok ==> dir == old(dir)[name := File([], false)]
      ensures ok ==> pending == if name in old(dir) then old(pending) else old(pending) + [old(dir)]
      ensures !ok ==> dir == old(dir) && pending == old(pending)
      ensures old(Steady()) ==> power && (ok <==> !(name in old(dir) && old(dir)[name].Other?))
    {
      ok := Attempt();
      if ok && name in dir && dir[name].Other? { ok := false; }
      if ok {
        if name !in dir { pending := pending + [dir]; }
        dir := dir[name := File([], false)];
      }
    }

    /** Writes some of the data; the count it answers may even be too large. */
    method WriteFile(name: string, data: Bytes) returns (t: Transfer)
      requires name in dir && dir[name].File? && data != []
      modifies this`power, this`dir, this`signals
      ensures t.Interrupted? ==> signals < old(signals) && dir == old(dir)
      ensures !t.Interrupted? ==> signals == old(signals)
      ensures name in dir && dir[name].File? && dir == old(dir)[name := dir[name]]
      ensures dir[name].durable ==> old(dir)[name].durable
      ensures t.Moved? && t.count <= |data| ==> dir[name].bytes == old(dir)[name].bytes + data[..t.count]
      ensures old(Steady()) ==> power && (t.Interrupted? || (t.Moved? && 0 < t.count <= |data|))
    {
      var signal: bool, count: nat := *, *;
      if reliable && !(0 < count <= |data|) { count := 1; }
      if signal && signals > 0 {
        signals := signals - 1;
        assert dir == dir[name := dir[name]];
        return Interrupted;
      }
      var ok := Attempt();
      if !ok || count < 0 {
        assert dir == dir[name := dir[name]];
        return Broken;
      }
      dir := dir[name := File(dir[name].bytes + if count <= |data| then data[..count] else data, false)];
      t := Moved(count);
    }

    /** Reads from a position; nothing is read only at the end of the file. */
    method ReadFile(name: string, position: nat, requested: nat) returns (t: Transfer, buffer: Bytes)
      requires name in dir && dir[name].File? && position <= |dir[name].bytes| && requested > 0
      modifies this`power, this`signals
      ensures t.Interrupted? ==> signals < old(signals)
      ensures !t.Interrupted? ==> signals == old(signals)
      ensures t.Moved? && t.count <= requested ==>
        position + t.count <= |dir[name].bytes| && buffer == dir[name].bytes[position..position + t.count]
      ensures t.Moved? && t.count == 0 ==> position == |dir[name].bytes|
      ensures old(Steady()) ==> power && (t.Interrupted? || (t.Moved? && t.count <= requested))
    {
      var signal: bool, count: nat := *, *;
      if reliable && !(0 <= count <= requested) { count := requested; }
      buffer := [];
      if signal && signals > 0 {
        signals := signals - 1;
        return Interrupted, buffer;
      }
      var ok := Attempt();
      if !ok || count < 0 { return Broken, buffer; }
      var available := |dir[name].bytes| - position;
      if count > requested { return Moved(count), buffer; }
      var given := if count <= available then count else available;
      if given == 0 && available > 0 { given := 1; }
      buffer := dir[name].bytes[position..position + given];
      t := Moved(given);
    }

    method SyncFile(name: string) returns (ok: bool, unsupported: bool)
      requires name in dir && dir[name].File?
      modifies this`power, this`dir
      ensures dir == old(dir)[name := File(old(dir)[name].bytes, ok || old(dir)[name].durable)]
      ensures old(Steady()) ==> power && ok == syncSupported && (!ok ==> unsupported)
    {
      ok := Attempt();
      unsupported := *;
      if ok && !syncSupported { ok, unsupported := false, true; }
      dir := dir[name := File(dir[name].bytes, ok || dir[name].durable)];
    }

    method Rename(from: string, to: string) returns (ok: bool)
      requires from in dir && from != to
      modifies this`power, this`dir, this`pending
      ensures ok ==> dir == (old(dir) - {from})[to := old(dir)[from]] && pending == old(pending) + [old(dir)]
      ensures !ok ==> dir == old(dir) && pending == old(pending)
      ensures old(Steady()) ==> power && ok
    {
      ok := Attempt();
      if ok {
        pending := pending + [dir];
        dir := (dir - {from})[to := dir[from]];
      }
    }

    /** `cleanup_path`. */
    method CleanupPath(name: string) returns (error: Error)
      modifies this`power, this`dir, this`pending
      ensures error == NoError ==> name !in dir
      ensures dir == old(dir) || dir == old(dir) - {name}
      ensures pending == if dir == old(dir) then old(pending) else old(pending) + [old(dir)]
      ensures old(Steady()) ==> power
    {
      var ok := Attempt();
      if !ok { error := IoFailure(); return; }
      error := NoError;
      if name in dir {
        assert name !in dir - {name};
        pending := pending + [dir];
        dir := dir - {name};
      }
    }

    method SyncParent() returns (error: Error)
      modifies this`power, this`pending
      ensures pending == if error == NoError then [] else old(pending)
      ensures old(Steady()) ==> error == NoError
    {
      var ok := Attempt();
      if ok { pending := []; }
      error := NoError;
      if !ok { error := IoFailure(); }
    }

    // ---- Staging ----

    /** `write_all`: success means all the data, once and in order, however the writes
        were split and interrupted. */
    method WriteAll(name: string, data: Bytes) returns (result: Error)
      requires name in dir && dir[name].File?
      modifies this`power, this`dir, this`signals
      ensures name in dir && dir[name].File? && dir == old(dir)[name := dir[name]]
      ensures result == NoError ==> dir[name].bytes == old(dir)[name].bytes + data
      ensures dir[name].durable ==> old(dir)[name].durable
      ensures old(Steady()) ==> power && result == NoError
      ensures signals <= old(signals)
    {
      var written: nat := 0;
      assert dir == dir[name := dir[name]];
      while written < |data|
        invariant written <= |data|
        invariant name in dir && dir[name].File? && dir == old(dir)[name := dir[name]]
        invariant dir[name].bytes == old(dir)[name].bytes + data[..written]
        invariant dir[name].durable ==> old(dir)[name].durable
        invariant (old(Steady()) ==> power) && signals <= old(signals)
        decreases |data| - written, signals
      {
        var requested := |data| - written;
        var t := WriteFile(name, data[written..]);
        match t
        case Interrupted => continue;
        case Broken => result := IoFailure(); return;
        case Moved(count) =>
          if count == 0 || count > requested { return IoError; }
          assert data[..written] + data[written..][..count] == data[..written + count];
          written := written + count;
      }
      assert data[..|data|] == data;
      result := NoError;
    }

    /** The comparing loop of `verify_file`. */
    method VerifyPrefix(name: string, expected: Bytes) returns (result: Error)
      requires name in dir && dir[name].File?
      modifies this`power, this`signals
      ensures result == NoError ==> expected <= dir[name].bytes
      ensures old(Steady()) ==> power && (result == NoError <==> expected <= dir[name].bytes)
      ensures signals <= old(signals)
    {
      var verified: nat := 0;
      while verified < |expected|
        invariant verified <= |expected| && verified <= |dir[name].bytes|
        invariant dir[name].bytes[..verified] == expected[..verified]
        invariant (old(Steady()) ==> power) && signals <= old(signals)
        decreases |expected| - verified, signals
      {
        var remaining := |expected| - verified;
        var requested := if remaining < BUFFER_BYTES then remaining else BUFFER_BYTES;
        var t, buffer := ReadFile(name, verified, requested);
        match t
        case Interrupted => continue;
        case Broken => result := IoFailure(); return;
        case Moved(count) =>
          if count == 0 || count > requested { return IoError; }
          if buffer != expected[verified..verified + count] { return IoError; }
          assert dir[name].bytes[..verified + count] == dir[name].bytes[..verified] + buffer;
          assert expected[..verified + count] == expected[..verified] + buffer;
          verified := verified + count;
      }
      assert expected[..|expected|] == expected;
      result := NoError;
    }

    /** `verify_file`: success means the file is exactly the data. */
    method VerifyFile(name: string, expected: Bytes) returns (result: Error)
      requires name in dir && dir[name].File?
      modifies this`power, this`signals
      ensures result == NoError ==> dir[name].bytes == expected
      ensures old(Steady()) && old(signals) == 0 ==> power && (result == NoError <==> dir[name].bytes == expected)
    {
      var couldOpen := Attempt();
      if !couldOpen { result := IoFailure(); return; }
      result := VerifyPrefix(name, expected);
      if result == NoError {
        var t, extra := ReadFile(name, |expected|, 1);
        if t == Moved(0) {
          assert dir[name].bytes[..|expected|] == dir[name].bytes;
        } else if t.Moved? {
          result := IoError;
        } else {
          result := IoFailure();
        }
      }
      var closed := Attempt();
      if !closed && result == NoError { result := IoFailure(); }
    }

    /** `stage_temporary_file`: success leaves exactly the data in the temporary file,
        durable unless synchronising is both optional and unsupported. */
    method Stage(temp: string, data: Bytes, syncRequired: bool) returns (primary: Error, cleanup: Error)
      modifies this`power, this`dir, this`pending, this`signals
      ensures OnlyAt(old(dir), dir, temp)
      ensures forall d <- pending :: d in old(pending) || OnlyAt(old(dir), d, temp)
      ensures primary == NoError ==>
        && temp in dir && dir[temp].File? && dir[temp].bytes == data
        && (syncRequired ==> dir[temp].durable)
      ensures old(Steady()) && old(signals) == 0 ==>
        && power
        && (primary == NoError <==> !(temp in old(dir) && old(dir)[temp].Other?) && (syncSupported || !syncRequired))
        && (primary == NoError ==> dir[temp].durable == syncSupported)
    {
      cleanup := NoError;
      ghost var before := dir;
      OnlyAtOne(before, temp, File([], false));
      var couldOpen := OpenTruncated(temp);
      if !couldOpen { primary := IoFailure(); return; }
      primary := FillAndVerify(temp, data, syncRequired);
      OnlyAtOne(before, temp, dir[temp]);
      assert dir == before[temp := dir[temp]];
      if primary != NoError {
        OnlyAtTwice(before, dir, temp);
        cleanup := CleanupPath(temp);
      }
    }

    /** What happens between opening and cleaning up. */
    method FillAndVerify(temp: string, data: Bytes, syncRequired: bool) returns (primary: Error)
      requires temp in dir && dir[temp] == File([], false)
      modifies this`power, this`dir, this`signals
      ensures temp in dir && dir[temp].File? && dir == old(dir)[temp := dir[temp]]
      ensures primary == NoError ==> dir[temp].bytes == data && (syncRequired ==> dir[temp].durable)
      ensures old(Steady()) && old(signals) == 0 ==>
        && power && (primary == NoError <==> syncSupported || !syncRequired)
        && (primary == NoError ==> dir[temp].durable == syncSupported)
    {
      primary := WriteAll(temp, data);
      if primary == NoError {
        assert [] + data == data;
        var synced, unsupported := SyncFile(temp);
        if !synced && (syncRequired || !unsupported) { primary := IoFailure(); }
      }
      var closed := Attempt();
      if !closed && primary == NoError { primary := IoFailure(); }
      if primary == NoError { primary := VerifyFile(temp, data); }
    }

    // ---- The whole write ----

    /** `storage_atomic_write_with_ops_and_parent_sync_result`. `NotCommitted` means the
        old file is visible, the other outcomes that the new one is; `synced` tells
        whether its bytes were synchronised before the rename, which `syncRequired`
        enforces. A power cut at any moment is sure to find what was there before or the
        complete new bytes if and only if they were, or nothing was renamed. */
    method AtomicWrite(path: string, data: Bytes, syncRequired: bool) returns (result: Detailed, ghost synced: bool)
      modifies this
      ensures result.state == Committed <==> result.primary == NoError
      ensures TemporaryPath(path) == None ==> result.primary == InvalidArgument && dir == old(dir) && pending == old(pending)
      ensures result.state == NotCommitted ==> At(dir, path) == At(old(dir), path)
      ensures result.state == Committed || result.state == Uncertain ==>
        At(dir, path) == Some(File(data, synced)) && (syncRequired ==> synced)
      ensures forall name <- old(dir) :: name != path && Some(name) != TemporaryPath(path) ==> name in dir && dir[name] == old(dir)[name]
      ensures result.state == Committed ==> pending == []
      ensures result.state != NotApplicable
      ensures DurableAt(old(pending) + [old(dir)], path) ==>
        (SafeAfterCuts(pending + [dir], path, old(pending) + [old(dir)], data) <==> result.state == NotCommitted || synced)
      ensures old(Steady()) && old(signals) == 0 && TemporaryPath(path).Some? ==>
        && (result.state == Committed <==>
              At(old(dir), TemporaryPath(path).value) != Some(Other) && (syncSupported || !syncRequired))
        && (result.state == Committed ==> synced == syncSupported)
    {
      hide SafeAfterCuts;
      hide DurableAt;
      hide OldOrNew;
      synced := false;
      ghost var before, earlier := dir, pending;
      if TemporaryPath(path) == None {
        NothingWritten(before, earlier, path, data);
        return Detailed(InvalidArgument, NoError, NotCommitted), synced;
      }
      var temp := TemporaryPath(path).value;
      assert temp != path;
      var primary, cleanup := Stage(temp, data, syncRequired);
      Untouched(before, dir, temp, path);
      StillOld(before, earlier, dir, pending, temp, path, File(data, true));
      if primary != NoError {
        SafeIfOld(pending + [dir], path, earlier + [before], data);
        return Detailed(primary, cleanup, NotCommitted), synced;
      }
      ghost var staged, waiting := dir, pending;
      var renamed := Rename(temp, path);
      if !renamed {
        primary := IoFailure();
        cleanup := CleanupPath(temp);
        SafeIfOld(pending + [dir], path, earlier + [before], data);
        return Detailed(primary, cleanup, NotCommitted), synced;
      }
      synced := staged[temp].durable;
      primary := SyncParent();
      SafeIfSynced(pending, waiting + [staged], dir, path, earlier + [before], data, synced);
      if primary != NoError { return Detailed(primary, NoError, Uncertain), synced; }
      result := Detailed(NoError, NoError, Committed);
    }

    /** Where files cannot be synchronised and synchronising is not required, the write
        reports success, and a power cut may then show any bytes at all: neither the
        old ones nor the new. */
    method TornWrite(path: string, data: Bytes) returns (result: Detailed)
      requires Steady() && signals == 0 && !syncSupported
      requires TemporaryPath(path).Some? && At(dir, TemporaryPath(path).value) != Some(Other)
      requires DurableAt(pending + [dir], path)
      modifies this
      ensures result.state == Committed && At(dir, path) == Some(File(data, false))
      ensures forall other :: At(AfterCut(dir, map[path := other]), path) == Some(File(other, true))
      ensures !SafeAfterCuts(pending + [dir], path, old(pending) + [old(dir)], data)
    {
      hide SafeAfterCuts;
      hide DurableAt;
      ghost var synced;
      result, synced := AtomicWrite(path, data, false);
    }
  }

  /** Whatever is at the path in these states survives a power cut. */
  ghost predicate DurableAt(ds: seq<Directory>, path: string) {
    forall d: Directory <- ds :: path in d && d[path].File? ==> d[path].durable
  }

  /** After a power cut in any of the states, the path shows the new bytes or what one
      of the earlier states shows. */
  ghost predicate SafeAfterCuts(ds: seq<Directory>, path: string, earlier: seq<Directory>, data: Bytes) {
    forall d, junk :: d in ds ==> OldOrNew(AfterCut(d, junk), path, earlier, File(data, true))
  }

  lemma SafeIfOld(ds: seq<Directory>, path: string, earlier: seq<Directory>, data: Bytes)
    requires forall d <- ds :: OldOrNew(d, path, earlier, File(data, true))
    ensures DurableAt(earlier, path) ==> SafeAfterCuts(ds, path, earlier, data)
  {
    if DurableAt(earlier, path) {
      forall d, junk | d in ds ensures OldOrNew(AfterCut(d, junk), path, earlier, File(data, true)) {
        CutShowsOldOrNew(d, junk, path, earlier, File(data, true));
      }
    }
  }

  lemma NothingWritten(d: Directory, pending: seq<Directory>, path: string, data: Bytes)
    ensures DurableAt(pending + [d], path) ==> SafeAfterCuts(pending + [d], path, pending + [d], data)
  {
    SafeIfOld(pending + [d], path, pending + [d], data);
  }

  /** Some bytes that none of the states shows. */
  lemma {:induction false} UnseenBytes(ds: seq<Directory>, path: string, data: Bytes) returns (other: Bytes)
    ensures other != data && |data| < |other|
    ensures forall d <- ds :: At(d, path) != Some(File(other, true))
    ensures forall d: Directory <- ds :: path in d && d[path].File? ==> |d[path].bytes| < |other|
  {
    if ds == [] {
      other := data + [0];
    } else {
      var init, last := ds[..|ds| - 1], ds[|ds| - 1];
      other := UnseenBytes(init, path, data);
      assert forall d <- ds :: d in init || d == last;
      if path in last && last[path].File? && |last[path].bytes| >= |other| {
        other := last[path].bytes + [0];
      }
    }
  }

  /** After the rename, safety is a matter of whether the new bytes were synchronised. */
  lemma SafeIfSynced(pending: seq<Directory>, waiting: seq<Directory>, d: Directory, path: string,
                     earlier: seq<Directory>, data: Bytes, synced: bool)
    requires pending == [] || pending == waiting
    requires forall e <- waiting :: OldOrNew(e, path, earlier, File(data, true))
    requires At(d, path) == Some(File(data, synced))
    ensures DurableAt(earlier, path) ==> (SafeAfterCuts(pending + [d], path, earlier, data) <==> synced)
  {
    if synced {
      SafeIfOld(pending + [d], path, earlier, data);
    } else {
      var other := UnseenBytes(earlier, path, data);
      var torn := AfterCut(d, map[path := other]);
      assert At(torn, path) == Some(File(other, true));
      assert d in pending + [d];
      assert !OldOrNew(torn, path, earlier, File(data, true));
    }
  }

  lemma Untouched(before: Directory, after: Directory, temp: string, path: string)
    requires OnlyAt(before, after, temp) && temp != path
    ensures At(after, path) == At(before, path)
    ensures forall name <- before :: name != temp ==> name in after && after[name] == before[name]
  {
    forall name | name != temp
      ensures name in before <==> name in after
      ensures name in before ==> before[name] == after[name]
    {
      assert name in before - {temp} <==> name in after - {temp};
      if name in before { assert (before - {temp})[name] == (after - {temp})[name]; }
    }
  }

  lemma StillOld(before: Directory, earlier: seq<Directory>, after: Directory, pending: seq<Directory>,
                 temp: string, path: string, next: Node)
    requires temp != path && OnlyAt(before, after, temp)
    requires forall d <- pending :: d in earlier || OnlyAt(before, d, temp)
    ensures forall d <- pending + [after, after - {temp}] :: OldOrNew(d, path, earlier + [before], next)
  {
    var known := earlier + [before];
    assert before in known && forall d <- earlier :: d in known;
    forall d | d in pending + [after, after - {temp}] ensures OldOrNew(d, path, known, next) {
      if d in pending && d in earlier {
      } else {
        if d == after - {temp} { OnlyAtTwice(before, after, temp); }
        Untouched(before, d, temp, path);
      }
    }
  }

  /** What a power cut finds at `path`, when everything it may bring back is durable. */
  lemma CutShowsOldOrNew(d: Directory, junk: map<string, Bytes>, path: string, earlier: seq<Directory>, next: Node)
    requires OldOrNew(d, path, earlier, next) && next.File? && next.durable
    requires forall e: Directory <- earlier :: path in e && e[path].File? ==> e[path].durable
    ensures OldOrNew(AfterCut(d, junk), path, earlier, next)
  {
    if At(d, path) != Some(next) {
      var e :| e in earlier && At(d, path) == At(e, path);
      assert At(AfterCut(d, junk), path) == At(e, path);
    }
  }
}
