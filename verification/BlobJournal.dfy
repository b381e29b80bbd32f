/** The hardware test collector's write-ahead journal for creating blobs on a device
    whose own blobs it must leave exactly as it found them.

    A blob stands for its SHA-256 (hashes are taken to be collision-free), and nobody
    else writes to the device. Every request and every write of the journal file may
    fail, with or without its effect, and a failure ends the command; so the states in
    which a command may end are all the states in which the host may crash. */
module BlobJournal {
  import opened Errors

  type Id = string
  type Hash = string
  type Snapshot = map<Id, Hash>

  datatype Pending = Pending(payload: Hash, before: Snapshot)

  /** The part of the evidence file that recovery depends on. */
  datatype Journal = Journal(owned: Snapshot, pending: Option<Pending>)

  datatype Reply = Created(id: Id) | Refused | Lost

  datatype Command = Create(payload: Hash) | Delete(id: Id) | Recover

  /** `expected_owned_snapshot`. */
  function Expected(baseline: Snapshot, j: Journal): Snapshot { baseline + j.owned }

  /** The blobs that the journal does not account for. */
  function Unknown(before: Snapshot, device: Snapshot): set<Id> { device.Keys - before.Keys }

  ghost predicate Contains(device: Snapshot, part: Snapshot) {
    forall id <- part :: id in device && device[id] == part[id]
  }

  /** What the journal on disk promises about the device, at every moment: all of the
      baseline is there; beyond it there are only owned blobs and at most one that
      matches the pending intent; and owned ids are never baseline ids. */
  ghost predicate Safe(baseline: Snapshot, j: Journal, device: Snapshot) {
    && Contains(device, baseline)
    && j.owned.Keys !! baseline.Keys
    && (forall id <- j.owned :: id in device ==> device[id] == j.owned[id])
    && match j.pending
       case None => device.Keys <= baseline.Keys + j.owned.Keys
       case Some(p) =>
         && p.before == Expected(baseline, j) && Contains(device, p.before)
         && (forall id <- Unknown(p.before, device) :: device[id] == p.payload)
         && (forall a, b :: a in Unknown(p.before, device) && b in Unknown(p.before, device) ==> a == b)
  }

  // ---- Steps keep it ----

  lemma SafeBegin(baseline: Snapshot, j: Journal, device: Snapshot, payload: Hash)
    requires Safe(baseline, j, device) && j.pending == None && device == Expected(baseline, j)
    ensures Safe(baseline, j.(pending := Some(Pending(payload, device))), device)
  {}

  lemma SafeCreate(baseline: Snapshot, j: Journal, device: Snapshot, id: Id)
    requires Safe(baseline, j, device) && j.pending.Some? && device == j.pending.value.before && id !in device
    ensures Safe(baseline, j, device[id := j.pending.value.payload])
  {
    var p := j.pending.value;
    assert Unknown(p.before, device[id := p.payload]) == {id};
  }

  /** Taking the one unknown blob into ownership. */
  lemma SafeFinish(baseline: Snapshot, j: Journal, device: Snapshot, id: Id)
    requires Safe(baseline, j, device) && j.pending.Some? && id in Unknown(j.pending.value.before, device)
    ensures Safe(baseline, Journal(j.owned[id := j.pending.value.payload], None), device)
    ensures id !in j.owned && id !in baseline
    ensures device == Expected(baseline, Journal(j.owned[id := j.pending.value.payload], None))
  {
    var p := j.pending.value;
    var done := Journal(j.owned[id := p.payload], None);
    assert id !in p.before;
    forall x | x in device ensures x in Expected(baseline, done) && Expected(baseline, done)[x] == device[x] {
      if x !in p.before { assert x in Unknown(p.before, device) && x == id; }
    }
    forall x | x in Expected(baseline, done) ensures x in device {
      if x != id { assert x in p.before; }
    }
  }

  /** Dropping the intent when nothing appeared. */
  lemma SafeClear(baseline: Snapshot, j: Journal, device: Snapshot)
    requires Safe(baseline, j, device) && j.pending.Some? && Unknown(j.pending.value.before, device) == {}
    ensures device == Expected(baseline, j) && Safe(baseline, j.(pending := None), device)
  {
    var p := j.pending.value;
    forall x | x in device ensures x in p.before { assert x !in Unknown(p.before, device); }
    assert device == p.before;
  }

  lemma SafeDelete(baseline: Snapshot, j: Journal, device: Snapshot, id: Id)
    requires Safe(baseline, j, device) && j.pending == None && id in j.owned
    ensures Safe(baseline, j, device - {id})
  {}

  lemma SafeForget(baseline: Snapshot, j: Journal, device: Snapshot, id: Id)
    requires Safe(baseline, j, device) && j.pending == None && id !in device
    ensures Safe(baseline, j.(owned := j.owned - {id}), device)
  {}

  class Collector {
    const baseline: Snapshot
    var device: Snapshot
    /** The evidence file. */
    var saved: Journal
    /** The state of the running command. */
    var state: Journal
    /** No request and no write fails, and a refused creation has no effect. */
    var reliable: bool

    constructor (found: Snapshot)
      ensures Valid() && baseline == found && device == found && saved == Journal(map[], None)
    {
      baseline, device, saved, state, reliable := found, found, Journal(map[], None), Journal(map[], None), false;
    }

    ghost predicate Valid()
      reads this
    {
      Safe(baseline, saved, device)
    }

    // ---- The outside world ----

    method Succeeds() returns (ok: bool)
      ensures reliable ==> ok
    {
      var fails: bool := *;
      ok := reliable || !fails;
    }

    /** `write_json` replaces the file at once. */
    method WriteJson() returns (ok: bool)
      modifies this`saved
      ensures saved == state || saved == old(saved)
      ensures ok ==> saved == state
      ensures reliable ==> ok
    {
      ok := Succeeds();
      var replaced: bool := *;
      if ok || replaced { saved := state; }
    }

    /** `snapshot` of the device. */
    method TakeSnapshot() returns (ok: bool, found: Snapshot)
      ensures ok ==> found == device
      ensures reliable ==> ok
    {
      ok := Succeeds();
      found := device;
    }

    /** `create_blob`: the blob may be there although the reply says otherwise. */
    method CreateBlob(payload: Hash) returns (reply: Reply)
      modifies this`device
      ensures device == old(device) || exists id :: id !in old(device) && device == old(device)[id := payload]
      ensures reply.Created? ==> reply.id !in old(device) && device == old(device)[reply.id := payload]
      ensures reliable ==> reply.Created? || (reply.Refused? && device == old(device))
    {
      var id: Id, effect: bool, heard: bool := *, *, *;
      effect := effect && id !in device;
      heard := heard || reliable;
      if effect { device := device[id := payload]; }
      reply := if effect && heard then Created(id) else if heard then Refused else Lost;
    }

    method DeleteBlob(id: Id) returns (ok: bool)
      modifies this`device
      ensures device == old(device) || device == old(device) - {id}
      ensures ok ==> id !in device
      ensures reliable ==> ok
    {
      ok := Succeeds();
      var effect: bool := *;
      if ok || effect { device := device - {id}; }
    }

    // ---- The journal ----

    /** `begin_pending_creation`. */
    method BeginPendingCreation(payload: Hash) returns (ok: bool)
      requires Valid() && state == saved
      modifies this`state, this`saved
      ensures Valid()
      ensures ok ==> state == saved == Journal(old(saved).owned, Some(Pending(payload, device))) && old(saved).pending == None
      ensures reliable ==> (ok <==> old(saved).pending == None && device == Expected(baseline, old(saved)))
    {
      if state.pending != None { return false; }
      var before;
      ok, before := TakeSnapshot();
      if !ok || before != Expected(baseline, state) { return false; }
      SafeBegin(baseline, saved, device, payload);
      state := state.(pending := Some(Pending(payload, before)));
      ok := WriteJson();
    }

    /** `finish_pending_creation`. */
    method FinishPendingCreation(id: Id, hash: Hash) returns (ok: bool)
      requires Valid() && state == saved && (state.pending.Some? ==> id in device)
      modifies this`state, this`saved
      ensures Valid()
      ensures ok ==>
        && state == saved && saved == Journal(old(saved).owned[id := hash], None)
        && device == Expected(baseline, saved) && id !in old(saved).owned && id !in baseline
      ensures reliable && old(saved).pending.Some? ==>
        var p := old(saved).pending.value;
        hash == p.payload && id in Unknown(p.before, device) ==> ok
    {
      if state.pending == None || hash != state.pending.value.payload || id in state.pending.value.before { return false; }
      assert id in Unknown(state.pending.value.before, device);
      SafeFinish(baseline, saved, device, id);
      if id in state.owned { return false; }
      state := Journal(state.owned[id := hash], None);
      ok := WriteJson();
    }

    /** `clear_pending_creation_if_unchanged`. */
    method ClearIfUnchanged() returns (ok: bool)
      requires Valid() && state == saved
      modifies this`state, this`saved
      ensures Valid()
      ensures ok ==> state == saved && saved.pending == None && saved.owned == old(saved).owned && device == Expected(baseline, saved)
      ensures reliable ==> (ok <==> old(saved).pending.Some? && device == old(saved).pending.value.before)
    {
      if state.pending == None { return false; }
      var found;
      ok, found := TakeSnapshot();
      if !ok || found != state.pending.value.before { return false; }
      SafeClear(baseline, saved, device);
      state := state.(pending := None);
      ok := WriteJson();
    }

    /** `create_journaled_blob`. */
    method CreateJournaledBlob(payload: Hash) returns (ok: bool, created: Option<Id>)
      requires Valid() && state == saved
      modifies this`state, this`saved, this`device
      ensures Valid()
      ensures ok ==> state == saved && saved.pending == None && device == Expected(baseline, saved)
      ensures ok && created.Some? ==> saved.owned == old(saved).owned[created.value := payload] && created.value !in old(device)
      ensures ok && created.None? ==> saved.owned == old(saved).owned && device == old(device)
      ensures reliable ==> (ok <==> old(saved).pending == None && old(device) == Expected(baseline, old(saved)))
    {
      created := None;
      ok := BeginPendingCreation(payload);
      if !ok { return; }
      ghost var before := device;
      var reply := CreateBlob(payload);
      if device != before {
        ghost var id :| id !in before && device == before[id := payload];
        SafeCreate(baseline, saved, before, id);
      }
      match reply {
        case Lost => return false, None;
        case Refused => ok := ClearIfUnchanged();
        case Created(id) =>
          ok := Succeeds();
          if !ok || device[id] != payload { return false, None; }
          ok := FinishPendingCreation(id, payload);
          created := Some(id);
      }
    }

    /** `reconcile_pending_creation`: whatever the interrupted creation left is owned
        afterwards. */
    method ReconcilePendingCreation() returns (ok: bool)
      requires Valid() && state == saved
      modifies this`state, this`saved
      ensures Valid()
      ensures ok ==> state == saved && saved.pending == None && old(saved).owned.Keys <= saved.owned.Keys
      ensures ok && old(saved).pending.Some? ==> device == Expected(baseline, saved)
      ensures reliable ==> ok
    {
      if state.pending == None { return true; }
      var found;
      ok, found := TakeSnapshot();
      if !ok { return; }
      var p := state.pending.value;
      if exists id <- p.before :: !(id in found && found[id] == p.before[id]) { return false; }
      var unknown := Unknown(p.before, found);
      if unknown == {} {
        SafeClear(baseline, saved, device);
        state := state.(pending := None);
        ok := WriteJson();
        return;
      }
      var id :| id in unknown;
      AtMostOne(unknown, id);
      if |unknown| > 1 || found[id] != p.payload { return false; }
      ok := FinishPendingCreation(id, found[id]);
    }

    lemma AtMostOne(unknown: set<Id>, id: Id)
      requires id in unknown && forall a, b :: a in unknown && b in unknown ==> a == b
      ensures |unknown| == 1
    {
      assert unknown == {id};
    }

    /** `delete_owned_blob`. */
    method DeleteOwnedBlob(id: Id) returns (ok: bool)
      requires Valid() && state == saved && saved.pending == None && id in saved.owned
      modifies this`state, this`saved, this`device
      ensures Valid()
      ensures ok ==>
        && state == saved && saved == Journal(old(saved).owned - {id}, None)
        && device == old(device) - {id}
      ensures reliable ==> ok
    {
      SafeDelete(baseline, saved, device, id);
      ok := Succeeds();
      if !ok { return; }
      if id in device {
        ok := Succeeds();
        if !ok || device[id] != state.owned[id] { return false; }
        ok := DeleteBlob(id);
        if !ok { return; }
      }
      SafeForget(baseline, saved, device, id);
      state := state.(owned := state.owned - {id});
      ok := WriteJson();
    }

    /** `verify_recoverable_snapshot`. */
    method VerifyRecoverable() returns (ok: bool)
      requires Valid()
      ensures ok ==> device.Keys <= baseline.Keys + state.owned.Keys && Contains(device, baseline)
      ensures reliable && state == saved && saved.pending == None ==> ok
    {
      ok := Succeeds();
      if !ok { return; }
      if !(device.Keys <= baseline.Keys + state.owned.Keys) { return false; }
      if exists id <- baseline :: !(id in device && device[id] == baseline[id]) { return false; }
      if exists id <- state.owned :: id in device && device[id] != state.owned[id] { return false; }
      ok := Succeeds();
    }

    /** `command_recover_cleanup`: success restores exactly the baseline, and without
        failures it always succeeds, wherever an earlier command had stopped. */
    method RecoverCleanup() returns (ok: bool)
      requires Valid()
      modifies this`state, this`saved, this`device
      ensures Valid()
      ensures ok ==> device == baseline && saved == Journal(map[], None)
      ensures reliable ==> ok
    {
      state := saved;
      ok := ReconcilePendingCreation();
      if !ok { return; }
      ok := VerifyRecoverable();
      if !ok { return; }
      while state.owned != map[]
        invariant Valid() && state == saved && saved.pending == None && ok
        decreases |state.owned|
      {
        var id :| id in state.owned;
        ghost var count := |state.owned|;
        FewerOwned(state.owned, id);
        ok := DeleteOwnedBlob(id);
        if !ok { return; }
      }
      OnlyBaselineLeft();
      ok := Succeeds();
    }

    lemma FewerOwned(owned: Snapshot, id: Id)
      requires id in owned
      ensures |owned - {id}| < |owned|
    {
      assert (owned - {id}).Keys == owned.Keys - {id};
      assert |(owned - {id}).Keys| == |owned - {id}| && |owned.Keys| == |owned|;
    }

    lemma OnlyBaselineLeft()
      requires Valid() && saved.pending == None && saved.owned == map[]
      ensures device == baseline
    {
      assert device.Keys == baseline.Keys;
    }

    /** Any number of commands, each stopping anywhere: no baseline blob is ever lost or
        changed, and a recovery without failures then restores exactly the baseline. */
    method RunThenRecover(commands: seq<Command>) returns (ok: bool)
      requires Valid()
      modifies this
      ensures Valid() && device == baseline && ok
    {
      var index := 0;
      reliable := false;
      while index < |commands|
        invariant Valid()
      {
        state := saved;
        match commands[index] {
          case Create(payload) => var done, created := CreateJournaledBlob(payload);
          case Delete(id) => if state.pending == None && id in state.owned { var done := DeleteOwnedBlob(id); }
          case Recover => var done := RecoverCleanup();
        }
        index := index + 1;
      }
      reliable := true;
      ok := RecoverCleanup();
    }
  }
}
