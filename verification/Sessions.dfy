/** Login sessions: a table of eight slots that refines a plain record of when each
    token was created and last validated. */
module Sessions {
  import opened Errors

  const TABLE_MAX := 8
  const TOKEN_BYTES := 32
  const TOKEN_ATTEMPTS := 4
  const SECOND_US := 1_000_000
  const IDLE_US := 86_400 * SECOND_US
  const ABSOLUTE_US := 604_800 * SECOND_US

  // ---- Tokens ----

  function HexDigit(d: nat): char
    requires d < 16
  {
    if d < 10 then ('0' as int + d) as char else ('a' as int + d - 10) as char
  }

  predicate IsHexDigit(c: char) { '0' <= c <= '9' || 'a' <= c <= 'f' }

  /** `auth_core_valid_hex_token`. */
  predicate ValidToken(token: string) {
    |token| == 2 * TOKEN_BYTES && forall c <- token :: IsHexDigit(c)
  }

  type Byte = b: nat | b < 256

  /** The loop of `random_hex`, byte by byte. */
  function Hex(bytes: seq<Byte>): (token: string)
    ensures |token| == 2 * |bytes| && forall c <- token :: IsHexDigit(c)
  {
    if bytes == [] then []
    else Hex(bytes[..|bytes| - 1]) + [HexDigit(bytes[|bytes| - 1] / 16), HexDigit(bytes[|bytes| - 1] % 16)]
  }

  /** Different random bytes give different tokens. */
  lemma {:induction false} HexInjective(a: seq<Byte>, b: seq<Byte>)
    requires |a| == |b|
    ensures Hex(a) == Hex(b) ==> a == b
  {
    if a != [] && Hex(a) == Hex(b) {
      var a0, b0 := a[..|a| - 1], b[..|b| - 1];
      var x, y := a[|a| - 1], b[|b| - 1];
      assert Hex(a)[..2 * |a0|] == Hex(a0) && Hex(b)[..2 * |b0|] == Hex(b0);
      HexInjective(a0, b0);
      assert Hex(a)[2 * |a0|] == HexDigit(x / 16) && Hex(a)[2 * |a0| + 1] == HexDigit(x % 16);
      assert Hex(b)[2 * |b0|] == HexDigit(y / 16) && Hex(b)[2 * |b0| + 1] == HexDigit(y % 16);
      assert x == y;
      assert a == a0 + [x] && b == b0 + [y];
    }
  }

  // ---- The plain record ----

  datatype Session = Session(created: nat, lastUsed: nat)

  /** Every token that was created and neither logged out nor evicted since. */
  type Record = map<string, Session>

  /** Under a day since the last validation and under a week since creation. */
  predicate Alive(s: Session, now: nat) {
    now - s.lastUsed < IDLE_US && now - s.created < ABSOLUTE_US
  }

  predicate IsAlive(record: Record, token: string, now: nat) {
    token in record && Alive(record[token], now)
  }

  // ---- The table ----

  datatype Entry = Entry(active: bool, token: string, expiresAt: nat, absoluteExpiresAt: nat, lastUsed: nat)

  const NO_ENTRY := Entry(false, "", 0, 0, 0)

  /** `session_expired`. */
  predicate Expired(e: Entry, now: nat) { e.expiresAt <= now || e.absoluteExpiresAt <= now }

  function Min(a: nat, b: nat): nat { if a < b then a else b }

  function EntryOf(token: string, s: Session): Entry {
    Entry(true, token, Min(s.lastUsed + IDLE_US, s.created + ABSOLUTE_US), s.created + ABSOLUTE_US, s.lastUsed)
  }

  ghost predicate Tracks(e: Entry, record: Record) {
    e.active ==> e.token in record && e == EntryOf(e.token, record[e.token]) && ValidToken(e.token)
  }

  ghost predicate DistinctTokens(es: seq<Entry>) {
    forall i, j :: 0 <= i < j < |es| && es[i].active && es[j].active ==> es[i].token != es[j].token
  }

  ghost predicate HasSlot(es: seq<Entry>, token: string) {
    exists i :: 0 <= i < |es| && es[i].active && es[i].token == token
  }

  ghost predicate TimesOk(record: Record, now: nat) {
    forall token <- record :: record[token].created <= record[token].lastUsed <= now
  }

  /** The active slots hold distinct tokens as recorded, and every live token. */
  ghost predicate TableOk(es: seq<Entry>, record: Record, now: nat) {
    && |es| == TABLE_MAX
    && (forall i :: 0 <= i < |es| ==> Tracks(es[i], record))
    && DistinctTokens(es)
    && (forall token <- record :: Alive(record[token], now) ==> HasSlot(es, token))
    && TimesOk(record, now)
  }

  lemma TableLater(es: seq<Entry>, record: Record, before: nat, now: nat)
    requires TableOk(es, record, before) && before <= now
    ensures TableOk(es, record, now)
  {
    hide Tracks;
    hide HasSlot;
  }

  /** Clearing a slot whose token is no longer alive, or no longer recorded. */
  lemma TableClear(es: seq<Entry>, record: Record, now: nat, i: nat, gone: bool)
    requires TableOk(es, record, now) && i < |es| && es[i].active
    requires gone || !Alive(record[es[i].token], now)
    ensures TableOk(es[i := NO_ENTRY], if gone then record - {es[i].token} else record, now)
  {
    assert Tracks(es[i], record);
    var after := es[i := NO_ENTRY];
    var record' := if gone then record - {es[i].token} else record;
    forall j | 0 <= j < |after| ensures Tracks(after[j], record') {
      assert Tracks(es[j], record);
    }
    forall token | token in record' && Alive(record'[token], now) ensures HasSlot(after, token) {
      var j :| 0 <= j < |es| && es[j].active && es[j].token == token;
      assert after[j].token == token;
    }
  }

  /** Storing a session in a slot that is free or already the token's own. */
  lemma TableStore(es: seq<Entry>, record: Record, now: nat, i: nat, token: string, s: Session)
    requires TableOk(es, record, now) && i < |es| && ValidToken(token) && s.created <= s.lastUsed <= now
    requires if es[i].active then es[i].token == token else !HasSlot(es, token)
    ensures TableOk(es[i := EntryOf(token, s)], record[token := s], now)
  {
    var after, record' := es[i := EntryOf(token, s)], record[token := s];
    forall j | 0 <= j < |after| ensures Tracks(after[j], record') {
      assert Tracks(es[j], record);
    }
    forall other | other in record' && Alive(record'[other], now) ensures HasSlot(after, other) {
      if other == token {
        assert after[i].token == token;
      } else {
        var j :| 0 <= j < |es| && es[j].active && es[j].token == other;
        assert after[j].token == other;
      }
    }
  }

  lemma SlotIsRecorded(es: seq<Entry>, record: Record, now: nat, i: nat)
    requires TableOk(es, record, now) && i < |es| && es[i].active
    ensures es[i].token in record && es[i] == EntryOf(es[i].token, record[es[i].token]) && ValidToken(es[i].token)
    ensures Expired(es[i], now) <==> !Alive(record[es[i].token], now)
    ensures record[es[i].token].created <= record[es[i].token].lastUsed <= now
  {
    assert Tracks(es[i], record);
  }

  lemma NoSlotNotAlive(es: seq<Entry>, record: Record, now: nat, token: string)
    requires TableOk(es, record, now)
    requires forall i :: 0 <= i < |es| && es[i].active ==> es[i].token != token
    ensures !IsAlive(record, token, now)
  {}

  function LiveTokens(record: Record, now: nat): set<string> {
    set token | token in record && Alive(record[token], now)
  }

  /** The least recently used of eight live tokens. */
  ghost predicate IsVictim(record: Record, now: nat, victim: string) {
    && |LiveTokens(record, now)| == TABLE_MAX && victim in LiveTokens(record, now)
    && forall other <- LiveTokens(record, now) :: record[victim].lastUsed <= record[other].lastUsed
  }

  /** What a successful creation does to the record: the token is new among the live
      ones, and only the least recently used of eight live tokens is ever evicted. */
  ghost predicate Created(before: Record, after: Record, now: nat, token: string) {
    && ValidToken(token)
    && ( || (!IsAlive(before, token, now) && after == before[token := Session(now, now)] && |LiveTokens(before, now)| < TABLE_MAX)
         || exists victim :: IsVictim(before, now, victim) && !IsAlive(before - {victim}, token, now)
              && after == (before - {victim})[token := Session(now, now)])
  }

  function SlotTokens(es: seq<Entry>): set<string> {
    if es == [] then {}
    else SlotTokens(es[..|es| - 1]) + if es[|es| - 1].active then {es[|es| - 1].token} else {}
  }

  lemma HasSlotLast(es: seq<Entry>, token: string)
    requires es != []
    ensures var last := es[|es| - 1];
      HasSlot(es, token) <==> HasSlot(es[..|es| - 1], token) || (last.active && last.token == token)
  {
    var init, last := es[..|es| - 1], es[|es| - 1];
    if HasSlot(es, token) && !(last.active && last.token == token) {
      var i :| 0 <= i < |es| && es[i].active && es[i].token == token;
      assert init[i].token == token;
    }
    if HasSlot(init, token) {
      var i :| 0 <= i < |init| && init[i].active && init[i].token == token;
      assert es[i].token == token;
    }
  }

  lemma {:induction false} SlotTokensOf(es: seq<Entry>)
    ensures forall token :: token in SlotTokens(es) <==> HasSlot(es, token)
  {
    if es == [] {
    } else {
      SlotTokensOf(es[..|es| - 1]);
      hide HasSlot;
      forall token ensures token in SlotTokens(es) <==> HasSlot(es, token) {
        HasSlotLast(es, token);
      }
    }
  }

  lemma LastDistinct(es: seq<Entry>)
    requires es != [] && DistinctTokens(es)
    ensures DistinctTokens(es[..|es| - 1])
    ensures es[|es| - 1].active ==> !HasSlot(es[..|es| - 1], es[|es| - 1].token)
  {}

  lemma {:induction false} SlotTokensCount(es: seq<Entry>)
    requires DistinctTokens(es)
    ensures |SlotTokens(es)| <= |es|
    ensures |SlotTokens(es)| == |es| <==> forall i :: 0 <= i < |es| ==> es[i].active
  {
    hide HasSlot;
    if es != [] {
      var init, last := es[..|es| - 1], es[|es| - 1];
      LastDistinct(es);
      hide DistinctTokens;
      SlotTokensCount(init);
      SlotTokensOf(init);
      if last.active { assert last.token !in SlotTokens(init); }
      assert forall i :: 0 <= i < |init| ==> es[i] == init[i];
    }
  }

  /** In a purged table the slots hold exactly the live tokens. */
  lemma PurgedTokens(es: seq<Entry>, record: Record, now: nat)
    requires TableOk(es, record, now)
    requires forall i :: 0 <= i < |es| && es[i].active ==> IsAlive(record, es[i].token, now)
    ensures SlotTokens(es) == LiveTokens(record, now)
    ensures (forall i :: 0 <= i < |es| ==> es[i].active) <==> |LiveTokens(record, now)| == TABLE_MAX
    ensures |LiveTokens(record, now)| <= TABLE_MAX
  {
    hide Alive;
    hide Tracks;
    SlotTokensOf(es);
    SlotTokensCount(es);
    forall token ensures token in SlotTokens(es) <==> token in LiveTokens(record, now) {
      if HasSlot(es, token) {
        var i :| 0 <= i < |es| && es[i].active && es[i].token == token;
        assert IsAlive(record, es[i].token, now);
      }
    }
  }

  lemma LeastRecentSlot(es: seq<Entry>, record: Record, now: nat, slot: nat)
    requires TableOk(es, record, now) && slot < |es|
    requires forall i :: 0 <= i < |es| && es[i].active ==> IsAlive(record, es[i].token, now)
    requires forall i :: 0 <= i < |es| ==> es[i].active && es[slot].lastUsed <= es[i].lastUsed
    ensures IsVictim(record, now, es[slot].token)
  {
    PurgedTokens(es, record, now);
    SlotTokensOf(es);
    assert HasSlot(es, es[slot].token);
    SlotIsRecorded(es, record, now, slot);
    hide Alive;
    hide Tracks;
    forall other | other in LiveTokens(record, now) ensures record[es[slot].token].lastUsed <= record[other].lastUsed {
      assert HasSlot(es, other);
      var i :| 0 <= i < |es| && es[i].active && es[i].token == other;
      SlotIsRecorded(es, record, now, i);
    }
  }

  class Core {
    const sessions: array<Entry>
    var lastNow: nat
    var clockInitialized: bool
    ghost var record: Record
    /** What the clock showed last, and every token the random source gave. */
    ghost var reading: nat
    ghost var drawn: seq<string>
    /** Locks and randomness work and the clock does not go backwards. */
    const reliable: bool

    constructor (quiet: bool)
      ensures Valid() && record == map[] && fresh(sessions) && reliable == quiet && drawn == []
    {
      reliable := quiet;
      sessions := new Entry[TABLE_MAX](_ => NO_ENTRY);
      lastNow, clockInitialized, record := 0, false, map[];
      reading, drawn := 0, [];
    }

    ghost predicate Valid()
      reads this, sessions
    {
      (clockInitialized || lastNow == 0) && TableOk(sessions[..], record, lastNow)
    }

    ghost predicate Unchanged(es: seq<Entry>, record0: Record, now: nat, initialized: bool)
      reads this, sessions
    {
      sessions[..] == es && record == record0 && lastNow == now && clockInitialized == initialized
    }

    // ---- Operations ----

    method Lock() returns (ok: bool)
      ensures reliable ==> ok
    {
      var fails: bool := *;
      ok := reliable || !fails;
    }

    method Unlock() returns (ok: bool)
      ensures reliable ==> ok
    {
      var fails: bool := *;
      ok := reliable || !fails;
    }

    /** The 64-bit clock. */
    method NowUs() returns (now: nat)
      modifies this`reading
      ensures now == reading && (reliable ==> lastNow <= now)
    {
      now := *;
      if !(0 <= now <= UINT64_MAX) || (reliable && now < lastNow) { now := lastNow; }
      reading := now;
    }

    /** `auth_core_read_now`. */
    method ReadNow() returns (error: Error, now: nat)
      requires Valid()
      modifies this`lastNow, this`clockInitialized, this`reading
      ensures Valid() && (error == NoError || error == InternalError) && now == reading
      ensures error == NoError ==> old(lastNow) <= now == lastNow && clockInitialized
      ensures error != NoError ==> lastNow == old(lastNow) && clockInitialized == old(clockInitialized)
      ensures reliable ==> error == NoError
    {
      hide Tracks;
      now := NowUs();
      if clockInitialized && now < lastNow { return InternalError, now; }
      TableLater(sessions[..], record, lastNow, now);
      lastNow, clockInitialized, error := now, true, NoError;
    }

    method Restore(es: seq<Entry>, ghost record0: Record, now: nat, initialized: bool)
      requires |es| == sessions.Length
      modifies sessions, this`lastNow, this`clockInitialized, this`record
      ensures Unchanged(es, record0, now, initialized)
    {
      forall i | 0 <= i < sessions.Length { sessions[i] := es[i]; }
      lastNow, clockInitialized, record := now, initialized, record0;
    }

    method SetSlot(index: nat, e: Entry)
      requires index < sessions.Length
      modifies sessions
      ensures sessions[..] == old(sessions[..])[index := e]
      ensures sessions[index] == e && forall i :: 0 <= i < sessions.Length && i != index ==> sessions[i] == old(sessions[i])
    {
      sessions[index] := e;
    }

    // ---- Creating ----

    /** `purge_expired_sessions`. */
    method PurgeExpired()
      requires Valid()
      modifies sessions
      ensures Valid()
      ensures forall i :: 0 <= i < sessions.Length && sessions[i].active ==> IsAlive(record, sessions[i].token, lastNow)
    {
      hide Tracks;
      hide Alive;
      var index := 0;
      while index < sessions.Length
        invariant index <= sessions.Length && Valid()
        invariant forall i :: 0 <= i < index && sessions[i].active ==> IsAlive(record, sessions[i].token, lastNow)
      {
        if sessions[index].active {
          SlotIsRecorded(sessions[..], record, lastNow, index);
          if Expired(sessions[index], lastNow) {
            TableClear(sessions[..], record, lastNow, index, false);
            SetSlot(index, NO_ENTRY);
          }
        }
        index := index + 1;
      }
    }

    /** `select_session_slot`: a free slot, else the least recently used one. */
    method SelectSlot() returns (slot: nat)
      requires sessions.Length == TABLE_MAX
      ensures slot < sessions.Length
      ensures sessions[slot].active ==>
        forall i :: 0 <= i < sessions.Length ==> sessions[i].active && sessions[slot].lastUsed <= sessions[i].lastUsed
    {
      slot := 0;
      var index := 0;
      while index < sessions.Length
        invariant index <= sessions.Length && slot < sessions.Length && (index == 0 ==> slot == 0) && (index > 0 ==> slot < index)
        invariant forall i :: 0 <= i < index ==> sessions[i].active && sessions[slot].lastUsed <= sessions[i].lastUsed
      {
        if !sessions[index].active { return index; }
        if index == 0 || sessions[index].lastUsed < sessions[slot].lastUsed { slot := index; }
        index := index + 1;
      }
    }

    /** `token_exists`. */
    method TokenExists(token: string) returns (found: bool)
      ensures found == HasSlot(sessions[..], token)
    {
      var index := 0;
      while index < sessions.Length
        invariant index <= sessions.Length
        invariant forall i :: 0 <= i < index ==> !(sessions[i].active && sessions[i].token == token)
      {
        if sessions[index].active && sessions[index].token == token {
          assert sessions[..][index].token == token;
          return true;
        }
        index := index + 1;
      }
      found := false;
    }

    method RandomHex() returns (token: Option<string>)
      modifies this`drawn
      ensures token.Some? ==> ValidToken(token.value)
      ensures drawn == old(drawn) + if token.Some? then [token.value] else []
      ensures reliable ==> token.Some?
    {
      var filled: bool := *;
      if !filled && !reliable { return None; }
      var bytes: seq<Byte> := [];
      while |bytes| < TOKEN_BYTES
        invariant |bytes| <= TOKEN_BYTES
      {
        var b: nat := *;
        bytes := bytes + [if 0 <= b < 256 then b else 0];
      }
      token := Some(Hex(bytes));
      drawn := drawn + [token.value];
    }

    /** `auth_core_generate_session_tokens`: a few attempts at an unused token. */
    method GenerateToken() returns (token: Option<string>)
      modifies this`drawn
      ensures old(drawn) <= drawn && |drawn| <= |old(drawn)| + TOKEN_ATTEMPTS
      ensures token.Some? ==>
        && ValidToken(token.value) && !HasSlot(sessions[..], token.value)
        && |drawn| > |old(drawn)| && token.value == drawn[|drawn| - 1]
      ensures forall i :: |old(drawn)| <= i < |drawn| && Some(drawn[i]) != token ==> HasSlot(sessions[..], drawn[i])
      ensures reliable && token.None? ==> |drawn| == |old(drawn)| + TOKEN_ATTEMPTS
    {
      var attempt := 0;
      while attempt < TOKEN_ATTEMPTS
        invariant attempt <= TOKEN_ATTEMPTS && |drawn| == |old(drawn)| + attempt && old(drawn) <= drawn
        invariant forall i :: |old(drawn)| <= i < |drawn| ==> HasSlot(sessions[..], drawn[i])
      {
        token := RandomHex();
        if token.None? { return; }
        var isUsed := TokenExists(token.value);
        if !isUsed { return; }
        attempt := attempt + 1;
      }
      token := None;
    }

    /** The body of `auth_core_session_create` once the clock is read. */
    method CreateAt(now: nat) returns (token: Option<string>)
      requires Valid() && now == lastNow && clockInitialized
      modifies sessions, this`record, this`drawn
      ensures old(drawn) <= drawn && |drawn| <= |old(drawn)| + TOKEN_ATTEMPTS
      ensures token.Some? ==> !TooLate(now) && |drawn| > |old(drawn)| && token.value == drawn[|drawn| - 1]
      ensures token.Some? ==> Valid() && Created(old(record), record, now, token.value)
      ensures reliable && token.None? ==> TooLate(now) || AllTaken(old(drawn), drawn, old(record))
    {
      hide TableOk;
      hide Alive;
      assert sessions.Length == TABLE_MAX by { TableLength(sessions[..], record, lastNow); }
      PurgeExpired();
      var slot := SelectSlot();
      ghost var freed := FreeSlot(slot);
      ghost var before := drawn;
      token := GenerateToken();
      if token.None? {
        TakenAreRecorded(sessions[..], record, now, before, drawn);
        return;
      }
      NoSlotNotAlive(sessions[..], record, now, token.value);
      hide HasSlot;
      if UINT64_MAX - now < ABSOLUTE_US || UINT64_MAX - now < IDLE_US { return None; }
      TableStore(sessions[..], record, now, slot, token.value, Session(now, now));
      SetSlot(slot, EntryOf(token.value, Session(now, now)));
      record := record[token.value := Session(now, now)];
    }

    /** Clearing the selected slot evicts its token, if it has one. */
    method FreeSlot(slot: nat) returns (ghost evicted: Option<string>)
      requires Valid() && slot < sessions.Length
      requires forall i :: 0 <= i < sessions.Length && sessions[i].active ==> IsAlive(record, sessions[i].token, lastNow)
      requires sessions[slot].active ==>
        forall i :: 0 <= i < sessions.Length ==> sessions[i].active && sessions[slot].lastUsed <= sessions[i].lastUsed
      modifies sessions, this`record
      ensures Valid() && sessions[slot] == NO_ENTRY
      ensures evicted.None? ==> record == old(record) && |LiveTokens(record, lastNow)| < TABLE_MAX
      ensures evicted.Some? ==> IsVictim(old(record), lastNow, evicted.value) && record == old(record) - {evicted.value}
    {
      hide Tracks;
      hide Alive;
      ghost var es := sessions[..];
      PurgedTokens(es, record, lastNow);
      if sessions[slot].active {
        evicted := Some(sessions[slot].token);
        LeastRecentSlot(es, record, lastNow, slot);
        TableClear(es, record, lastNow, slot, true);
        record := record - {sessions[slot].token};
      } else {
        evicted := None;
        assert !es[slot].active;
        ClearFree(es, record, lastNow, slot);
      }
      SetSlot(slot, NO_ENTRY);
    }

    /** The end of a session would not fit the 64-bit clock. */
    static predicate TooLate(now: nat) { UINT64_MAX - now < ABSOLUTE_US }

    /** As many tokens as there are attempts were drawn, and each was recorded already. */
    static ghost predicate AllTaken(before: seq<string>, after: seq<string>, record: Record) {
      |after| == |before| + TOKEN_ATTEMPTS && forall i :: |before| <= i < |after| ==> after[i] in record
    }

    lemma TakenAreRecorded(es: seq<Entry>, r: Record, now: nat, before: seq<string>, after: seq<string>)
      requires TableOk(es, r, now) && forall i :: |before| <= i < |after| ==> HasSlot(es, after[i])
      ensures forall i :: |before| <= i < |after| ==> after[i] in r
    {
      forall i | |before| <= i < |after| ensures after[i] in r {
        assert HasSlot(es, after[i]);
        var j :| 0 <= j < |es| && es[j].active && es[j].token == after[i];
        SlotIsRecorded(es, r, now, j);
      }
    }

    lemma ClearFree(es: seq<Entry>, record: Record, now: nat, i: nat)
      requires TableOk(es, record, now) && i < |es| && !es[i].active
      ensures TableOk(es[i := NO_ENTRY], record, now)
    {
      var after := es[i := NO_ENTRY];
      forall j | 0 <= j < |after| ensures Tracks(after[j], record) { assert Tracks(es[j], record); }
      forall token | token in record && Alive(record[token], now) ensures HasSlot(after, token) {
        var j :| 0 <= j < |es| && es[j].active && es[j].token == token;
        assert after[j].token == token;
      }
    }

    /** `auth_core_session_create`: every failure restores the exact state before. Without
        faults it fails only when the clock reads too near its end or every token that the
        random source gave was recorded already. */
    method Create() returns (result: Error, token: string)
      requires Valid()
      modifies sessions, this`lastNow, this`clockInitialized, this`record, this`reading, this`drawn
      ensures Valid()
      ensures result == NoError || result == InternalError
      ensures result != NoError ==>
        token == "" && Unchanged(old(sessions[..]), old(record), old(lastNow), old(clockInitialized))
      ensures result == NoError ==>
        && old(lastNow) <= lastNow && Created(old(record), record, lastNow, token)
        && token in record && record[token] == Session(lastNow, lastNow)
        && lastNow == reading && !TooLate(reading)
        && |drawn| > |old(drawn)| && token == drawn[|drawn| - 1]
      ensures old(drawn) <= drawn && |drawn| <= |old(drawn)| + TOKEN_ATTEMPTS
      ensures reliable && result != NoError ==>
        old(lastNow) <= reading && (TooLate(reading) || AllTaken(old(drawn), drawn, old(record)))
    {
      hide TableOk;
      hide Tracks;
      token := "";
      var locked := Lock();
      if !locked { return InternalError, token; }
      var es, now0, initialized0 := sessions[..], lastNow, clockInitialized;
      ghost var record0 := record;
      var time;
      result, time := ReadNow();
      if result == NoError {
        var created := CreateAt(time);
        if created.Some? { token := created.value; } else { result := InternalError; }
      }
      var unlocked := Unlock();
      if result != NoError || !unlocked {
        Restore(es, record0, now0, initialized0);
        return InternalError, "";
      }
    }

    // ---- Validating ----

    /** `find_and_refresh_session`, clearing the expired slots it passes. */
    method FindAndRefresh(token: string, now: nat) returns (result: Error)
      requires Valid() && now == lastNow && ValidToken(token)
      modifies sessions, this`record
      ensures Valid()
      ensures IsAlive(old(record), token, now) && now + IDLE_US <= UINT64_MAX ==>
        result == NoError && record == old(record)[token := old(record)[token].(lastUsed := now)]
      ensures result != NoError ==> record == old(record)
      ensures !IsAlive(old(record), token, now) ==> result == AuthRequired
      ensures IsAlive(old(record), token, now) && now + IDLE_US > UINT64_MAX ==> result == InternalError
    {
      hide Tracks;
      hide TableOk;
      hide Alive;
      hide ValidToken;
      var index := 0;
      assert sessions.Length == TABLE_MAX by { TableLength(sessions[..], record, now); }
      while index < sessions.Length
        invariant index <= sessions.Length && Valid() && record == old(record)
        invariant forall i :: 0 <= i < index && sessions[i].active ==> sessions[i].token != token
      {
        if sessions[index].active {
          SlotIsRecorded(sessions[..], record, now, index);
          if Expired(sessions[index], now) {
            TableClear(sessions[..], record, now, index, false);
            SetSlot(index, NO_ENTRY);
          } else if sessions[index].token == token {
            if UINT64_MAX - now < IDLE_US { return InternalError; }
            ghost var s := record[token].(lastUsed := now);
            TableStore(sessions[..], record, now, index, token, s);
            var e := sessions[index];
            SetSlot(index, e.(expiresAt := Min(now + IDLE_US, e.absoluteExpiresAt), lastUsed := now));
            record := record[token := s];
            return NoError;
          }
        }
        index := index + 1;
      }
      NoSlotNotAlive(sessions[..], record, now, token);
      result := AuthRequired;
    }

    lemma TableLength(es: seq<Entry>, record: Record, now: nat)
      requires TableOk(es, record, now)
      ensures |es| == TABLE_MAX
    {}

    /** `auth_core_session_validate`: accepts a token exactly when it is recorded and
        alive, and then counts as its last use; only in the last day of the 64-bit clock
        a live token gets an internal error instead. `fault` tells that a lock, an unlock or
        the clock failed. */
    method Validate(token: string) returns (result: Error, ghost fault: bool)
      requires Valid()
      modifies sessions, this`lastNow, this`clockInitialized, this`record, this`reading
      ensures Valid()
      ensures fault ==> result == InternalError && Unchanged(old(sessions[..]), old(record), old(lastNow), old(clockInitialized))
      ensures !ValidToken(token) ==> result == AuthRequired && !IsAlive(old(record), token, lastNow)
      ensures !fault && ValidToken(token) ==>
        && old(lastNow) <= lastNow
        && result == (if !IsAlive(old(record), token, lastNow) then AuthRequired
                      else if lastNow + IDLE_US <= UINT64_MAX then NoError else InternalError)
      ensures !fault && result == NoError ==> record == old(record)[token := old(record)[token].(lastUsed := lastNow)]
      ensures result != NoError ==> record == old(record)
      ensures reliable ==> !fault
    {
      fault := false;
      if !ValidToken(token) {
        AliveIsValid(token);
        return AuthRequired, fault;
      }
      hide TableOk;
      hide ValidToken;
      var locked := Lock();
      if !locked { return InternalError, true; }
      var es, now0, initialized0 := sessions[..], lastNow, clockInitialized;
      ghost var record0 := record;
      var now;
      result, now := ReadNow();
      fault := result != NoError;
      if result == NoError { result := FindAndRefresh(token, now); }
      var unlocked := Unlock();
      if !unlocked {
        Restore(es, record0, now0, initialized0);
        return InternalError, true;
      }
    }

    lemma AliveIsValid(token: string)
      requires Valid()
      ensures IsAlive(record, token, lastNow) ==> ValidToken(token)
    {
      if IsAlive(record, token, lastNow) {
        assert HasSlot(sessions[..], token);
        var i :| 0 <= i < |sessions[..]| && sessions[..][i].active && sessions[..][i].token == token;
        assert Tracks(sessions[..][i], record);
      }
    }

    /** `auth_core_session_remaining`: whole seconds left, without counting as a use. */
    method Remaining(token: string) returns (result: Error, idle: nat, absolute: nat, ghost fault: bool)
      requires Valid()
      modifies this`lastNow, this`clockInitialized, this`reading
      ensures Valid()
      ensures !ValidToken(token) ==> result == InvalidArgument
      ensures !fault && ValidToken(token) ==>
        && (result == NoError <==> IsAlive(record, token, lastNow))
        && (result == NoError ==>
              var s := record[token];
              && idle == Min(s.lastUsed + IDLE_US - lastNow, s.created + ABSOLUTE_US - lastNow) / SECOND_US
              && absolute == (s.created + ABSOLUTE_US - lastNow) / SECOND_US)
      ensures result != NoError && result != InternalError ==> idle == 0 && absolute == 0
      ensures reliable ==> !fault
    {
      idle, absolute, fault := 0, 0, false;
      if !ValidToken(token) { return InvalidArgument, idle, absolute, fault; }
      hide TableOk;
      hide Tracks;
      hide ValidToken;
      fault := true;
      var locked := Lock();
      if !locked { return InternalError, idle, absolute, fault; }
      var now;
      result, now := ReadNow();
      if result == NoError {
        fault := false;
        result, idle, absolute := FindRemaining(token, now);
      }
      var unlocked := Unlock();
      if !unlocked { return InternalError, idle, absolute, true; }
    }

    /** `find_session_remaining`. */
    method FindRemaining(token: string, now: nat) returns (result: Error, idle: nat, absolute: nat)
      requires Valid() && now == lastNow
      ensures result == NoError || (result == AuthRequired && idle == 0 && absolute == 0)
      ensures result == NoError <==> IsAlive(record, token, now)
      ensures result == NoError ==>
        var s := record[token];
        && idle == Min(s.lastUsed + IDLE_US - now, s.created + ABSOLUTE_US - now) / SECOND_US
        && absolute == (s.created + ABSOLUTE_US - now) / SECOND_US
    {
      hide TableOk;
      idle, absolute := 0, 0;
      var index := 0;
      TableLength(sessions[..], record, now);
      while index < sessions.Length
        invariant index <= sessions.Length && idle == 0 && absolute == 0
        invariant forall i :: 0 <= i < index && sessions[i].active && sessions[i].token == token ==> !IsAlive(record, token, now)
      {
        var e := sessions[index];
        if e.active { SlotIsRecorded(sessions[..], record, now, index); }
        if e.active && !Expired(e, now) && e.token == token {
          return NoError, (e.expiresAt - now) / SECOND_US, (e.absoluteExpiresAt - now) / SECOND_US;
        }
        index := index + 1;
      }
      AliveHasSlot(sessions[..], record, now, token);
      result := AuthRequired;
    }

    lemma AliveHasSlot(es: seq<Entry>, record: Record, now: nat, token: string)
      requires TableOk(es, record, now)
      ensures IsAlive(record, token, now) ==> HasSlot(es, token)
    {}

    // ---- Logging out ----

    /** `auth_core_session_logout`: afterwards the token is not alive. */
    method Logout(token: string) returns (result: Error)
      requires Valid()
      modifies sessions, this`lastNow, this`clockInitialized, this`record
      ensures Valid() && lastNow == old(lastNow)
      ensures !ValidToken(token) <==> result == InvalidArgument
      ensures record == if result == NoError then old(record) - {token} else old(record)
      ensures result == NotFound ==> !IsAlive(record, token, lastNow)
      ensures result == InternalError ==> sessions[..] == old(sessions[..])
      ensures reliable ==> result != InternalError
    {
      hide TableOk;
      if !ValidToken(token) { return InvalidArgument; }
      hide ValidToken;
      var locked := Lock();
      if !locked { return InternalError; }
      var es, now0, initialized0 := sessions[..], lastNow, clockInitialized;
      ghost var record0 := record;
      result := NotFound;
      var index := 0;
      TableLength(sessions[..], record, lastNow);
      while index < sessions.Length && result == NotFound
        invariant index <= sessions.Length && Valid() && lastNow == now0 && clockInitialized == initialized0
        invariant result == NotFound || result == NoError
        invariant record == if result == NoError then record0 - {token} else record0
        invariant result == NotFound ==>
          sessions[..] == es && forall i :: 0 <= i < index && sessions[i].active ==> sessions[i].token != token
        decreases sessions.Length - index, result == NotFound
      {
        if sessions[index].active && sessions[index].token == token {
          TableClear(sessions[..], record, lastNow, index, true);
          SetSlot(index, NO_ENTRY);
          record := record - {token};
          result := NoError;
        } else {
          index := index + 1;
        }
      }
      if result == NotFound { NoSlotNotAlive(sessions[..], record, lastNow, token); }
      var unlocked := Unlock();
      if !unlocked {
        Restore(es, record0, now0, initialized0);
        return InternalError;
      }
    }

    /** `auth_core_session_logout_all`: once locked it ends every session, even when the
        unlock then fails. */
    method LogoutAll() returns (result: Error)
      requires Valid()
      modifies sessions, this`record
      ensures Valid()
      ensures result == NoError || result == InternalError
      ensures record == map[] || (result == InternalError && record == old(record))
      ensures result == NoError ==> record == map[]
      ensures reliable ==> result == NoError
    {
      var locked := Lock();
      if !locked { return InternalError; }
      forall i | 0 <= i < sessions.Length { sessions[i] := NO_ENTRY; }
      record := map[];
      var unlocked := Unlock();
      result := if unlocked then NoError else InternalError;
    }
  }
}
