/** Login throttling per source: five failures inside a minute lock the source for
    five minutes. The table of eight slots refines, for each tracked source, the plain
    list of times at which its failures were recorded. */
module RateLimit {
  import opened Errors

  const SOURCE_MAX := 8
  const FAILURE_MAX := 5
  const SECOND_US := 1_000_000
  const WINDOW_US := 60 * SECOND_US
  const LOCKOUT_US := 300 * SECOND_US
  /** Past this the end of a lockout would not fit the 64-bit clock. */
  const CLOCK_SAFE := UINT64_MAX - LOCKOUT_US

  datatype Entry = Entry(active: bool, source: nat, failures: seq<nat>, count: nat, lockout: nat, lastUsed: nat)

  const NO_FAILURES: seq<nat> := [0, 0, 0, 0, 0]
  const NO_ENTRY := Entry(false, 0, NO_FAILURES, 0, 0, 0)

  function Fresh(source: nat, now: nat): Entry { Entry(true, source, NO_FAILURES, 0, 0, now) }

  /** `retry_seconds`. */
  function RetrySeconds(remaining: nat): nat { (remaining + SECOND_US - 1) / SECOND_US }

  lemma RetryIsCeiling(remaining: nat)
    requires 0 < remaining <= LOCKOUT_US
    ensures 1 <= RetrySeconds(remaining) <= 300
    ensures (RetrySeconds(remaining) - 1) * SECOND_US < remaining <= RetrySeconds(remaining) * SECOND_US
  {}

  // ---- The plain history of one source ----

  ghost predicate Ordered(times: seq<nat>) {
    forall i, j :: 0 <= i <= j < |times| ==> times[i] <= times[j]
  }

  /** The five failures ending at index `last` fall inside one window. */
  predicate Burst(times: seq<nat>, last: int) {
    4 <= last < |times| && times[last] - times[last - 4] < WINDOW_US
  }

  /** After any burst whose lockout fits the clock, the next failure was recorded only
      when that lockout was over. */
  ghost predicate Throttled(times: seq<nat>) {
    forall k: nat :: Burst(times, k) && times[k] <= CLOCK_SAFE && k + 1 < |times| ==> times[k + 1] >= times[k] + LOCKOUT_US
  }

  /** The lockout a history implies. */
  predicate Locked(times: seq<nat>, now: nat) {
    && times != [] && Burst(times, |times| - 1)
    && times[|times| - 1] <= CLOCK_SAFE && now < times[|times| - 1] + LOCKOUT_US
  }

  /** Five failures are inside the window although no lockout holds. */
  predicate Full(times: seq<nat>, now: nat) {
    |times| >= FAILURE_MAX && now - times[|times| - FAILURE_MAX] < WINDOW_US && !Locked(times, now)
  }

  /** No window of a minute holds more than five recorded failures. */
  ghost predicate AtMostFiveAMinute(times: seq<nat>) {
    forall i, j :: 0 <= i && i + 5 <= j < |times| ==> times[j] - times[i] >= WINDOW_US
  }

  /** As long as every lockout fits the clock, being locked out is all it takes. */
  lemma AtMostFive(times: seq<nat>)
    requires Ordered(times) && Throttled(times) && forall t <- times :: t <= CLOCK_SAFE
    ensures AtMostFiveAMinute(times)
  {
    forall i, j | 0 <= i && i + 5 <= j < |times| ensures times[j] - times[i] >= WINDOW_US {
      if Burst(times, i + 4) {
        assert times[i + 4] in times;
        assert times[i + 4 + 1] >= times[i + 4] + LOCKOUT_US;
      }
    }
  }

  /** A source is full without a lockout only in the last 300 seconds of the clock. */
  lemma FullOnlyAtTheEndOfTime(times: seq<nat>, now: nat)
    requires Ordered(times) && Full(times, now) && times[|times| - 1] <= now
    ensures times[|times| - 1] > CLOCK_SAFE && Burst(times, |times| - 1)
  {}

  // ---- One slot ----

  /** `now - t < WINDOW`, for the times of one slot. */
  function Recent(times: seq<nat>, now: nat): seq<nat> {
    if times == [] then []
    else
      var init, last := times[..|times| - 1], times[|times| - 1];
      Recent(init, now) + if now - last < WINDOW_US then [last] else []
  }

  function Padded(times: seq<nat>): (failures: seq<nat>)
    ensures |times| <= FAILURE_MAX ==> |failures| == FAILURE_MAX
  {
    times + if |times| <= FAILURE_MAX then NO_FAILURES[|times|..] else []
  }

  ghost predicate Shaped(e: Entry) {
    |e.failures| == FAILURE_MAX && e.count <= FAILURE_MAX
  }

  function Times(e: Entry): seq<nat>
    requires Shaped(e)
  {
    e.failures[..e.count]
  }

  /** `prune_failures`. */
  function Pruned(e: Entry, now: nat): Entry
    requires Shaped(e)
  {
    if !e.active then e
    else
      var e1 := if e.lockout != 0 && e.lockout <= now then Fresh(e.source, now) else e;
      if e1.lockout > now then e1.(lastUsed := now)
      else
        var kept := Recent(Times(e1), now);
        e1.(failures := Padded(kept), count := |kept|, lastUsed := now)
  }

  ghost predicate HistoryOk(times: seq<nat>, now: nat) {
    Ordered(times) && Throttled(times) && AtMostFiveAMinute(times) && (times != [] ==> times[|times| - 1] <= now)
  }

  /** The slot holds the end of the history; what it dropped was outside the window. */
  ghost predicate Holds(e: Entry, times: seq<nat>) {
    && Shaped(e) && e.active && e.count <= |times|
    && Times(e) == times[|times| - e.count..]
    && (forall i :: 0 <= i < |times| - e.count ==> times[i] + WINDOW_US <= e.lastUsed)
  }

  /** A lockout is set with five failures held, and ends as the history says; five
      are held without one only if it would not have fitted the clock. */
  ghost predicate LockoutOk(e: Entry, times: seq<nat>) {
    && (e.lockout != 0 ==> e.count == FAILURE_MAX && BurstInTime(times) && e.lockout == times[|times| - 1] + LOCKOUT_US)
    && (e.lockout == 0 && e.count == FAILURE_MAX ==> !BurstInTime(times))
    && (e.lockout == 0 && BurstInTime(times) ==> times[|times| - 1] + LOCKOUT_US <= e.lastUsed)
  }

  predicate BurstInTime(times: seq<nat>) {
    Burst(times, |times| - 1) && times[|times| - 1] <= CLOCK_SAFE
  }

  ghost predicate EntryOk(e: Entry, times: seq<nat>, now: nat) {
    HistoryOk(times, e.lastUsed) && e.lastUsed <= now && Holds(e, times) && LockoutOk(e, times)
  }

  lemma SuffixOrdered(times: seq<nat>, k: nat)
    requires Ordered(times) && k <= |times|
    ensures Ordered(times[k..])
  {}

  lemma {:induction false} AllOld(times: seq<nat>, now: nat)
    requires forall i :: 0 <= i < |times| ==> times[i] + WINDOW_US <= now
    ensures Recent(times, now) == []
  {
    if times != [] { AllOld(times[..|times| - 1], now); }
  }

  lemma OrderedInit(times: seq<nat>)
    requires Ordered(times) && times != []
    ensures Ordered(times[..|times| - 1])
    ensures forall i :: 0 <= i < |times| ==> times[i] <= times[|times| - 1]
  {}

  lemma {:induction false} RecentIsSuffix(times: seq<nat>, now: nat) returns (k: nat)
    requires Ordered(times) && (times != [] ==> times[|times| - 1] <= now)
    ensures k <= |times| && Recent(times, now) == times[k..]
    ensures forall i :: 0 <= i < k ==> times[i] + WINDOW_US <= now
    ensures forall i :: k <= i < |times| ==> now - times[i] < WINDOW_US
  {
    hide Ordered;
    k := 0;
    if times != [] {
      OrderedInit(times);
      var init, last := times[..|times| - 1], times[|times| - 1];
      if now - last < WINDOW_US {
        assert Recent(times, now) == Recent(init, now) + [last];
        hide Recent;
        k := RecentIsSuffix(init, now);
        assert times[k..] == init[k..] + [last];
        forall i | 0 <= i < k ensures times[i] + WINDOW_US <= now { assert times[i] == init[i]; }
        forall i | k <= i < |times| ensures now - times[i] < WINDOW_US { assert i < |init| ==> times[i] == init[i]; }
      } else {
        hide Recent;
        AllOld(times, now);
        k := |times|;
      }
    }
  }

  /** Pruning keeps the slot's meaning, brings it up to date and leaves a lockout set
      exactly while the history implies one. */
  lemma PrunedOk(e: Entry, times: seq<nat>, before: nat, now: nat)
    requires EntryOk(e, times, before) && before <= now
    ensures var p := Pruned(e, now);
      && EntryOk(p, times, now) && p.source == e.source && p.lastUsed == now
      && (p.lockout > now <==> Locked(times, now)) && (p.lockout != 0 <==> Locked(times, now))
      && (p.lockout == 0 ==> forall t <- Times(p) :: now - t < WINDOW_US)
      && (p.lockout == 0 ==> (p.count == FAILURE_MAX <==> Full(times, now)))
      && (Locked(times, now) ==> p.lockout == times[|times| - 1] + LOCKOUT_US)
  {
    hide Ordered;
    hide Throttled;
    hide AtMostFiveAMinute;
    if e.lockout > now {
      assert Times(Pruned(e, now)) == Times(e);
    } else if e.lockout != 0 {
      PrunedExpired(e, times, now);
    } else {
      PrunedWindow(e, times, now);
    }
    if !Locked(times, now) { PrunedFull(Pruned(e, now), times, now); }
  }

  /** What was dropped is old, so five are held only if five are recent. */
  lemma PrunedFull(p: Entry, times: seq<nat>, now: nat)
    requires Holds(p, times) && p.lastUsed == now && !Locked(times, now)
    requires forall t <- Times(p) :: now - t < WINDOW_US
    ensures p.count == FAILURE_MAX <==> Full(times, now)
  {
    if p.count == FAILURE_MAX {
      assert times[|times| - FAILURE_MAX] == Times(p)[0] && Times(p)[0] in Times(p);
    } else if |times| >= FAILURE_MAX {
      assert times[|times| - FAILURE_MAX] + WINDOW_US <= now;
    }
  }

  lemma PrunedExpired(e: Entry, times: seq<nat>, now: nat)
    requires EntryOk(e, times, e.lastUsed) && e.lastUsed <= now && 0 < e.lockout <= now
    ensures Pruned(e, now) == Fresh(e.source, now) && EntryOk(Fresh(e.source, now), times, now)
  {
    hide Throttled;
    var f := Fresh(e.source, now);
    assert Times(f) == [] && times[|times| - 0..] == [] && Padded([]) == NO_FAILURES;
    forall i | 0 <= i < |times| ensures times[i] + WINDOW_US <= now {
      assert times[i] <= times[|times| - 1];
    }
  }

  lemma PrunedWindow(e: Entry, times: seq<nat>, now: nat)
    requires EntryOk(e, times, e.lastUsed) && e.lastUsed <= now && e.lockout == 0
    ensures var p := Pruned(e, now);
      EntryOk(p, times, now) && p.lockout == 0 && forall t <- Times(p) :: now - t < WINDOW_US
  {
    hide Throttled;
    var held := Times(e);
    SuffixOrdered(times, |times| - e.count);
    hide Ordered;
    var k := RecentIsSuffix(held, now);
    var p := Pruned(e, now);
    assert p.count == |held| - k && Times(p) == held[k..];
    DroppedOld(times, held, e.lastUsed, k, now);
  }

  /** What was dropped before, and now, is outside the window. */
  lemma DroppedOld(times: seq<nat>, held: seq<nat>, before: nat, k: nat, now: nat)
    requires k <= |held| <= |times| && before <= now && held == times[|times| - |held|..]
    requires forall i :: 0 <= i < |times| - |held| ==> times[i] + WINDOW_US <= before
    requires forall i :: 0 <= i < k ==> held[i] + WINDOW_US <= now
    ensures forall i :: 0 <= i < |times| - (|held| - k) ==> times[i] + WINDOW_US <= now
    ensures times[|times| - (|held| - k)..] == held[k..]
  {
    forall i | 0 <= i < |times| - (|held| - k) ensures times[i] + WINDOW_US <= now {
      if i >= |times| - |held| { assert times[i] == held[i - (|times| - |held|)]; }
    }
  }

  /** The slot after one more failure. */
  function Failed(e: Entry, now: nat): Entry
    requires Shaped(e) && e.count < FAILURE_MAX
  {
    var e1 := e.(failures := e.failures[e.count := now], count := e.count + 1, lastUsed := now);
    if e1.count == FAILURE_MAX && now <= CLOCK_SAFE then e1.(lockout := now + LOCKOUT_US) else e1
  }

  lemma HistoryMore(times: seq<nat>, now: nat)
    requires HistoryOk(times, now) && !Locked(times, now) && !Full(times, now)
    ensures HistoryOk(times + [now], now)
  {
    MoreThrottled(times, now);
    MoreAtMostFive(times, now);
    hide Throttled;
    hide AtMostFiveAMinute;
  }

  lemma MoreThrottled(times: seq<nat>, now: nat)
    requires Throttled(times) && !Locked(times, now)
    ensures Throttled(times + [now])
  {
    var more := times + [now];
    forall k: nat | Burst(more, k) && more[k] <= CLOCK_SAFE && k + 1 < |more| ensures more[k + 1] >= more[k] + LOCKOUT_US {
      assert Burst(times, k);
    }
  }

  lemma MoreAtMostFive(times: seq<nat>, now: nat)
    requires Ordered(times) && AtMostFiveAMinute(times) && !Locked(times, now) && !Full(times, now)
    ensures AtMostFiveAMinute(times + [now])
  {
    var more := times + [now];
    forall i, j | 0 <= i && i + 5 <= j < |more| ensures more[j] - more[i] >= WINDOW_US {
      if j == |times| { assert times[i] <= times[|times| - FAILURE_MAX]; }
    }
  }

  /** The next failure is the fifth of its minute, and its lockout would not fit the clock. */
  predicate Unlockable(times: seq<nat>, now: nat) {
    now > CLOCK_SAFE && Burst(times + [now], |times|)
  }

  /** Near the end of the clock's range the fifth failure is kept without a lockout,
      and from then on the full slot answers with an internal error. */
  lemma FailedOk(e: Entry, times: seq<nat>, now: nat)
    requires EntryOk(e, times, now) && e.lastUsed == now && e.lockout == 0 && e.count < FAILURE_MAX
    requires forall t <- Times(e) :: now - t < WINDOW_US
    requires !Locked(times, now)
    ensures EntryOk(Failed(e, now), times + [now], now) && Failed(e, now).source == e.source
    ensures Failed(e, now).count == FAILURE_MAX && now > CLOCK_SAFE <==> Unlockable(times, now)
  {
    FailedHolds(e, times, now);
    FailedBurst(e, times, now);
    PrunedFull(e, times, now);
    HistoryMore(times, now);
    hide HistoryOk;
    hide Holds;
  }

  lemma FailedHolds(e: Entry, times: seq<nat>, now: nat)
    requires Holds(e, times) && e.lastUsed == now && e.count < FAILURE_MAX
    ensures Holds(Failed(e, now), times + [now])
  {
    var f, more := Failed(e, now), times + [now];
    assert Times(f) == Times(e) + [now] == more[|more| - f.count..];
  }

  lemma FailedBurst(e: Entry, times: seq<nat>, now: nat)
    requires Holds(e, times) && e.lastUsed == now && e.count < FAILURE_MAX
    requires forall t <- Times(e) :: now - t < WINDOW_US
    ensures Failed(e, now).count == FAILURE_MAX <==> Burst(times + [now], |times|)
  {
    var more := times + [now];
    if e.count + 1 == FAILURE_MAX {
      assert Times(e)[0] == more[|more| - 5] && Times(e)[0] in Times(e);
    } else if |more| >= 5 {
      assert times[|more| - 5] + WINDOW_US <= now;
    }
  }

  lemma FreshOk(source: nat, now: nat)
    ensures EntryOk(Fresh(source, now), [], now)
  {
    assert Times(Fresh(source, now)) == [];
  }

  // ---- The table ----

  type History = map<nat, seq<nat>>

  function TimesOf(history: History, source: nat): seq<nat> {
    if source in history then history[source] else []
  }

  ghost predicate Tracks(e: Entry, history: History, now: nat) {
    Shaped(e) && (e.active ==> e.source in history && EntryOk(e, history[e.source], now))
  }

  ghost predicate OneSlotEach(es: seq<Entry>) {
    forall i, j :: 0 <= i < j < |es| && es[i].active && es[j].active ==> es[i].source != es[j].source
  }

  ghost predicate HasSlot(es: seq<Entry>, source: nat) {
    exists i :: 0 <= i < |es| && es[i].active && es[i].source == source
  }

  /** Each active slot tracks the history of its own source, and each source has one. */
  ghost predicate TableOk(es: seq<Entry>, history: History, now: nat) {
    && |es| == SOURCE_MAX
    && (forall i :: 0 <= i < |es| ==> Tracks(es[i], history, now))
    && OneSlotEach(es)
    && (forall source <- history :: HasSlot(es, source))
  }

  lemma TracksLater(e: Entry, history: History, before: nat, now: nat)
    requires Tracks(e, history, before) && before <= now
    ensures Tracks(e, history, now)
    ensures e.active ==> forall t <- Times(e) :: t <= now
  {
    if e.active {
      var times := history[e.source];
      forall t | t in Times(e) ensures t <= now {
        var i :| 0 <= i < e.count && Times(e)[i] == t;
        assert t == times[|times| - e.count + i];
      }
    }
  }

  lemma TableLater(es: seq<Entry>, history: History, before: nat, now: nat)
    requires TableOk(es, history, before) && before <= now
    ensures TableOk(es, history, now)
    ensures forall i :: 0 <= i < |es| && es[i].active ==> forall t <- Times(es[i]) :: t <= now
  {
    forall i | 0 <= i < |es|
      ensures Tracks(es[i], history, now) && (es[i].active ==> forall t <- Times(es[i]) :: t <= now)
    {
      TracksLater(es[i], history, before, now);
    }
  }

  /** Replacing a slot by one that tracks the same source's new history. */
  lemma TableUpdate(es: seq<Entry>, history: History, now: nat, i: nat, e: Entry, times: seq<nat>)
    requires TableOk(es, history, now) && i < |es| && es[i].active
    requires e.active && e.source == es[i].source && EntryOk(e, times, now)
    ensures TableOk(es[i := e], history[e.source := times], now)
  {
    hide EntryOk;
    var after := es[i := e];
    var history' := history[e.source := times];
    assert Shaped(e) by { EntryShaped(e, times, now); }
    forall j | 0 <= j < |after| ensures Tracks(after[j], history', now) {
      assert Tracks(es[j], history, now);
    }
    forall source | source in history' ensures HasSlot(after, source) {
      if source != e.source {
        var j :| 0 <= j < |es| && es[j].active && es[j].source == source;
        assert after[j].source == source;
      } else {
        assert after[i].source == source;
      }
    }
  }

  lemma EntryShaped(e: Entry, times: seq<nat>, now: nat)
    requires EntryOk(e, times, now)
    ensures Shaped(e)
  {}

  /** Giving a slot to a source that has none, at the cost of the one that held it. */
  lemma TableReplace(es: seq<Entry>, history: History, now: nat, i: nat, e: Entry)
    requires TableOk(es, history, now) && i < |es| && e.active && e.source !in history && EntryOk(e, [], now)
    ensures TableOk(es[i := e], (if es[i].active then history - {es[i].source} else history)[e.source := []], now)
  {
    hide EntryOk;
    var after := es[i := e];
    var history' := (if es[i].active then history - {es[i].source} else history)[e.source := []];
    assert Shaped(e) by { EntryShaped(e, [], now); }
    assert Tracks(es[i], history, now);
    forall j | 0 <= j < |after| ensures Tracks(after[j], history', now) {
      assert Tracks(es[j], history, now);
    }
    assert OneSlotEach(after) by {
      forall j, k | 0 <= j < k < |after| && after[j].active && after[k].active ensures after[j].source != after[k].source {
        assert Tracks(es[j], history, now) && Tracks(es[k], history, now);
      }
    }
    forall source | source in history' ensures HasSlot(after, source) {
      if source != e.source {
        var j :| 0 <= j < |es| && es[j].active && es[j].source == source;
        assert after[j].source == source;
      } else {
        assert after[i].source == source;
      }
    }
  }

  lemma TableClear(es: seq<Entry>, history: History, now: nat, i: nat)
    requires TableOk(es, history, now) && i < |es| && es[i].active
    ensures TableOk(es[i := NO_ENTRY], history - {es[i].source}, now)
  {
    hide EntryOk;
    var after, history' := es[i := NO_ENTRY], history - {es[i].source};
    forall j | 0 <= j < |after| ensures Tracks(after[j], history', now) {
      assert Tracks(es[j], history, now);
    }
    forall source | source in history' ensures HasSlot(after, source) {
      var j :| 0 <= j < |es| && es[j].active && es[j].source == source;
      assert after[j].source == source;
    }
  }

  lemma TablePrune(es: seq<Entry>, history: History, now: nat, i: nat)
    requires TableOk(es, history, now) && i < |es| && es[i].active
    ensures var p := Pruned(es[i], now);
      && TableOk(es[i := p], history, now)
      && p.active && p.source == es[i].source && p.source in history
      && p.lastUsed == now && EntryOk(p, history[p.source], now)
      && (p.lockout > now <==> Locked(history[p.source], now)) && (p.lockout != 0 <==> Locked(history[p.source], now))
      && (p.lockout == 0 ==> forall t <- Times(p) :: now - t < WINDOW_US)
      && (p.lockout == 0 ==> (p.count == FAILURE_MAX <==> Full(history[p.source], now)))
      && (Locked(history[p.source], now) ==> p.lockout == history[p.source][|history[p.source]| - 1] + LOCKOUT_US)
  {
    hide EntryOk;
    assert Tracks(es[i], history, now);
    var times := history[es[i].source];
    PrunedOk(es[i], times, now, now);
    var p := Pruned(es[i], now);
    assert p.active;
    TableUpdate(es, history, now, i, p, times);
    assert history[p.source := times] == history;
  }

  /** The evicted source, if any, was not locked. */
  ghost predicate MadeRoom(before: History, after: History, source: nat, now: nat) {
    || after == before[source := []]
    || exists victim :: victim in before && !Locked(before[victim], now) && after == (before - {victim})[source := []]
  }

  /** The slot that is taken: the first free one, or if none is free the first whose
      source is not locked. That is what "least recently used" comes to here, since
      looking for it marks every slot on the way as used now. */
  ghost predicate FirstChoice(es: seq<Entry>, history: History, i: nat, now: nat) {
    && i < |es|
    && (!es[i].active ==> forall j :: 0 <= j < i ==> es[j].active)
    && (es[i].active ==>
          && (forall j :: 0 <= j < |es| ==> es[j].active)
          && !Locked(TimesOf(history, es[i].source), now)
          && (forall j :: 0 <= j < i ==> Locked(TimesOf(history, es[j].source), now)))
  }

  ghost predicate AllLocked(history: History, now: nat) {
    forall source <- history :: Locked(history[source], now)
  }

  /** No source other than `source` loses a live lockout. */
  ghost predicate LockoutsKept(before: History, after: History, source: nat, now: nat) {
    forall other <- before :: other != source && Locked(before[other], now) ==> other in after && after[other] == before[other]
  }

  lemma RoomKeepsLockouts(before: History, after: History, source: nat, now: nat)
    requires MadeRoom(before, after, source, now)
    ensures LockoutsKept(before, after, source, now) && source in after && after[source] == []
  {}

  class Limiter {
    const entries: array<Entry>
    var lastNow: nat
    var clockInitialized: bool
    /** The recorded failures of each tracked source, oldest first. */
    ghost var history: History
    /** Locks work and the clock does not go backwards. */
    const reliable: bool

    constructor (quiet: bool)
      ensures Valid() && history == map[] && fresh(entries) && reliable == quiet
    {
      reliable := quiet;
      entries := new Entry[SOURCE_MAX](_ => NO_ENTRY);
      lastNow, clockInitialized, history := 0, false, map[];
    }

    ghost predicate Valid()
      reads this, entries
    {
      lastNow <= UINT64_MAX && (clockInitialized || lastNow == 0) && TableOk(entries[..], history, lastNow)
    }

    // ---- Operations ----

    method Lock() returns (ok: bool)
      ensures reliable ==> ok
    {
      var fails: bool := *;
      ok := reliable || !fails;
    }

    method Unlock() returns (ok: bool)
      ensures reliable ==> ok
    {
      var fails: bool := *;
      ok := reliable || !fails;
    }

    /** A 64-bit clock; it may go backwards. */
    method NowUs() returns (now: nat)
      requires lastNow <= UINT64_MAX
      ensures now <= UINT64_MAX && (reliable ==> lastNow <= now)
    {
      var reading: nat := *;
      now := if 0 <= reading <= UINT64_MAX then reading else lastNow;
      if reliable && now < lastNow { now := lastNow; }
    }

    /** `auth_core_read_now`: a clock that went backwards is an error. */
    method ReadNow() returns (error: Error, now: nat)
      requires Valid()
      modifies this`lastNow, this`clockInitialized
      ensures Valid() && (error == NoError || error == InternalError)
      ensures error == NoError ==> old(lastNow) <= now == lastNow
      ensures error != NoError ==> lastNow == old(lastNow) && clockInitialized == old(clockInitialized)
      ensures reliable ==> error == NoError
    {
      now := NowUs();
      if clockInitialized && now < lastNow { return InternalError, now; }
      TableLater(entries[..], history, lastNow, now);
      lastNow, clockInitialized, error := now, true, NoError;
    }

    // ---- The table in place ----

    /** `prune_failures`: compacts the recent failures to the front. */
    method PruneFailures(index: nat, now: nat)
      requires index < entries.Length && Shaped(entries[index])
      modifies entries
      ensures entries[..] == old(entries[..])[index := Pruned(old(entries[index]), now)]
    {
      ghost var before := entries[..];
      var e := entries[index];
      if !e.active {
        assert entries[..] == before[index := e];
        return;
      }
      if e.lockout != 0 && e.lockout <= now { e := Fresh(e.source, now); }
      if e.lockout > now {
        entries[index] := e.(lastUsed := now);
        return;
      }
      var failures, count := Compact(e.failures, e.count, now);
      entries[index] := e.(failures := failures, count := count, lastUsed := now);
    }

    /** The two loops of `prune_failures`. */
    static method Compact(failures: seq<nat>, count: nat, now: nat) returns (kept: seq<nat>, write: nat)
      requires |failures| == FAILURE_MAX && count <= FAILURE_MAX
      ensures kept == Padded(Recent(failures[..count], now)) && write == |Recent(failures[..count], now)|
    {
      hide Recent;
      hide Padded;
      kept, write := failures, 0;
      RecentNone(now);
      var index := 0;
      while index < count
        invariant write <= index <= count && |kept| == FAILURE_MAX
        invariant kept[..write] == Recent(failures[..index], now)
        invariant kept[index..] == failures[index..]
      {
        RecentStep(failures, index, now);
        assert kept[index] == kept[index..][0] == failures[index];
        if now - kept[index] < WINDOW_US {
          kept := kept[write := kept[index]];
          write := write + 1;
        }
        index := index + 1;
      }
      assert failures[..count] == failures[..index];
      kept := ZeroFrom(kept, write);
    }

    static method ZeroFrom(failures: seq<nat>, write: nat) returns (kept: seq<nat>)
      requires write <= |failures| == FAILURE_MAX
      ensures kept == Padded(failures[..write])
    {
      kept := failures;
      var index := write;
      while index < FAILURE_MAX
        invariant write <= index <= FAILURE_MAX && |kept| == FAILURE_MAX
        invariant kept[..write] == failures[..write] && forall i :: write <= i < index ==> kept[i] == 0
      {
        kept := kept[index := 0];
        index := index + 1;
      }
      assert kept[write..] == NO_FAILURES[write..] && kept == kept[..write] + kept[write..];
    }

    static lemma RecentNone(now: nat)
      ensures Recent([], now) == []
    {}

    static lemma RecentStep(failures: seq<nat>, index: nat, now: nat)
      requires index < |failures|
      ensures Recent(failures[..index + 1], now) ==
        Recent(failures[..index], now) + if now - failures[index] < WINDOW_US then [failures[index]] else []
      ensures |Recent(failures[..index], now)| <= index
    {
      assert failures[..index + 1][..index] == failures[..index];
      RecentLength(failures[..index], now);
    }

    static lemma {:induction false} RecentLength(times: seq<nat>, now: nat)
      ensures |Recent(times, now)| <= |times|
    {
      if times != [] { RecentLength(times[..|times| - 1], now); }
    }

    /** `find_entry`. */
    method FindEntry(source: nat) returns (slot: Option<nat>)
      requires Valid()
      ensures slot.Some? ==>
        slot.value < entries.Length && entries[slot.value].active && entries[slot.value].source == source && source in history
      ensures slot.None? ==> source !in history
    {
      var index := 0;
      while index < entries.Length
        invariant index <= entries.Length
        invariant forall i :: 0 <= i < index ==> !(entries[i].active && entries[i].source == source)
      {
        if entries[index].active && entries[index].source == source {
          assert Tracks(entries[..][index], history, lastNow);
          return Some(index);
        }
        index := index + 1;
      }
      assert forall i :: 0 <= i < |entries[..]| ==> entries[..][i] == entries[i];
      assert !HasSlot(entries[..], source);
      slot := None;
    }

    /** Prunes one slot of a valid table. */
    method PruneSlot(index: nat)
      requires Valid() && index < entries.Length && entries[index].active
      modifies entries
      ensures Valid()
      ensures forall i :: 0 <= i < entries.Length && i != index ==> entries[i] == old(entries[i])
      ensures var e := entries[index];
        && e == Pruned(old(entries[index]), lastNow) && e.active && e.source == old(entries[index]).source
        && e.source in history && e.lastUsed == lastNow && EntryOk(e, history[e.source], lastNow)
        && (e.lockout > lastNow <==> Locked(history[e.source], lastNow))
        && (e.lockout != 0 <==> Locked(history[e.source], lastNow))
        && (e.lockout == 0 ==> forall t <- Times(e) :: lastNow - t < WINDOW_US)
        && (e.lockout == 0 ==> (e.count == FAILURE_MAX <==> Full(history[e.source], lastNow)))
        && (Locked(history[e.source], lastNow) ==> e.lockout == history[e.source][|history[e.source]| - 1] + LOCKOUT_US)
    {
      hide EntryOk;
      ghost var before := entries[..];
      assert Tracks(before[index], history, lastNow);
      TablePrune(before, history, lastNow, index);
      PruneFailures(index, lastNow);
      assert entries[index] == entries[..][index];
      assert forall i :: 0 <= i < entries.Length ==> entries[i] == entries[..][i];
    }

    /** The loop of `allocate_entry`: prunes the slots it passes, which keeps their
        sources, and stops at a free one. */
    method FindRoom() returns (slot: Option<nat>)
      requires Valid()
      modifies entries
      ensures Valid()
      ensures SameSources(entries[..], old(entries[..]))
      ensures slot.Some? ==> FirstChoice(entries[..], history, slot.value, lastNow)
      ensures slot.None? ==> AllLocked(history, lastNow) && |history| > 0
    {
      hide EntryOk;
      hide TableOk;
      hide Locked;
      hide Recent;
      slot := None;
      var index := 0;
      assert entries.Length == SOURCE_MAX by { TableLength(entries[..], history, lastNow); }
      while index < entries.Length
        invariant index <= entries.Length == SOURCE_MAX && Valid()
        invariant SameSources(entries[..], old(entries[..]))
        invariant forall i :: 0 <= i < index ==> entries[i].active && entries[i].lastUsed == lastNow && entries[i].source in history
        invariant slot.Some? ==> slot.value < index && !Locked(history[entries[slot.value].source], lastNow)
        invariant forall i :: 0 <= i < (if slot.Some? then slot.value else index) ==> Locked(history[entries[i].source], lastNow)
      {
        if !entries[index].active { return Some(index); }
        PruneSlot(index);
        if entries[index].lockout <= lastNow && (slot.None? || entries[index].lastUsed < entries[slot.value].lastUsed) {
          slot := Some(index);
        }
        index := index + 1;
      }
      if slot.None? { EveryoneLocked(entries[..]); }
    }

    static ghost predicate SameSources(es: seq<Entry>, before: seq<Entry>) {
      && |es| == |before|
      && forall i :: 0 <= i < |es| ==> es[i].active == before[i].active && (es[i].active ==> es[i].source == before[i].source)
    }

    static lemma TableLength(es: seq<Entry>, history: History, now: nat)
      requires TableOk(es, history, now)
      ensures |es| == SOURCE_MAX
    {}

    static lemma FirstChoiceBefore(es: seq<Entry>, before: seq<Entry>, history: History, i: nat, now: nat)
      requires SameSources(es, before) && FirstChoice(es, history, i, now)
      ensures FirstChoice(before, history, i, now)
    {
      hide Locked;
    }

    /** `allocate_entry`. */
    method AllocateEntry(source: nat) returns (slot: Option<nat>)
      requires Valid() && source !in history
      modifies entries, this`history
      ensures Valid()
      ensures slot.Some? ==>
        && FirstChoice(old(entries[..]), old(history), slot.value, lastNow)
        && history == Given(old(entries[..]), old(history), slot.value, source)
        && slot.value < entries.Length && entries[slot.value] == Fresh(source, lastNow)
        && MadeRoom(old(history), history, source, lastNow)
      ensures slot.None? ==> history == old(history) && AllLocked(history, lastNow) && |history| > 0
    {
      hide EntryOk;
      hide TableOk;
      hide Recent;
      hide Locked;
      slot := FindRoom();
      if slot.None? { return; }
      ghost var before := entries[..];
      FirstChoiceBefore(before, old(entries[..]), history, slot.value, lastNow);
      FreshOk(source, lastNow);
      TableReplace(before, history, lastNow, slot.value, Fresh(source, lastNow));
      GivenMakesRoom(before, history, slot.value, source);
      entries[slot.value] := Fresh(source, lastNow);
      assert entries[..] == before[slot.value := Fresh(source, lastNow)];
      history := Given(before, history, slot.value, source);
    }

    /** The histories after a slot went to a new source. */
    static ghost function Given(es: seq<Entry>, history: History, i: nat, source: nat): History
      requires i < |es|
    {
      (if es[i].active then history - {es[i].source} else history)[source := []]
    }

    lemma GivenMakesRoom(es: seq<Entry>, history: History, i: nat, source: nat)
      requires TableOk(es, history, lastNow) && FirstChoice(es, history, i, lastNow)
      ensures MadeRoom(history, Given(es, history, i, source), source, lastNow)
    {
      hide Locked;
      hide EntryOk;
      assert Tracks(es[i], history, lastNow);
    }

    lemma EveryoneLocked(es: seq<Entry>)
      requires TableOk(es, history, lastNow)
      requires forall i :: 0 <= i < |es| ==>
        es[i].active && es[i].source in history && Locked(history[es[i].source], lastNow)
      ensures AllLocked(history, lastNow) && |history| > 0
    {
      assert es[0].source in history.Keys;
      forall source | source in history ensures Locked(history[source], lastNow) {
        assert HasSlot(es, source);
      }
    }

    // ---- What callers see ----

    method Restore(saved: seq<Entry>, now: nat, initialized: bool)
      requires |saved| == entries.Length
      modifies entries, this`lastNow, this`clockInitialized
      ensures entries[..] == saved && lastNow == now && clockInitialized == initialized
    {
      forall i | 0 <= i < entries.Length { entries[i] := saved[i]; }
      lastNow, clockInitialized := now, initialized;
    }

    /** The remaining time of a locked source, in seconds, and 0 for any other. */
    static function RetryAfter(times: seq<nat>, now: nat): nat {
      if Locked(times, now) then RetrySeconds(times[|times| - 1] + LOCKOUT_US - now) else 0
    }

    /** `auth_core_login_attempt_allowed` without its locking. */
    method AttemptAllowedLocked(source: nat) returns (result: Error, retryAfter: nat)
      requires Valid()
      modifies entries
      ensures Valid()
      ensures result == if Locked(TimesOf(history, source), lastNow) then RateLimited else NoError
      ensures retryAfter == RetryAfter(TimesOf(history, source), lastNow)
      ensures result == RateLimited ==> 1 <= retryAfter <= 300
    {
      hide EntryOk;
      hide TableOk;
      hide Recent;
      result, retryAfter := NoError, 0;
      NewSource(lastNow);
      var slot := FindEntry(source);
      if slot.Some? {
        PruneSlot(slot.value);
        var e := entries[slot.value];
        if e.lockout > lastNow {
          LockedTimes(e, history[source], lastNow);
          RetryIsCeiling(e.lockout - lastNow);
          retryAfter := RetrySeconds(e.lockout - lastNow);
          result := RateLimited;
        }
      }
    }

    /** `auth_core_login_attempt_allowed`: limited exactly while the recorded failures
        imply a lockout, for its remaining time rounded up to seconds. `fault` tells
        that a lock, an unlock or the clock failed; then nothing has changed. */
    method LoginAttemptAllowed(source: nat) returns (result: Error, retryAfter: nat, ghost fault: bool)
      requires Valid()
      modifies entries, this`lastNow, this`clockInitialized
      ensures Valid()
      ensures fault ==>
        && result == InternalError && retryAfter == 0
        && entries[..] == old(entries[..]) && lastNow == old(lastNow)
      ensures !fault ==>
        var times := TimesOf(history, source);
        && old(lastNow) <= lastNow
        && result == (if Locked(times, lastNow) then RateLimited else NoError)
        && retryAfter == RetryAfter(times, lastNow)
        && (result == RateLimited ==> 1 <= retryAfter <= 300)
      ensures reliable ==> !fault
    {
      hide TableOk;
      hide Locked;
      hide RetryAfter;
      retryAfter, fault := 0, true;
      var locked := Lock();
      if !locked { return InternalError, retryAfter, fault; }
      var saved, now0, initialized0 := entries[..], lastNow, clockInitialized;
      var now;
      result, now := ReadNow();
      if result == NoError {
        fault := false;
        result, retryAfter := AttemptAllowedLocked(source);
      }
      var unlocked := Unlock();
      if !unlocked {
        Restore(saved, now0, initialized0);
        return InternalError, 0, true;
      }
    }

    static lemma LockedTimes(e: Entry, times: seq<nat>, now: nat)
      requires Locked(times, now) && EntryOk(e, times, now)
      ensures times[|times| - 1] <= now < times[|times| - 1] + LOCKOUT_US
    {}

    /** The slot of a source, found and pruned or allocated. */
    method SlotFor(source: nat) returns (slot: Option<nat>)
      requires Valid()
      modifies entries, this`history
      ensures Valid()
      ensures source in old(history) ==> slot.Some? && history == old(history)
      ensures slot.None? ==> history == old(history) && AllLocked(history, lastNow) && |history| > 0
      ensures source !in old(history) && slot.Some? ==> MadeRoom(old(history), history, source, lastNow)
      ensures slot.Some? ==> slot.value < entries.Length && source in history && UpToDate(entries[slot.value], source, history[source], lastNow)
    {
      hide EntryOk;
      hide Recent;
      slot := FindEntry(source);
      if slot.None? {
        slot := AllocateEntry(source);
        if slot.Some? {
          RoomKeepsLockouts(old(history), history, source, lastNow);
          FreshOk(source, lastNow);
          assert Times(entries[slot.value]) == [];
        }
      } else {
        PruneSlot(slot.value);
      }
    }

    /** The slot of a source as `prune_failures` leaves it. */
    static ghost predicate UpToDate(e: Entry, source: nat, times: seq<nat>, now: nat) {
      && e.active && e.source == source && EntryOk(e, times, now) && e.lastUsed == now
      && (e.lockout > now <==> Locked(times, now)) && (e.lockout != 0 <==> Locked(times, now))
      && (e.lockout == 0 ==> forall t <- Times(e) :: now - t < WINDOW_US)
      && (e.lockout == 0 ==> (e.count == FAILURE_MAX <==> Full(times, now)))
    }

    static lemma RecordOk(e: Entry, source: nat, times: seq<nat>, now: nat)
      requires UpToDate(e, source, times, now) && !Locked(times, now) && !Full(times, now)
      ensures Shaped(e) && e.count < FAILURE_MAX
      ensures Failed(e, now).count == FAILURE_MAX && now > CLOCK_SAFE <==> Unlockable(times, now)
      ensures Failed(e, now).active && Failed(e, now).source == source && EntryOk(Failed(e, now), times + [now], now)
    {
      FailedOk(e, times, now);
    }

    /** `auth_core_login_record_failure` without its locking. */
    method RecordFailureLocked(source: nat) returns (result: Error)
      requires Valid()
      modifies entries, this`history
      ensures Valid()
      ensures result == NoError || result == RateLimited || result == InternalError
      ensures result == RateLimited ==> history == old(history)
      ensures source in old(history) ==>
        var times := old(history)[source];
        && (result == RateLimited <==> Locked(times, lastNow))
        && (result == InternalError <==> !Locked(times, lastNow) && (Full(times, lastNow) || Unlockable(times, lastNow)))
        && (history == if Locked(times, lastNow) || Full(times, lastNow) then old(history) else old(history)[source := times + [lastNow]])
      ensures source !in old(history) && result == RateLimited ==> AllLocked(history, lastNow) && |history| > 0
      ensures source !in old(history) && result != RateLimited ==>
        result == NoError && source in history && history[source] == [lastNow]
      ensures LockoutsKept(old(history), history, source, lastNow)
    {
      hide EntryOk;
      hide Recent;
      hide TableOk;
      hide MadeRoom;
      hide LockoutsKept;
      hide Locked;
      hide Full;
      hide Unlockable;
      KeptToo(history, history, source, [], lastNow);
      var slot := SlotFor(source);
      if slot.None? { return RateLimited; }
      ghost var times := history[source];
      var e := entries[slot.value];
      if source !in old(history) {
        RoomKeepsLockouts(old(history), history, source, lastNow);
        NewSource(lastNow);
      }
      if e.lockout > lastNow { return RateLimited; }
      EntryShaped(e, times, lastNow);
      if e.count >= FAILURE_MAX { return InternalError; }
      RecordOk(e, source, times, lastNow);
      ghost var before := entries[..];
      TableUpdate(before, history, lastNow, slot.value, Failed(e, lastNow), times + [lastNow]);
      entries[slot.value] := Failed(e, lastNow);
      assert entries[..] == before[slot.value := Failed(e, lastNow)];
      KeptToo(old(history), history, source, times + [lastNow], lastNow);
      history := history[source := times + [lastNow]];
      result := if e.count + 1 == FAILURE_MAX && lastNow > CLOCK_SAFE then InternalError else NoError;
    }

    /** A source without failures is neither locked nor full, and may fail once more. */
    static lemma NewSource(now: nat)
      ensures !Locked([], now) && !Full([], now) && !Unlockable([], now)
    {}

    static lemma KeptToo(before: History, after: History, source: nat, times: seq<nat>, now: nat)
      ensures LockoutsKept(before, after, source, now) ==> LockoutsKept(before, after[source := times], source, now)
      ensures LockoutsKept(before, before, source, now)
    {}

    /** `auth_core_login_record_failure`: counted unless the source is locked out, or it
        is new and every slot belongs to a locked source, or it is full. An internal
        error without a fault means that a lockout does not fit the clock. */
    method LoginRecordFailure(source: nat) returns (result: Error, ghost fault: bool)
      requires Valid()
      modifies entries, this`lastNow, this`clockInitialized, this`history
      ensures Valid()
      ensures fault ==> result == InternalError && entries[..] == old(entries[..]) && history == old(history) && lastNow == old(lastNow)
      ensures !fault ==>
        var times := TimesOf(old(history), source);
        && old(lastNow) <= lastNow && LockoutsKept(old(history), history, source, lastNow)
        && (result == NoError || result == RateLimited || result == InternalError)
        && (Locked(times, lastNow) ==> result == RateLimited)
        && (result == RateLimited ==>
              history == old(history) && (Locked(times, lastNow) || (source !in history && AllLocked(history, lastNow))))
        && (result != RateLimited ==>
              && source in history && history[source] == (if Full(times, lastNow) then times else times + [lastNow])
              && (result == InternalError <==> Full(times, lastNow) || Unlockable(times, lastNow)))
        && (lastNow <= CLOCK_SAFE ==> result != InternalError && (result == NoError ==> !Full(times, lastNow)))
      ensures reliable ==> !fault
    {
      hide Locked;
      hide Full;
      hide TableOk;
      hide LockoutsKept;
      fault := true;
      var locked := Lock();
      if !locked { return InternalError, fault; }
      var saved, now0, initialized0 := entries[..], lastNow, clockInitialized;
      ghost var history0 := history;
      var now;
      result, now := ReadNow();
      if result == NoError {
        fault := false;
        result := RecordFailureLocked(source);
        NewSource(lastNow);
        if result != RateLimited { NotFullBefore(source, TimesOf(history0, source)); }
      }
      var unlocked := Unlock();
      if !unlocked {
        Restore(saved, now0, initialized0);
        history := history0;
        return InternalError, true;
      }
    }

    /** While lockouts fit the clock, no source is or was full. */
    lemma NotFullBefore(source: nat, times: seq<nat>)
      requires Valid() && source in history && (history[source] == times || history[source] == times + [lastNow])
      ensures lastNow <= CLOCK_SAFE ==> !Full(times, lastNow) && !Unlockable(times, lastNow)
    {
      HistoryHolds(source);
      hide Throttled;
      if history[source] == times {
        if Full(times, lastNow) { FullOnlyAtTheEndOfTime(times, lastNow); }
      } else if |times| >= FAILURE_MAX {
        var more := history[source];
        assert more[|times|] - more[|times| - FAILURE_MAX] >= WINDOW_US;
      }
    }

    lemma HistoryHolds(source: nat)
      requires Valid() && source in history
      ensures HistoryOk(history[source], lastNow)
    {
      assert HasSlot(entries[..], source);
      var i :| 0 <= i < |entries[..]| && entries[..][i].active && entries[..][i].source == source;
      assert Tracks(entries[..][i], history, lastNow);
    }

    /** `auth_core_login_record_success`: the source starts over. */
    method LoginRecordSuccess(source: nat) returns (result: Error)
      requires Valid()
      modifies entries, this`lastNow, this`clockInitialized, this`history
      ensures Valid() && lastNow == old(lastNow)
      ensures result == NoError || result == InternalError
      ensures history == if result == NoError then old(history) - {source} else old(history)
      ensures result != NoError ==> entries[..] == old(entries[..])
      ensures reliable ==> result == NoError
    {
      hide EntryOk;
      var locked := Lock();
      if !locked { return InternalError; }
      var saved, now0, initialized0 := entries[..], lastNow, clockInitialized;
      ghost var history0 := history;
      var slot := FindEntry(source);
      if slot.Some? {
        ghost var before := entries[..];
        TableClear(before, history, lastNow, slot.value);
        entries[slot.value] := NO_ENTRY;
        assert entries[..] == before[slot.value := NO_ENTRY];
      }
      assert source !in history ==> history == history - {source};
      history := history - {source};
      var unlocked := Unlock();
      if !unlocked {
        Restore(saved, now0, initialized0);
        history := history0;
        return InternalError;
      }
      result := NoError;
    }

    /** At any moment, a tracked source's failures obey the limits, and only in the last
        300 seconds of the clock is it full without being locked out. */
    lemma Limits(source: nat)
      requires Valid() && source in history
      ensures Throttled(history[source]) && AtMostFiveAMinute(history[source])
      ensures Full(history[source], lastNow) ==> history[source][|history[source]| - 1] > CLOCK_SAFE
    {
      HistoryHolds(source);
      hide Throttled;
      if Full(history[source], lastNow) { FullOnlyAtTheEndOfTime(history[source], lastNow); }
    }
  }
}
