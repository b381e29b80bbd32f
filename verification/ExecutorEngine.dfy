/** The macro executor engine: the worker's run of one request, for every result its
    operations may return and with other tasks cancelling and confirming meanwhile. */
module ExecutorEngine {
  import opened Errors
  import opened MacroCompiler

  const CANCELLATION_SLICE_MS := 10
  const CONFIRMATION_TIMEOUT_MS := 60_000
  const ABSOLUTE_DEADLINE_MS := 310_000
  const TICKS := 0x1_0000_0000
  const HALF_TICKS := 0x8000_0000
  /** The longest one operation is assumed to stall. */
  const MAX_STALL_MS := 0x2000_0000

  datatype State = Idle | AwaitingConfirmation | Running | Completed | Cancelled | Failed | TimedOut

  datatype Request = Request(
    id: nat, identifiersValid: bool, macroRevision: nat,
    keyPressMs: nat, interKeyMs: nat, plan: Plan, acceptedMs: nat, requireConfirmation: bool)

  datatype Status = Status(
    state: State, error: Error, releaseError: Error, id: nat, actionIndex: nat, actionCount: nat,
    available: bool, acceptedMs: nat, startedMs: nat, completedMs: nat, current: Option<Kind>)

  /** `validate_request`; a released plan is the empty one. */
  predicate ValidRequest(r: Request) {
    && 0 < |r.plan.actions| <= ACTIONS_MAX
    && r.plan.estimatedMs <= DURATION_MAX_MS
    && r.keyPressMs <= DELAY_MAX_MS && r.interKeyMs <= DELAY_MAX_MS
    && r.identifiersValid && r.macroRevision != 0
  }

  /** `deadline_expired`: the sign of a 32-bit difference. */
  predicate DeadlineExpired(now: nat, deadline: nat) {
    (now - deadline) % TICKS < HALF_TICKS
  }

  /** On the wrapping clock the test is right exactly while the true distance to
      the deadline fits in 31 bits; one tick later it is wrong. */
  lemma DeadlineTestAgrees(time: nat, deadline: nat)
    requires -HALF_TICKS <= time - deadline < HALF_TICKS
    ensures DeadlineExpired(time % TICKS, deadline % TICKS) <==> deadline <= time
  {
    WrapDifference(time, deadline);
  }

  lemma WrapDifference(time: nat, deadline: nat)
    ensures (time % TICKS - deadline % TICKS) % TICKS == (time - deadline) % TICKS
  {
    var q := time / TICKS - deadline / TICKS;
    assert time - deadline == q * TICKS + (time % TICKS - deadline % TICKS);
  }

  lemma DeadlineTestWrong(deadline: nat)
    ensures !DeadlineExpired((deadline + HALF_TICKS) % TICKS, deadline % TICKS)
  {
    WrapDifference(deadline + HALF_TICKS, deadline);
  }

  function TerminalState(result: Error): State {
    match result
    case NoError => Completed
    case ExecutionCancelled => Cancelled
    case Timeout => TimedOut
    case _ => Failed
  }

  // ---- What a run does to the keyboard ----

  datatype Report = Report(modifiers: bv8, usages: seq<nat>)

  datatype HidCall = Press(report: Report, result: Error) | ReleaseAll(result: Error)

  function ReportOf(a: Action): Report { Report(a.modifiers, a.usages) }

  /** The reports a plan asks for. */
  function Reports(actions: seq<Action>): seq<Report> {
    if actions == [] then []
    else if actions[|actions| - 1].kind == Delay then Reports(actions[..|actions| - 1])
    else Reports(actions[..|actions| - 1]) + [ReportOf(actions[|actions| - 1])]
  }

  /** The reports a run pressed. */
  function Presses(calls: seq<HidCall>): seq<Report> {
    if calls == [] then []
    else match calls[|calls| - 1]
      case Press(report, _) => Presses(calls[..|calls| - 1]) + [report]
      case ReleaseAll(_) => Presses(calls[..|calls| - 1])
  }

  /** The first failing release, or `NoError`. */
  function ReleaseFault(calls: seq<HidCall>): Error {
    if calls == [] then NoError
    else match calls[|calls| - 1]
      case Press(_, _) => ReleaseFault(calls[..|calls| - 1])
      case ReleaseAll(result) => FirstError(ReleaseFault(calls[..|calls| - 1]), result)
  }

  /** Each press is followed at once by a release of all keys. */
  ghost predicate EveryPressReleased(calls: seq<HidCall>) {
    forall i :: 0 <= i < |calls| && calls[i].Press? ==> i + 1 < |calls| && calls[i + 1].ReleaseAll?
  }

  /** Once a release has failed, nothing is pressed any more. */
  ghost predicate NoPressAfterFailedRelease(calls: seq<HidCall>) {
    forall i, j :: 0 <= i < j < |calls| && calls[i].ReleaseAll? && calls[i].result != NoError ==> !calls[j].Press?
  }

  lemma AppendCall(calls: seq<HidCall>, call: HidCall)
    ensures Presses(calls + [call]) == if call.Press? then Presses(calls) + [call.report] else Presses(calls)
    ensures ReleaseFault(calls + [call]) == if call.Press? then ReleaseFault(calls) else FirstError(ReleaseFault(calls), call.result)
  {
    assert (calls + [call])[..|calls|] == calls;
  }

  lemma {:induction false} ReportsPrefix(actions: seq<Action>, k: nat)
    requires k <= |actions|
    ensures Reports(actions[..k]) <= Reports(actions)
    decreases |actions|
  {
    if k < |actions| {
      var init := actions[..|actions| - 1];
      ReportsPrefix(init, k);
      assert init[..k] == actions[..k];
    } else {
      assert actions[..k] == actions;
    }
  }

  lemma ReportsStep(actions: seq<Action>, k: nat)
    requires k < |actions|
    ensures Reports(actions[..k + 1]) ==
      if actions[k].kind == Delay then Reports(actions[..k]) else Reports(actions[..k]) + [ReportOf(actions[k])]
  {
    assert actions[..k + 1][..k] == actions[..k];
  }

  lemma {:induction false} DurationStep(actions: seq<Action>, k: nat, options: Options)
    requires k < |actions|
    ensures Duration(actions[..k + 1], options) == Duration(actions[..k], options) + ActionDuration(actions[k], options)
    decreases k
  {
    if k > 0 {
      DurationStep(actions[1..], k - 1, options);
      assert actions[..k + 1][1..] == actions[1..][..k] && actions[..k][1..] == actions[1..][..k - 1];
    } else {
      assert actions[..1][1..] == [];
    }
  }

  lemma {:induction false} DurationPrefix(actions: seq<Action>, k: nat, options: Options)
    requires k <= |actions|
    ensures Duration(actions[..k], options) <= Duration(actions, options)
    decreases |actions| - k
  {
    if k < |actions| {
      DurationStep(actions, k, options);
      DurationPrefix(actions, k + 1, options);
    } else {
      assert actions[..k] == actions;
    }
  }

  lemma {:induction false} NoFaultNoFailure(calls: seq<HidCall>)
    requires ReleaseFault(calls) == NoError
    ensures forall i :: 0 <= i < |calls| && calls[i].ReleaseAll? ==> calls[i].result == NoError
  {
    if calls != [] {
      NoFaultNoFailure(calls[..|calls| - 1]);
    }
  }

  // ---- The engine ----

  class Engine {
    var status: Status
    var busy: bool
    var cancellationRequested: bool
    var confirmedRequested: bool
    var unavailable: bool
    var releaseFaultError: Error
    var deadline: nat

    /** True time in milliseconds; the engine only sees it modulo 2^32. */
    var clock: nat
    /** The true time that `deadline` stands for. */
    ghost var due: nat
    /** The environment is quiet: no operation fails, only waiting takes time, and no
        other task cancels. */
    const reliable: bool
    /** In a quiet environment: the time from which a caller asks for confirmation. */
    const confirmAt: Option<nat>
    /** A task notification the worker has not consumed. */
    var notified: bool

    /** Logs of the current run. */
    ghost var calls: seq<HidCall>
    ghost var waited: nat
    ghost var plansFreed: nat
    /** A confirm call has been accepted since the executor was claimed. */
    ghost var confirmed: bool
    /** A key was pressed before that. */
    ghost var pressedEarly: bool

    constructor (quiet: bool, confirmation: Option<nat>)
      ensures !busy && !unavailable && releaseFaultError == NoError && status.state == Idle
      ensures reliable == quiet && confirmAt == confirmation && (confirmedRequested ==> confirmed)
    {
      reliable, confirmAt, due := quiet, confirmation, 0;
      status := Status(Idle, NoError, NoError, 0, 0, 0, true, 0, 0, 0, None);
      busy, cancellationRequested, confirmedRequested := false, false, false;
      unavailable, releaseFaultError, deadline := false, NoError, 0;
      clock, notified := 0, false;
      calls, waited, plansFreed, confirmed, pressedEarly := [], 0, 0, false, false;
    }

    // ---- Operations ----

    /** What other tasks may do between two steps of a busy worker: record a
        cancellation, or a confirmation while one is awaited, and notify. */
    method Interfere()
      requires busy
      modifies this`cancellationRequested, this`confirmedRequested, this`notified, this`confirmed
      ensures OnlyFlagsRaised()
      ensures confirmedRequested && !old(confirmedRequested) ==> status.state == AwaitingConfirmation
      ensures reliable ==> cancellationRequested == old(cancellationRequested)
      ensures reliable ==> (confirmedRequested <==> old(confirmedRequested) || AskedBy(clock))
    {
      var cancel: bool, confirm: bool := *, *;
      if cancel && !reliable { var result := Cancel(); }
      if (if reliable then confirmAt.Some? && confirmAt.value <= clock else confirm) { var result := Confirm(); }
    }

    /** While the engine shows that it awaits confirmation, it is asked for by `time`. */
    predicate AskedBy(time: nat)
      reads this`unavailable, this`busy, this`status
    {
      confirmAt.Some? && confirmAt.value <= time && !unavailable && busy && status.state == AwaitingConfirmation
    }

    /** One lock or unlock. */
    method Succeeds() returns (ok: bool)
      ensures reliable ==> ok
    {
      var fails: bool := *;
      ok := reliable || !fails;
    }

    function PendingFlags(): nat
      reads this
    {
      (if cancellationRequested then 0 else 1) + if confirmedRequested then 0 else 1
    }

    /** `macro_executor_engine_cancel`. */
    method Cancel() returns (result: Error)
      modifies this`cancellationRequested, this`notified
      ensures old(cancellationRequested) ==> cancellationRequested
      ensures result == NoError ==> busy && !unavailable && !old(cancellationRequested) && cancellationRequested && notified
      ensures result == NotFound ==> !busy
      ensures result == Conflict ==> old(cancellationRequested)
      ensures cancellationRequested && !old(cancellationRequested) ==> busy && !unavailable
      ensures notified && !old(notified) ==> cancellationRequested && !old(cancellationRequested)
      ensures reliable ==>
        result == if unavailable then InternalError else if !busy then NotFound
                  else if old(cancellationRequested) then Conflict else NoError
    {
      if unavailable { return InternalError; }
      var locked := Succeeds();
      var unlocked := Succeeds();
      if !locked { return InternalError; }
      if !busy { return if unlocked then NotFound else InternalError; }
      if cancellationRequested { return if unlocked then Conflict else InternalError; }
      cancellationRequested := true;
      if !unlocked { return InternalError; }
      notified := true;
      result := NoError;
    }

    /** `macro_executor_engine_confirm`. */
    method Confirm() returns (result: Error)
      modifies this`confirmedRequested, this`notified, this`confirmed
      ensures old(confirmedRequested) ==> confirmedRequested
      ensures confirmed <==> old(confirmed) || (confirmedRequested && !old(confirmedRequested))
      ensures result == NoError ==> busy && !unavailable && !old(confirmedRequested) && confirmedRequested && notified
      ensures result == NotFound ==> !busy || status.state != AwaitingConfirmation
      ensures result == Conflict ==> old(confirmedRequested)
      ensures confirmedRequested && !old(confirmedRequested) ==>
        busy && !unavailable && status.state == AwaitingConfirmation
      ensures notified && !old(notified) ==> confirmedRequested && !old(confirmedRequested)
      ensures reliable ==>
        result == if unavailable then InternalError else if !busy || status.state != AwaitingConfirmation then NotFound
                  else if old(confirmedRequested) then Conflict else NoError
    {
      if unavailable { return InternalError; }
      var locked := Succeeds();
      var unlocked := Succeeds();
      if !locked { return InternalError; }
      if !busy || status.state != AwaitingConfirmation {
        return if unlocked then NotFound else InternalError;
      }
      if confirmedRequested { return if unlocked then Conflict else InternalError; }
      confirmedRequested, confirmed := true, true;
      if !unlocked { return InternalError; }
      notified := true;
      result := NoError;
    }

    method NowMs() returns (now: nat)
      modifies this`clock
      ensures old(clock) <= clock <= old(clock) + MAX_STALL_MS && now == clock % TICKS
      ensures reliable ==> clock == old(clock)
    {
      var stall: nat := *;
      clock := clock + if 0 <= stall <= MAX_STALL_MS && !reliable then stall else 0;
      now := clock % TICKS;
    }

    /** Waiting takes at least a millisecond unless it consumes a notification. */
    method WaitMs(ms: nat) returns (result: Error)
      modifies this`clock, this`notified, this`waited
      ensures old(clock) <= clock <= old(clock) + MAX_STALL_MS
      ensures old(clock) < clock || (old(notified) && !notified)
      ensures notified ==> old(notified)
      ensures waited == old(waited) + ms
      ensures reliable && ms > 0 ==> clock <= old(clock) + ms && result == NoError
    {
      var stall: nat := *;
      var woken := notified && stall == 0;
      if woken { notified := false; }
      clock := clock + if woken then 0 else if 1 <= stall <= (if reliable then ms else MAX_STALL_MS) <= MAX_STALL_MS then stall else 1;
      waited := waited + ms;
      result := *;
      if reliable { result := NoError; }
    }

    method UsbPress(report: Report) returns (result: Error)
      modifies this`calls, this`pressedEarly
      ensures pressedEarly <==> old(pressedEarly) || !confirmed
      ensures calls == old(calls) + [Press(report, result)]
      ensures reliable ==> result == NoError
    {
      result := *;
      if reliable { result := NoError; }
      calls := calls + [Press(report, result)];
      pressedEarly := pressedEarly || !confirmed;
    }

    method UsbReleaseAll() returns (result: Error)
      modifies this`calls
      ensures calls == old(calls) + [ReleaseAll(result)]
      ensures reliable ==> result == NoError
    {
      result := *;
      if reliable { result := NoError; }
      calls := calls + [ReleaseAll(result)];
    }

    method PlanFree()
      modifies this`plansFreed
      ensures plansFreed == old(plansFreed) + 1
    {
      plansFreed := plansFreed + 1;
    }

    // ---- Locked sections of the worker ----

    twostate predicate OnlyFlagsRaised()
      reads this
    {
      && (old(cancellationRequested) ==> cancellationRequested)
      && (old(confirmedRequested) ==> confirmedRequested)
      && (confirmed <==> old(confirmed) || (confirmedRequested && !old(confirmedRequested)))
      && (notified && !old(notified) ==> PendingFlags() < old(PendingFlags()))
    }

    /** Nobody interferes, nothing is cancelled, and `ms` from now is before the deadline. */
    ghost predicate Unhurried(ms: nat)
      reads this
    {
      && reliable && !cancellationRequested
      && deadline == due % TICKS && due <= clock + HALF_TICKS && clock + ms < due
    }

    method PublishStatus(next: Status) returns (result: Error)
      requires busy
      modifies this`status, this`cancellationRequested, this`confirmedRequested, this`notified, this`confirmed
      ensures OnlyFlagsRaised()
      ensures result == NoError || result == InternalError
      ensures result == NoError ==> status == next
      ensures status == next || status == old(status)
      ensures confirmedRequested && !old(confirmedRequested) ==> old(status.state) == AwaitingConfirmation
      ensures reliable ==> result == NoError && cancellationRequested == old(cancellationRequested)
      ensures reliable ==> (confirmedRequested <==> old(confirmedRequested || AskedBy(clock)))
    {
      Interfere();
      var locked := Succeeds();
      var unlocked := Succeeds();
      if !locked { return InternalError; }
      status := next;
      result := if unlocked then NoError else InternalError;
    }

    method ReadCancellation() returns (result: Error, cancelled: bool)
      requires busy
      modifies this`cancellationRequested, this`confirmedRequested, this`notified, this`confirmed
      ensures OnlyFlagsRaised()
      ensures result == NoError || result == InternalError
      ensures result == NoError ==> cancelled == cancellationRequested
      ensures reliable ==> result == NoError && cancellationRequested == old(cancellationRequested)
      ensures reliable ==> (confirmedRequested <==> old(confirmedRequested) || AskedBy(clock))
    {
      Interfere();
      cancelled := false;
      var locked := Succeeds();
      var unlocked := Succeeds();
      if !locked { return InternalError, cancelled; }
      cancelled := cancellationRequested;
      if !unlocked { return InternalError, true; }
      result := NoError;
    }

    method ReadConfirmation() returns (result: Error, isConfirmed: bool)
      requires busy
      modifies this`cancellationRequested, this`confirmedRequested, this`notified, this`confirmed
      ensures OnlyFlagsRaised()
      ensures result == NoError || result == InternalError
      ensures result == NoError ==> isConfirmed == confirmedRequested
      ensures reliable ==> result == NoError && cancellationRequested == old(cancellationRequested)
      ensures reliable ==> (confirmedRequested <==> old(confirmedRequested) || AskedBy(clock))
    {
      Interfere();
      isConfirmed := false;
      var locked := Succeeds();
      var unlocked := Succeeds();
      if !locked { return InternalError, isConfirmed; }
      isConfirmed := confirmedRequested;
      if !unlocked { return InternalError, false; }
      result := NoError;
    }

    method ResetTerminalFlags() returns (result: Error)
      requires busy
      modifies this`busy, this`cancellationRequested, this`confirmedRequested, this`notified, this`confirmed
      ensures old(confirmed) ==> confirmed
      ensures old(confirmedRequested ==> confirmed) ==> (confirmedRequested ==> confirmed)
      ensures result == NoError || result == InternalError
      ensures !busy ==> !cancellationRequested && !confirmedRequested
      ensures confirmedRequested && !old(confirmedRequested) ==> status.state == AwaitingConfirmation
      ensures result == NoError ==> !busy && !cancellationRequested && !confirmedRequested
      ensures reliable ==> result == NoError
    {
      Interfere();
      var locked := Succeeds();
      var unlocked := Succeeds();
      if !locked { return InternalError; }
      busy, cancellationRequested, confirmedRequested := false, false, false;
      result := if unlocked then NoError else InternalError;
    }

    // ---- Releasing, waiting ----

    /** `record_release_failure`: keeps the first failure and latches the engine. */
    method RecordReleaseFailure(current: Status, releaseError: Error) returns (next: Status)
      modifies this`unavailable, this`releaseFaultError
      ensures releaseFaultError == FirstError(old(releaseFaultError), releaseError)
      ensures unavailable == (old(unavailable) || releaseError != NoError)
      ensures next == current.(releaseError := FirstError(current.releaseError, releaseError))
    {
      next := current;
      if releaseError == NoError { return; }
      if releaseFaultError == NoError { releaseFaultError := releaseError; }
      if current.releaseError == NoError { next := current.(releaseError := releaseError); }
      unavailable := true;
    }

    /** `cancellable_delay`: on success exactly the requested time was waited for. */
    method CancellableDelay(delayMs: nat) returns (result: Error)
      requires busy
      modifies this`cancellationRequested, this`confirmedRequested, this`notified, this`confirmed
      modifies this`clock, this`waited
      ensures old(confirmed) ==> confirmed
      ensures result == NoError ==> waited == old(waited) + delayMs
      ensures old(waited) <= waited <= old(waited) + delayMs
      ensures old(Unhurried(delayMs)) ==>
        result == NoError && !cancellationRequested && old(clock) <= clock <= old(clock) + delayMs
    {
      var remaining: nat := delayMs;
      while remaining > 0
        invariant remaining <= delayMs
        invariant waited == old(waited) + (delayMs - remaining) && (old(confirmed) ==> confirmed)
        invariant old(Unhurried(delayMs)) ==>
          Unhurried(remaining) && old(clock) <= clock <= old(clock) + (delayMs - remaining)
      {
        ghost var calm := Unhurried(remaining);
        var error, cancelled := ReadCancellation();
        if error != NoError { return error; }
        if cancelled { return ExecutionCancelled; }
        var now := NowMs();
        if calm { DeadlineTestAgrees(clock, due); }
        if DeadlineExpired(now, deadline) { return Timeout; }
        var slice := if remaining > CANCELLATION_SLICE_MS then CANCELLATION_SLICE_MS else remaining;
        error := WaitMs(slice);
        if error != NoError { return error; }
        remaining := remaining - slice;
      }
      result := NoError;
    }

    /** `await_confirmation`: success means the confirmation flag was seen set. The
        loop ends because every wait moves the clock or uses up a notification, and
        the wrapping test cannot miss a deadline that is less than 2^31 ms late. In a
        quiet environment it succeeds if the confirmation is asked for by the end of
        the 60 seconds, and times out if it is not asked for within a slice of it. */
    method AwaitConfirmation() returns (result: Error)
      requires busy && (confirmedRequested ==> confirmed)
      modifies this`cancellationRequested, this`confirmedRequested, this`notified, this`confirmed
      modifies this`clock, this`waited
      ensures OnlyConfirmed()
      ensures result == NoError ==> confirmedRequested && confirmed
      ensures reliable && !old(cancellationRequested) ==> !cancellationRequested
      ensures var asked := AskedBy(old(clock) + CONFIRMATION_TIMEOUT_MS);
        reliable && !old(cancellationRequested) && (old(confirmedRequested) || asked) ==> result == NoError
      ensures var asked := AskedBy(old(clock) + CONFIRMATION_TIMEOUT_MS + CANCELLATION_SLICE_MS);
        reliable && !old(cancellationRequested) && !old(confirmedRequested) && !asked ==> result == Timeout
    {
      var start := NowMs();
      ghost var end := clock + CONFIRMATION_TIMEOUT_MS;
      var deadline := (start + CONFIRMATION_TIMEOUT_MS) % TICKS;
      assert deadline == end % TICKS;
      while true
        invariant end - CONFIRMATION_TIMEOUT_MS <= clock <= end + MAX_STALL_MS
        invariant OnlyConfirmed() && (confirmedRequested ==> confirmed)
        invariant reliable ==> end == old(clock) + CONFIRMATION_TIMEOUT_MS && clock < end + CANCELLATION_SLICE_MS
        invariant reliable ==> cancellationRequested == old(cancellationRequested)
        invariant reliable && !AskedBy(end + CANCELLATION_SLICE_MS) ==> confirmedRequested == old(confirmedRequested)
        decreases end + MAX_STALL_MS - clock, PendingFlags(), notified
      {
        var error, cancelled := ReadCancellation();
        if error != NoError { return error; }
        if cancelled { return ExecutionCancelled; }
        var isConfirmed: bool;
        error, isConfirmed := ReadConfirmation();
        if error != NoError { return error; }
        if isConfirmed { return NoError; }
        var now := NowMs();
        DeadlineTestAgrees(clock, end);
        if DeadlineExpired(now, deadline) { return Timeout; }
        error := WaitMs(CANCELLATION_SLICE_MS);
        if error != NoError { return error; }
      }
    }

    twostate predicate OnlyConfirmed()
      reads this
    {
      (old(confirmed) ==> confirmed) && (old(confirmedRequested) ==> confirmedRequested)
    }

    // ---- One run ----

    /** The keyboard discipline, and where the first release failure is recorded. */
    ghost predicate Disciplined(fault0: Error, unavailable0: bool)
      reads this
    {
      && EveryPressReleased(calls)
      && NoPressAfterFailedRelease(calls)
      && releaseFaultError == FirstError(fault0, ReleaseFault(calls))
      && unavailable == (unavailable0 || ReleaseFault(calls) != NoError)
    }

    /** `execute_action`: a delay only waits; any other action is one press followed
        by one release, whatever happens in between. */
    method ExecuteAction(current: Status, action: Action, keyPressMs: nat, interKeyMs: nat)
      returns (result: Error, next: Status, ghost pressed: Error, ghost released: Error)
      requires busy
      modifies this`cancellationRequested, this`confirmedRequested, this`notified, this`confirmed
      modifies this`clock, this`waited
      modifies this`calls, this`pressedEarly, this`unavailable, this`releaseFaultError
      ensures old(confirmed) ==> confirmed && pressedEarly == old(pressedEarly)
      ensures calls == old(calls) + if action.kind == Delay then [] else [Press(ReportOf(action), pressed), ReleaseAll(released)]
      ensures action.kind == Delay ==> released == NoError
      ensures next == current.(releaseError := FirstError(current.releaseError, released))
      ensures releaseFaultError == FirstError(old(releaseFaultError), released)
      ensures unavailable == (old(unavailable) || released != NoError)
      ensures result == NoError ==> pressed == NoError && released == NoError
      ensures result == NoError ==> waited == old(waited) + ActionDuration(action, Options(keyPressMs, interKeyMs))
      ensures old(Unhurried(ActionDuration(action, Options(keyPressMs, interKeyMs)))) ==>
        && result == NoError && !cancellationRequested
        && old(clock) <= clock <= old(clock) + ActionDuration(action, Options(keyPressMs, interKeyMs))
    {
      next, pressed, released := current, NoError, NoError;
      if action.kind == Delay {
        result := CancellableDelay(action.delayMs);
        return;
      }
      result := UsbPress(ReportOf(action));
      pressed := result;
      if result == NoError {
        result := CancellableDelay(keyPressMs);
      }
      var releaseResult := UsbReleaseAll();
      released := releaseResult;
      next := RecordReleaseFailure(current, releaseResult);
      if result == NoError { result := releaseResult; }
      if result == NoError {
        result := CancellableDelay(interKeyMs);
      }
    }

    /** `finish_execution`: the last release, the terminal status, the flags. */
    method FinishExecution(current: Status, state: State, primary: Error)
      returns (result: Error, terminal: Status, ghost released: Error)
      requires busy
      modifies this
      ensures calls == old(calls) + [ReleaseAll(released)]
      ensures releaseFaultError == FirstError(old(releaseFaultError), released)
      ensures waited == old(waited) && plansFreed == old(plansFreed) && (old(confirmed) ==> confirmed)
      ensures pressedEarly == old(pressedEarly)
      ensures terminal.state == state && terminal.error == primary && terminal.id == current.id && terminal.current == None
      ensures terminal.releaseError == FirstError(current.releaseError, released)
      ensures terminal.available == !(old(unavailable) || released != NoError)
      ensures unavailable == (old(unavailable) || released != NoError || result != NoError)
      ensures result == NoError ==> status == terminal && !busy && !cancellationRequested && !confirmedRequested
      ensures reliable ==> result == NoError && released == NoError
    {
      var releaseResult := UsbReleaseAll();
      released := releaseResult;
      terminal := RecordReleaseFailure(current, releaseResult);
      var completed := NowMs();
      terminal := terminal.(state := state, error := primary, available := !unavailable,
                            completedMs := completed, current := None);
      var publishResult := PublishStatus(terminal);
      var resetResult := ResetTerminalFlags();
      if publishResult != NoError || resetResult != NoError { unavailable := true; }
      result := if publishResult != NoError then publishResult else resetResult;
    }

    /** What comes before an action: publishing it, and looking for a reason to stop. */
    method MayAct(next: Status) returns (result: Error)
      requires busy
      modifies this`status, this`cancellationRequested, this`confirmedRequested, this`notified
      modifies this`confirmed, this`clock
      ensures old(confirmed) ==> confirmed
      ensures reliable ==> clock == old(clock) && cancellationRequested == old(cancellationRequested)
      ensures old(Unhurried(0)) ==> result == NoError
    {
      result := PublishStatus(next);
      if result != NoError { return; }
      var cancelled: bool;
      result, cancelled := ReadCancellation();
      if result != NoError { return; }
      if cancelled { return ExecutionCancelled; }
      var now := NowMs();
      ghost var calm := old(Unhurried(0));
      if calm { DeadlineTestAgrees(clock, due); }
      if DeadlineExpired(now, deadline) { return Timeout; }
    }

    /** One turn of the action loop: publish, look for a reason to stop, act. */
    method RunAction(request: Request, index: nat, current: Status) returns (result: Error, next: Status)
      requires busy && index < |request.plan.actions|
      requires Disciplined(releaseFaultError, unavailable) && ReleaseFault(calls) == NoError
      requires forall c <- calls :: c.result == NoError
      modifies this`status, this`cancellationRequested, this`confirmedRequested, this`notified
      modifies this`confirmed, this`pressedEarly
      modifies this`clock, this`waited, this`calls, this`unavailable, this`releaseFaultError
      ensures old(confirmed) ==> confirmed && pressedEarly == old(pressedEarly)
      ensures Disciplined(old(releaseFaultError), old(unavailable))
      ensures next.releaseError == FirstError(current.releaseError, ReleaseFault(calls)) && next.id == current.id
      ensures var action := request.plan.actions[index];
        || Presses(calls) == old(Presses(calls))
        || (action.kind != Delay && Presses(calls) == old(Presses(calls)) + [ReportOf(action)])
      ensures result == NoError ==>
        var action := request.plan.actions[index];
        && ReleaseFault(calls) == NoError && (forall c <- calls :: c.result == NoError)
        && Presses(calls) == old(Presses(calls)) + (if action.kind == Delay then [] else [ReportOf(action)])
        && waited == old(waited) + ActionDuration(action, Options(request.keyPressMs, request.interKeyMs))
      ensures var ms := ActionDuration(request.plan.actions[index], Options(request.keyPressMs, request.interKeyMs));
        old(Unhurried(ms)) ==> result == NoError && !cancellationRequested && old(clock) <= clock <= old(clock) + ms
    {
      hide Presses;
      hide ReleaseFault;
      hide EveryPressReleased;
      hide NoPressAfterFailedRelease;
      var action := request.plan.actions[index];
      next := current.(actionIndex := index, current := Some(action.kind));
      result := MayAct(next);
      if result != NoError { return; }
      ghost var before := calls;
      ghost var pressed, released;
      result, next, pressed, released := ExecuteAction(next, action, request.keyPressMs, request.interKeyMs);
      if action.kind == Delay {
        assert calls == before;
      } else {
        PressAndRelease(before, calls, ReportOf(action), pressed, released);
      }
    }

    /** The action loop of `macro_executor_engine_execute`. */
    method RunActions(request: Request, current: Status) returns (result: Error, next: Status)
      requires busy && calls == [] && waited == 0
      modifies this`status, this`cancellationRequested, this`confirmedRequested, this`notified
      modifies this`confirmed, this`pressedEarly
      modifies this`clock, this`waited, this`calls, this`unavailable, this`releaseFaultError
      ensures old(confirmed) ==> confirmed && pressedEarly == old(pressedEarly)
      ensures Disciplined(old(releaseFaultError), old(unavailable))
      ensures Presses(calls) <= Reports(request.plan.actions)
      ensures next.releaseError == FirstError(current.releaseError, ReleaseFault(calls)) && next.id == current.id
      ensures result == NoError ==>
        && Presses(calls) == Reports(request.plan.actions)
        && waited == Duration(request.plan.actions, Options(request.keyPressMs, request.interKeyMs))
        && ReleaseFault(calls) == NoError
        && (forall c <- calls :: c.result == NoError)
      ensures old(Unhurried(Duration(request.plan.actions, Options(request.keyPressMs, request.interKeyMs)))) ==> result == NoError
    {
      hide Presses;
      hide EveryPressReleased;
      hide NoPressAfterFailedRelease;
      hide Reports;
      hide Duration;
      hide ReleaseFault;
      hide Performed;
      var actions := request.plan.actions;
      ghost var options := Options(request.keyPressMs, request.interKeyMs);
      ghost var calm := Unhurried(Duration(actions, options));
      result, next := NoError, current;
      NothingPressed();
      NothingPerformed(actions, options);
      var index := 0;
      while index < |actions|
        invariant index <= |actions| && result == NoError
        invariant Disciplined(old(releaseFaultError), old(unavailable)) && ReleaseFault(calls) == NoError
        invariant unavailable == old(unavailable) && releaseFaultError == old(releaseFaultError)
        invariant next.releaseError == current.releaseError && next.id == current.id
        invariant forall c <- calls :: c.result == NoError
        invariant Performed(actions, index, options, calls, waited)
        invariant old(confirmed) ==> confirmed && pressedEarly == old(pressedEarly)
        invariant calm ==> !cancellationRequested && old(clock) <= clock <= old(clock) + waited
      {
        ghost var before, time := calls, waited;
        PerformedTime(actions, index, options, before, time);
        result, next := RunAction(request, index, next);
        PerformedNext(actions, index, options, before, time, calls, waited);
        if result != NoError { return; }
        index := index + 1;
      }
      PerformedAll(actions, options, calls, waited);
    }

    /** `run_confirmation_phase` without its cleanup: `NoError` opens the gate. */
    method PassGate(request: Request, current: Status) returns (result: Error, next: Status)
      requires busy && calls == [] && (confirmedRequested ==> confirmed)
      requires request.requireConfirmation ==> current.state == AwaitingConfirmation
      modifies this`status, this`cancellationRequested, this`confirmedRequested, this`notified
      modifies this`clock, this`waited, this`confirmed
      ensures old(confirmed) ==> confirmed
      ensures result == NoError && request.requireConfirmation ==> confirmed
      ensures next.releaseError == current.releaseError && next.id == current.id
      ensures reliable && !old(cancellationRequested) && (request.requireConfirmation ==> old(Granted())) ==>
        result == NoError && !cancellationRequested
      ensures reliable && !old(cancellationRequested) && request.requireConfirmation && old(Unasked()) ==> result == Timeout
    {
      next := current;
      result := PublishStatus(current);
      if result != NoError || !request.requireConfirmation { return; }
      result := AwaitConfirmation();
      if result != NoError { return; }
      next := current.(state := Running);
      result := PublishStatus(next);
    }

    /** The confirmation is there, or is asked for within the 60 seconds. */
    predicate Granted()
      reads this`confirmedRequested, this`unavailable, this`clock
    {
      confirmedRequested || (!unavailable && confirmAt.Some? && confirmAt.value <= clock + CONFIRMATION_TIMEOUT_MS)
    }

    /** No confirmation is there, and none is asked for within the 60 seconds and a slice. */
    predicate Unasked()
      reads this`confirmedRequested, this`clock
    {
      && !confirmedRequested
      && (confirmAt.None? || clock + CONFIRMATION_TIMEOUT_MS + CANCELLATION_SLICE_MS < confirmAt.value)
    }

    function InitialStatus(request: Request): Status {
      Status(if request.requireConfirmation then AwaitingConfirmation else Running,
             NoError, NoError, request.id, 0, |request.plan.actions|, true, request.acceptedMs, 0, 0, None)
    }

    /** Everything of a run before its cleanup: the gate, then the actions. */
    method Perform(request: Request) returns (outcome: Error, current: Status)
      requires busy && calls == [] && !pressedEarly && (confirmedRequested ==> confirmed)
      modifies this`status, this`cancellationRequested, this`confirmedRequested, this`notified, this`deadline, this`due
      modifies this`clock, this`waited, this`confirmed, this`pressedEarly, this`calls, this`unavailable, this`releaseFaultError
      ensures Disciplined(old(releaseFaultError), old(unavailable))
      ensures Presses(calls) <= Reports(request.plan.actions)
      ensures request.requireConfirmation ==> !pressedEarly && (Presses(calls) != [] ==> confirmed)
      ensures current.releaseError == ReleaseFault(calls) && current.id == request.id
      ensures outcome == NoError ==>
        && Presses(calls) == Reports(request.plan.actions)
        && waited == Duration(request.plan.actions, Options(request.keyPressMs, request.interKeyMs))
        && (forall c <- calls :: c.result == NoError)
      ensures ValidRequest(request) && reliable && old(Undisturbed(request)) ==> outcome == NoError
      ensures reliable && !old(cancellationRequested) && request.requireConfirmation && old(Unasked()) ==>
        outcome == Timeout && Presses(calls) == []
    {
      hide Presses;
      hide Reports;
      hide ReleaseFault;
      hide Duration;
      hide EveryPressReleased;
      hide NoPressAfterFailedRelease;
      NothingPressed();
      outcome, current := PassGate(request, InitialStatus(request));
      if outcome == NoError {
        waited := 0;
        var started := NowMs();
        current := current.(startedMs := started);
        deadline := (started + ABSOLUTE_DEADLINE_MS) % TICKS;
        due := clock + ABSOLUTE_DEADLINE_MS;
        outcome, current := RunActions(request, current);
      }
    }

    /** In a quiet environment nothing stands in the way of the run: no cancellation, the
        confirmation given in time if one is required, and the plan's own duration,
        which is what its validated estimate says, inside the limit. */
    ghost predicate Undisturbed(request: Request)
      reads this`cancellationRequested, this`confirmedRequested, this`unavailable, this`clock
    {
      && !cancellationRequested && (request.requireConfirmation ==> Granted())
      && Duration(request.plan.actions, Options(request.keyPressMs, request.interKeyMs)) == request.plan.estimatedMs
    }

    /** `macro_executor_engine_execute`. `primary` is the outcome of the run itself and
        `terminal` the status built from it; `result` also reports a failed publication. */
    method Execute(request: Request) returns (result: Error, ghost primary: Error, ghost terminal: Status)
      requires busy && (confirmedRequested ==> confirmed)
      modifies this
      ensures !ValidRequest(request) ==> result == InvalidArgument && plansFreed == 0 && calls == [] && status == old(status)
      ensures ValidRequest(request) ==>
        && plansFreed == 1
        && EveryPressReleased(calls) && NoPressAfterFailedRelease(calls)
        && calls != [] && calls[|calls| - 1].ReleaseAll?
      ensures ValidRequest(request) ==>
        && Presses(calls) <= Reports(request.plan.actions)
        && (request.requireConfirmation ==> !pressedEarly && (Presses(calls) != [] ==> confirmed))
      ensures ValidRequest(request) && primary == NoError ==>
        && Presses(calls) == Reports(request.plan.actions)
        && waited == Duration(request.plan.actions, Options(request.keyPressMs, request.interKeyMs))
        && (forall i :: 0 <= i < |calls| - 1 ==> calls[i].result == NoError)
      ensures ValidRequest(request) ==>
        && releaseFaultError == FirstError(old(releaseFaultError), ReleaseFault(calls))
        && (old(unavailable) || ReleaseFault(calls) != NoError ==> unavailable)
        && terminal.releaseError == ReleaseFault(calls)
        && terminal.state == TerminalState(primary) && terminal.error == primary && terminal.id == request.id
      ensures ValidRequest(request) && (result == NoError || !unavailable) ==>
        result == primary && status == terminal && !busy && !cancellationRequested && !confirmedRequested
      ensures ValidRequest(request) && reliable && old(Undisturbed(request)) ==>
        result == NoError && primary == NoError
      ensures ValidRequest(request) && reliable && !old(cancellationRequested) && request.requireConfirmation && old(Unasked()) ==>
        result == Timeout && Presses(calls) == []
    {
      hide Duration;
      hide Undisturbed;
      hide Unasked;
      hide ValidRequest;
      hide TerminalState;
      calls, waited, plansFreed, pressedEarly := [], 0, 0, false;
      primary, terminal := InvalidArgument, status;
      if !ValidRequest(request) {
        return InvalidArgument, primary, terminal;
      }
      hide Presses;
      hide Reports;
      hide ReleaseFault;
      hide EveryPressReleased;
      hide NoPressAfterFailedRelease;
      var outcome, current := Perform(request);
      PlanFree();
      ghost var released;
      result, terminal, released := Conclude(current, outcome);
      primary := outcome;
    }

    /** The end of a run, with the first failure as its result. */
    method Conclude(current: Status, outcome: Error) returns (result: Error, ghost terminal: Status, ghost released: Error)
      requires busy && EveryPressReleased(calls) && NoPressAfterFailedRelease(calls)
      modifies this
      ensures calls == old(calls) + [HidCall.ReleaseAll(released)]
      ensures EveryPressReleased(calls) && NoPressAfterFailedRelease(calls) && Presses(calls) == old(Presses(calls))
      ensures waited == old(waited) && plansFreed == old(plansFreed) && (old(confirmed) ==> confirmed)
      ensures pressedEarly == old(pressedEarly)
      ensures
        && ReleaseFault(calls) == FirstError(old(ReleaseFault(calls)), released)
        && releaseFaultError == FirstError(old(releaseFaultError), released)
        && terminal.releaseError == FirstError(current.releaseError, released)
        && (old(unavailable) || released != NoError ==> unavailable)
      ensures terminal.state == TerminalState(outcome) && terminal.error == outcome && terminal.id == current.id
      ensures result == NoError || !unavailable ==>
        result == outcome && status == terminal && !busy && !cancellationRequested && !confirmedRequested
      ensures reliable ==> result == outcome
    {
      hide Presses;
      hide ReleaseFault;
      hide EveryPressReleased;
      hide NoPressAfterFailedRelease;
      ghost var before := calls;
      var finish: Error;
      finish, terminal, released := FinishExecution(current, TerminalState(outcome), outcome);
      FinalRelease(before, released);
      result := if finish == NoError then outcome else finish;
    }

    /** `macro_executor_engine_submit`. `queued` is what reached the worker's queue. */
    method Submit(request: Request) returns (result: Error, after: Request, ghost queued: Option<Request>)
      modifies this
      ensures result == NoError <==> queued.Some?
      ensures result == NoError ==>
        && !old(unavailable) && !old(busy) && busy && !cancellationRequested && !confirmedRequested && !confirmed
        && after.plan == EMPTY_PLAN && ValidRequest(queued.value)
        && queued.value == request.(acceptedMs := after.acceptedMs)
      ensures result != NoError ==> after.plan == request.plan
      ensures old(unavailable) ==> result == InternalError && unchanged(this)
      ensures result == NoError ==> unavailable == old(unavailable) && status == old(status)
      ensures result != NoError ==>
        || ( && busy == old(busy) && unavailable == old(unavailable) && status == old(status)
             && cancellationRequested == old(cancellationRequested) && confirmedRequested == old(confirmedRequested))
        || (!old(busy) && !old(unavailable) && ValidRequest(request) && GivenUp(request.id, old(status)))
      ensures old(busy) ==>
        && result != NoError && busy && status == old(status) && calls == old(calls)
        && cancellationRequested == old(cancellationRequested) && confirmedRequested == old(confirmedRequested)
      ensures old(confirmedRequested ==> confirmed) ==> (confirmedRequested ==> confirmed)
      ensures reliable ==>
        && (result == NoError <==> !old(unavailable) && !old(busy) && ValidRequest(request))
        && (result == NoError ==> clock == old(clock))
    {
      after, queued := request, None;
      if unavailable { return InternalError, after, queued; }
      if !ValidRequest(request) { return InvalidArgument, after, queued; }
      var accepted := NowMs();
      after := request.(acceptedMs := accepted);
      var ready := Succeeds();
      if !ready { return UsbNotReady, after, queued; }
      var locked := Succeeds();
      var unlocked := Succeeds();
      var sent := Succeeds();
      if !locked { return InternalError, after, queued; }
      if busy { return if unlocked then ExecutorBusy else InternalError, after, queued; }
      busy, cancellationRequested, confirmedRequested, confirmed := true, false, false, false;
      if !unlocked || !sent {
        FinishSubmissionFailure(after);
        return InternalError, after, queued;
      }
      queued := Some(after);
      after := after.(plan := EMPTY_PLAN);
      result := NoError;
    }

    /** What a claim that was given up leaves, if `shown` was the status before: the
        failure is shown and the claim is free, or the engine is latched. */
    predicate GivenUp(id: nat, shown: Status)
      reads this
    {
      && (status == shown || (status.state == Failed && status.id == id))
      && (!unavailable ==> !busy && status.state == Failed && status.id == id)
      && (!busy ==> !cancellationRequested && !confirmedRequested)
      && (confirmedRequested ==> shown.state == AwaitingConfirmation)
    }

    /** `finish_submission_failure`: no key was pressed, but all keys are released. */
    method FinishSubmissionFailure(request: Request)
      requires busy && (confirmedRequested ==> confirmed)
      modifies this
      ensures confirmedRequested ==> confirmed
      ensures !old(confirmedRequested) ==> GivenUp(request.id, old(status))
      ensures |calls| == |old(calls)| + 1 && calls[..|old(calls)|] == old(calls) && calls[|old(calls)|].ReleaseAll?
      ensures !unavailable ==> !old(unavailable) && !busy && status.state == Failed && status.id == request.id
      ensures old(unavailable) ==> unavailable
    {
      var failed := Status(Failed, InternalError, NoError, request.id, 0, |request.plan.actions|,
                           true, request.acceptedMs, 0, 0, None);
      var completed := NowMs();
      var released := UsbReleaseAll();
      failed := RecordReleaseFailure(failed, released);
      failed := failed.(available := !unavailable, completedMs := completed);
      var publishResult := PublishStatus(failed);
      var resetResult := ResetTerminalFlags();
      if publishResult != NoError || resetResult != NoError { unavailable := true; }
    }
  }

  /** The first `k` actions have been carried out. */
  ghost predicate Performed(actions: seq<Action>, k: nat, options: Options, calls: seq<HidCall>, waited: nat) {
    k <= |actions| && Presses(calls) == Reports(actions[..k]) && waited == Duration(actions[..k], options)
  }

  lemma NothingPerformed(actions: seq<Action>, options: Options)
    ensures Performed(actions, 0, options, [], 0)
  {
    assert actions[..0] == [];
  }

  lemma PerformedTime(actions: seq<Action>, k: nat, options: Options, calls: seq<HidCall>, waited: nat)
    requires Performed(actions, k, options, calls, waited) && k < |actions|
    ensures waited + ActionDuration(actions[k], options) <= Duration(actions, options)
  {
    DurationStep(actions, k, options);
    DurationPrefix(actions, k + 1, options);
  }

  lemma PerformedNext(actions: seq<Action>, k: nat, options: Options, calls: seq<HidCall>, waited: nat,
                      calls': seq<HidCall>, waited': nat)
    requires Performed(actions, k, options, calls, waited) && k < |actions|
    requires || Presses(calls') == Presses(calls)
             || (actions[k].kind != Delay && Presses(calls') == Presses(calls) + [ReportOf(actions[k])])
    ensures Presses(calls') <= Reports(actions)
    ensures
      var added := if actions[k].kind == Delay then [] else [ReportOf(actions[k])];
      Presses(calls') == Presses(calls) + added && waited' == waited + ActionDuration(actions[k], options) ==>
        Performed(actions, k + 1, options, calls', waited')
  {
    ReportsPrefix(actions, k);
    ReportsPrefix(actions, k + 1);
    ReportsStep(actions, k);
    DurationStep(actions, k, options);
  }

  lemma PerformedAll(actions: seq<Action>, options: Options, calls: seq<HidCall>, waited: nat)
    requires Performed(actions, |actions|, options, calls, waited)
    ensures Presses(calls) == Reports(actions) && waited == Duration(actions, options)
  {
    assert actions[..|actions|] == actions;
  }

  lemma NothingPressed()
    ensures EveryPressReleased([]) && NoPressAfterFailedRelease([]) && Presses([]) == [] && ReleaseFault([]) == NoError
  {}

  /** What appending one press and one release keeps. */
  lemma PressAndRelease(before: seq<HidCall>, after: seq<HidCall>, report: Report, pressed: Error, released: Error)
    requires EveryPressReleased(before) && ReleaseFault(before) == NoError
    requires after == before + [Press(report, pressed), ReleaseAll(released)]
    ensures EveryPressReleased(after) && NoPressAfterFailedRelease(after)
    ensures Presses(after) == Presses(before) + [report]
    ensures ReleaseFault(after) == released
  {
    AppendCall(before, Press(report, pressed));
    AppendCall(before + [Press(report, pressed)], ReleaseAll(released));
    assert after == before + [Press(report, pressed)] + [ReleaseAll(released)];
    NoFaultNoFailure(before);
  }

  /** What the closing release keeps. */
  lemma FinalRelease(before: seq<HidCall>, released: Error)
    requires EveryPressReleased(before) && NoPressAfterFailedRelease(before)
    ensures var after := before + [ReleaseAll(released)];
      && EveryPressReleased(after) && NoPressAfterFailedRelease(after)
      && Presses(after) == Presses(before)
      && ReleaseFault(after) == FirstError(ReleaseFault(before), released)
  {
    AppendCall(before, ReleaseAll(released));
  }
}
