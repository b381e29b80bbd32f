/** The engine as a class takes only steps of the engine as a machine: what other tasks
    see after a call of `submit`, `cancel` or `confirm` is what a run of the machine's
    own steps leaves, so everything proved of its runs holds of the calls. */
module ExecutorRefinement {
  import opened Errors
  import E = ExecutorEngine
  import P = ExecutorProtocol

  /** What callers and the worker share under the lock. */
  datatype View = View(busy: bool, cancelRequested: bool, confirmRequested: bool, unavailable: bool, shown: P.Shown)

  function ViewOf(s: P.State): View {
    View(s.busy, s.cancelRequested, s.confirmRequested, s.unavailable, s.shown)
  }

  function ShownOf(status: E.Status): P.Shown {
    match status.state
    case Idle => P.ShownIdle
    case AwaitingConfirmation => P.ShownAwaiting(status.id)
    case Running => P.ShownRunning(status.id)
    case Completed => P.ShownTerminal(status.id, P.Done)
    case Cancelled => P.ShownTerminal(status.id, P.WasCancelled)
    case Failed => P.ShownTerminal(status.id, P.HasFailed)
    case TimedOut => P.ShownTerminal(status.id, P.HasTimedOut)
  }

  ghost predicate Matches(engine: E.Engine, s: P.State)
    reads engine
  {
    ViewOf(s) == View(engine.busy, engine.cancellationRequested, engine.confirmedRequested, engine.unavailable,
                      ShownOf(engine.status))
  }

  function RequestOf(r: E.Request): P.Request { P.Request(r.id, r.requireConfirmation, E.ValidRequest(r)) }

  /** A list of steps that leads from one state to another. */
  ghost predicate Leads(from: P.State, steps: seq<P.Step>, to: P.State) {
    P.IsRunOf(from, steps) && P.After(from, steps) == to
  }

  lemma Chain(a: P.State, first: seq<P.Step>, b: P.State, rest: seq<P.Step>, c: P.State)
    requires Leads(a, first, b) && Leads(b, rest, c)
    ensures Leads(a, first + rest, c)
  {
    P.Joined(a, first, rest);
  }

  lemma One(s: P.State, step: P.Step)
    requires P.Enabled(s, step)
    ensures Leads(s, [step], P.Apply(s, step))
  {
    hide P.Apply;
    hide P.Enabled;
    var s' := P.Apply(s, step);
    assert [step][1..] == [] && P.IsRunOf(s', []) && P.After(s', []) == s';
  }

  lemma Two(s: P.State, first: P.Step, second: P.Step)
    requires P.Enabled(s, first) && P.Enabled(P.Apply(s, first), second)
    ensures Leads(s, [first, second], P.Apply(P.Apply(s, first), second))
  {
    hide P.Apply;
    hide P.Enabled;
    One(s, first);
    One(P.Apply(s, first), second);
    Chain(s, [first], P.Apply(s, first), [second], P.Apply(P.Apply(s, first), second));
    assert [first, second] == [first] + [second];
  }

  /** What a caller at `t` may find before it submits. */
  predicate MaySubmit(s: P.State, t: nat, r: P.Request) {
    (P.Pc(s, t).Away? || P.Pc(s, t).Returned?) && r.id !in s.log.known
  }

  /** Steps of this caller, or signals of others. */
  ghost predicate Submitting(steps: seq<P.Step>, t: nat) {
    forall step <- steps :: P.IsSignal(step) || (P.IsSubmitStep(step) && step.t == t)
  }

  // ---- The stages of a submission ----

  /** Refused before it has claimed the executor. */
  lemma RefusedAtOnce(s: P.State, t: nat, r: P.Request) returns (steps: seq<P.Step>, s': P.State)
    requires MaySubmit(s, t, r)
    ensures Leads(s, steps, s') && Submitting(steps, t)
    ensures ViewOf(s') == ViewOf(s) && s'.queue == s.queue && P.Pc(s', t) == P.Returned(r, false)
  {
    var step := P.BeginSubmit(t, r, false);
    steps, s' := [step], P.Begin(s, t, r, false);
    assert P.Enabled(s, step) && P.Apply(s, step) == s';
    hide P.Apply;
    hide P.Enabled;
    One(s, step);
  }

  lemma Claimed(s: P.State, t: nat, r: P.Request) returns (steps: seq<P.Step>, s': P.State)
    requires MaySubmit(s, t, r) && !s.busy && !s.unavailable && r.valid
    ensures Leads(s, steps, s') && Submitting(steps, t)
    ensures ViewOf(s') == View(true, false, false, false, s.shown) && s'.queue == s.queue && P.Pc(s', t) == P.Claimed(r)
  {
    var a, b := P.BeginSubmit(t, r, true), P.ClaimBusy(t, P.FINE);
    var s1 := P.Begin(s, t, r, true);
    s' := P.Claim(s1, t, P.FINE);
    steps := [a, b];
    assert P.Enabled(s, a) && P.Apply(s, a) == s1;
    assert P.Enabled(s1, b) && P.Apply(s1, b) == s';
    hide P.Apply;
    hide P.Enabled;
    Two(s, a, b);
  }

  lemma Queued(s: P.State, t: nat) returns (steps: seq<P.Step>, s': P.State)
    requires P.Pc(s, t).Claimed?
    ensures Leads(s, steps, s') && Submitting(steps, t)
    ensures ViewOf(s') == ViewOf(s) && s'.queue == s.queue + [P.Pc(s, t).r] && P.Pc(s', t) == P.Returned(P.Pc(s, t).r, true)
  {
    var a, b := P.SendToQueue(t, true), P.DropPlan(t);
    var s1 := P.Send(s, t, true);
    s' := P.Drop(s1, t);
    steps := [a, b];
    assert P.Enabled(s, a) && P.Apply(s, a) == s1;
    assert P.Enabled(s1, b) && P.Apply(s1, b) == s';
    hide P.Apply;
    hide P.Enabled;
    Two(s, a, b);
  }

  lemma NotSent(s: P.State, t: nat) returns (steps: seq<P.Step>, s': P.State)
    requires P.Pc(s, t).Claimed?
    ensures Leads(s, steps, s') && Submitting(steps, t)
    ensures ViewOf(s') == ViewOf(s) && s'.queue == s.queue && P.Pc(s', t) == P.Refusing(P.Pc(s, t).r)
  {
    var step := P.SendToQueue(t, false);
    steps, s' := [step], P.Send(s, t, false);
    assert P.Enabled(s, step) && P.Apply(s, step) == s';
    hide P.Apply;
    hide P.Enabled;
    One(s, step);
  }

  /** Other tasks cancel or confirm a busy executor. */
  lemma Signalled(s: P.State, cancel: bool, confirm: bool) returns (steps: seq<P.Step>, s': P.State)
    requires s.busy && (confirm ==> s.shown.ShownAwaiting?)
    ensures Leads(s, steps, s') && forall step <- steps :: P.IsSignal(step)
    ensures ViewOf(s') == ViewOf(s).(cancelRequested := s.cancelRequested || cancel, confirmRequested := s.confirmRequested || confirm)
    ensures s'.queue == s.queue && s'.callers == s.callers
  {
    var a, b := P.CancelCall(cancel), P.ConfirmCall(confirm);
    var s1 := P.SignalStep(s, a);
    s' := P.SignalStep(s1, b);
    steps := [a, b];
    assert P.Enabled(s, a) && P.Apply(s, a) == s1;
    assert P.Enabled(s1, b) && P.Apply(s1, b) == s';
    hide P.Apply;
    hide P.Enabled;
    Two(s, a, b);
  }

  lemma ShownRefused(s: P.State, t: nat, released: bool, published: bool) returns (steps: seq<P.Step>, s': P.State)
    requires P.Pc(s, t).Refusing?
    ensures Leads(s, steps, s') && Submitting(steps, t)
    ensures ViewOf(s') == ViewOf(s).(
      unavailable := s.unavailable || !released,
      shown := if published then P.ShownTerminal(P.Pc(s, t).r.id, P.HasFailed) else s.shown)
    ensures s'.queue == s.queue && P.Pc(s', t) == P.RefusalPublished(P.Pc(s, t).r, published)
  {
    var step := P.PublishRefusal(t, released, P.Section(published, published));
    steps, s' := [step], P.ShowRefusal(s, t, released, P.Section(published, published));
    assert P.Enabled(s, step) && P.Apply(s, step) == s';
    hide P.Apply;
    hide P.Enabled;
    One(s, step);
  }

  /** The flags go, or the engine is latched. */
  lemma Reset(s: P.State, t: nat, cleared: bool) returns (steps: seq<P.Step>, s': P.State)
    requires P.Pc(s, t).RefusalPublished?
    ensures Leads(s, steps, s') && Submitting(steps, t)
    ensures var pc := P.Pc(s, t);
      && ViewOf(s') ==
           (if cleared then ViewOf(s).(busy := false, cancelRequested := false, confirmRequested := false) else ViewOf(s))
             .(unavailable := s.unavailable || !pc.ok || !cleared)
      && s'.queue == s.queue && P.Pc(s', t) == P.Returned(pc.r, false)
  {
    var a, b := P.ResetRefusal(t, P.Section(cleared, cleared)), P.LatchRefusal(t);
    var s1 := P.ResetRefused(s, t, P.Section(cleared, cleared));
    assert P.Enabled(s, a) && P.Apply(s, a) == s1;
    if P.Pc(s, t).ok && cleared {
      steps, s' := [a], s1;
      hide P.Apply;
      hide P.Enabled;
      One(s, a);
    } else {
      s' := P.LatchRefused(s1, t);
      steps := [a, b];
      assert P.Enabled(s1, b) && P.Apply(s1, b) == s';
      hide P.Apply;
      hide P.Enabled;
      Two(s, a, b);
    }
  }

  // ---- Whole submissions ----

  lemma Accepted(s: P.State, t: nat, r: P.Request) returns (steps: seq<P.Step>, s': P.State)
    requires MaySubmit(s, t, r) && !s.busy && !s.unavailable && r.valid
    ensures Leads(s, steps, s') && Submitting(steps, t)
    ensures ViewOf(s') == View(true, false, false, false, s.shown) && s'.queue == s.queue + [r] && P.Pc(s', t) == P.Returned(r, true)
  {
    hide Leads;
    var first, s1 := Claimed(s, t, r);
    var rest, s2 := Queued(s1, t);
    Chain(s, first, s1, rest, s2);
    steps, s' := first + rest, s2;
  }

  /** What a submission that gives its claim up may leave. */
  predicate MayLeave(shown: P.Shown, id: nat, v: View) {
    && (v.shown == shown || v.shown == P.ShownTerminal(id, P.HasFailed))
    && (!v.unavailable ==> !v.busy && v.shown == P.ShownTerminal(id, P.HasFailed))
    && (!v.busy ==> !v.cancelRequested && !v.confirmRequested)
    && (v.confirmRequested ==> shown.ShownAwaiting?)
  }

  lemma GaveUp(s: P.State, t: nat, r: P.Request, v: View) returns (steps: seq<P.Step>, s': P.State)
    requires MaySubmit(s, t, r) && !s.busy && !s.unavailable && r.valid && MayLeave(s.shown, r.id, v)
    ensures Leads(s, steps, s') && Submitting(steps, t)
    ensures ViewOf(s') == v && s'.queue == s.queue && P.Pc(s', t) == P.Returned(r, false)
  {
    hide Leads;
    var a, s1 := Claimed(s, t, r);
    var b, s2 := NotSent(s1, t);
    Chain(s, a, s1, b, s2);
    var c, s3 := Signalled(s2, v.cancelRequested, v.confirmRequested);
    Chain(s, a + b, s2, c, s3);
    var d, s4 := ShownRefused(s3, t, !v.unavailable, v.shown == P.ShownTerminal(r.id, P.HasFailed));
    Chain(s, a + b + c, s3, d, s4);
    var e, s5 := Reset(s4, t, !v.busy);
    Chain(s, a + b + c + d, s4, e, s5);
    steps, s' := a + b + c + d + e, s5;
  }

  // ---- The calls ----

  /** A submission is a run of its caller's steps and of signals of other tasks, and it
      returns what the machine's caller returns. */
  method Submit(engine: E.Engine, request: E.Request, ghost s: P.State, t: nat)
    returns (result: Error, ghost steps: seq<P.Step>, ghost s': P.State)
    requires Matches(engine, s) && MaySubmit(s, t, RequestOf(request))
    modifies engine
    ensures Leads(s, steps, s') && Submitting(steps, t) && Matches(engine, s')
    ensures P.Pc(s', t) == P.Returned(RequestOf(request), result == NoError)
    ensures s'.queue == s.queue + if result == NoError then [RequestOf(request)] else []
  {
    hide Leads;
    hide Submitting;
    hide E.ValidRequest;
    var after;
    ghost var queued;
    ghost var shown := ShownOf(engine.status);
    result, after, queued := engine.Submit(request);
    ghost var v := View(engine.busy, engine.cancellationRequested, engine.confirmedRequested, engine.unavailable,
                        ShownOf(engine.status));
    if result == NoError {
      assert E.ValidRequest(request) by { SameValidity(request, queued.value); }
      steps, s' := Accepted(s, t, RequestOf(request));
    } else if v == ViewOf(s) {
      steps, s' := RefusedAtOnce(s, t, RequestOf(request));
    } else {
      steps, s' := GaveUp(s, t, RequestOf(request), v);
    }
  }

  lemma SameValidity(r: E.Request, queued: E.Request)
    requires queued == r.(acceptedMs := queued.acceptedMs)
    ensures E.ValidRequest(r) <==> E.ValidRequest(queued)
  {}

  /** A confirm call is one step of the machine. */
  method Confirm(engine: E.Engine, ghost s: P.State) returns (result: Error, ghost step: P.Step)
    requires Matches(engine, s)
    modifies engine
    ensures step.ConfirmCall? && Matches(engine, P.SignalStep(s, step)) && P.Apply(s, step) == P.SignalStep(s, step)
    ensures result == NoError ==> step.entered && P.SignalStep(s, step).confirmRequested
  {
    ghost var before := engine.confirmedRequested;
    result := engine.Confirm();
    step := P.ConfirmCall(engine.confirmedRequested != before);
  }

  /** A cancel call is one step of the machine. */
  method Cancel(engine: E.Engine, ghost s: P.State) returns (result: Error, ghost step: P.Step)
    requires Matches(engine, s)
    modifies engine
    ensures step.CancelCall? && Matches(engine, P.SignalStep(s, step)) && P.Apply(s, step) == P.SignalStep(s, step)
    ensures result == NoError ==> step.entered && P.SignalStep(s, step).cancelRequested
  {
    ghost var before := engine.cancellationRequested;
    result := engine.Cancel();
    step := P.CancelCall(engine.cancellationRequested != before);
  }
}
