/** The executor shared by any number of callers and one worker, as a machine whose
    steps are the locked sections and operation calls of the engine. A step carries
    the results its operations return, so every failure is quantified over. */
module ExecutorProtocol {

  datatype Request = Request(id: nat, needsConfirm: bool, valid: bool)

  datatype Caller =
    | Away
    | Checked(r: Request)                     // availability, arguments and USB looked at
    | Claimed(r: Request)                     // busy set by this caller, not yet queued
    | Refusing(r: Request)                    // must undo its claim
    | RefusalPublished(r: Request, ok: bool)
    | RefusalFaulted(r: Request)              // about to latch the engine
    | Sent(r: Request)                        // queued; still has to drop its plan
    | Returned(r: Request, accepted: bool)

  datatype Outcome = Done | WasCancelled | HasFailed | HasTimedOut

  datatype Worker =
    | Idle
    | Start(r: Request)
    | PollCancel(r: Request)
    | PollConfirm(r: Request)
    | Resume(r: Request)
    | Running(r: Request)
    | Free(r: Request, outcome: Outcome)
    | Release(r: Request, outcome: Outcome)
    | Publish(r: Request, outcome: Outcome)
    | Reset(r: Request, outcome: Outcome, ok: bool)
    | Faulted(r: Request)                     // about to latch the engine

  datatype Shown = ShownIdle | ShownAwaiting(id: nat) | ShownRunning(id: nat) | ShownTerminal(id: nat, outcome: Outcome)

  datatype State = State(
    busy: bool, cancelRequested: bool, confirmRequested: bool, unavailable: bool, shown: Shown,
    queue: seq<Request>, worker: Worker, callers: map<nat, Caller>,
    log: Log)

  /** What has happened so far; no step looks at it. */
  datatype Log = Log(
    known: set<nat>,            // every request ever presented
    accepted: set<nat>,         // handed to the queue
    lastClaim: nat,             // the request that last set busy
    frees: multiset<nat>,       // plans freed by the worker
    terminals: multiset<nat>,   // terminal states published by the worker
    refusals: multiset<nat>,    // failed states published for claims that were given up
    confirmed: set<nat>,        // a confirmation was recorded in the request's busy period
    turnedAway: set<nat>,       // cancelled, expired or failed while awaiting confirmation
    pressed: set<Request>,
    lockFault: bool)            // some lock or unlock has failed

  function Pc(s: State, t: nat): Caller {
    if t in s.callers then s.callers[t] else Away
  }

  /** Two results of a locked section: entered, and left without an error. */
  datatype Section = Section(entered: bool, left: bool)

  function Ok(section: Section): bool { section.entered && section.left }

  datatype Step =
    | BeginSubmit(t: nat, r: Request, usbReady: bool)
    | ClaimBusy(t: nat, section: Section)
    | SendToQueue(t: nat, sent: bool)
    | DropPlan(t: nat)
    | PublishRefusal(t: nat, released: bool, section: Section)
    | ResetRefusal(t: nat, section: Section)
    | LatchRefusal(t: nat)
    | CancelCall(entered: bool)
    | ConfirmCall(entered: bool)
    | Dequeue
    | PublishStart(section: Section)
    | ReadCancel(section: Section)
    | ReadConfirm(section: Section, expired: bool, waitFailed: bool)
    | PublishResume(section: Section)
    | PressKeys
    | ReleaseKeys(released: bool)
    | PublishProgress(section: Section)
    | EndActions(outcome: Outcome)
    | FreePlan
    | FinalRelease(released: bool)
    | PublishTerminal(section: Section)
    | ResetFlags(section: Section)
    | LatchWorker

  predicate Enabled(s: State, step: Step) {
    match step
    case BeginSubmit(t, r, _) => (Pc(s, t).Away? || Pc(s, t).Returned?) && r.id !in s.log.known
    case ClaimBusy(t, _) => Pc(s, t).Checked?
    case SendToQueue(t, _) => Pc(s, t).Claimed?
    case DropPlan(t) => Pc(s, t).Sent?
    case PublishRefusal(t, _, _) => Pc(s, t).Refusing?
    case ResetRefusal(t, _) => Pc(s, t).RefusalPublished?
    case LatchRefusal(t) => Pc(s, t).RefusalFaulted?
    case CancelCall(_) => true
    case ConfirmCall(_) => true
    case Dequeue => s.worker.Idle? && s.queue != []
    case PublishStart(_) => s.worker.Start?
    case ReadCancel(_) => s.worker.PollCancel?
    case ReadConfirm(_, _, _) => s.worker.PollConfirm?
    case PublishResume(_) => s.worker.Resume?
    case PressKeys => s.worker.Running?
    case ReleaseKeys(_) => s.worker.Running?
    case PublishProgress(_) => s.worker.Running?
    case EndActions(_) => s.worker.Running?
    case FreePlan => s.worker.Free?
    case FinalRelease(_) => s.worker.Release?
    case PublishTerminal(_) => s.worker.Publish?
    case ResetFlags(_) => s.worker.Reset?
    case LatchWorker => s.worker.Faulted?
  }

  predicate IsSubmitStep(step: Step) {
    step.BeginSubmit? || step.ClaimBusy? || step.SendToQueue? || step.DropPlan?
    || step.PublishRefusal? || step.ResetRefusal? || step.LatchRefusal?
  }

  predicate IsSignal(step: Step) { step.CancelCall? || step.ConfirmCall? }

  predicate IsCleanup(step: Step) {
    step.FreePlan? || step.FinalRelease? || step.PublishTerminal? || step.ResetFlags? || step.LatchWorker?
  }

  predicate IsRun(step: Step) { !IsSubmitStep(step) && !IsSignal(step) && !IsCleanup(step) }

  function Move(s: State, t: nat, pc: Caller): State { s.(callers := s.callers[t := pc]) }

  function Noted(s: State, ok: bool): State {
    if ok then s else s.(log := s.log.(lockFault := true))
  }

  function Latched(s: State, fault: bool): State {
    if fault then s.(unavailable := true) else s
  }

  function Cleared(s: State, entered: bool): State {
    if entered then s.(busy := false, cancelRequested := false, confirmRequested := false) else s
  }

  // The steps of a caller inside `macro_executor_engine_submit`.

  function Begin(s: State, t: nat, r: Request, usbReady: bool): State {
    Move(s.(log := s.log.(known := s.log.known + {r.id})), t,
         if s.unavailable || !r.valid || !usbReady then Returned(r, false) else Checked(r))
  }

  function Claim(s: State, t: nat, section: Section): State
    requires Pc(s, t).Checked?
  {
    var r := Pc(s, t).r;
    var s1 := Noted(s, Ok(section));
    if !section.entered || s.busy then Move(s1, t, Returned(r, false))
    else Move(s1.(busy := true, cancelRequested := false, confirmRequested := false,
                  log := s1.log.(lastClaim := r.id)), t, if section.left then Claimed(r) else Refusing(r))
  }

  function Send(s: State, t: nat, sent: bool): State
    requires Pc(s, t).Claimed?
  {
    var r := Pc(s, t).r;
    if sent then Move(s.(queue := s.queue + [r], log := s.log.(accepted := s.log.accepted + {r.id})), t, Sent(r))
    else Move(s, t, Refusing(r))
  }

  function Drop(s: State, t: nat): State
    requires Pc(s, t).Sent?
  {
    Move(s, t, Returned(Pc(s, t).r, true))
  }

  function ShowRefusal(s: State, t: nat, released: bool, section: Section): State
    requires Pc(s, t).Refusing?
  {
    var s1 := Latched(Noted(s, Ok(section)), !released);
    var r := Pc(s, t).r;
    var s2 := if section.entered
      then s1.(shown := ShownTerminal(r.id, HasFailed), log := s1.log.(refusals := s1.log.refusals + multiset{r.id}))
      else s1;
    Move(s2, t, RefusalPublished(r, Ok(section)))
  }

  function ResetRefused(s: State, t: nat, section: Section): State
    requires Pc(s, t).RefusalPublished?
  {
    var pc := Pc(s, t);
    Move(Cleared(Noted(s, Ok(section)), section.entered), t,
         if pc.ok && Ok(section) then Returned(pc.r, false) else RefusalFaulted(pc.r))
  }

  function LatchRefused(s: State, t: nat): State
    requires Pc(s, t).RefusalFaulted?
  {
    Move(Latched(s, true), t, Returned(Pc(s, t).r, false))
  }

  function CallerStep(s: State, step: Step): State
    requires Enabled(s, step) && IsSubmitStep(step)
  {
    match step
    case BeginSubmit(t, r, usbReady) => Begin(s, t, r, usbReady)
    case ClaimBusy(t, section) => Claim(s, t, section)
    case SendToQueue(t, sent) => Send(s, t, sent)
    case DropPlan(t) => Drop(s, t)
    case PublishRefusal(t, released, section) => ShowRefusal(s, t, released, section)
    case ResetRefusal(t, section) => ResetRefused(s, t, section)
    case LatchRefusal(t) => LatchRefused(s, t)
  }

  /** `macro_executor_engine_cancel` and `macro_executor_engine_confirm`: each has one
      locked section; a failed unlock still leaves its flag set. */
  function SignalStep(s: State, step: Step): State
    requires IsSignal(step)
  {
    match step
    case CancelCall(entered) =>
      if entered && s.busy then s.(cancelRequested := true) else s
    case ConfirmCall(entered) =>
      if entered && s.busy && s.shown.ShownAwaiting? && !s.confirmRequested
      then s.(confirmRequested := true, log := s.log.(confirmed := s.log.confirmed + {s.log.lastClaim}))
      else s
  }

  function GiveUp(s: State, r: Request, outcome: Outcome): State {
    s.(worker := Free(r, outcome), log := s.log.(turnedAway := s.log.turnedAway + {r.id}))
  }

  function StartRun(s: State, r: Request, section: Section): State {
    if !r.valid then s.(worker := Idle)   // validation fails: nothing is freed or published
    else
      var s1 := Noted(s, Ok(section));
      var s2 := if section.entered then s1.(shown := if r.needsConfirm then ShownAwaiting(r.id) else ShownRunning(r.id)) else s1;
      if !Ok(section) then s2.(worker := Free(r, HasFailed))
      else s2.(worker := if r.needsConfirm then PollCancel(r) else Running(r))
  }

  function LookForCancel(s: State, r: Request, section: Section): State {
    var s1 := Noted(s, Ok(section));
    if !Ok(section) then GiveUp(s1, r, HasFailed)
    else if s.cancelRequested then GiveUp(s1, r, WasCancelled)
    else s1.(worker := PollConfirm(r))
  }

  function LookForConfirm(s: State, r: Request, section: Section, expired: bool, waitFailed: bool): State {
    var s1 := Noted(s, Ok(section));
    if !Ok(section) then GiveUp(s1, r, HasFailed)
    else if s.confirmRequested then s1.(worker := Resume(r))
    else if expired then GiveUp(s1, r, HasTimedOut)
    else if waitFailed then GiveUp(s1, r, HasFailed)
    else s1.(worker := PollCancel(r))
  }

  function ResumeRun(s: State, r: Request, section: Section): State {
    var s1 := Noted(s, Ok(section));
    var s2 := if section.entered then s1.(shown := ShownRunning(r.id)) else s1;
    s2.(worker := if Ok(section) then Running(r) else Free(r, HasFailed))
  }

  function ShowProgress(s: State, r: Request, section: Section): State {
    var s1 := Noted(s, Ok(section));
    if section.entered then s1.(shown := ShownRunning(r.id)) else s1
  }

  /** The worker from taking a request to the end of its actions. */
  function RunStep(s: State, step: Step): State
    requires Enabled(s, step) && IsRun(step)
  {
    match step
    case Dequeue => s.(queue := s.queue[1..], worker := Start(s.queue[0]))
    case PublishStart(section) => StartRun(s, s.worker.r, section)
    case ReadCancel(section) => LookForCancel(s, s.worker.r, section)
    case ReadConfirm(section, expired, waitFailed) => LookForConfirm(s, s.worker.r, section, expired, waitFailed)
    case PublishResume(section) => ResumeRun(s, s.worker.r, section)
    case PressKeys => s.(log := s.log.(pressed := s.log.pressed + {s.worker.r}))
    case ReleaseKeys(released) => Latched(s, !released)
    case PublishProgress(section) => ShowProgress(s, s.worker.r, section)
    case EndActions(outcome) => s.(worker := Free(s.worker.r, outcome))
  }

  function ShowTerminal(s: State, r: Request, outcome: Outcome, section: Section): State {
    var s1 := Noted(s.(worker := Reset(r, outcome, Ok(section))), Ok(section));
    if section.entered
    then s1.(shown := ShownTerminal(r.id, outcome), log := s1.log.(terminals := s1.log.terminals + multiset{r.id}))
    else s1
  }

  function FreeNow(s: State, r: Request, outcome: Outcome): State {
    s.(worker := Release(r, outcome), log := s.log.(frees := s.log.frees + multiset{r.id}))
  }

  function ResetNow(s: State, r: Request, shown: bool, section: Section): State {
    var s1 := Cleared(Noted(s, Ok(section)), section.entered);
    s1.(worker := if shown && Ok(section) then Idle else Faulted(r))
  }

  /** The worker's cleanup, shared by every way a run ends. */
  function CleanupStep(s: State, step: Step): State
    requires Enabled(s, step) && IsCleanup(step)
  {
    match step
    case FreePlan => FreeNow(s, s.worker.r, s.worker.outcome)
    case FinalRelease(released) => Latched(s.(worker := Publish(s.worker.r, s.worker.outcome)), !released)
    case PublishTerminal(section) => ShowTerminal(s, s.worker.r, s.worker.outcome, section)
    case ResetFlags(section) => ResetNow(s, s.worker.r, s.worker.ok, section)
    case LatchWorker => Latched(s.(worker := Idle), true)
  }

  function Apply(s: State, step: Step): State
    requires Enabled(s, step)
  {
    if IsSignal(step) then SignalStep(s, step)
    else if IsCleanup(step) then CleanupStep(s, step)
    else if IsSubmitStep(step) then CallerStep(s, step)
    else RunStep(s, step)
  }

  const INITIAL := State(false, false, false, false, ShownIdle, [], Idle, map[],
                         Log({}, {}, 0, multiset{}, multiset{}, multiset{}, {}, {}, {}, false))

  // ---- Who owns the engine ----

  predicate CallerHolds(pc: Caller) { pc.Claimed? || pc.Refusing? || pc.RefusalPublished? }

  predicate WorkerHolds(w: Worker) { !w.Idle? && !w.Faulted? }

  datatype Place = Nowhere | AtCaller(t: nat) | InQueue | AtWorker

  /** Exactly one place holds the claimed request, if any. */
  ghost predicate HeldAt(s: State, place: Place) {
    && (forall t :: CallerHolds(Pc(s, t)) <==> place == AtCaller(t))
    && (if place == InQueue then |s.queue| == 1 else s.queue == [])
    && (WorkerHolds(s.worker) <==> place == AtWorker)
  }

  function HeldRequest(s: State, place: Place): Request
    requires place != Nowhere
    requires place.AtCaller? ==> CallerHolds(Pc(s, place.t))
    requires place == InQueue ==> |s.queue| == 1
    requires place == AtWorker ==> WorkerHolds(s.worker)
  {
    match place
    case AtCaller(t) => Pc(s, t).r
    case InQueue => s.queue[0]
    case AtWorker => s.worker.r
  }

  ghost predicate SomeoneWillLatch(s: State) {
    s.worker.Faulted? || exists t :: Pc(s, t).RefusalFaulted?
  }

  ghost predicate Ownership(s: State, place: Place) {
    && HeldAt(s, place)
    && (place != Nowhere ==> s.busy && HeldRequest(s, place).id == s.log.lastClaim)
    && (place == Nowhere && s.busy ==> s.log.lockFault && (s.unavailable || SomeoneWillLatch(s)))
  }

  // ---- What has happened to each request ----

  predicate Unfreed(s: State, id: nat) {
    || (exists r <- s.queue :: r.id == id)
    || (WorkerHolds(s.worker) && !s.worker.Release? && !s.worker.Publish? && !s.worker.Reset? && s.worker.r.id == id)
  }

  predicate Unpublished(s: State, id: nat) {
    || (exists r <- s.queue :: r.id == id)
    || (WorkerHolds(s.worker) && !s.worker.Reset? && s.worker.r.id == id)
  }

  ghost predicate Accounting(s: State) {
    && s.log.accepted <= s.log.known
    && (forall id :: s.log.frees[id] == if id in s.log.accepted && !Unfreed(s, id) then 1 else 0)
    && (forall id :: s.log.terminals[id] <= if id in s.log.accepted && !Unpublished(s, id) then 1 else 0)
    && (!s.log.lockFault ==>
        forall id :: s.log.terminals[id] == if id in s.log.accepted && !Unpublished(s, id) then 1 else 0)
  }

  ghost predicate Callers(s: State) {
    && (forall t :: !Pc(s, t).Away? ==> Pc(s, t).r.id in s.log.known)
    && (forall t :: var pc := Pc(s, t); pc.Checked? || CallerHolds(pc) ==> pc.r.valid && pc.r.id !in s.log.accepted)
    && (forall t :: Pc(s, t).Sent? || (Pc(s, t).Returned? && Pc(s, t).accepted) ==> Pc(s, t).r.id in s.log.accepted)
    && (forall t :: Pc(s, t).RefusalFaulted? || (Pc(s, t).Returned? && !Pc(s, t).accepted) ==> Pc(s, t).r.id !in s.log.accepted)
    && (forall t, u :: t != u && !Pc(s, t).Away? && !Pc(s, u).Away? ==> Pc(s, t).r.id != Pc(s, u).r.id)
    && (forall r <- s.queue :: r.valid && r.id in s.log.accepted)
    && (WorkerHolds(s.worker) ==> s.worker.r.valid && s.worker.r.id in s.log.accepted)
  }

  // ---- The confirmation gate ----

  ghost predicate Gate(s: State) {
    && (s.confirmRequested ==> s.log.lastClaim in s.log.confirmed)
    && (forall r <- s.log.pressed :: r.needsConfirm ==> r.id in s.log.confirmed)
    && (forall r <- s.log.pressed :: r.id in s.log.accepted && r.id !in s.log.turnedAway)
    && s.log.turnedAway <= s.log.accepted
    && (s.worker.Resume? ==> s.worker.r.id in s.log.confirmed)
    && (s.worker.Running? && s.worker.r.needsConfirm ==> s.worker.r.id in s.log.confirmed)
    && (s.worker.Start? || s.worker.PollCancel? || s.worker.PollConfirm? || s.worker.Resume? || s.worker.Running? ==>
        s.worker.r.id !in s.log.turnedAway)
    && (s.worker.Start? || s.worker.PollCancel? || s.worker.PollConfirm? || s.worker.Resume? ==>
        forall r <- s.log.pressed :: r.id != s.worker.r.id)
    && (forall r <- s.queue :: r.id !in s.log.turnedAway && forall p <- s.log.pressed :: p.id != r.id)
  }

  ghost predicate Inv(s: State, place: Place) {
    Ownership(s, place) && Accounting(s) && Callers(s) && Gate(s)
  }

  // ---- Every step keeps the invariant ----

  function NextPlace(s: State, step: Step, place: Place): Place
    requires Enabled(s, step)
  {
    match step
    case ClaimBusy(t, section) => if section.entered && !s.busy then AtCaller(t) else place
    case SendToQueue(_, sent) => if sent then InQueue else place
    case ResetRefusal(_, _) => Nowhere
    case Dequeue => AtWorker
    case ResetFlags(_) => Nowhere
    case _ => place
  }

  // What matters of the worker outside its own gate: how far its cleanup has got.

  datatype Stage = NoRequest(latching: bool) | BeforeFree(r: Request) | BeforePublish(r: Request) | BeforeReset(r: Request)

  function StageOf(w: Worker): Stage {
    match w
    case Idle => NoRequest(false)
    case Faulted(_) => NoRequest(true)
    case Release(r, _) => BeforePublish(r)
    case Publish(r, _) => BeforePublish(r)
    case Reset(r, _, _) => BeforeReset(r)
    case Start(r) => BeforeFree(r)
    case PollCancel(r) => BeforeFree(r)
    case PollConfirm(r) => BeforeFree(r)
    case Resume(r) => BeforeFree(r)
    case Running(r) => BeforeFree(r)
    case Free(r, _) => BeforeFree(r)
  }

  /** The step is invisible outside the worker's gate and the flags. */
  ghost predicate Quiet(s: State, s': State) {
    && s'.queue == s.queue && s'.callers == s.callers && StageOf(s'.worker) == StageOf(s.worker)
    && s'.busy == s.busy && (s.unavailable ==> s'.unavailable) && (s.log.lockFault ==> s'.log.lockFault)
    && s'.log.known == s.log.known && s'.log.accepted == s.log.accepted && s'.log.lastClaim == s.log.lastClaim
    && s'.log.frees == s.log.frees && s'.log.terminals == s.log.terminals && s'.log.refusals == s.log.refusals
  }

  /** The queue, the worker and everything recorded about them stay. */
  ghost predicate WorkerUntouched(s: State, s': State) {
    && s'.queue == s.queue && s'.worker == s.worker
    && s.log.known <= s'.log.known && s'.log.accepted == s.log.accepted
    && s'.log.frees == s.log.frees && s'.log.terminals == s.log.terminals
    && (s.log.lockFault ==> s'.log.lockFault)
    && s'.log.confirmed == s.log.confirmed && s'.log.turnedAway == s.log.turnedAway && s'.log.pressed == s.log.pressed
  }

  lemma AccountingFrame(s: State, s': State)
    requires Accounting(s)
    requires s'.queue == s.queue && StageOf(s'.worker) == StageOf(s.worker)
    requires s.log.known <= s'.log.known && s'.log.accepted == s.log.accepted
    requires s'.log.frees == s.log.frees && s'.log.terminals == s.log.terminals
    requires s.log.lockFault ==> s'.log.lockFault
    ensures Accounting(s')
  {
    assert forall id :: Unfreed(s', id) <==> Unfreed(s, id);
    assert forall id :: Unpublished(s', id) <==> Unpublished(s, id);
  }

  lemma OwnershipQuiet(s: State, s': State, place: Place)
    requires Ownership(s, place) && Quiet(s, s')
    ensures Ownership(s', place)
  {
    assert forall t :: Pc(s', t) == Pc(s, t);
  }

  lemma CallersQuiet(s: State, s': State)
    requires Callers(s) && Quiet(s, s')
    ensures Callers(s')
  {
    assert forall t :: Pc(s', t) == Pc(s, t);
  }

  lemma QuietKeeps(s: State, s': State, place: Place)
    requires Inv(s, place) && Quiet(s, s')
    ensures Ownership(s', place) && Accounting(s') && Callers(s')
  {
    hide Accounting;
    hide Callers;
    hide Ownership;
    OwnershipQuiet(s, s', place);
    CallersQuiet(s, s');
    AccountingFrame(s, s');
  }

  lemma GateUntouched(s: State, s': State)
    requires Gate(s) && WorkerUntouched(s, s')
    requires s'.confirmRequested ==> s.confirmRequested && s'.log.lastClaim == s.log.lastClaim
    ensures Gate(s')
  {}

  // ---- Steps that only concern the gate ----

  predicate IsGateStep(step: Step) {
    step.PublishStart? || step.ReadCancel? || step.ReadConfirm? || step.PublishResume?
  }

  predicate IsActionStep(step: Step) {
    step.PressKeys? || step.ReleaseKeys? || step.PublishProgress? || step.EndActions?
  }

  lemma SignalQuiet(s: State, step: Step)
    requires Enabled(s, step) && IsSignal(step)
    ensures Quiet(s, SignalStep(s, step))
  {}

  lemma StartQuiet(s: State, section: Section)
    requires s.worker.Start? && s.worker.r.valid
    ensures Quiet(s, StartRun(s, s.worker.r, section))
  {}

  lemma LookForCancelQuiet(s: State, section: Section)
    requires s.worker.PollCancel?
    ensures Quiet(s, LookForCancel(s, s.worker.r, section))
  {}

  lemma LookForConfirmQuiet(s: State, section: Section, expired: bool, waitFailed: bool)
    requires s.worker.PollConfirm?
    ensures Quiet(s, LookForConfirm(s, s.worker.r, section, expired, waitFailed))
  {}

  lemma ResumeQuiet(s: State, section: Section)
    requires s.worker.Resume?
    ensures Quiet(s, ResumeRun(s, s.worker.r, section))
  {}

  lemma ShowProgressQuiet(s: State, r: Request, section: Section)
    ensures Quiet(s, ShowProgress(s, r, section))
  {}

  lemma SignalKeepsGate(s: State, step: Step)
    requires Gate(s) && Enabled(s, step) && IsSignal(step)
    ensures Gate(SignalStep(s, step))
  {}

  lemma StartKeepsGate(s: State, section: Section)
    requires Gate(s) && s.worker.Start?
    ensures Gate(StartRun(s, s.worker.r, section))
  {
    hide StartRun;
    StartSummary(s, s.worker.r, section);
  }

  lemma StartSummary(s: State, r: Request, section: Section)
    ensures var s' := StartRun(s, r, section);
      && s'.queue == s.queue && s'.confirmRequested == s.confirmRequested
      && s'.log == s.log.(lockFault := s'.log.lockFault)
      && ( s'.worker.Idle? || s'.worker.Free?
        || s'.worker == PollCancel(r)
        || (s'.worker == Running(r) && !r.needsConfirm))
  {}

  lemma LookForCancelKeepsGate(s: State, section: Section)
    requires Gate(s) && Callers(s) && s.worker.PollCancel? && s.queue == []
    ensures Gate(LookForCancel(s, s.worker.r, section))
  {}

  /** Only a set flag opens the gate, and the flag belongs to the awaited request. */
  lemma LookForConfirmKeepsGate(s: State, section: Section, expired: bool, waitFailed: bool)
    requires Gate(s) && Callers(s) && s.worker.PollConfirm?
    requires s.queue == [] && s.worker.r.id == s.log.lastClaim
    ensures Gate(LookForConfirm(s, s.worker.r, section, expired, waitFailed))
  {}

  lemma ResumeKeepsGate(s: State, section: Section)
    requires Gate(s) && s.worker.Resume?
    ensures Gate(ResumeRun(s, s.worker.r, section))
  {
    hide ResumeRun;
    ResumeSummary(s, s.worker.r, section);
  }

  lemma ResumeSummary(s: State, r: Request, section: Section)
    ensures var s' := ResumeRun(s, r, section);
      && s'.queue == s.queue && s'.confirmRequested == s.confirmRequested
      && s'.log == s.log.(lockFault := s'.log.lockFault)
      && (s'.worker.Free? || s'.worker == Running(r))
  {}

  lemma ShowProgressKeepsGate(s: State, r: Request, section: Section)
    requires Gate(s)
    ensures Gate(ShowProgress(s, r, section))
  {
    hide ShowProgress;
    ShowProgressSummary(s, r, section);
  }

  lemma ShowProgressSummary(s: State, r: Request, section: Section)
    ensures var s' := ShowProgress(s, r, section);
      && s'.queue == s.queue && s'.confirmRequested == s.confirmRequested && s'.worker == s.worker
      && s'.log == s.log.(lockFault := s'.log.lockFault)
  {}

  lemma ActionQuiet(s: State, step: Step)
    requires Enabled(s, step) && IsActionStep(step)
    ensures Quiet(s, RunStep(s, step))
  {
    hide ShowProgress;
    if step.PublishProgress? { ShowProgressQuiet(s, s.worker.r, step.section); }
  }

  lemma PressKeepsGate(s: State)
    requires Gate(s) && Callers(s) && s.worker.Running? && s.queue == []
    ensures Gate(s.(log := s.log.(pressed := s.log.pressed + {s.worker.r})))
  {}

  lemma ActionKeepsGate(s: State, step: Step)
    requires Gate(s) && Callers(s) && Enabled(s, step) && IsActionStep(step)
    requires s.queue == []
    ensures Gate(RunStep(s, step))
  {
    hide ShowProgress;
    if step.PublishProgress? { ShowProgressKeepsGate(s, s.worker.r, step.section); }
    else if step.PressKeys? { PressKeepsGate(s); }
  }

  lemma FinalReleaseQuiet(s: State, step: Step)
    requires Enabled(s, step) && step.FinalRelease?
    ensures Quiet(s, CleanupStep(s, step))
  {}

  lemma DequeueKeepsGate(s: State, step: Step)
    requires Gate(s) && Enabled(s, step) && step.Dequeue?
    ensures Gate(RunStep(s, step))
  {}

  /** What no cleanup step touches. */
  ghost predicate CleanupFrame(s: State, s': State) {
    && s'.queue == s.queue && s'.callers == s.callers
    && s'.log.known == s.log.known && s'.log.accepted == s.log.accepted && s'.log.lastClaim == s.log.lastClaim
    && s'.log.confirmed == s.log.confirmed && s'.log.turnedAway == s.log.turnedAway && s'.log.pressed == s.log.pressed
    && s'.log.refusals == s.log.refusals && (s.log.lockFault ==> s'.log.lockFault)
    && (s'.confirmRequested ==> s.confirmRequested)
    && (s'.worker.Release? || s'.worker.Publish? || s'.worker.Reset? || s'.worker.Idle? || s'.worker.Faulted?)
    && (WorkerHolds(s'.worker) ==> WorkerHolds(s.worker) && s'.worker.r == s.worker.r)
  }

  lemma FreeFrame(s: State)
    requires s.worker.Free?
    ensures CleanupFrame(s, FreeNow(s, s.worker.r, s.worker.outcome))
  {}

  lemma TerminalFrame(s: State, section: Section)
    requires s.worker.Publish?
    ensures CleanupFrame(s, ShowTerminal(s, s.worker.r, s.worker.outcome, section))
  {}

  lemma ResetFrame(s: State, section: Section)
    requires s.worker.Reset?
    ensures CleanupFrame(s, ResetNow(s, s.worker.r, s.worker.ok, section))
  {}

  lemma CleanupFramed(s: State, step: Step)
    requires Enabled(s, step) && IsCleanup(step)
    ensures CleanupFrame(s, CleanupStep(s, step))
  {
    hide ShowTerminal;
    hide ResetNow;
    hide FreeNow;
    if step.FreePlan? { FreeFrame(s); }
    else if step.PublishTerminal? { TerminalFrame(s, step.section); }
    else if step.ResetFlags? { ResetFrame(s, step.section); }
  }

  lemma CleanupKeepsGateAndCallers(s: State, s': State)
    requires Gate(s) && Callers(s) && CleanupFrame(s, s')
    ensures Gate(s') && Callers(s')
  {
    assert forall t :: Pc(s', t) == Pc(s, t);
  }

  // ---- The caller's steps ----

  ghost predicate SubmitFrame(s: State, s': State) {
    && WorkerUntouched(s, s')
    && (s'.confirmRequested ==> s.confirmRequested && s'.log.lastClaim == s.log.lastClaim)
  }

  /** One caller moves on with its request; nothing else about callers changes. */
  ghost predicate Moved(s: State, s': State, t: nat) {
    var pc, pc' := Pc(s, t), Pc(s', t);
    && s'.callers == s.callers[t := pc']
    && !pc.Away? && !pc'.Away? && !pc'.Checked? && pc'.r == pc.r
    && (CallerHolds(pc') ==> pc.Checked? || CallerHolds(pc))
    && (pc'.Sent? ==> pc.Sent?)
    && (pc'.Returned? && pc'.accepted ==> pc.Sent?)
    && (pc'.RefusalFaulted? || (pc'.Returned? && !pc'.accepted) ==> pc.Checked? || CallerHolds(pc) || pc.RefusalFaulted?)
  }

  lemma BeginUntouched(s: State, t: nat, r: Request, usbReady: bool)
    ensures SubmitFrame(s, Begin(s, t, r, usbReady))
  {}

  lemma ClaimUntouched(s: State, t: nat, section: Section)
    requires Pc(s, t).Checked?
    ensures SubmitFrame(s, Claim(s, t, section)) && Moved(s, Claim(s, t, section), t)
  {}

  lemma DropUntouched(s: State, t: nat)
    requires Pc(s, t).Sent?
    ensures SubmitFrame(s, Drop(s, t)) && Moved(s, Drop(s, t), t)
  {}

  lemma ShowRefusalUntouched(s: State, t: nat, released: bool, section: Section)
    requires Pc(s, t).Refusing?
    ensures var s' := ShowRefusal(s, t, released, section); SubmitFrame(s, s') && Moved(s, s', t)
  {}

  lemma ResetRefusedUntouched(s: State, t: nat, section: Section)
    requires Pc(s, t).RefusalPublished?
    ensures SubmitFrame(s, ResetRefused(s, t, section)) && Moved(s, ResetRefused(s, t, section), t)
  {}

  lemma LatchRefusedUntouched(s: State, t: nat)
    requires Pc(s, t).RefusalFaulted?
    ensures SubmitFrame(s, LatchRefused(s, t)) && Moved(s, LatchRefused(s, t), t)
  {}

  lemma SubmitUntouched(s: State, step: Step)
    requires Enabled(s, step) && IsSubmitStep(step) && !step.SendToQueue?
    ensures SubmitFrame(s, CallerStep(s, step))
    ensures !step.BeginSubmit? ==> Moved(s, CallerStep(s, step), step.t)
  {
    hide SubmitFrame;
    hide Moved;
    hide Begin;
    hide Claim;
    hide Send;
    hide Drop;
    hide ShowRefusal;
    hide ResetRefused;
    hide LatchRefused;
    match step
    case BeginSubmit(t, r, usbReady) => BeginUntouched(s, t, r, usbReady);
    case ClaimBusy(t, section) => ClaimUntouched(s, t, section);
    case DropPlan(t) => DropUntouched(s, t);
    case PublishRefusal(t, released, section) => ShowRefusalUntouched(s, t, released, section);
    case ResetRefusal(t, section) => ResetRefusedUntouched(s, t, section);
    case LatchRefusal(t) => LatchRefusedUntouched(s, t);
  }

  lemma BeginKeepsCallers(s: State, t: nat, r: Request, usbReady: bool)
    requires Callers(s) && s.log.accepted <= s.log.known && r.id !in s.log.known
    ensures Callers(Begin(s, t, r, usbReady))
  {
    BeginSummary(s, t, r, usbReady);
    hide Begin;
  }

  lemma BeginSummary(s: State, t: nat, r: Request, usbReady: bool)
    ensures var s' := Begin(s, t, r, usbReady);
      && s'.queue == s.queue && s'.worker == s.worker && s'.busy == s.busy && s'.unavailable == s.unavailable
      && s'.log == s.log.(known := s.log.known + {r.id})
      && (forall u :: u != t ==> Pc(s', u) == Pc(s, u))
      && (Pc(s', t) == Returned(r, false) || (Pc(s', t) == Checked(r) && r.valid))
  {}

  lemma MoveKeepsCallers(s: State, s': State, t: nat)
    requires Callers(s) && WorkerUntouched(s, s') && Moved(s, s', t)
    ensures Callers(s')
  {
    assert forall u :: u != t ==> Pc(s', u) == Pc(s, u);
  }

  lemma SendSummary(s: State, t: nat, sent: bool)
    requires Pc(s, t).Claimed?
    ensures var s' := Send(s, t, sent);
      var r := Pc(s, t).r;
      && s'.worker == s.worker && s'.busy == s.busy && s'.unavailable == s.unavailable
      && s'.confirmRequested == s.confirmRequested
      && (forall u :: u != t ==> Pc(s', u) == Pc(s, u))
      && (if sent then s'.queue == s.queue + [r] && s'.log == s.log.(accepted := s.log.accepted + {r.id}) && Pc(s', t) == Sent(r)
          else s'.queue == s.queue && s'.log == s.log && Pc(s', t) == Refusing(r))
  {}

  lemma SendKeepsCallers(s: State, t: nat, sent: bool)
    requires Callers(s) && Pc(s, t).Claimed?
    ensures Callers(Send(s, t, sent))
  {
    SendSummary(s, t, sent);
    hide Send;
  }

  lemma SendKeepsAccounting(s: State, place: Place, t: nat, sent: bool)
    requires Accounting(s) && Callers(s) && HeldAt(s, place) && Pc(s, t).Claimed?
    ensures Accounting(Send(s, t, sent))
  {
    SendSummary(s, t, sent);
    hide Send;
    var s', r := Send(s, t, sent), Pc(s, t).r;
    assert CallerHolds(Pc(s, t));
    assert s.queue == [] && !WorkerHolds(s.worker);
    if sent {
      assert s'.queue == [r];
      assert forall id :: Unfreed(s', id) <==> id == r.id;
      assert forall id :: Unpublished(s', id) <==> id == r.id;
    } else {
      assert forall id :: Unfreed(s', id) <==> Unfreed(s, id);
      assert forall id :: Unpublished(s', id) <==> Unpublished(s, id);
    }
  }

  lemma SendKeepsGate(s: State, place: Place, t: nat, sent: bool)
    requires Gate(s) && Callers(s) && HeldAt(s, place) && Pc(s, t).Claimed?
    ensures Gate(Send(s, t, sent))
  {
    SendSummary(s, t, sent);
    hide Send;
    assert CallerHolds(Pc(s, t));
    assert s.queue == [];
  }

  // ---- Ownership and accounting where they change ----

  lemma BeginKeepsOwnership(s: State, place: Place, t: nat, r: Request, usbReady: bool)
    requires Ownership(s, place) && (Pc(s, t).Away? || Pc(s, t).Returned?)
    ensures Ownership(Begin(s, t, r, usbReady), place)
  {
    BeginSummary(s, t, r, usbReady);
    hide Begin;
  }

  lemma ClaimKeepsOwnership(s: State, place: Place, t: nat, section: Section)
    requires Ownership(s, place) && Pc(s, t).Checked?
    ensures Ownership(Claim(s, t, section), if section.entered && !s.busy then AtCaller(t) else place)
  {
    assert forall u :: u != t ==> Pc(Claim(s, t, section), u) == Pc(s, u);
  }

  lemma SendKeepsOwnership(s: State, place: Place, t: nat, sent: bool)
    requires Ownership(s, place) && Pc(s, t).Claimed?
    ensures Ownership(Send(s, t, sent), if sent then InQueue else place)
  {
    SendSummary(s, t, sent);
    hide Send;
    assert CallerHolds(Pc(s, t));
  }

  lemma ShowRefusalKeepsOwnership(s: State, place: Place, t: nat, released: bool, section: Section)
    requires Ownership(s, place) && Pc(s, t).Refusing?
    ensures Ownership(ShowRefusal(s, t, released, section), place)
  {
    assert forall u :: u != t ==> Pc(ShowRefusal(s, t, released, section), u) == Pc(s, u);
  }

  lemma ResetRefusedKeepsOwnership(s: State, place: Place, t: nat, section: Section)
    requires Ownership(s, place) && Pc(s, t).RefusalPublished?
    ensures Ownership(ResetRefused(s, t, section), Nowhere)
  {
    assert forall u :: u != t ==> Pc(ResetRefused(s, t, section), u) == Pc(s, u);
  }

  lemma ReturnKeepsOwnership(s: State, place: Place, t: nat)
    requires Ownership(s, place)
    ensures Pc(s, t).Sent? ==> Ownership(Drop(s, t), place)
    ensures Pc(s, t).RefusalFaulted? ==> Ownership(LatchRefused(s, t), place)
  {
    if Pc(s, t).Sent? { assert forall u :: u != t ==> Pc(Drop(s, t), u) == Pc(s, u); }
    if Pc(s, t).RefusalFaulted? { assert forall u :: u != t ==> Pc(LatchRefused(s, t), u) == Pc(s, u); }
  }

  lemma DequeueKeepsOwnership(s: State, place: Place, step: Step)
    requires Ownership(s, place) && Enabled(s, step) && step.Dequeue?
    ensures Ownership(RunStep(s, step), NextPlace(s, step, place))
  {
    assert forall t :: Pc(RunStep(s, step), t) == Pc(s, t);
  }

  lemma FreeKeepsOwnership(s: State, place: Place)
    requires Ownership(s, place) && s.worker.Free?
    ensures Ownership(FreeNow(s, s.worker.r, s.worker.outcome), place)
  {
    assert forall t :: Pc(FreeNow(s, s.worker.r, s.worker.outcome), t) == Pc(s, t);
  }

  lemma TerminalKeepsOwnership(s: State, place: Place, section: Section)
    requires Ownership(s, place) && s.worker.Publish?
    ensures Ownership(ShowTerminal(s, s.worker.r, s.worker.outcome, section), place)
  {
    assert forall t :: Pc(ShowTerminal(s, s.worker.r, s.worker.outcome, section), t) == Pc(s, t);
  }

  lemma ResetKeepsOwnership(s: State, place: Place, section: Section)
    requires Ownership(s, place) && s.worker.Reset?
    ensures Ownership(ResetNow(s, s.worker.r, s.worker.ok, section), Nowhere)
  {
    assert forall t :: Pc(ResetNow(s, s.worker.r, s.worker.ok, section), t) == Pc(s, t);
  }

  lemma LatchKeepsOwnership(s: State, place: Place)
    requires Ownership(s, place) && s.worker.Faulted?
    ensures Ownership(Latched(s.(worker := Idle), true), place)
  {
    assert forall t :: Pc(Latched(s.(worker := Idle), true), t) == Pc(s, t);
  }

  lemma DequeueKeepsRest(s: State, place: Place, step: Step)
    requires Accounting(s) && Callers(s) && HeldAt(s, place) && Enabled(s, step) && step.Dequeue?
    ensures Accounting(RunStep(s, step)) && Callers(RunStep(s, step))
  {
    assert forall t :: Pc(RunStep(s, step), t) == Pc(s, t);
  }

  lemma FreeKeepsAccounting(s: State, place: Place)
    requires Accounting(s) && Callers(s) && HeldAt(s, place) && s.worker.Free?
    ensures Accounting(FreeNow(s, s.worker.r, s.worker.outcome))
  {}

  lemma TerminalSummary(s: State, section: Section)
    requires s.worker.Publish?
    ensures var s' := ShowTerminal(s, s.worker.r, s.worker.outcome, section);
      && s'.queue == s.queue && s'.worker == Reset(s.worker.r, s.worker.outcome, Ok(section))
      && s'.log.known == s.log.known && s'.log.accepted == s.log.accepted && s'.log.frees == s.log.frees
      && (s.log.lockFault ==> s'.log.lockFault) && (!section.entered ==> s'.log.lockFault)
      && s'.log.terminals == s.log.terminals + if section.entered then multiset{s.worker.r.id} else multiset{}
  {}

  lemma PublishKeepsAccounting(s: State, place: Place, section: Section)
    requires Accounting(s) && Callers(s) && HeldAt(s, place) && s.worker.Publish?
    ensures Accounting(ShowTerminal(s, s.worker.r, s.worker.outcome, section))
  {
    TerminalSummary(s, section);
    hide ShowTerminal;
    var s' := ShowTerminal(s, s.worker.r, s.worker.outcome, section);
    assert s.queue == [];
    assert forall id :: Unfreed(s', id) <==> Unfreed(s, id);
    assert forall id :: id != s.worker.r.id ==> (Unpublished(s', id) <==> Unpublished(s, id));
    assert Unpublished(s, s.worker.r.id) && !Unpublished(s', s.worker.r.id);
  }

  lemma ResetKeepsAccounting(s: State, place: Place, section: Section)
    requires Accounting(s) && HeldAt(s, place) && s.worker.Reset?
    ensures Accounting(ResetNow(s, s.worker.r, s.worker.ok, section))
  {
    ResetSummary(s, section);
    hide ResetNow;
    var s' := ResetNow(s, s.worker.r, s.worker.ok, section);
    assert forall id :: Unfreed(s', id) <==> Unfreed(s, id);
    assert forall id :: Unpublished(s', id) <==> Unpublished(s, id);
  }

  lemma ResetSummary(s: State, section: Section)
    requires s.worker.Reset?
    ensures var s' := ResetNow(s, s.worker.r, s.worker.ok, section);
      && s'.queue == s.queue && (s'.worker.Idle? || s'.worker.Faulted?)
      && s'.log == s.log.(lockFault := s'.log.lockFault) && (s.log.lockFault ==> s'.log.lockFault)
  {}

  lemma LatchKeepsAccounting(s: State)
    requires Accounting(s) && s.worker.Faulted?
    ensures Accounting(Latched(s.(worker := Idle), true))
  {}

  // ---- Every step, every run ----

  lemma QuietStepKeepsInv(s: State, place: Place, step: Step)
    requires Inv(s, place) && Enabled(s, step)
    requires Quiet(s, Apply(s, step)) && Gate(Apply(s, step)) && NextPlace(s, step, place) == place
    ensures Inv(Apply(s, step), NextPlace(s, step, place))
  {
    QuietKeeps(s, Apply(s, step), place);
  }

  lemma WorkerAlone(s: State, place: Place)
    requires Ownership(s, place) && WorkerHolds(s.worker)
    ensures place == AtWorker && s.queue == [] && s.worker.r.id == s.log.lastClaim
  {}

  lemma GateStepKeepsInv(s: State, place: Place, step: Step)
    requires Inv(s, place) && Enabled(s, step) && IsGateStep(step)
    ensures Inv(Apply(s, step), NextPlace(s, step, place))
  {
    WorkerAlone(s, place);
    assert s.worker.r.valid;
    hide StartRun;
    hide LookForCancel;
    hide LookForConfirm;
    hide ResumeRun;
    hide Quiet;
    hide Gate;
    hide Accounting;
    hide Callers;
    hide Ownership;
    match step {
      case PublishStart(section) =>
        StartQuiet(s, section);
        StartKeepsGate(s, section);
      case ReadCancel(section) =>
        LookForCancelQuiet(s, section);
        LookForCancelKeepsGate(s, section);
      case ReadConfirm(section, expired, waitFailed) =>
        LookForConfirmQuiet(s, section, expired, waitFailed);
        LookForConfirmKeepsGate(s, section, expired, waitFailed);
      case PublishResume(section) =>
        ResumeQuiet(s, section);
        ResumeKeepsGate(s, section);
    }
    QuietStepKeepsInv(s, place, step);
  }

  lemma RunStepKeepsInv(s: State, place: Place, step: Step)
    requires Inv(s, place) && Enabled(s, step) && IsRun(step)
    ensures Inv(Apply(s, step), NextPlace(s, step, place))
  {
    hide RunStep;
    hide Quiet;
    hide Gate;
    hide Accounting;
    hide Callers;
    if step.Dequeue? {
      DequeueKeepsOwnership(s, place, step);
      DequeueKeepsRest(s, place, step);
      DequeueKeepsGate(s, step);
    } else if IsActionStep(step) {
      WorkerAlone(s, place);
      ActionQuiet(s, step);
      ActionKeepsGate(s, step);
      QuietStepKeepsInv(s, place, step);
    } else {
      GateStepKeepsInv(s, place, step);
    }
  }

  lemma SignalKeepsInv(s: State, place: Place, step: Step)
    requires Inv(s, place) && Enabled(s, step) && IsSignal(step)
    ensures Inv(Apply(s, step), NextPlace(s, step, place))
  {
    hide SignalStep;
    hide Quiet;
    hide Inv;
    assert Gate(s) by { InvParts(s, place); }
    SignalQuiet(s, step);
    SignalKeepsGate(s, step);
    QuietStepKeepsInv(s, place, step);
  }

  lemma InvParts(s: State, place: Place)
    requires Inv(s, place)
    ensures Ownership(s, place) && HeldAt(s, place) && Accounting(s) && Callers(s) && Gate(s)
  {}

  lemma CleanupStepKeepsInv(s: State, place: Place, step: Step)
    requires Inv(s, place) && Enabled(s, step) && IsCleanup(step)
    ensures Inv(Apply(s, step), NextPlace(s, step, place))
  {
    InvParts(s, place);
    hide FreeNow;
    hide ShowTerminal;
    hide ResetNow;
    hide Quiet;
    hide Gate;
    hide Accounting;
    hide Callers;
    hide Ownership;
    hide HeldAt;
    hide CleanupFrame;
    match step {
      case FreePlan =>
        FreeKeepsOwnership(s, place);
        FreeKeepsAccounting(s, place);
      case FinalRelease(_) =>
        FinalReleaseQuiet(s, step);
        QuietKeeps(s, Apply(s, step), place);
      case PublishTerminal(section) =>
        TerminalKeepsOwnership(s, place, section);
        PublishKeepsAccounting(s, place, section);
      case ResetFlags(section) =>
        ResetKeepsOwnership(s, place, section);
        ResetKeepsAccounting(s, place, section);
      case LatchWorker =>
        LatchKeepsOwnership(s, place);
        LatchKeepsAccounting(s);
    }
    CleanupFramed(s, step);
    CleanupKeepsGateAndCallers(s, Apply(s, step));
  }

  lemma SubmitKeepsOwnership(s: State, place: Place, step: Step)
    requires Ownership(s, place) && Enabled(s, step) && IsSubmitStep(step)
    ensures Ownership(CallerStep(s, step), NextPlace(s, step, place))
  {
    hide Ownership;
    hide Begin;
    hide Claim;
    hide Send;
    hide Drop;
    hide ShowRefusal;
    hide ResetRefused;
    hide LatchRefused;
    match step
    case BeginSubmit(t, r, usbReady) => BeginKeepsOwnership(s, place, t, r, usbReady);
    case ClaimBusy(t, section) => ClaimKeepsOwnership(s, place, t, section);
    case SendToQueue(t, sent) => SendKeepsOwnership(s, place, t, sent);
    case PublishRefusal(t, released, section) => ShowRefusalKeepsOwnership(s, place, t, released, section);
    case ResetRefusal(t, section) => ResetRefusedKeepsOwnership(s, place, t, section);
    case DropPlan(t) => ReturnKeepsOwnership(s, place, t);
    case LatchRefusal(t) => ReturnKeepsOwnership(s, place, t);
  }

  lemma SubmitKeepsRest(s: State, s': State, step: Step)
    requires Accounting(s) && Callers(s) && Gate(s)
    requires Enabled(s, step) && IsSubmitStep(step) && !step.SendToQueue? && s' == CallerStep(s, step)
    ensures Accounting(s') && Callers(s') && Gate(s')
  {
    SubmitUntouched(s, step);
    assert s.log.accepted <= s.log.known;
    if step.BeginSubmit? {
      assert s' == Begin(s, step.t, step.r, step.usbReady);
      BeginKeepsCallers(s, step.t, step.r, step.usbReady);
    }
    hide CallerStep;
    hide Moved;
    hide Gate;
    hide Accounting;
    hide Callers;
    if !step.BeginSubmit? { MoveKeepsCallers(s, s', step.t); }
    AccountingFrame(s, s');
    GateUntouched(s, s');
  }

  lemma SendKeepsRest(s: State, place: Place, t: nat, sent: bool)
    requires Accounting(s) && Callers(s) && Gate(s) && HeldAt(s, place) && Pc(s, t).Claimed?
    ensures var s' := Send(s, t, sent); Accounting(s') && Callers(s') && Gate(s')
  {
    hide *;
    SendKeepsCallers(s, t, sent);
    SendKeepsAccounting(s, place, t, sent);
    SendKeepsGate(s, place, t, sent);
  }

  lemma SubmitStepKeepsInv(s: State, place: Place, step: Step)
    requires Inv(s, place) && Enabled(s, step) && IsSubmitStep(step)
    ensures Inv(Apply(s, step), NextPlace(s, step, place))
  {
    InvParts(s, place);
    assert Apply(s, step) == CallerStep(s, step);
    hide Apply;
    hide Gate;
    hide Accounting;
    hide Callers;
    hide Ownership;
    hide HeldAt;
    hide NextPlace;
    hide Send;
    if step.SendToQueue? {
      assert CallerStep(s, step) == Send(s, step.t, step.sent);
      SendKeepsRest(s, place, step.t, step.sent);
    } else {
      SubmitKeepsRest(s, CallerStep(s, step), step);
    }
    hide CallerStep;
    SubmitKeepsOwnership(s, place, step);
  }

  lemma StepKeepsInv(s: State, place: Place, step: Step)
    requires Inv(s, place) && Enabled(s, step)
    ensures Inv(Apply(s, step), NextPlace(s, step, place))
  {
    hide Inv;
    hide Apply;
    hide NextPlace;
    if IsSignal(step) { SignalKeepsInv(s, place, step); }
    else if IsCleanup(step) { CleanupStepKeepsInv(s, place, step); }
    else if IsSubmitStep(step) { SubmitStepKeepsInv(s, place, step); }
    else { RunStepKeepsInv(s, place, step); }
  }

  /** Every step of the list is possible where it is taken. */
  predicate IsRunOf(s: State, steps: seq<Step>)
    decreases |steps|
  {
    steps == [] || (Enabled(s, steps[0]) && IsRunOf(Apply(s, steps[0]), steps[1..]))
  }

  function After(s: State, steps: seq<Step>): State
    requires IsRunOf(s, steps)
    decreases |steps|
  {
    if steps == [] then s else After(Apply(s, steps[0]), steps[1..])
  }

  lemma {:induction false} Joined(s: State, first: seq<Step>, rest: seq<Step>)
    requires IsRunOf(s, first) && IsRunOf(After(s, first), rest)
    ensures IsRunOf(s, first + rest) && After(s, first + rest) == After(After(s, first), rest)
    decreases |first|
  {
    hide Apply;
    hide Enabled;
    if first == [] {
      assert first + rest == rest;
    } else {
      Joined(Apply(s, first[0]), first[1..], rest);
      assert (first + rest)[1..] == first[1..] + rest;
    }
  }

  lemma {:induction false} RunKeepsInv(s: State, place: Place, steps: seq<Step>) returns (end: Place)
    requires Inv(s, place) && IsRunOf(s, steps)
    ensures Inv(After(s, steps), end)
    decreases |steps|
  {
    hide Inv;
    hide Apply;
    hide Enabled;
    end := place;
    if steps != [] {
      StepKeepsInv(s, place, steps[0]);
      end := RunKeepsInv(Apply(s, steps[0]), NextPlace(s, steps[0], place), steps[1..]);
    }
  }

  lemma InitialInv()
    ensures Inv(INITIAL, Nowhere)
  {}

  // ---- What holds in every reachable state ----

  /** The request has claimed the executor and its flags are not reset yet. */
  ghost predicate Outstanding(s: State, id: nat) {
    || (exists t :: CallerHolds(Pc(s, t)) && Pc(s, t).r.id == id)
    || (exists r <- s.queue :: r.id == id)
    || (WorkerHolds(s.worker) && s.worker.r.id == id)
  }

  lemma OutstandingIsHeld(s: State, place: Place, id: nat)
    requires HeldAt(s, place)
    ensures Outstanding(s, id) <==> place != Nowhere && HeldRequest(s, place).id == id
  {
    if place.AtCaller? { assert CallerHolds(Pc(s, place.t)); }
  }

  /** One request at a time, for any interleaving and any operation results: while no
      lock has failed, busy means exactly one outstanding request; if busy is set
      with none outstanding, a lock has failed and the engine is latched or about
      to be. */
  lemma OneRequestAtATime(steps: seq<Step>)
    requires IsRunOf(INITIAL, steps)
    ensures var s := After(INITIAL, steps);
      && (forall a, b :: Outstanding(s, a) && Outstanding(s, b) ==> a == b)
      && ((exists id :: Outstanding(s, id)) ==> s.busy)
      && (!s.log.lockFault ==> (s.busy <==> exists id :: Outstanding(s, id)))
      && (s.busy && !(exists id :: Outstanding(s, id)) ==> s.log.lockFault && (s.unavailable || SomeoneWillLatch(s)))
  {
    InitialInv();
    var place := RunKeepsInv(INITIAL, Nowhere, steps);
    var s := After(INITIAL, steps);
    InvParts(s, place);
    hide Outstanding;
    hide After;
    hide Accounting;
    hide Callers;
    hide Gate;
    forall id ensures Outstanding(s, id) <==> place != Nowhere && HeldRequest(s, place).id == id {
      OutstandingIsHeld(s, place, id);
    }
    if place != Nowhere {
      assert Outstanding(s, HeldRequest(s, place).id);
    }
  }

  /** Bookkeeping of every request: a refused one keeps its plan and an accepted one
      that is no longer outstanding had it freed exactly once, with at most one
      terminal status, exactly one unless a lock failed; and the worker never meets
      a request that does not validate. */
  lemma ExactlyOnce(steps: seq<Step>, id: nat)
    requires IsRunOf(INITIAL, steps)
    ensures var s := After(INITIAL, steps);
      && s.log.frees[id] <= 1 && s.log.terminals[id] <= 1
      && (id !in s.log.accepted ==> s.log.frees[id] == 0 && s.log.terminals[id] == 0)
      && (id in s.log.accepted && !Outstanding(s, id) ==>
          s.log.frees[id] == 1 && (!s.log.lockFault ==> s.log.terminals[id] == 1))
      && (s.worker.Start? ==> s.worker.r.valid)
  {
    InitialInv();
    var place := RunKeepsInv(INITIAL, Nowhere, steps);
    InvParts(After(INITIAL, steps), place);
    hide After;
    hide Gate;
    hide Ownership;
    hide HeldAt;
  }

  /** A submission that returned is in exactly one of two cases, and tells which. */
  lemma ReturnedMeansAccepted(steps: seq<Step>, t: nat)
    requires IsRunOf(INITIAL, steps)
    ensures var s := After(INITIAL, steps);
      Pc(s, t).Returned? ==> (Pc(s, t).accepted <==> Pc(s, t).r.id in s.log.accepted)
  {
    InitialInv();
    var place := RunKeepsInv(INITIAL, Nowhere, steps);
    InvParts(After(INITIAL, steps), place);
    hide After;
    hide Gate;
    hide Ownership;
    hide Accounting;
  }

  /** The confirmation gate: no press for a request that needs confirmation unless one
      was recorded in its busy period, and none at all once it was turned away. */
  lemma NothingPressedUnconfirmed(steps: seq<Step>, r: Request)
    requires IsRunOf(INITIAL, steps)
    ensures var s := After(INITIAL, steps);
      r in s.log.pressed ==> (r.needsConfirm ==> r.id in s.log.confirmed) && r.id !in s.log.turnedAway
  {
    InitialInv();
    var place := RunKeepsInv(INITIAL, Nowhere, steps);
    InvParts(After(INITIAL, steps), place);
    hide After;
    hide Callers;
    hide Ownership;
    hide Accounting;
  }

  /** Only signals touch the confirmations, and no step opens the latch. */
  ghost predicate Steady(s: State, s': State) {
    s'.log.confirmed == s.log.confirmed && (s.unavailable ==> s'.unavailable)
  }

  lemma CallerStepSteady(s: State, step: Step)
    requires Enabled(s, step) && IsSubmitStep(step)
    ensures Steady(s, CallerStep(s, step))
  {}

  lemma RunStepSteady(s: State, step: Step)
    requires Enabled(s, step) && IsRun(step)
    ensures Steady(s, RunStep(s, step))
  {}

  lemma CleanupStepSteady(s: State, step: Step)
    requires Enabled(s, step) && IsCleanup(step)
    ensures Steady(s, CleanupStep(s, step))
  {}

  lemma SignalKeepsLatch(s: State, step: Step)
    requires IsSignal(step)
    ensures SignalStep(s, step).unavailable == s.unavailable
  {}

  lemma ConfirmationStep(s: State, step: Step, id: nat)
    requires IsSignal(step) && id in SignalStep(s, step).log.confirmed && id !in s.log.confirmed
    ensures step.ConfirmCall? && s.busy && s.shown.ShownAwaiting? && id == s.log.lastClaim
  {}

  lemma ConfirmedByStep(s: State, step: Step, id: nat)
    requires Enabled(s, step)
    requires id in Apply(s, step).log.confirmed && id !in s.log.confirmed
    ensures step.ConfirmCall? && s.busy && s.shown.ShownAwaiting? && id == s.log.lastClaim
  {
    hide CallerStep;
    hide RunStep;
    hide CleanupStep;
    hide SignalStep;
    if IsSignal(step) { ConfirmationStep(s, step, id); }
    else if IsCleanup(step) { CleanupStepSteady(s, step); }
    else if IsSubmitStep(step) { CallerStepSteady(s, step); }
    else { RunStepSteady(s, step); }
  }

  // ---- Whose confirmation is awaited ----

  /** The worker is waiting for a confirmation, or on its way from there to the status
      that replaces the one shown. */
  predicate AfterAsking(w: Worker) {
    w.PollCancel? || w.PollConfirm? || w.Resume? || w.Free? || w.Release? || w.Publish?
  }

  /** Unless a lock has failed, a confirmation shown as awaited is the worker's own. */
  predicate Awaited(s: State) {
    !s.log.lockFault && s.shown.ShownAwaiting? ==>
      AfterAsking(s.worker) && s.worker.r.id == s.shown.id && s.worker.r.needsConfirm
  }

  lemma CallerStepKeepsAwaited(s: State, step: Step)
    requires Awaited(s) && Enabled(s, step) && IsSubmitStep(step)
    ensures Awaited(CallerStep(s, step))
  {}

  lemma StartKeepsAwaited(s: State, section: Section)
    requires Awaited(s) && s.worker.Start?
    ensures Awaited(StartRun(s, s.worker.r, section))
  {}

  lemma LookKeepsAwaited(s: State, section: Section, expired: bool, waitFailed: bool)
    requires Awaited(s)
    ensures s.worker.PollCancel? ==> Awaited(LookForCancel(s, s.worker.r, section))
    ensures s.worker.PollConfirm? ==> Awaited(LookForConfirm(s, s.worker.r, section, expired, waitFailed))
  {}

  lemma ShowKeepsAwaited(s: State, section: Section)
    requires Awaited(s)
    ensures s.worker.Resume? ==> Awaited(ResumeRun(s, s.worker.r, section))
    ensures s.worker.Running? ==> Awaited(ShowProgress(s, s.worker.r, section))
  {}

  lemma RunStepKeepsAwaited(s: State, step: Step)
    requires Awaited(s) && Enabled(s, step) && IsRun(step)
    ensures Awaited(RunStep(s, step))
  {
    hide StartRun;
    hide LookForCancel;
    hide LookForConfirm;
    hide ResumeRun;
    hide ShowProgress;
    match step
    case PublishStart(section) => StartKeepsAwaited(s, section);
    case ReadCancel(section) => LookKeepsAwaited(s, section, false, false);
    case ReadConfirm(section, expired, waitFailed) => LookKeepsAwaited(s, section, expired, waitFailed);
    case PublishResume(section) => ShowKeepsAwaited(s, section);
    case PublishProgress(section) => ShowKeepsAwaited(s, section);
    case _ =>
  }

  lemma CleanupStepKeepsAwaited(s: State, step: Step)
    requires Awaited(s) && Enabled(s, step) && IsCleanup(step)
    ensures Awaited(CleanupStep(s, step))
  {}

  lemma SignalKeepsAwaited(s: State, step: Step)
    requires Awaited(s) && IsSignal(step)
    ensures Awaited(SignalStep(s, step))
  {}

  lemma StepKeepsAwaited(s: State, step: Step)
    requires Awaited(s) && Enabled(s, step)
    ensures Awaited(Apply(s, step))
  {
    hide CallerStep;
    hide RunStep;
    hide CleanupStep;
    hide SignalStep;
    hide Awaited;
    if IsSignal(step) { SignalKeepsAwaited(s, step); }
    else if IsCleanup(step) { CleanupStepKeepsAwaited(s, step); }
    else if IsSubmitStep(step) { CallerStepKeepsAwaited(s, step); }
    else { RunStepKeepsAwaited(s, step); }
  }

  lemma {:induction false} RunKeepsAwaited(s: State, steps: seq<Step>)
    requires Awaited(s) && IsRunOf(s, steps)
    ensures Awaited(After(s, steps))
    decreases |steps|
  {
    hide Apply;
    hide Enabled;
    hide Awaited;
    if steps != [] {
      StepKeepsAwaited(s, steps[0]);
      RunKeepsAwaited(Apply(s, steps[0]), steps[1..]);
    }
  }

  /** A confirmation is recorded only by a confirm call while one is shown as awaited,
      for the request that last claimed the executor. While no lock has failed, the
      request shown is that same one, it was accepted and asks for confirmation, and
      the worker has it. */
  lemma ConfirmedOnlyByCall(steps: seq<Step>, step: Step, id: nat)
    requires IsRunOf(INITIAL, steps) && Enabled(After(INITIAL, steps), step)
    requires id in Apply(After(INITIAL, steps), step).log.confirmed && id !in After(INITIAL, steps).log.confirmed
    ensures var s := After(INITIAL, steps);
      && step.ConfirmCall? && s.busy && s.shown.ShownAwaiting? && id == s.log.lastClaim
      && (!s.log.lockFault ==>
            && s.shown.id == id && id in s.log.accepted
            && AfterAsking(s.worker) && s.worker.r.id == id && s.worker.r.needsConfirm)
  {
    var s := After(INITIAL, steps);
    ConfirmedByStep(s, step, id);
    RunKeepsAwaited(INITIAL, steps);
    InitialInv();
    var place := RunKeepsInv(INITIAL, Nowhere, steps);
    InvParts(s, place);
    hide After;
    hide Apply;
    hide Enabled;
    hide Accounting;
    hide Gate;
    if !s.log.lockFault {
      assert WorkerHolds(s.worker);
      WorkerAlone(s, place);
    }
  }

  const FINE := Section(true, true)
  const LOST := Section(false, false)

  /** With a failed lock it may be another's: the end of a request that awaited its
      confirmation is not shown for want of the lock; another request then claims the
      executor, and a confirm call meant for the first opens the gate of the second
      before that has ever been shown as awaiting. */
  lemma ConfirmedForAnother(s: State, t: nat)
    requires s.worker.Publish? && s.shown == ShownAwaiting(s.worker.r.id) && Pc(s, t).Checked?
    ensures var steps := [PublishTerminal(LOST), ResetFlags(FINE), ClaimBusy(t, FINE), ConfirmCall(true)];
      && IsRunOf(s, steps)
      && After(s, steps).shown == s.shown && Pc(After(s, steps), t) == Claimed(Pc(s, t).r)
      && After(s, steps).confirmRequested && Pc(s, t).r.id in After(s, steps).log.confirmed
  {
    var a, b, c, d := PublishTerminal(LOST), ResetFlags(FINE), ClaimBusy(t, FINE), ConfirmCall(true);
    var s1 := ShowTerminal(s, s.worker.r, s.worker.outcome, LOST);
    var s2 := ResetNow(s1, s1.worker.r, s1.worker.ok, FINE);
    var s3 := Claim(s2, t, FINE);
    assert Apply(s, a) == s1 && Apply(s1, b) == s2 && Apply(s2, c) == s3;
    assert Enabled(s, a) && Enabled(s1, b) && Enabled(s2, c) && Enabled(s3, d);
    assert Apply(s3, d) == SignalStep(s3, d);
    hide Apply;
    hide Enabled;
    FourSteps(s, a, b, c, d);
  }

  lemma FourSteps(s: State, a: Step, b: Step, c: Step, d: Step)
    requires Enabled(s, a) && Enabled(Apply(s, a), b) && Enabled(Apply(Apply(s, a), b), c)
    requires Enabled(Apply(Apply(Apply(s, a), b), c), d)
    ensures IsRunOf(s, [a, b, c, d]) && After(s, [a, b, c, d]) == Apply(Apply(Apply(Apply(s, a), b), c), d)
  {
    hide Apply;
    hide Enabled;
    var s1 := Apply(s, a);
    var s2 := Apply(s1, b);
    var s3 := Apply(s2, c);
    assert [d][1..] == [] && IsRunOf(s3, [d]) && After(s3, [d]) == Apply(s3, d);
    assert [c, d][1..] == [d] && IsRunOf(s2, [c, d]) && After(s2, [c, d]) == After(s3, [d]);
    assert [b, c, d][1..] == [c, d] && IsRunOf(s1, [b, c, d]) && After(s1, [b, c, d]) == After(s2, [c, d]);
    assert [a, b, c, d][1..] == [b, c, d];
  }

  /** Such a state is reached when the first request is cancelled while it waits. */
  lemma AnotherMayFollow(one: Request, two: Request) returns (s: State, steps: seq<Step>)
    requires one.valid && one.needsConfirm && two.valid && one.id != two.id
    ensures IsRunOf(INITIAL, steps) && After(INITIAL, steps) == s
    ensures s.worker.Publish? && s.shown == ShownAwaiting(s.worker.r.id) && s.worker.r == one && Pc(s, 1) == Checked(two)
  {
    hide IsRunOf;
    hide After;
    s, steps := Queued(one);
    s, steps := Asked(s, steps, one);
    s, steps := GivenUp(s, steps, one);
    s, steps := Take(s, steps, BeginSubmit(1, two, true));
  }

  lemma Queued(r: Request) returns (s: State, steps: seq<Step>)
    requires r.valid
    ensures IsRunOf(INITIAL, steps) && After(INITIAL, steps) == s
    ensures Alone(s, r) && s.queue == [r] && s.worker.Idle? && !s.cancelRequested
  {
    hide IsRunOf;
    hide After;
    NoSteps();
    s, steps := Take(INITIAL, [], BeginSubmit(0, r, true));
    s, steps := Take(s, steps, ClaimBusy(0, FINE));
    s, steps := Take(s, steps, SendToQueue(0, true));
  }

  lemma NoSteps()
    ensures IsRunOf(INITIAL, []) && After(INITIAL, []) == INITIAL
  {}

  /** An executor with one request in hand and nothing failed. */
  predicate Alone(s: State, r: Request) {
    && s.busy && !s.unavailable && s.log.known == {r.id} && Pc(s, 1).Away?
  }

  lemma Asked(s: State, steps: seq<Step>, r: Request) returns (next: State, more: seq<Step>)
    requires IsRunOf(INITIAL, steps) && After(INITIAL, steps) == s
    requires Alone(s, r) && s.queue == [r] && s.worker.Idle? && r.valid && r.needsConfirm
    ensures IsRunOf(INITIAL, more) && After(INITIAL, more) == next
    ensures Alone(next, r) && next.worker == PollCancel(r) && next.shown == ShownAwaiting(r.id)
  {
    hide IsRunOf;
    hide After;
    next, more := Take(s, steps, Dequeue);
    next, more := Take(next, more, PublishStart(FINE));
  }

  lemma GivenUp(s: State, steps: seq<Step>, r: Request) returns (next: State, more: seq<Step>)
    requires IsRunOf(INITIAL, steps) && After(INITIAL, steps) == s
    requires Alone(s, r) && s.worker == PollCancel(r)
    ensures IsRunOf(INITIAL, more) && After(INITIAL, more) == next
    ensures Alone(next, r) && next.worker == Publish(r, WasCancelled) && next.shown == s.shown
  {
    hide IsRunOf;
    hide After;
    next, more := Take(s, steps, CancelCall(true));
    next, more := Take(next, more, ReadCancel(FINE));
    next, more := Take(next, more, FreePlan);
    next, more := Take(next, more, FinalRelease(true));
  }

  lemma Take(s: State, steps: seq<Step>, step: Step) returns (next: State, more: seq<Step>)
    requires IsRunOf(INITIAL, steps) && After(INITIAL, steps) == s && Enabled(s, step)
    ensures IsRunOf(INITIAL, more) && After(INITIAL, more) == next == Apply(s, step)
  {
    hide Apply;
    hide Enabled;
    next, more := Apply(s, step), steps + [step];
    assert [step][1..] == [];
    Joined(INITIAL, steps, [step]);
  }

  // ---- Refused claims ----

  /** A claim that was given up is shown as failed at most once, and once unless a lock
      failed; an accepted request never is. */
  ghost predicate Refusals(s: State) {
    && (forall id :: s.log.refusals[id] <= 1)
    && (forall id :: s.log.refusals[id] > 0 ==> id in s.log.known && id !in s.log.accepted)
    && (forall t :: Unrefused(Pc(s, t)) ==> s.log.refusals[Pc(s, t).r.id] == 0)
    && (!s.log.lockFault ==> forall t :: Pc(s, t).RefusalPublished? ==> s.log.refusals[Pc(s, t).r.id] == 1)
  }

  ghost predicate RefusalsFrame(s: State, s': State) {
    && s'.callers == s.callers && s'.log.refusals == s.log.refusals && s'.log.known == s.log.known
    && s'.log.accepted == s.log.accepted && (s.log.lockFault ==> s'.log.lockFault)
  }

  lemma FramedKeepsRefusals(s: State, s': State)
    requires Refusals(s) && RefusalsFrame(s, s')
    ensures Refusals(s')
  {
    assert forall t :: Pc(s', t) == Pc(s, t);
  }

  lemma QuietIsFramed(s: State, s': State)
    requires Quiet(s, s') || CleanupFrame(s, s')
    ensures RefusalsFrame(s, s')
  {}

  lemma GateStepQuiet(s: State, step: Step)
    requires Enabled(s, step) && IsGateStep(step) && s.worker.r.valid
    ensures Quiet(s, RunStep(s, step))
  {
    hide StartRun;
    hide LookForCancel;
    hide LookForConfirm;
    hide ResumeRun;
    hide Quiet;
    match step
    case PublishStart(section) => StartQuiet(s, section);
    case ReadCancel(section) => LookForCancelQuiet(s, section);
    case ReadConfirm(section, expired, waitFailed) => LookForConfirmQuiet(s, section, expired, waitFailed);
    case PublishResume(section) => ResumeQuiet(s, section);
  }

  lemma RunStepRefusalsFrame(s: State, step: Step)
    requires Enabled(s, step) && IsRun(step) && Callers(s)
    ensures RefusalsFrame(s, RunStep(s, step))
  {
    hide Quiet;
    hide CleanupFrame;
    if !step.Dequeue? {
      assert WorkerHolds(s.worker);
      if IsGateStep(step) { GateStepQuiet(s, step); } else { ActionQuiet(s, step); }
      hide RunStep;
      QuietIsFramed(s, RunStep(s, step));
    }
  }

  /** One caller moves on with its request, and no refusal is shown. */
  ghost predicate RefusalMoved(s: State, s': State, t: nat) {
    var pc, pc' := Pc(s, t), Pc(s', t);
    && s'.callers == s.callers[t := pc'] && !pc.Away? && !pc'.Away? && pc'.r == pc.r
    && s'.log.refusals == s.log.refusals && s'.log.known == s.log.known && (s.log.lockFault ==> s'.log.lockFault)
    && (forall id <- s'.log.accepted :: id in s.log.accepted || (pc.Claimed? && id == pc.r.id))
    && (Unrefused(pc') ==> Unrefused(pc)) && !pc'.RefusalPublished?
  }

  predicate Unrefused(pc: Caller) { pc.Checked? || pc.Claimed? || pc.Refusing? }

  lemma ClaimOrSendMoves(s: State, t: nat, section: Section, sent: bool)
    ensures Pc(s, t).Checked? ==> RefusalMoved(s, Claim(s, t, section), t)
    ensures Pc(s, t).Claimed? ==> RefusalMoved(s, Send(s, t, sent), t)
  {}

  lemma ReturnMoves(s: State, t: nat, section: Section)
    ensures Pc(s, t).Sent? ==> RefusalMoved(s, Drop(s, t), t)
    ensures Pc(s, t).RefusalPublished? ==> RefusalMoved(s, ResetRefused(s, t, section), t)
    ensures Pc(s, t).RefusalFaulted? ==> RefusalMoved(s, LatchRefused(s, t), t)
  {}

  lemma MovedKeepsRefusals(s: State, s': State, t: nat)
    requires Refusals(s) && Callers(s) && s.log.accepted <= s.log.known && RefusalMoved(s, s', t)
    ensures Refusals(s')
  {
    assert forall u :: u != t ==> Pc(s', u) == Pc(s, u);
  }

  lemma BeginKeepsRefusals(s: State, t: nat, r: Request, usbReady: bool)
    requires Refusals(s) && r.id !in s.log.known && s.log.accepted <= s.log.known
    ensures Refusals(Begin(s, t, r, usbReady))
  {
    BeginSummary(s, t, r, usbReady);
    hide Begin;
  }

  lemma ShowRefusalKeepsRefusals(s: State, t: nat, released: bool, section: Section)
    requires Refusals(s) && Callers(s) && Pc(s, t).Refusing?
    ensures Refusals(ShowRefusal(s, t, released, section))
  {
    var s' := ShowRefusal(s, t, released, section);
    assert forall u :: u != t ==> Pc(s', u) == Pc(s, u);
    assert forall u :: u != t && !Pc(s, u).Away? ==> Pc(s, u).r.id != Pc(s, t).r.id;
  }

  lemma CallerStepKeepsRefusals(s: State, step: Step)
    requires Refusals(s) && Callers(s) && s.log.accepted <= s.log.known && Enabled(s, step) && IsSubmitStep(step)
    ensures Refusals(CallerStep(s, step))
  {
    hide Refusals;
    hide RefusalMoved;
    hide Callers;
    hide Begin;
    hide Claim;
    hide Send;
    hide Drop;
    hide ShowRefusal;
    hide ResetRefused;
    hide LatchRefused;
    match step
    case BeginSubmit(t, r, usbReady) => BeginKeepsRefusals(s, t, r, usbReady);
    case PublishRefusal(t, released, section) => ShowRefusalKeepsRefusals(s, t, released, section);
    case ClaimBusy(t, section) =>
      ClaimOrSendMoves(s, t, section, true);
      MovedKeepsRefusals(s, CallerStep(s, step), t);
    case SendToQueue(t, sent) =>
      ClaimOrSendMoves(s, t, FINE, sent);
      MovedKeepsRefusals(s, CallerStep(s, step), t);
    case ResetRefusal(t, section) =>
      ReturnMoves(s, t, section);
      MovedKeepsRefusals(s, CallerStep(s, step), t);
    case DropPlan(t) =>
      ReturnMoves(s, t, FINE);
      MovedKeepsRefusals(s, CallerStep(s, step), t);
    case LatchRefusal(t) =>
      ReturnMoves(s, t, FINE);
      MovedKeepsRefusals(s, CallerStep(s, step), t);
  }

  lemma OthersKeepRefusals(s: State, step: Step)
    requires Refusals(s) && Callers(s) && Enabled(s, step) && !IsSubmitStep(step)
    ensures Refusals(Apply(s, step))
  {
    hide CallerStep;
    hide RunStep;
    hide CleanupStep;
    hide SignalStep;
    hide Refusals;
    hide Callers;
    hide Quiet;
    hide CleanupFrame;
    if IsSignal(step) { SignalQuiet(s, step); }
    else if IsCleanup(step) { CleanupFramed(s, step); }
    else { RunStepRefusalsFrame(s, step); }
    if !IsRun(step) {
      QuietIsFramed(s, Apply(s, step));
    }
    FramedKeepsRefusals(s, Apply(s, step));
  }

  lemma StepKeepsRefusals(s: State, place: Place, step: Step)
    requires Refusals(s) && Inv(s, place) && Enabled(s, step)
    ensures Refusals(Apply(s, step))
  {
    InvParts(s, place);
    assert s.log.accepted <= s.log.known;
    hide CallerStep;
    hide RunStep;
    hide CleanupStep;
    hide SignalStep;
    hide Refusals;
    hide Callers;
    hide Ownership;
    hide Gate;
    hide HeldAt;
    if IsSubmitStep(step) { CallerStepKeepsRefusals(s, step); } else { OthersKeepRefusals(s, step); }
  }

  lemma {:induction false} RunKeepsRefusals(s: State, place: Place, steps: seq<Step>)
    requires Refusals(s) && Inv(s, place) && IsRunOf(s, steps)
    ensures Refusals(After(s, steps))
    decreases |steps|
  {
    hide Apply;
    hide Enabled;
    hide Refusals;
    hide Inv;
    if steps != [] {
      StepKeepsRefusals(s, place, steps[0]);
      StepKeepsInv(s, place, steps[0]);
      RunKeepsRefusals(Apply(s, steps[0]), NextPlace(s, steps[0], place), steps[1..]);
    }
  }

  /** Whatever happens, a request is shown as ended at most once: by the worker if it
      was accepted, by its caller if its claim was given up. */
  lemma EndedAtMostOnce(steps: seq<Step>, id: nat)
    requires IsRunOf(INITIAL, steps)
    ensures var s := After(INITIAL, steps);
      && s.log.terminals[id] + s.log.refusals[id] <= 1
      && (id in s.log.accepted ==> s.log.refusals[id] == 0)
  {
    InitialInv();
    RunKeepsRefusals(INITIAL, Nowhere, steps);
    ExactlyOnce(steps, id);
    hide After;
  }

  // ---- The latch ----

  lemma StepKeepsLatch(s: State, step: Step)
    requires s.unavailable && Enabled(s, step)
    ensures Apply(s, step).unavailable
  {
    hide CallerStep;
    hide RunStep;
    hide CleanupStep;
    hide SignalStep;
    if IsSignal(step) { SignalKeepsLatch(s, step); }
    else if IsCleanup(step) { CleanupStepSteady(s, step); }
    else if IsSubmitStep(step) { CallerStepSteady(s, step); }
    else { RunStepSteady(s, step); }
  }

  lemma {:induction false} RunKeepsLatch(s: State, steps: seq<Step>)
    requires s.unavailable && IsRunOf(s, steps)
    ensures After(s, steps).unavailable
    decreases |steps|
  {
    if steps != [] {
      assert Enabled(s, steps[0]) && IsRunOf(Apply(s, steps[0]), steps[1..]);
      StepKeepsLatch(s, steps[0]);
      hide Apply;
      hide Enabled;
      RunKeepsLatch(Apply(s, steps[0]), steps[1..]);
    }
  }

  /** The latch never opens again: after any further steps, a submission that starts
      is refused with no effect on the executor. */
  lemma LatchRefuses(s: State, steps: seq<Step>, t: nat, r: Request, usbReady: bool)
    requires s.unavailable && IsRunOf(s, steps)
    requires Enabled(After(s, steps), BeginSubmit(t, r, usbReady))
    ensures var later := After(s, steps);
      Apply(later, BeginSubmit(t, r, usbReady))
        == later.(callers := later.callers[t := Returned(r, false)], log := later.log.(known := later.log.known + {r.id}))
  {
    RunKeepsLatch(s, steps);
    hide After;
  }
}
