/** From macro source to the reports on the wire: the compiler, the executor and the
    USB layer together. */
module EndToEnd {
  import opened Errors
  import opened MacroKeymap
  import opened MacroCompiler
  import opened MacroPrinter
  import opened MacroComposition
  import opened ExecutorEngine
  import opened UsbKeyboard

  /** Every action of a compiled plan that is not a delay is a key press the USB layer
      accepts, and its usages are real keys. */
  lemma ActionPressable(a: Action)
    requires ActionShape(a) && a.kind != Delay
    ensures Pressable(ReportOf(a)) && 0 !in ReportOf(a).usages
  {}

  lemma {:induction false} ReportsSendable(actions: seq<Action>)
    requires forall a <- actions :: ActionShape(a)
    ensures forall r <- Reports(actions) :: Pressable(r) && 0 !in r.usages
  {
    hide ActionShape;
    if actions != [] {
      var last := actions[|actions| - 1];
      ReportsSendable(actions[..|actions| - 1]);
      if last.kind != Delay { ActionPressable(last); }
    }
  }

  /** Compiled plans meet the executor's validation, except for the empty source. */
  lemma CompiledIsValid(source: string, options: Options, plan: Plan, request: Request)
    requires Compile(source, options) == Done(plan)
    requires request.plan == plan && request.keyPressMs == options.keyPressMs && request.interKeyMs == options.interKeyMs
    requires request.identifiersValid && request.macroRevision != 0
    ensures ValidRequest(request) <==> source != []
    ensures PlanShape(plan.actions)
  {
    CompileMeaning(source, options, plan);
    LexShape(source);
    if source != [] { LexReadsFirst(source); }
  }

  lemma {:induction false} PressesFromCalls(calls: seq<HidCall>)
    requires forall r <- Presses(calls) :: Pressable(r) && 0 !in r.usages
    ensures Sendable(calls)
  {
    if calls != [] {
      var init, last := calls[..|calls| - 1], calls[|calls| - 1];
      forall r | r in Presses(init) ensures Pressable(r) && 0 !in r.usages { assert r in Presses(calls); }
      PressesFromCalls(init);
      if last.Press? { assert last.report in Presses(calls); }
    }
  }

  /** In a quiet environment: a confirmation is asked for by `time`. */
  predicate InTime(engine: Engine, time: nat) {
    engine.confirmAt.Some? && engine.confirmAt.value <= time
  }

  /** Submitting and executing what a source compiles to. Whatever fails, only the
      plan's own reports are pressed, in order and without skipping one, and each is
      acceptable to the USB layer; a run without error presses all of them, takes the
      time the compiler estimated, and the host sees exactly those strokes, each of
      them released before the next. In a quiet environment there is never an error,
      because every compiled plan finishes before the absolute deadline: except that
      a confirmation that is required and not asked for within 60 seconds ends the
      run with nothing pressed. */
  method SubmitAndExecute(engine: Engine, source: string, options: Options, plan: Plan, request: Request)
    returns (submitted: Error, result: Error, ghost primary: Error)
    requires source != [] && Compile(source, options) == Done(plan)
    requires request.plan == plan && request.keyPressMs == options.keyPressMs && request.interKeyMs == options.interKeyMs
    requires request.identifiersValid && request.macroRevision != 0
    requires engine.confirmedRequested ==> engine.confirmed
    modifies engine
    ensures submitted == NoError ==>
      && !old(engine.unavailable) && !old(engine.busy)
      && engine.plansFreed == 1
      && Presses(engine.calls) <= Reports(plan.actions)
      && Sendable(engine.calls)
      && (request.requireConfirmation ==> !engine.pressedEarly && (Presses(engine.calls) != [] ==> engine.confirmed))
    ensures submitted == NoError && primary == NoError ==>
      && Sendable(engine.calls)
      && Strokes(Wire(engine.calls)) == Presses(engine.calls) == Reports(plan.actions)
      && Separated(Wire(engine.calls))
      && engine.waited == plan.estimatedMs
    ensures submitted == NoError && result == NoError ==> primary == NoError && !engine.busy
    ensures engine.reliable && !old(engine.unavailable) && !old(engine.busy) ==>
      var latest := old(engine.clock) + CONFIRMATION_TIMEOUT_MS;
      && submitted == NoError
      && (!request.requireConfirmation || InTime(engine, latest) ==> result == NoError)
      && (request.requireConfirmation && !InTime(engine, latest + CANCELLATION_SLICE_MS) ==>
            result == Timeout && Presses(engine.calls) == [])
  {
    hide Compile;
    hide Presses;
    hide Reports;
    hide PlanShape;
    hide Wire;
    hide Strokes;
    hide Duration;
    CompiledIsValid(source, options, plan, request);
    result, primary := NoError, NoError;
    var after;
    ghost var queued;
    submitted, after, queued := engine.Submit(request);
    if submitted != NoError { return; }
    var accepted := request.(acceptedMs := after.acceptedMs);
    ghost var terminal;
    CompiledTime(source, options, plan);
    result, primary, terminal := engine.Execute(accepted);
    Compiled(source, options, plan, engine.calls);
    if primary == NoError { RunOnTheWire(engine.calls); }
  }

  lemma CompiledTime(source: string, options: Options, plan: Plan)
    requires Compile(source, options) == Done(plan)
    ensures plan.estimatedMs == Duration(plan.actions, options)
  {
    CompileMeaning(source, options, plan);
  }

  lemma Compiled(source: string, options: Options, plan: Plan, calls: seq<HidCall>)
    requires Compile(source, options) == Done(plan)
    requires Presses(calls) <= Reports(plan.actions)
    ensures Sendable(calls) && plan.estimatedMs == Duration(plan.actions, options)
  {
    hide Compile;
    CompileMeaning(source, options, plan);
    LexShape(source);
    ReportsSendable(plan.actions);
    PressesFromCalls(calls);
  }

  // ---- Typing text ----

  /** The text a US-layout host makes of a sequence of strokes. */
  function HostText(strokes: seq<Report>): Option<string> {
    if strokes == [] then Some([])
    else
      var last := strokes[|strokes| - 1];
      if |last.usages| != 1 then None
      else match KeyChar(HidKey(last.modifiers, last.usages[0]))
        case None => None
        case Some(c) =>
          match HostText(strokes[..|strokes| - 1])
          case None => None
          case Some(text) => Some(text + [c])
  }

  lemma {:induction false} TypedTextReports(text: string)
    requires forall c <- text :: IsTypable(c)
    ensures HostText(Reports(TypedText(text))) == Some(text)
    decreases |text|
  {
    hide CharKey;
    hide KeyShape;
    hide KeyChar;
    if text != [] {
      var init, c := text[..|text| - 1], text[|text| - 1];
      TypedTextReports(init);
      TypedTextAppend(init, c);
      assert text == init + [c];
      CharKeyShape(c);
      var actions := TypedText(text);
      assert actions[..|actions| - 1] == TypedText(init);
      var strokes := Reports(actions);
      assert strokes == Reports(TypedText(init)) + [ReportOf(KeyAction(CharKey(c)))];
      assert strokes[..|strokes| - 1] == Reports(TypedText(init));
    }
  }

  lemma {:induction false} TypedTextAppend(text: string, c: char)
    requires IsTypable(c) && forall d <- text :: IsTypable(d)
    ensures TypedText(text + [c]) == TypedText(text) + [KeyAction(CharKey(c))]
    decreases |text|
  {
    hide CharKey;
    if text == [] {
      assert [c][1..] == [];
    } else {
      assert (text + [c])[1..] == text[1..] + [c];
      TypedTextAppend(text[1..], c);
    }
  }

  /** Text that is escaped, compiled and run without error arrives on the host, through
      the boot reports on the wire, character for character. */
  lemma TextArrives(text: string, options: Options, plan: Plan, calls: seq<HidCall>)
    requires forall c <- text :: IsTypable(c)
    requires Compile(Escape(text), options) == Done(plan)
    requires Presses(calls) == Reports(plan.actions) && EveryPressReleased(calls)
    requires calls != [] && calls[|calls| - 1].ReleaseAll?
    requires forall i :: 0 <= i < |calls| - 1 ==> calls[i].result == NoError
    ensures Sendable(calls) && HostText(Strokes(Wire(calls))) == Some(text)
  {
    hide Compile;
    hide PlanShape;
    hide Wire;
    hide Strokes;
    hide HostText;
    Compiled(Escape(text), options, plan, calls);
    CompileMeaning(Escape(text), options, plan);
    TypedTextPrints(text);
    PrintLexes(TypedText(text));
    TypedTextReports(text);
    RunOnTheWire(calls);
  }
}
