/** The USB keyboard state layer: when it accepts a press, the boot report it sends,
    and what a host makes of the reports on the wire (Device Class Definition for HID
    1.11, appendix B.1: a modifier byte and six key codes, zero meaning no key). */
module UsbKeyboard {
  import opened Errors
  import opened MacroCompiler
  import opened ExecutorEngine

  const KEYCODE_COUNT := 6
  const READY_TIMEOUT_MS := 100

  datatype BootReport = BootReport(modifiers: bv8, keycodes: seq<nat>)

  const ALL_RELEASED := BootReport(0, [0, 0, 0, 0, 0, 0])

  /** What `usb_keyboard_state_press` demands of a key. */
  predicate Pressable(report: Report) {
    (report.modifiers != 0 || report.usages != []) && |report.usages| <= KEYCODE_COUNT
  }

  /** A host's reading of one boot report: the keys that are down. */
  function ReadKeys(keycodes: seq<nat>): seq<nat> {
    if keycodes == [] then []
    else if keycodes[0] == 0 then ReadKeys(keycodes[1..])
    else [keycodes[0]] + ReadKeys(keycodes[1..])
  }

  function HostReads(boot: BootReport): Report { Report(boot.modifiers, ReadKeys(boot.keycodes)) }

  /** The six key codes: the usages, padded with zeros. */
  function Padded(usages: seq<nat>, length: nat): (codes: seq<nat>)
    requires |usages| <= length
    ensures |codes| == length
  {
    usages + seq(length - |usages|, _ => 0)
  }

  function BootOf(report: Report): BootReport
    requires Pressable(report)
  {
    BootReport(report.modifiers, Padded(report.usages, KEYCODE_COUNT))
  }

  lemma {:induction false} PaddingReadsNothing(k: nat)
    ensures ReadKeys(seq(k, _ => 0)) == []
  {
    if k > 0 {
      assert seq(k, _ => 0)[1..] == seq(k - 1, _ => 0);
      PaddingReadsNothing(k - 1);
    }
  }

  lemma {:induction false} PaddedReads(usages: seq<nat>, length: nat)
    requires |usages| <= length && 0 !in usages
    ensures ReadKeys(Padded(usages, length)) == usages
    decreases |usages|
  {
    if usages == [] {
      assert Padded(usages, length) == seq(length, _ => 0);
      PaddingReadsNothing(length);
    } else {
      assert Padded(usages, length)[1..] == Padded(usages[1..], length - 1);
      PaddedReads(usages[1..], length - 1);
    }
  }

  /** A host reads back exactly what was pressed, and never mistakes it for a release. */
  lemma BootReportReads(report: Report)
    requires Pressable(report) && 0 !in report.usages
    ensures HostReads(BootOf(report)) == report && BootOf(report) != ALL_RELEASED
  {
    PaddedReads(report.usages, KEYCODE_COUNT);
    PaddingReadsNothing(KEYCODE_COUNT);
    assert ALL_RELEASED.keycodes == seq(KEYCODE_COUNT, _ => 0);
  }

  datatype UsbState = Uninitialized | Disconnected | Enumerating | Ready | Suspended | Faulty

  class Keyboard {
    /** Written by USB callbacks, so any read may find it changed. */
    var state: UsbState
    var clock: nat
    /** Reports handed to the host. */
    ghost var wire: seq<BootReport>
    /** The host is connected and takes every report. */
    const attached: bool

    constructor (connected: bool)
      ensures state == Uninitialized && wire == [] && attached == connected
    {
      state, clock, wire, attached := Uninitialized, 0, [], connected;
    }

    /** One answer of the USB stack. */
    method Answers() returns (yes: bool)
      ensures attached ==> yes
    {
      var no: bool := *;
      yes := attached || !no;
    }

    method StateGet() returns (now: UsbState)
      modifies this`state
      ensures now == state && (attached ==> now == Ready)
    {
      state := *;
      if attached { state := Ready; }
      now := state;
    }

    method NowMs() returns (now: nat)
      modifies this`clock
      ensures old(clock) <= clock <= old(clock) + MAX_STALL_MS && now == clock % TICKS
    {
      var stall: nat := *;
      clock := clock + if 0 <= stall <= MAX_STALL_MS then stall else 0;
      now := clock % TICKS;
    }

    method DelayMs()
      modifies this`clock
      ensures old(clock) < clock <= old(clock) + MAX_STALL_MS
    {
      var stall: nat := *;
      clock := clock + if 1 <= stall <= MAX_STALL_MS then stall else 1;
    }

    /** `wait_until_ready`: it gives up only once the true time allowed has passed,
        although it compares wrapping clock readings. */
    method WaitUntilReady() returns (result: Error)
      modifies this`state, this`clock
      ensures result == NoError || result == UsbNotReady || result == Timeout
      ensures result == UsbNotReady ==> state != Ready
      ensures result == Timeout ==> clock >= old(clock) + READY_TIMEOUT_MS
      ensures attached ==> result == NoError
    {
      var start := NowMs();
      ghost var due := clock + READY_TIMEOUT_MS;
      var deadline := (start + READY_TIMEOUT_MS) % TICKS;
      assert deadline == due % TICKS;
      while true
        invariant due - READY_TIMEOUT_MS <= clock < due + 2 * MAX_STALL_MS
        invariant due >= old(clock) + READY_TIMEOUT_MS
        decreases due + 2 * MAX_STALL_MS - clock
      {
        var ready := Answers();
        if ready { return NoError; }
        var now := StateGet();
        if now != Ready { return UsbNotReady; }
        var time := NowMs();
        DeadlineTestAgrees(clock, due);
        if DeadlineExpired(time, deadline) { return Timeout; }
        DelayMs();
      }
    }

    /** The checks and the report shared by a press and a release. */
    method Send(boot: BootReport) returns (result: Error)
      modifies this
      ensures wire == if result == NoError then old(wire) + [boot] else old(wire)
      ensures result == NoError || result == UsbNotReady || result == Timeout || result == IoError
      ensures attached ==> result == NoError
    {
      var now := StateGet();
      var mounted := Answers();
      var awake := Answers();
      if now != Ready || !mounted || !awake { return UsbNotReady; }
      result := WaitUntilReady();
      if result != NoError { return; }
      var sent := Answers();
      if !sent { return IoError; }
      wire := wire + [boot];
    }

    /** `usb_keyboard_state_press`, with its loop that fills the key code buffer. */
    method Press(report: Report) returns (result: Error)
      modifies this
      ensures result == InvalidArgument <==> !Pressable(report)
      ensures wire == if result == NoError then old(wire) + [BootOf(report)] else old(wire)
      ensures attached ==> (result == NoError <==> Pressable(report))
    {
      if !Pressable(report) { return InvalidArgument; }
      var keycodes := new nat[KEYCODE_COUNT](_ => 0);
      var index := 0;
      while index < |report.usages|
        modifies keycodes
        invariant index <= |report.usages|
        invariant keycodes[..] == Padded(report.usages[..index], KEYCODE_COUNT)
      {
        keycodes[index] := report.usages[index];
        index := index + 1;
      }
      assert report.usages[..|report.usages|] == report.usages;
      var boot := BootReport(report.modifiers, keycodes[..]);
      assert boot == BootOf(report);
      result := Send(boot);
    }

    /** `usb_keyboard_state_release_all`. */
    method ReleaseAll() returns (result: Error)
      modifies this
      ensures wire == if result == NoError then old(wire) + [ALL_RELEASED] else old(wire)
      ensures attached ==> result == NoError
    {
      result := Send(ALL_RELEASED);
    }
  }

  // ---- A run on the wire ----

  predicate Sendable(calls: seq<HidCall>) {
    forall call <- calls :: call.Press? ==> Pressable(call.report) && 0 !in call.report.usages
  }

  /** The reports a sequence of calls puts on the wire. */
  function Wire(calls: seq<HidCall>): seq<BootReport>
    requires Sendable(calls)
  {
    if calls == [] then []
    else
      var last := calls[|calls| - 1];
      Wire(calls[..|calls| - 1]) +
      if last.result != NoError then []
      else if last.Press? then [BootOf(last.report)]
      else [ALL_RELEASED]
  }

  /** What a host takes for key strokes: the reports that are not releases. */
  function Strokes(wire: seq<BootReport>): seq<Report> {
    if wire == [] then []
    else
      var last := wire[|wire| - 1];
      Strokes(wire[..|wire| - 1]) + if last == ALL_RELEASED then [] else [HostReads(last)]
  }

  /** No two strokes run together: between any two there is a release. */
  ghost predicate Separated(wire: seq<BootReport>) {
    forall i :: 0 < i < |wire| ==> wire[i - 1] == ALL_RELEASED || wire[i] == ALL_RELEASED
  }

  lemma NothingSent()
    ensures Sendable([]) && Wire([]) == []
  {}

  /** What one call adds. */
  lemma WireNext(calls: seq<HidCall>, call: HidCall)
    requires Sendable(calls) && (call.Press? ==> Pressable(call.report) && 0 !in call.report.usages)
    ensures Sendable(calls + [call])
    ensures Wire(calls + [call]) == Wire(calls) +
      if call.result != NoError then [] else if call.Press? then [BootOf(call.report)] else [ALL_RELEASED]
  {
    assert (calls + [call])[..|calls|] == calls;
  }

  /** The calls of a worker on the keyboard, `None` for a release of all keys: whatever
      the results are, exactly the reports of `Wire` reach the host. */
  method Play(keyboard: Keyboard, keys: seq<Option<Report>>) returns (ghost calls: seq<HidCall>)
    requires forall key <- keys :: key.Some? ==> Pressable(key.value) && 0 !in key.value.usages
    modifies keyboard
    ensures |calls| == |keys| && Sendable(calls)
    ensures forall i :: 0 <= i < |keys| ==>
      calls[i] == if keys[i].Some? then Press(keys[i].value, calls[i].result) else HidCall.ReleaseAll(calls[i].result)
    ensures keyboard.wire == old(keyboard.wire) + Wire(calls)
    ensures keyboard.attached ==> forall call <- calls :: call.result == NoError
  {
    hide Wire;
    hide Sendable;
    hide Pressable;
    hide BootOf;
    calls := [];
    assert Sendable([]) && Wire([]) == [] by { NothingSent(); }
    var index := 0;
    while index < |keys|
      invariant |calls| == index <= |keys| && Sendable(calls)
      invariant forall i :: 0 <= i < index ==>
        calls[i] == if keys[i].Some? then Press(keys[i].value, calls[i].result) else HidCall.ReleaseAll(calls[i].result)
      invariant keyboard.wire == old(keyboard.wire) + Wire(calls)
      invariant keyboard.attached ==> forall call <- calls :: call.result == NoError
    {
      ghost var call;
      match keys[index] {
        case Some(report) =>
          var result := keyboard.Press(report);
          call := Press(report, result);
        case None =>
          var result := keyboard.ReleaseAll();
          call := HidCall.ReleaseAll(result);
      }
      WireNext(calls, call);
      calls := calls + [call];
      index := index + 1;
    }
  }

  lemma {:induction false} WireStrokes(calls: seq<HidCall>)
    requires Sendable(calls) && forall call <- calls :: call.Press? ==> call.result == NoError
    ensures Strokes(Wire(calls)) == Presses(calls)
  {
    if calls != [] {
      var init, last := calls[..|calls| - 1], calls[|calls| - 1];
      WireStrokes(init);
      if last.Press? { BootReportReads(last.report); }
      var sent := Wire(calls);
      if sent != Wire(init) {
        assert sent[..|sent| - 1] == Wire(init);
      }
    }
  }

  lemma {:induction false} WireAll(calls: seq<HidCall>)
    requires Sendable(calls) && forall call <- calls :: call.result == NoError
    ensures var sent := Wire(calls);
      |sent| == |calls| && forall i :: 0 <= i < |calls| && calls[i].ReleaseAll? ==> sent[i] == ALL_RELEASED
  {
    if calls != [] { WireAll(calls[..|calls| - 1]); }
  }

  /** A run whose calls succeed, but for a closing release that may fail: the host sees
      every press as a stroke of its own, and ends with all keys up. */
  lemma RunOnTheWire(calls: seq<HidCall>)
    requires Sendable(calls) && EveryPressReleased(calls)
    requires calls != [] && calls[|calls| - 1].ReleaseAll?
    requires forall i :: 0 <= i < |calls| - 1 ==> calls[i].result == NoError
    ensures Strokes(Wire(calls)) == Presses(calls) && Separated(Wire(calls))
    ensures Wire(calls) != [] && calls[|calls| - 1].result == NoError ==> Wire(calls)[|Wire(calls)| - 1] == ALL_RELEASED
  {
    WireStrokes(calls);
    var init := calls[..|calls| - 1];
    WireAll(init);
    var sent := Wire(init);
    forall i | 0 < i < |sent| ensures sent[i - 1] == ALL_RELEASED || sent[i] == ALL_RELEASED {
      assert calls[i - 1].Press? ==> calls[i].ReleaseAll?;
    }
  }
}
