/** The compiler's loops over mutable state, each proved against its function in
    `MacroCompiler`. */
module MacroParser {
  import opened Errors
  import opened MacroKeymap
  import opened MacroCompiler

  datatype ParseError = ParseError(code: Error, byteOffset: nat, line: nat, column: nat, message: Message)

  datatype Result = Success(plan: Plan) | Failure(error: ParseError)

  function Newlines(s: string): nat {
    if s == [] then 0 else Newlines(s[..|s| - 1]) + if s[|s| - 1] == '\n' then 1 else 0
  }

  /** `line` counts the newlines before `offset`; `column` counts back to the last one. */
  ghost predicate IsPosition(source: string, offset: nat, line: nat, column: nat)
    requires offset <= |source|
  {
    && line == 1 + Newlines(source[..offset])
    && 1 <= column <= offset + 1
    && (forall i :: offset - (column - 1) <= i < offset ==> source[i] != '\n')
    && (column <= offset ==> source[offset - column] == '\n')
  }

  /** `v2_locate`. */
  method Locate(source: string, offset: nat) returns (line: nat, column: nat)
    requires offset <= |source|
    ensures IsPosition(source, offset, line, column)
  {
    line, column := 1, 1;
    var index := 0;
    while index < offset
      invariant index <= offset && IsPosition(source, index, line, column)
    {
      assert source[..index + 1][..index] == source[..index];
      if source[index] == '\n' {
        line, column := line + 1, 1;
      } else {
        column := column + 1;
      }
      index := index + 1;
    }
  }

  /** `v2_parse_delay`. */
  method ParseDelayLoop(directive: string) returns (r: DelayValue)
    ensures r == ParseDelay(directive)
  {
    if |directive| <= 6 || directive[..6] != DELAY_PREFIX {
      return BadDelay(MacroSyntax);
    }
    var value: nat, index := 0, 6;
    while index < |directive|
      invariant 6 <= index <= |directive|
      invariant DelayDigits(directive[6..], 0) == DelayDigits(directive[index..], value)
    {
      var c := directive[index];
      assert directive[index..][1..] == directive[index + 1..];
      if !IsDigit(c) {
        return BadDelay(MacroSyntax);
      }
      if value > (UINT32_MAX - Digit(c)) / 10 {
        return BadDelay(MacroLimit);
      }
      value, index := value * 10 + Digit(c), index + 1;
    }
    r := if value == 0 || value > DELAY_MAX_MS then BadDelay(MacroLimit) else Milliseconds(value);
  }

  /** `v2_group_accumulator_t`: six usage slots of which the first `count` are used. */
  class GroupAccumulator {
    var modifiers: bv8
    var usages: array<nat>
    var count: nat

    ghost predicate Valid()
      reads this
    {
      usages.Length == USAGES_MAX && count <= USAGES_MAX
    }

    function View(): Accumulator
      requires Valid()
      reads this, usages
    {
      Accumulator(modifiers, usages[..count])
    }

    constructor ()
      ensures Valid() && fresh(usages) && View() == EMPTY_GROUP
    {
      modifiers, count := 0, 0;
      usages := new nat[USAGES_MAX];
    }

    method Holds(usage: nat) returns (found: bool)
      requires Valid()
      ensures found <==> usage in View().usages
    {
      var existing := 0;
      while existing < count
        invariant existing <= count
        invariant usage !in usages[..existing]
      {
        if usages[existing] == usage {
          assert usages[existing] == View().usages[existing];
          return true;
        }
        existing := existing + 1;
      }
      found := false;
    }

    /** `v2_merge_group_member`. */
    method Merge(member: Action) returns (failure: Option<(Error, Message)>)
      requires Valid()
      modifies this`modifiers, this`count, usages
      ensures Valid()
      ensures match MergeMember(old(View()), member)
        case Merged(next) => failure == None && View() == next
        case NotMerged(code, message) => failure == Some((code, message))
    {
      if modifiers & member.modifiers != 0 {
        return Some((MacroSyntax, DuplicateModifier));
      }
      modifiers := modifiers | member.modifiers;
      var index := 0;
      while index < |member.usages|
        invariant index <= |member.usages| && Valid()
        invariant MergeMember(old(View()), member) == MergeUsages(View(), member.usages[index..])
      {
        var usage := member.usages[index];
        assert member.usages[index..][1..] == member.usages[index + 1..];
        var duplicate := Holds(usage);
        if duplicate {
          return Some((MacroSyntax, DuplicateKey));
        }
        if count >= USAGES_MAX {
          return Some((MacroLimit, GroupTooLarge));
        }
        ghost var before := View();
        usages[count] := usage;
        count := count + 1;
        assert View() == before.(usages := before.usages + [usage]);
        index := index + 1;
      }
      failure := None;
    }
  }

  /** `v2_scan_group_content`, driving `v2_scan_group_step`. */
  method ScanGroupLoop(s: string) returns (r: GroupScan)
    requires s != [] && s[0] == '['
    ensures r == ScanGroup(s, 1, EMPTY_GROUP)
  {
    hide NonBracketToken;
    var accumulator := new GroupAccumulator();
    var i := 1;
    while true
      invariant 1 <= i <= |s|
      invariant accumulator.Valid() && fresh(accumulator) && fresh(accumulator.usages)
      invariant ScanGroup(s, 1, EMPTY_GROUP) == ScanGroup(s, i, accumulator.View())
      decreases |s| - i
    {
      if i >= |s| {
        return BadGroup(MacroSyntax, 0, UnmatchedOpenBracket);
      }
      var member: Action, consumed: nat;
      if s[i] == ']' {
        if !Doubled(s, i) {
          if accumulator.count == 0 && accumulator.modifiers == 0 {
            return BadGroup(MacroSyntax, 0, EmptyGroup);
          }
          return Group(accumulator.View(), i + 1);
        }
        member, consumed := KeyAction(HidKey(0, KEY_RIGHT_BRACE)), 2;
      } else if s[i] == '[' {
        if !Doubled(s, i) {
          return BadGroup(MacroSyntax, i, NestedGroup);
        }
        member, consumed := KeyAction(HidKey(0, KEY_LEFT_BRACE)), 2;
      } else {
        match NonBracketToken(s[i..])
        case Reject(code, at, message) =>
          return BadGroup(code, i + at, message);
        case Token(action, length) =>
          if action.kind == Delay {
            return BadGroup(MacroSyntax, i, DelayInGroup);
          }
          member, consumed := action, length;
      }
      var failure := accumulator.Merge(member);
      if failure.Some? {
        return BadGroup(failure.value.0, i, failure.value.1);
      }
      i := i + consumed;
    }
  }

  /** The plan under construction: a full-size buffer and how much of it is used. */
  class WorkingPlan {
    var actions: array<Action>
    var actionCount: nat
    var estimatedMs: nat

    ghost predicate Valid()
      reads this
    {
      actions.Length == ACTIONS_MAX && actionCount <= ACTIONS_MAX
    }

    function View(): Plan
      requires Valid()
      reads this, actions
    {
      Plan(actions[..actionCount], estimatedMs)
    }

    constructor ()
      ensures Valid() && fresh(actions) && View() == EMPTY_PLAN
    {
      actions := new Action[ACTIONS_MAX](_ => Action(Key, 0, [], 0));
      actionCount, estimatedMs := 0, 0;
    }

    /** `v2_append_action`: a refused action leaves the plan as it was. */
    method Append(action: Action, options: Options) returns (refusal: Option<Message>)
      requires Valid()
      modifies this`actionCount, this`estimatedMs, actions
      ensures Valid()
      ensures match AppendAction(old(View()), action, options)
        case Appended(next) => refusal == None && View() == next
        case Refused(message) => refusal == Some(message) && View() == old(View())
    {
      if actionCount >= ACTIONS_MAX {
        return Some(ActionLimit);
      }
      var duration := action.delayMs;
      if action.kind != Delay {
        var sum := SafeAdd(options.keyPressMs, options.interKeyMs);
        if sum == None {
          return Some(DurationOverflow);
        }
        duration := sum.value;
      }
      var total := SafeAdd(estimatedMs, duration);
      if total == None || total.value > DURATION_MAX_MS {
        return Some(DurationLimit);
      }
      actions[actionCount] := action;
      actionCount := actionCount + 1;
      estimatedMs := total.value;
      refusal := None;
    }
  }

  method Fail(source: string, offset: nat, message: Message, code: Error) returns (r: Result)
    requires offset <= |source|
    ensures r.Failure? && r.error.code == code && r.error.byteOffset == offset && r.error.message == message
    ensures IsPosition(source, offset, r.error.line, r.error.column)
  {
    var line, column := Locate(source, offset);
    r := Failure(ParseError(code, offset, line, column, message));
  }

  /** `macro_compile_v2` for given timing options, with where and why it failed. */
  method CompileV2(source: string, options: Options) returns (r: Result)
    ensures match Compile(source, options)
      case Done(plan) => r == Success(plan)
      case Stopped(code, at, message) =>
        && r.Failure? && at <= |source|
        && r.error.code == code && r.error.byteOffset == at && r.error.message == message
        && IsPosition(source, at, r.error.line, r.error.column)
  {
    hide NextToken;
    if options.keyPressMs > KEY_PRESS_MAX_MS || options.interKeyMs > INTER_KEY_MAX_MS {
      r := Fail(source, 0, InvalidTiming, InvalidArgument);
      return;
    }
    if |source| > SOURCE_MAX_BYTES {
      r := Fail(source, 0, SourceTooLong, MacroLimit);
      return;
    }
    var working := new WorkingPlan();
    var offset := 0;
    while offset < |source|
      invariant offset <= |source|
      invariant working.Valid() && fresh(working) && fresh(working.actions)
      invariant Compile(source, options) == CompileFrom(source, offset, working.View(), options)
    {
      match NextToken(source[offset..])
      case Reject(code, at, message) =>
        r := Fail(source, offset + at, message, code);
        return;
      case Token(action, consumed) =>
        var refusal := working.Append(action, options);
        if refusal.Some? {
          r := Fail(source, offset, refusal.value, MacroLimit);
          return;
        }
        offset := offset + consumed;
    }
    r := Success(working.View());
  }
}
