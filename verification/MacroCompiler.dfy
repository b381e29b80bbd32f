/** The macro compiler: one token at a time, from source text to an action plan.

    A source byte is a `char` whose code is the byte. Token parsers see the rest of
    the source, so offsets they report count from the token; `Compile` shifts them. */
module MacroCompiler {
  import opened Errors
  import opened MacroKeymap

  const USAGES_MAX := 6
  const ACTIONS_MAX := 4096
  const SOURCE_MAX_BYTES := 4096
  const DELAY_MAX_MS := 10000
  const KEY_PRESS_MAX_MS := 10000
  const INTER_KEY_MAX_MS := 10000
  const DURATION_MAX_MS := 300000
  const DIRECTIVE_BUFFER_BYTES := 64

  datatype Kind = Key | Chord | Delay

  datatype Action = Action(kind: Kind, modifiers: bv8, usages: seq<nat>, delayMs: nat)

  datatype Plan = Plan(actions: seq<Action>, estimatedMs: nat)

  datatype Options = Options(keyPressMs: nat, interKeyMs: nat)

  datatype Message =
    | ActionLimit | DurationOverflow | DurationLimit | InvalidDirective | DelayRange | InvalidDelay
    | UnknownDirective | DuplicateModifier | DuplicateKey | GroupTooLarge | Unsupported
    | UnmatchedOpenBrace | UnmatchedCloseBrace | LoneCarriageReturn | EmptyGroup | NestedGroup
    | DelayInGroup | UnmatchedOpenBracket | UnmatchedCloseBracket | InvalidTiming | SourceTooLong

  datatype Parsed =
    | Token(action: Action, consumed: nat)
    | Reject(code: Error, at: nat, message: Message)

  function Syntax(at: nat, message: Message): Parsed { Reject(MacroSyntax, at, message) }

  function KeyAction(key: HidKey): Action {
    Action(Key, key.modifiers, if key.usage != 0 then [key.usage] else [], 0)
  }

  function Typed(c: char, consumed: nat): Parsed {
    match Printable(c)
    case Some(key) => Token(KeyAction(key), consumed)
    case None => Syntax(0, Unsupported)
  }

  // ---- Directives ----

  datatype DelayValue = Milliseconds(ms: nat) | BadDelay(code: Error)

  predicate IsDigit(c: char) { '0' <= c <= '9' }

  function Digit(c: char): nat
    requires IsDigit(c)
  {
    c as int - '0' as int
  }

  /** The digit loop of `v2_parse_delay`, with its guard against 32-bit overflow. */
  function DelayDigits(text: string, value: nat): DelayValue
    decreases |text|
  {
    if text == [] then
      if value == 0 || value > DELAY_MAX_MS then BadDelay(MacroLimit) else Milliseconds(value)
    else if !IsDigit(text[0]) then BadDelay(MacroSyntax)
    else if value > (UINT32_MAX - Digit(text[0])) / 10 then BadDelay(MacroLimit)
    else DelayDigits(text[1..], value * 10 + Digit(text[0]))
  }

  const DELAY_PREFIX: string := "DELAY:"

  function ParseDelay(directive: string): DelayValue {
    if |directive| <= 6 || directive[..6] != DELAY_PREFIX then BadDelay(MacroSyntax)
    else DelayDigits(directive[6..], 0)
  }

  predicate DirectiveChar(c: char) {
    ' ' < c < 127 as char && c != '{' && c != '}'
  }

  predicate DirectiveText(directive: string) {
    forall i :: 0 <= i < |directive| ==> DirectiveChar(directive[i])
  }

  function ParseDirective(directive: string, consumed: nat): Parsed {
    if |directive| == 0 || |directive| >= DIRECTIVE_BUFFER_BYTES || !DirectiveText(directive) then
      Syntax(0, InvalidDirective)
    else if |directive| >= 6 && directive[..6] == DELAY_PREFIX then
      match ParseDelay(directive)
      case Milliseconds(ms) => Token(Action(Delay, 0, [], ms), consumed)
      case BadDelay(code) => if code == MacroLimit then Reject(code, 0, DelayRange) else Reject(code, 0, InvalidDelay)
    else
      match NamedDirective(directive)
      case Some(key) => Token(KeyAction(key), consumed)
      case None => Syntax(0, UnknownDirective)
  }

  /** The first position at or after `i` that holds `}`: the `memchr` of the brace parser. */
  function FindClose(s: string, i: nat): (close: Option<nat>)
    requires i <= |s|
    ensures close.Some? ==> i <= close.value < |s| && s[close.value] == '}'
    ensures close.Some? ==> forall j :: i <= j < close.value ==> s[j] != '}'
    ensures close.None? ==> forall j :: i <= j < |s| ==> s[j] != '}'
    decreases |s| - i
  {
    if i == |s| then None
    else if s[i] == '}' then Some(i)
    else FindClose(s, i + 1)
  }

  predicate Doubled(s: string, i: nat)
    requires i < |s|
  {
    i + 1 < |s| && s[i + 1] == s[i]
  }

  function ParseOpenBrace(s: string): (r: Parsed)
    requires s != [] && s[0] == '{'
    ensures r.Token? ==> 1 <= r.consumed <= |s|
    ensures r.Reject? ==> r.at < |s|
  {
    if Doubled(s, 0) then Typed('{', 2)
    else match FindClose(s, 1)
      case None => Syntax(0, UnmatchedOpenBrace)
      case Some(close) => ParseDirective(s[1..close], close + 1)
  }

  // ---- Single tokens other than brackets ----

  function NonBracketToken(s: string): (r: Parsed)
    requires s != []
    ensures r.Token? ==> 1 <= r.consumed <= |s|
    ensures r.Reject? ==> r.at < |s|
  {
    var c := s[0];
    if c as int >= 0x80 || c as int == 0 then Syntax(0, Unsupported)
    else if c == '\r' then
      if |s| > 1 && s[1] == '\n' then Token(KeyAction(HidKey(0, KEY_ENTER)), 2) else Syntax(0, LoneCarriageReturn)
    else if c == '\n' then Token(KeyAction(HidKey(0, KEY_ENTER)), 1)
    else if c == '\t' then Token(KeyAction(HidKey(0, KEY_TAB)), 1)
    else if c == '{' then ParseOpenBrace(s)
    else if c == '}' then
      if Doubled(s, 0) then Typed('}', 2) else Syntax(0, UnmatchedCloseBrace)
    else if c < ' ' || c > '~' then Syntax(0, Unsupported)
    else Typed(c, 1)
  }

  // ---- Simultaneous-key groups ----

  datatype Accumulator = Accumulator(modifiers: bv8, usages: seq<nat>)

  const EMPTY_GROUP := Accumulator(0, [])

  datatype Merged = Merged(accumulator: Accumulator) | NotMerged(code: Error, message: Message)

  /** Adds the ordinary keys of one member, one at a time. */
  function MergeUsages(accumulator: Accumulator, usages: seq<nat>): Merged
    decreases |usages|
  {
    if usages == [] then Merged(accumulator)
    else if usages[0] in accumulator.usages then NotMerged(MacroSyntax, DuplicateKey)
    else if |accumulator.usages| >= USAGES_MAX then NotMerged(MacroLimit, GroupTooLarge)
    else MergeUsages(accumulator.(usages := accumulator.usages + [usages[0]]), usages[1..])
  }

  /** `v2_merge_group_member`. */
  function MergeMember(accumulator: Accumulator, member: Action): Merged {
    if accumulator.modifiers & member.modifiers != 0 then NotMerged(MacroSyntax, DuplicateModifier)
    else MergeUsages(accumulator.(modifiers := accumulator.modifiers | member.modifiers), member.usages)
  }

  datatype GroupStep =
    | Continue(accumulator: Accumulator, consumed: nat)
    | Close
    | Stop(code: Error, at: nat, message: Message)

  function MergeStep(accumulator: Accumulator, member: Action, consumed: nat, at: nat): GroupStep {
    match MergeMember(accumulator, member)
    case Merged(next) => Continue(next, consumed)
    case NotMerged(code, message) => Stop(code, at, message)
  }

  /** `v2_scan_group_step`: one position inside a group that opened at position 0. */
  function ScanGroupStep(s: string, i: nat, accumulator: Accumulator): (r: GroupStep)
    requires i < |s|
    ensures r.Continue? ==> 1 <= r.consumed <= |s| - i
    ensures r.Stop? ==> r.at < |s|
  {
    if s[i] == ']' then
      if Doubled(s, i) then MergeStep(accumulator, KeyAction(HidKey(0, KEY_RIGHT_BRACE)), 2, i)
      else if accumulator == EMPTY_GROUP then Stop(MacroSyntax, 0, EmptyGroup)
      else Close
    else if s[i] == '[' then
      if Doubled(s, i) then MergeStep(accumulator, KeyAction(HidKey(0, KEY_LEFT_BRACE)), 2, i)
      else Stop(MacroSyntax, i, NestedGroup)
    else match NonBracketToken(s[i..])
      case Reject(code, at, message) => Stop(code, i + at, message)
      case Token(member, consumed) =>
        if member.kind == Delay then Stop(MacroSyntax, i, DelayInGroup)
        else MergeStep(accumulator, member, consumed, i)
  }

  datatype GroupScan = Group(accumulator: Accumulator, end: nat) | BadGroup(code: Error, at: nat, message: Message)

  /** `v2_scan_group_content`, from position `i` of a group that opened at 0. */
  function ScanGroup(s: string, i: nat, accumulator: Accumulator): (r: GroupScan)
    requires 0 < |s| && i <= |s|
    ensures r.Group? ==> i < r.end <= |s|
    ensures r.BadGroup? ==> r.at < |s|
    decreases |s| - i
  {
    if i == |s| then BadGroup(MacroSyntax, 0, UnmatchedOpenBracket)
    else match ScanGroupStep(s, i, accumulator)
      case Stop(code, at, message) => BadGroup(code, at, message)
      case Close => Group(accumulator, i + 1)
      case Continue(next, consumed) => ScanGroup(s, i + consumed, next)
  }

  function GroupAction(accumulator: Accumulator): Action {
    Action(Chord, accumulator.modifiers, accumulator.usages, 0)
  }

  function ParseOpenBracket(s: string): (r: Parsed)
    requires s != [] && s[0] == '['
    ensures r.Token? ==> 1 <= r.consumed <= |s|
    ensures r.Reject? ==> r.at < |s|
  {
    if Doubled(s, 0) then Typed('[', 2)
    else match ScanGroup(s, 1, EMPTY_GROUP)
      case Group(accumulator, end) => Token(GroupAction(accumulator), end)
      case BadGroup(code, at, message) => Reject(code, at, message)
  }

  /** `v2_parse_next_token`. */
  function NextToken(s: string): (r: Parsed)
    requires s != []
    ensures r.Token? ==> 1 <= r.consumed <= |s|
    ensures r.Reject? ==> r.at < |s|
  {
    if s[0] == '[' then ParseOpenBracket(s)
    else if s[0] == ']' then
      if Doubled(s, 0) then Typed(']', 2) else Syntax(0, UnmatchedCloseBracket)
    else NonBracketToken(s)
  }

  // ---- Plans ----

  function SafeAdd(left: nat, right: nat): Option<nat> {
    if left + right > UINT32_MAX then None else Some(left + right)
  }

  datatype Appended = Appended(plan: Plan) | Refused(message: Message)

  /** `v2_append_action`: every refusal is a limit error. */
  function AppendAction(plan: Plan, action: Action, options: Options): Appended {
    if |plan.actions| >= ACTIONS_MAX then Refused(ActionLimit)
    else
      var duration := if action.kind == Delay then Some(action.delayMs)
                      else SafeAdd(options.keyPressMs, options.interKeyMs);
      if duration == None then Refused(DurationOverflow)
      else
        var total := SafeAdd(plan.estimatedMs, duration.value);
        if total == None || total.value > DURATION_MAX_MS then Refused(DurationLimit)
        else Appended(Plan(plan.actions + [action], total.value))
  }

  datatype Outcome = Done(plan: Plan) | Stopped(code: Error, at: nat, message: Message)

  /** The token loop of `macro_compile_v2` from position `offset`. */
  function CompileFrom(source: string, offset: nat, plan: Plan, options: Options): Outcome
    requires offset <= |source|
    decreases |source| - offset
  {
    if offset == |source| then Done(plan)
    else match NextToken(source[offset..])
      case Reject(code, at, message) => Stopped(code, offset + at, message)
      case Token(action, consumed) =>
        match AppendAction(plan, action, options)
        case Refused(message) => Stopped(MacroLimit, offset, message)
        case Appended(next) => CompileFrom(source, offset + consumed, next, options)
  }

  const EMPTY_PLAN := Plan([], 0)

  predicate ValidTiming(options: Options) {
    options.keyPressMs <= KEY_PRESS_MAX_MS && options.interKeyMs <= INTER_KEY_MAX_MS
  }

  /** `macro_compile_v2`. */
  function Compile(source: string, options: Options): Outcome {
    if !ValidTiming(options) then Stopped(InvalidArgument, 0, InvalidTiming)
    else if |source| > SOURCE_MAX_BYTES then Stopped(MacroLimit, 0, SourceTooLong)
    else CompileFrom(source, 0, EMPTY_PLAN, options)
  }

  // ---- What a successful compilation means ----

  /** The tokens of a source with no regard to plan limits. */
  datatype Lexed = Tokens(actions: seq<Action>) | Unreadable

  function Lex(source: string): Lexed
    decreases |source|
  {
    if source == [] then Tokens([])
    else match NextToken(source)
      case Reject(_, _, _) => Unreadable
      case Token(action, consumed) =>
        match Lex(source[consumed..])
        case Unreadable => Unreadable
        case Tokens(rest) => Tokens([action] + rest)
  }

  function ActionDuration(action: Action, options: Options): nat {
    if action.kind == Delay then action.delayMs else options.keyPressMs + options.interKeyMs
  }

  function Duration(actions: seq<Action>, options: Options): nat {
    if actions == [] then 0 else ActionDuration(actions[0], options) + Duration(actions[1..], options)
  }

  predicate WithinLimits(actions: seq<Action>, options: Options) {
    |actions| <= ACTIONS_MAX && Duration(actions, options) <= DURATION_MAX_MS
  }

  /** Appending a whole sequence of actions at once, limits permitting. */
  function AppendAll(plan: Plan, actions: seq<Action>, options: Options): Option<Plan> {
    if |plan.actions| + |actions| <= ACTIONS_MAX && plan.estimatedMs + Duration(actions, options) <= DURATION_MAX_MS
    then Some(Plan(plan.actions + actions, plan.estimatedMs + Duration(actions, options)))
    else None
  }

  lemma AppendFirst(plan: Plan, action: Action, rest: seq<Action>, options: Options)
    requires ValidTiming(options)
    requires |plan.actions| <= ACTIONS_MAX && plan.estimatedMs <= DURATION_MAX_MS
    ensures var appended := AppendAction(plan, action, options);
      AppendAll(plan, [action] + rest, options) ==
        match appended
        case Refused(_) => None
        case Appended(next) => AppendAll(next, rest, options)
    ensures AppendAction(plan, action, options).Appended? ==>
      var next := AppendAction(plan, action, options).plan;
      |next.actions| <= ACTIONS_MAX && next.estimatedMs <= DURATION_MAX_MS
  {
    assert ([action] + rest)[1..] == rest;
    assert plan.actions + ([action] + rest) == (plan.actions + [action]) + rest;
  }

  ghost predicate Agrees(outcome: Outcome, plan: Plan, lexed: Lexed, options: Options) {
    match lexed
    case Unreadable => outcome.Stopped?
    case Tokens(actions) =>
      match AppendAll(plan, actions, options)
      case None => outcome.Stopped?
      case Some(total) => outcome == Done(total)
  }

  lemma {:induction false} CompileFromMeaning(source: string, offset: nat, plan: Plan, options: Options)
    requires offset <= |source| && ValidTiming(options)
    requires |plan.actions| <= ACTIONS_MAX && plan.estimatedMs <= DURATION_MAX_MS
    ensures Agrees(CompileFrom(source, offset, plan, options), plan, Lex(source[offset..]), options)
    decreases |source| - offset
  {
    hide NextToken;
    var s := source[offset..];
    if s == [] {
      assert plan.actions + [] == plan.actions;
    } else {
      match NextToken(s)
      case Reject(_, _, _) =>
      case Token(action, consumed) =>
        assert s[consumed..] == source[offset + consumed..];
        var rest := Lex(s[consumed..]);
        if rest.Tokens? { AppendFirst(plan, action, rest.actions, options); }
        else { AppendFirst(plan, action, [], options); }
        match AppendAction(plan, action, options)
        case Refused(_) =>
        case Appended(next) => CompileFromMeaning(source, offset + consumed, next, options);
    }
  }

  /** Compilation succeeds exactly on readable sources whose totals are in range, and
      then yields the tokens in order with the sum of their durations: the running
      limit checks and overflow guards decide the same thing as the final totals. */
  lemma CompileMeaning(source: string, options: Options, plan: Plan)
    ensures Compile(source, options) == Done(plan) <==>
      && ValidTiming(options) && |source| <= SOURCE_MAX_BYTES
      && Lex(source) == Tokens(plan.actions)
      && WithinLimits(plan.actions, options)
      && plan.estimatedMs == Duration(plan.actions, options)
  {
    if ValidTiming(options) && |source| <= SOURCE_MAX_BYTES {
      CompileFromMeaning(source, 0, EMPTY_PLAN, options);
      assert source[0..] == source;
      if Lex(source).Tokens? {
        assert [] + Lex(source).actions == Lex(source).actions;
      }
    }
  }
}
