/** Which plans the compiler can produce, and a printer that returns to them. */
module MacroPrinter {
  import opened Errors
  import opened MacroKeymap
  import opened MacroCompiler
  import opened MacroComposition

  // ---- The shape of compiled plans ----

  predicate KeyShape(a: Action) {
    a.kind == Key && a.delayMs == 0 &&
    ( (a.usages == [] && IsModifierBit(a.modifiers))
      || (|a.usages| == 1 && a.modifiers == 0 && IsUsage(a.usages[0]))
      || (|a.usages| == 1 && a.modifiers == MOD_LEFT_SHIFT && IsShiftable(a.usages[0])))
  }

  predicate UsagesShape(usages: seq<nat>) {
    && |usages| <= USAGES_MAX
    && (forall u <- usages :: IsUsage(u))
    && (forall i, j :: 0 <= i < j < |usages| ==> usages[i] != usages[j])
  }

  predicate GroupShape(g: Accumulator) {
    g.modifiers & 0xF0 == 0 && UsagesShape(g.usages)
  }

  /** A group holds something, and `[` is not its first member. */
  predicate Started(g: Accumulator) {
    g.modifiers != 0 || (g.usages != [] && g.usages[0] != KEY_LEFT_BRACE)
  }

  predicate ChordShape(a: Action) {
    a.kind == Chord && a.delayMs == 0 &&
    GroupShape(Accumulator(a.modifiers, a.usages)) && Started(Accumulator(a.modifiers, a.usages))
  }

  predicate DelayShape(a: Action) {
    a.kind == Delay && a.modifiers == 0 && a.usages == [] && 1 <= a.delayMs <= DELAY_MAX_MS
  }

  predicate ActionShape(a: Action) { KeyShape(a) || ChordShape(a) || DelayShape(a) }

  const CLOSE_BRACKET_KEY := Action(Key, 0, [KEY_RIGHT_BRACE], 0)

  predicate MayFollow(first: Action, second: Action) {
    first.kind == Chord ==> second != CLOSE_BRACKET_KEY
  }

  predicate PlanShape(actions: seq<Action>) {
    && (forall a <- actions :: ActionShape(a))
    && (forall i :: 0 < i < |actions| ==> MayFollow(actions[i - 1], actions[i]))
  }

  // ---- Every compiled plan has it ----

  lemma TypedShape(c: char, consumed: nat)
    requires Typed(c, consumed).Token?
    ensures KeyShape(Typed(c, consumed).action)
    ensures c != '[' && Typed(c, consumed).action.modifiers == 0 ==> Typed(c, consumed).action.usages[0] != KEY_LEFT_BRACE
    ensures c != ']' ==> Typed(c, consumed).action != CLOSE_BRACKET_KEY
  {
    PrintableReads(c);
  }

  lemma {:induction false} DelayDigitsRange(text: string, value: nat)
    requires DelayDigits(text, value).Milliseconds?
    ensures 1 <= DelayDigits(text, value).ms <= DELAY_MAX_MS
    decreases |text|
  {
    if text != [] { DelayDigitsRange(text[1..], value * 10 + Digit(text[0])); }
  }

  lemma DirectiveTokenShape(directive: string, consumed: nat)
    requires ParseDirective(directive, consumed).Token?
    ensures var a := ParseDirective(directive, consumed).action;
      (KeyShape(a) || DelayShape(a)) && a != CLOSE_BRACKET_KEY
      && (a.kind == Key && a.modifiers == 0 ==> a.usages[0] != KEY_LEFT_BRACE)
  {
    if |directive| >= 6 && directive[..6] == DELAY_PREFIX {
      DelayDigitsRange(directive[6..], 0);
    } else {
      DirectiveShape(directive);
    }
  }

  lemma NonBracketShape(s: string)
    requires s != [] && s[0] != '[' && s[0] != ']' && NonBracketToken(s).Token?
    ensures var a := NonBracketToken(s).action;
      (KeyShape(a) || DelayShape(a)) && a != CLOSE_BRACKET_KEY
      && (a.kind == Key && a.modifiers == 0 ==> a.usages[0] != KEY_LEFT_BRACE)
  {
    hide Typed;
    hide ParseDirective;
    var c := s[0];
    if c == '{' {
      if Doubled(s, 0) { TypedShape('{', 2); TypedReads('{', 2); }
      else { DirectiveTokenShape(s[1..FindClose(s, 1).value], FindClose(s, 1).value + 1); }
    } else if c == '}' {
      TypedShape('}', 2);
      TypedReads('}', 2);
    } else if c != '\r' && c != '\n' && c != '\t' {
      TypedShape(c, 1);
      TypedReads(c, 1);
    }
  }

  lemma TypedReads(c: char, consumed: nat)
    requires Typed(c, consumed).Token?
    ensures Typed(c, consumed).action.kind == Key && |Typed(c, consumed).action.usages| == 1
  {
    PrintableReads(c);
  }

  lemma {:induction false} MergeUsagesShape(g: Accumulator, usages: seq<nat>)
    requires UsagesShape(g.usages) && (forall u <- usages :: IsUsage(u))
    requires MergeUsages(g, usages).Merged?
    ensures UsagesShape(MergeUsages(g, usages).accumulator.usages)
    decreases |usages|
  {
    if usages != [] {
      MergeUsagesShape(g.(usages := g.usages + [usages[0]]), usages[1..]);
    }
  }

  lemma MergeMemberShape(g: Accumulator, member: Action)
    requires GroupShape(g) && KeyShape(member) && MergeMember(g, member).Merged?
    requires Started(g) || (g == EMPTY_GROUP && (member.modifiers == 0 ==> member.usages[0] != KEY_LEFT_BRACE))
    ensures GroupShape(MergeMember(g, member).accumulator) && Started(MergeMember(g, member).accumulator)
  {
    hide MergeMember;
    MergeMemberGrows(g, member);
    assert UsagesShape(g.usages + member.usages) by {
      MergedUsages(g, member);
    }
    BitsStayLow(g.modifiers, member.modifiers);
  }

  lemma MergedUsages(g: Accumulator, member: Action)
    requires GroupShape(g) && KeyShape(member) && MergeMember(g, member).Merged?
    ensures UsagesShape(MergeMember(g, member).accumulator.usages)
  {
    MergeUsagesShape(g.(modifiers := g.modifiers | member.modifiers), member.usages);
  }

  lemma BitsStayLow(m: bv8, n: bv8)
    requires m & 0xF0 == 0 && n & 0xF0 == 0
    ensures (m | n) & 0xF0 == 0 && (m | n != 0 <==> m != 0 || n != 0)
  {}

  lemma GroupStepShape(s: string, i: nat, g: Accumulator)
    requires i < |s| && GroupShape(g) && ScanGroupStep(s, i, g).Continue?
    requires Started(g) || (g == EMPTY_GROUP && s[i] != '[')
    ensures GroupShape(ScanGroupStep(s, i, g).accumulator) && Started(ScanGroupStep(s, i, g).accumulator)
  {
    hide NonBracketToken;
    hide MergeMember;
    if s[i] == ']' {
      MergeMemberShape(g, KeyAction(HidKey(0, KEY_RIGHT_BRACE)));
    } else if s[i] == '[' {
      MergeMemberShape(g, KeyAction(HidKey(0, KEY_LEFT_BRACE)));
    } else {
      NonBracketShape(s[i..]);
      MergeMemberShape(g, NonBracketToken(s[i..]).action);
    }
  }

  lemma {:induction false} GroupScanShape(s: string, i: nat, g: Accumulator)
    requires 0 < |s| && i <= |s| && GroupShape(g) && ScanGroup(s, i, g).Group?
    requires Started(g) || (g == EMPTY_GROUP && i < |s| && s[i] != '[')
    ensures var r := ScanGroup(s, i, g);
      GroupShape(r.accumulator) && Started(r.accumulator) && (r.end < |s| ==> s[r.end] != ']')
    decreases |s| - i
  {
    hide ScanGroupStep;
    hide GroupShape;
    hide Started;
    match ScanGroupStep(s, i, g)
    case Continue(next, consumed) =>
      GroupStepShape(s, i, g);
      GroupScanShape(s, i + consumed, next);
    case Close =>
      GroupCloses(s, i, g);
    case Stop(_, _, _) =>
  }

  lemma GroupCloses(s: string, i: nat, g: Accumulator)
    requires i < |s| && ScanGroupStep(s, i, g).Close?
    ensures g != EMPTY_GROUP && (i + 1 < |s| ==> s[i + 1] != ']')
  {
    hide NonBracketToken;
    hide MergeMember;
  }

  /** A single token has the shape, and after a group comes no `]`. */
  lemma NextTokenShape(s: string)
    requires s != [] && NextToken(s).Token?
    ensures var t := NextToken(s);
      && ActionShape(t.action)
      && (s[0] != ']' ==> t.action != CLOSE_BRACKET_KEY)
      && (t.action.kind == Chord && t.consumed < |s| ==> s[t.consumed] != ']')
  {
    hide NonBracketToken;
    hide ScanGroup;
    if s[0] == '[' {
      if Doubled(s, 0) { TypedShape('[', 2); }
      else {
        assert |s| > 1 by { if |s| == 1 { GroupNeedsClose(s); } }
        GroupScanShape(s, 1, EMPTY_GROUP);
      }
    } else if s[0] == ']' {
      TypedShape(']', 2);
    } else {
      NonBracketShape(s);
    }
  }

  lemma GroupNeedsClose(s: string)
    requires |s| == 1
    ensures ScanGroup(s, 1, EMPTY_GROUP).BadGroup?
  {}

  lemma {:induction false} LexShape(source: string)
    requires Lex(source).Tokens?
    ensures PlanShape(Lex(source).actions)
    ensures source != [] && source[0] != ']' ==> Lex(source).actions[0] != CLOSE_BRACKET_KEY
    decreases |source|
  {
    hide NextToken;
    hide ActionShape;
    if source != [] {
      LexReadsFirst(source);
      LexFirst(source);
      NextTokenShape(source);
      var token := NextToken(source);
      var rest := source[token.consumed..];
      LexShape(rest);
      var actions, tail := Lex(source).actions, Lex(rest).actions;
      forall i | 0 < i < |actions| ensures MayFollow(actions[i - 1], actions[i]) {
        if i == 1 {
          assert rest != [] && actions[1] == tail[0];
        } else {
          assert actions[i] == tail[i - 1] && actions[i - 1] == tail[i - 2];
        }
      }
    }
  }

  // ---- The printer ----

  function CharText(c: char): string {
    if c == '{' || c == '}' || c == '[' || c == ']' then [c, c] else [c]
  }

  function Directive(name: string): string { "{" + name + "}" }

  function UsageText(u: nat): string
    requires IsUsage(u)
  {
    match UnshiftedChar(u)
    case Some(c) => CharText(c)
    case None => Directive(NameOf(u))
  }

  /** The text of one key on its own: a modifier tap or one typed key. */
  function KeyText(a: Action): string
    requires KeyShape(a)
  {
    if a.usages == [] then Directive(ModifierName(a.modifiers))
    else if a.modifiers == 0 then UsageText(a.usages[0])
    else CharText(ShiftedChar(a.usages[0]).value)
  }

  function TextOfAll(members: seq<Action>): string
    requires forall m <- members :: KeyShape(m)
  {
    if members == [] then [] else KeyText(members[0]) + TextOfAll(members[1..])
  }

  function Held(modifiers: bv8, bit: bv8): (keys: seq<Action>)
    requires IsModifierBit(bit)
    ensures forall k <- keys :: KeyShape(k)
  {
    if modifiers & bit != 0 then [Action(Key, bit, [], 0)] else []
  }

  /** Modifiers first, then the ordinary keys, unshifted. */
  function HeldKeys(modifiers: bv8): (keys: seq<Action>)
    ensures forall k <- keys :: KeyShape(k)
  {
    Held(modifiers, MOD_LEFT_CTRL) + Held(modifiers, MOD_LEFT_SHIFT)
    + Held(modifiers, MOD_LEFT_ALT) + Held(modifiers, MOD_LEFT_GUI)
  }

  function UsageKeys(usages: seq<nat>): (keys: seq<Action>)
    requires forall u <- usages :: IsUsage(u)
    ensures |keys| == |usages|
    ensures forall k <- keys :: KeyShape(k)
  {
    if usages == [] then [] else [Action(Key, 0, [usages[0]], 0)] + UsageKeys(usages[1..])
  }

  function Members(a: Action): (keys: seq<Action>)
    requires ChordShape(a)
    ensures forall k <- keys :: KeyShape(k)
  {
    HeldKeys(a.modifiers) + UsageKeys(a.usages)
  }

  function DigitChar(d: nat): char
    requires d < 10
  {
    ('0' as int + d) as char
  }

  function Decimal(n: nat): string {
    if n < 10 then [DigitChar(n)] else Decimal(n / 10) + [DigitChar(n % 10)]
  }

  function ActionText(a: Action): string
    requires ActionShape(a)
  {
    match a.kind
    case Key => KeyText(a)
    case Delay => Directive(DELAY_PREFIX + Decimal(a.delayMs))
    case Chord => "[" + TextOfAll(Members(a)) + "]"
  }

  function PlanText(actions: seq<Action>): string
    requires forall a <- actions :: ActionShape(a)
    decreases |actions|
  {
    if actions == [] then [] else ActionText(actions[0]) + PlanText(actions[1..])
  }

  // ---- Single keys read back ----

  lemma {:induction false} FindCloseAtEnd(s: string, i: nat)
    requires i < |s| && s[|s| - 1] == '}' && (forall j :: i <= j < |s| - 1 ==> s[j] != '}')
    ensures FindClose(s, i) == Some(|s| - 1)
    decreases |s| - i
  {
    if i < |s| - 1 { FindCloseAtEnd(s, i + 1); }
  }

  lemma DirectiveReads(name: string)
    requires 0 < |name| < DIRECTIVE_BUFFER_BYTES && DirectiveText(name)
    ensures NonBracketToken(Directive(name)) == ParseDirective(name, |name| + 2)
  {
    hide ParseDirective;
    var s := Directive(name);
    assert s[1] == name[0];
    assert forall j :: 1 <= j < |s| - 1 ==> s[j] == name[j - 1];
    FindCloseAtEnd(s, 1);
    assert s[1..|s| - 1] == name;
  }

  lemma NamedReads(name: string, key: HidKey)
    requires 1 < |name| < 10 && UppercaseDecimal(name) && NamedDirective(name) == Some(key)
    ensures NonBracketToken(Directive(name)) == Token(KeyAction(key), |name| + 2)
  {
    hide NonBracketToken;
    hide NamedDirective;
    DirectiveReads(name);
    if |name| >= 6 { assert name[..6][5] == name[5]; }
  }

  lemma CharReads(c: char)
    requires Printable(c).Some? && c != '[' && c != ']'
    ensures NonBracketToken(CharText(c)) == Token(KeyAction(Printable(c).value), |CharText(c)|)
  {
    PrintableReads(c);
  }

  lemma UsageReads(u: nat)
    requires IsUsage(u) && u != KEY_LEFT_BRACE && u != KEY_RIGHT_BRACE
    ensures NonBracketToken(UsageText(u)) == Token(Action(Key, 0, [u], 0), |UsageText(u)|)
    ensures UsageText(u) != [] && UsageText(u)[0] != '[' && UsageText(u)[0] != ']'
  {
    match UnshiftedChar(u)
    case None =>
      NameTypes(u);
      NamedReads(NameOf(u), HidKey(0, u));
    case Some(c) =>
      if u != KEY_ENTER && u != KEY_TAB {
        UnshiftedTypes(u);
        CharReads(c);
      }
  }

  /** Every key except the brackets reads back as one token outside brackets. */
  lemma KeyReads(a: Action)
    requires KeyShape(a) && a != CLOSE_BRACKET_KEY && a != Action(Key, 0, [KEY_LEFT_BRACE], 0)
    ensures NonBracketToken(KeyText(a)) == Token(a, |KeyText(a)|)
    ensures KeyText(a) != [] && KeyText(a)[0] != '[' && KeyText(a)[0] != ']'
  {
    hide NonBracketToken;
    if a.usages == [] {
      ModifierTypes(a.modifiers);
      NamedReads(ModifierName(a.modifiers), HidKey(a.modifiers, 0));
    } else if a.modifiers == 0 {
      UsageReads(a.usages[0]);
    } else {
      var u := a.usages[0];
      ShiftedTypes(u);
      PrintableReads(ShiftedChar(u).value);
      CharReads(ShiftedChar(u).value);
    }
  }

  lemma BracketKeys(a: Action)
    requires a == CLOSE_BRACKET_KEY || a == Action(Key, 0, [KEY_LEFT_BRACE], 0)
    ensures KeyShape(a) && KeyText(a) == if a == CLOSE_BRACKET_KEY then "]]" else "[["
  {}

  lemma KeyTokenReads(a: Action)
    requires KeyShape(a)
    ensures NextToken(KeyText(a)) == Token(a, |KeyText(a)|) && KeyText(a) != []
    ensures KeyText(a)[0] == ']' <==> a == CLOSE_BRACKET_KEY
  {
    hide NonBracketToken;
    hide KeyText;
    if a == CLOSE_BRACKET_KEY || a == Action(Key, 0, [KEY_LEFT_BRACE], 0) {
      BracketKeys(a);
    } else {
      KeyReads(a);
    }
  }

  // ---- Delays read back ----

  lemma {:induction false} DecimalReads(n: nat, rest: string)
    requires 1 <= n <= DELAY_MAX_MS
    ensures DelayDigits(Decimal(n) + rest, 0) == DelayDigits(rest, n)
    decreases n
  {
    var last := [DigitChar(n % 10)];
    if n < 10 {
      assert (Decimal(n) + rest)[1..] == rest;
    } else {
      DecimalReads(n / 10, last + rest);
      assert Decimal(n) + rest == Decimal(n / 10) + (last + rest);
      assert (last + rest)[1..] == rest;
    }
  }

  lemma {:induction false} DecimalDigits(n: nat)
    requires n <= DELAY_MAX_MS
    ensures 1 <= |Decimal(n)| <= 5 && forall i :: 0 <= i < |Decimal(n)| ==> IsDigit(Decimal(n)[i])
    ensures n < 1000 ==> |Decimal(n)| <= 3
    ensures n < 100 ==> |Decimal(n)| <= 2
    ensures n < 10000 ==> |Decimal(n)| <= 4
    decreases n
  {
    if n >= 10 { DecimalDigits(n / 10); }
  }

  lemma DelayReads(a: Action)
    requires DelayShape(a)
    ensures NextToken(ActionText(a)) == Token(a, |ActionText(a)|)
  {
    hide NonBracketToken;
    var digits := Decimal(a.delayMs);
    var name := DELAY_PREFIX + digits;
    DecimalDigits(a.delayMs);
    assert DirectiveText(name) by {
      forall i | 0 <= i < |name| ensures DirectiveChar(name[i]) {
        if i >= 6 { assert name[i] == digits[i - 6] && IsDigit(name[i]); }
      }
    }
    DirectiveReads(name);
    assert name[..6] == DELAY_PREFIX && name[6..] == digits;
    DecimalReads(a.delayMs, []);
    assert digits + [] == digits;
  }

  // ---- Groups read back ----

  /** Merging a whole list of members. */
  function MergeAll(g: Accumulator, members: seq<Action>): Merged
    decreases |members|
  {
    if members == [] then Merged(g)
    else match MergeMember(g, members[0])
      case Merged(next) => MergeAll(next, members[1..])
      case NotMerged(code, message) => NotMerged(code, message)
  }

  lemma MemberStep(before: string, member: Action, after: string, g: Accumulator)
    requires KeyShape(member) && MergeMember(g, member).Merged?
    ensures KeyText(member) != []
    ensures ScanGroupStep(before + KeyText(member) + after, |before|, g)
         == Continue(MergeMember(g, member).accumulator, |KeyText(member)|)
  {
    hide NonBracketToken;
    hide MergeMember;
    hide KeyText;
    var text := KeyText(member);
    var s := before + text + after;
    if member == CLOSE_BRACKET_KEY || member == Action(Key, 0, [KEY_LEFT_BRACE], 0) {
      BracketKeys(member);
      assert s[|before|] == text[0] && s[|before| + 1] == text[1];
    } else {
      KeyReads(member);
      assert s[|before|] == text[0];
      NonBracketLocal(text, after);
      assert s[|before|..] == text + after;
    }
  }

  lemma {:induction false} MembersScan(before: string, members: seq<Action>, g: Accumulator, whole: string)
    requires before != [] && (forall m <- members :: KeyShape(m))
    requires MergeAll(g, members).Merged? && MergeAll(g, members).accumulator != EMPTY_GROUP
    requires whole == before + TextOfAll(members) + "]"
    ensures ScanGroup(whole, |before|, g) == Group(MergeAll(g, members).accumulator, |whole|)
    decreases |members|
  {
    hide ScanGroupStep;
    hide MergeMember;
    hide KeyShape;
    hide KeyText;
    if members == [] {
      CloseStep(before, g, whole);
    } else {
      var text, rest := KeyText(members[0]), TextOfAll(members[1..]);
      Regroup(before, text, rest, "]");
      MemberStep(before, members[0], rest + "]", g);
      MembersScan(before + text, members[1..], MergeMember(g, members[0]).accumulator, whole);
    }
  }

  lemma Regroup(a: string, b: string, c: string, d: string)
    ensures a + (b + c) + d == a + b + (c + d) == (a + b) + c + d
  {}

  lemma CloseStep(before: string, g: Accumulator, whole: string)
    requires g != EMPTY_GROUP && whole == before + [] + "]"
    ensures ScanGroupStep(whole, |before|, g) == Close
  {
    hide NonBracketToken;
    hide MergeMember;
    assert whole[|before|] == ']' && |whole| == |before| + 1;
  }

  lemma {:induction false} MergeAllConcat(g: Accumulator, first: seq<Action>, second: seq<Action>)
    requires MergeAll(g, first).Merged?
    ensures MergeAll(g, first + second) == MergeAll(MergeAll(g, first).accumulator, second)
    decreases |first|
  {
    hide MergeMember;
    if first == [] {
      assert first + second == second;
    } else {
      assert (first + second)[1..] == first[1..] + second;
      MergeAllConcat(MergeMember(g, first[0]).accumulator, first[1..], second);
    }
  }

  lemma HeldMerges(low: bv8, modifiers: bv8, bit: bv8)
    requires IsModifierBit(bit) && low & bit == 0
    ensures MergeAll(Accumulator(low, []), Held(modifiers, bit)) == Merged(Accumulator(low | (modifiers & bit), []))
  {
    var g := Accumulator(low, []);
    if modifiers & bit != 0 {
      assert modifiers & bit == bit;
      var tap := Action(Key, bit, [], 0);
      assert MergeMember(g, tap) == Merged(Accumulator(low | bit, []));
      assert MergeAll(Accumulator(low | bit, []), []) == Merged(Accumulator(low | bit, []));
      assert [tap][1..] == [];
    } else {
      assert low | (modifiers & bit) == low;
    }
  }

  lemma NibbleFromBits(m: bv8)
    requires m & 0xF0 == 0
    ensures m & 1 == 0 | (m & 1)
    ensures (m & 1) & 2 == 0 && ((m & 1) | (m & 2)) & 4 == 0 && (((m & 1) | (m & 2)) | (m & 4)) & 8 == 0
    ensures (((m & 1) | (m & 2)) | (m & 4)) | (m & 8) == m
  {}

  lemma HeldKeysMerge(m: bv8)
    requires m & 0xF0 == 0
    ensures MergeAll(EMPTY_GROUP, HeldKeys(m)) == Merged(Accumulator(m, []))
  {
    hide MergeAll;
    hide Held;
    NibbleFromBits(m);
    var m1 := m & 1;
    var m2 := m1 | (m & 2);
    var m3 := m2 | (m & 4);
    var c, s, a, g := Held(m, 1), Held(m, 2), Held(m, 4), Held(m, 8);
    HeldMerges(0, m, 1);
    HeldMerges(m1, m, 2);
    HeldMerges(m2, m, 4);
    HeldMerges(m3, m, 8);
    MergeAllConcat(EMPTY_GROUP, c, s);
    MergeAllConcat(EMPTY_GROUP, c + s, a);
    MergeAllConcat(EMPTY_GROUP, c + s + a, g);
  }

  lemma NewUsageMerges(modifiers: bv8, done: seq<nat>, u: nat)
    requires UsagesShape(done + [u]) && u != 0
    ensures MergeMember(Accumulator(modifiers, done), Action(Key, 0, [u], 0)) == Merged(Accumulator(modifiers, done + [u]))
  {
    forall i | 0 <= i < |done| ensures done[i] != u {
      assert (done + [u])[i] == done[i] && (done + [u])[|done|] == u;
    }
    assert modifiers & 0 == 0 && modifiers | 0 == modifiers;
    var g := Accumulator(modifiers, done);
    assert MergeUsages(Accumulator(modifiers, done + [u]), []) == Merged(Accumulator(modifiers, done + [u]));
    assert [u][1..] == [];
    assert MergeUsages(g, [u]) == Merged(Accumulator(modifiers, done + [u]));
  }

  lemma {:induction false} UsageKeysMerge(modifiers: bv8, done: seq<nat>, usages: seq<nat>)
    requires UsagesShape(done + usages) && (forall u <- usages :: IsUsage(u))
    ensures MergeAll(Accumulator(modifiers, done), UsageKeys(usages)) == Merged(Accumulator(modifiers, done + usages))
    decreases |usages|
  {
    hide MergeMember;
    if usages == [] {
      assert done + usages == done;
    } else {
      var u := usages[0];
      assert u in usages;
      assert done + usages == (done + [u]) + usages[1..];
      assert UsagesShape(done + [u]) by { PrefixShape(done + [u], usages[1..]); }
      NewUsageMerges(modifiers, done, u);
      UsageKeysMerge(modifiers, done + [u], usages[1..]);
    }
  }

  lemma PrefixShape(first: seq<nat>, second: seq<nat>)
    requires UsagesShape(first + second)
    ensures UsagesShape(first)
  {
    assert forall i :: 0 <= i < |first| ==> first[i] == (first + second)[i];
    assert forall u <- first :: u in first + second;
  }

  lemma MembersMerge(a: Action)
    requires ChordShape(a)
    ensures MergeAll(EMPTY_GROUP, Members(a)) == Merged(Accumulator(a.modifiers, a.usages))
  {
    hide HeldKeys;
    HeldKeysMerge(a.modifiers);
    MergeAllConcat(EMPTY_GROUP, HeldKeys(a.modifiers), UsageKeys(a.usages));
    assert [] + a.usages == a.usages;
    UsageKeysMerge(a.modifiers, [], a.usages);
  }

  lemma FirstMember(a: Action)
    requires ChordShape(a)
    ensures Members(a) != [] && Members(a)[0] != Action(Key, 0, [KEY_LEFT_BRACE], 0)
  {
    if a.modifiers == 0 {
      assert Members(a)[0] == Action(Key, 0, [a.usages[0]], 0);
    } else {
      NibbleFromBits(a.modifiers);
      assert HeldKeys(a.modifiers) != [];
      assert Members(a)[0] == HeldKeys(a.modifiers)[0];
    }
  }

  lemma ChordReads(a: Action)
    requires ChordShape(a)
    ensures NextToken(ActionText(a)) == Token(a, |ActionText(a)|)
  {
    hide NonBracketToken;
    hide ScanGroup;
    hide Members;
    hide KeyText;
    var members := Members(a);
    var s := "[" + TextOfAll(members) + "]";
    MembersMerge(a);
    MembersScan("[", members, EMPTY_GROUP, s);
    FirstMember(a);
    assert !Doubled(s, 0) by {
      FirstKeyText(members[0]);
      assert s[1] == KeyText(members[0])[0];
    }
  }

  lemma FirstKeyText(a: Action)
    requires KeyShape(a) && a != Action(Key, 0, [KEY_LEFT_BRACE], 0)
    ensures KeyText(a) != [] && KeyText(a)[0] != '['
  {
    hide KeyText;
    if a == CLOSE_BRACKET_KEY { BracketKeys(a); } else { KeyReads(a); }
  }

  // ---- Plans read back ----

  lemma ActionReads(a: Action)
    requires ActionShape(a)
    ensures ActionText(a) != []
    ensures NextToken(ActionText(a)) == Token(a, |ActionText(a)|)
    ensures ActionText(a)[0] == ']' <==> a == CLOSE_BRACKET_KEY
  {
    hide NextToken;
    hide KeyText;
    match a.kind
    case Key => KeyTokenReads(a);
    case Delay => DelayReads(a);
    case Chord => ChordReads(a);
  }

  lemma {:induction false} PrintLexes(actions: seq<Action>)
    requires PlanShape(actions)
    ensures Lex(PlanText(actions)) == Tokens(actions)
    decreases |actions|
  {
    hide NextToken;
    hide ActionText;
    hide ActionShape;
    if actions != [] {
      var a, tail := actions[0], actions[1..];
      var text, rest := ActionText(a), PlanText(tail);
      TailShape(actions);
      PrintLexes(tail);
      ActionReads(a);
      assert !LeavesOpen(text, rest) by {
        if tail != [] {
          ActionReads(tail[0]);
          assert MayFollow(actions[0], actions[1]);
          assert rest[0] == ActionText(tail[0])[0];
        }
      }
      NextTokenLocal(text, rest);
      LexJoinStep(text, rest);
      assert text[|text|..] + rest == rest;
      assert [a] + tail == actions;
    }
  }

  lemma TailShape(actions: seq<Action>)
    requires PlanShape(actions) && actions != []
    ensures PlanShape(actions[1..])
  {
    hide ActionShape;
    var tail := actions[1..];
    forall i | 0 < i < |tail| ensures MayFollow(tail[i - 1], tail[i]) {
      assert tail[i] == actions[i + 1] && tail[i - 1] == actions[i];
    }
  }

  /** The exact image of the token reader. */
  lemma ReadableExactly(actions: seq<Action>)
    ensures (exists source :: Lex(source) == Tokens(actions)) <==> PlanShape(actions)
  {
    hide Lex;
    hide ActionShape;
    if PlanShape(actions) {
      PrintLexes(actions);
      assert Lex(PlanText(actions)) == Tokens(actions);
    }
    if source :| Lex(source) == Tokens(actions) {
      LexShape(source);
    }
  }

  /** Printing then compiling gives back the plan. */
  lemma RoundTrip(plan: Plan, options: Options)
    requires ValidTiming(options)
    requires PlanShape(plan.actions) && WithinLimits(plan.actions, options)
    requires plan.estimatedMs == Duration(plan.actions, options)
    requires |PlanText(plan.actions)| <= SOURCE_MAX_BYTES
    ensures Compile(PlanText(plan.actions), options) == Done(plan)
  {
    hide Compile;
    PrintLexes(plan.actions);
    CompileMeaning(PlanText(plan.actions), options, plan);
  }

  /** Everything the compiler accepts is printable, so printing normalises sources. */
  lemma PrintNormalises(source: string, options: Options, plan: Plan)
    requires Compile(source, options) == Done(plan)
    ensures PlanShape(plan.actions)
    ensures |PlanText(plan.actions)| <= SOURCE_MAX_BYTES ==> Compile(PlanText(plan.actions), options) == Done(plan)
  {
    hide Compile;
    CompileMeaning(source, options, plan);
    LexShape(source);
    if |PlanText(plan.actions)| <= SOURCE_MAX_BYTES { RoundTrip(plan, options); }
  }

  // ---- Text ----

  predicate IsTypable(c: char) { ' ' <= c <= '~' || c == '\n' || c == '\t' }

  /** Doubles the four characters that have a meaning in macro source. */
  function Escape(text: string): string {
    if text == [] then [] else CharText(text[0]) + Escape(text[1..])
  }

  function CharKey(c: char): HidKey
    requires IsTypable(c)
  {
    PrintableReads(c);
    if c == '\n' then HidKey(0, KEY_ENTER)
    else if c == '\t' then HidKey(0, KEY_TAB)
    else Printable(c).value
  }

  function TypedText(text: string): (actions: seq<Action>)
    requires forall c <- text :: IsTypable(c)
    ensures |actions| == |text|
  {
    if text == [] then [] else [KeyAction(CharKey(text[0]))] + TypedText(text[1..])
  }

  /** What a US-layout host reads from a sequence of single keys. */
  function ReadBack(actions: seq<Action>): Option<string> {
    if actions == [] then Some([])
    else if actions[0].kind != Key || |actions[0].usages| != 1 then None
    else match KeyChar(HidKey(actions[0].modifiers, actions[0].usages[0]))
      case None => None
      case Some(c) =>
        match ReadBack(actions[1..])
        case None => None
        case Some(rest) => Some([c] + rest)
  }

  lemma CharKeyShape(c: char)
    requires IsTypable(c)
    ensures var a := KeyAction(CharKey(c));
      && KeyShape(a) && KeyText(a) == CharText(c) && |a.usages| == 1
      && KeyChar(HidKey(a.modifiers, a.usages[0])) == Some(c)
  {
    PrintableReads(c);
  }

  lemma {:induction false} TypedTextKeys(text: string)
    requires forall c <- text :: IsTypable(c)
    ensures forall a <- TypedText(text) :: a.kind == Key && KeyShape(a)
    decreases |text|
  {
    hide KeyShape;
    hide CharKey;
    if text != [] {
      CharKeyShape(text[0]);
      TypedTextKeys(text[1..]);
    }
  }

  lemma TypedTextShape(text: string)
    requires forall c <- text :: IsTypable(c)
    ensures PlanShape(TypedText(text))
  {
    hide KeyShape;
    TypedTextKeys(text);
  }

  lemma {:induction false} TypedTextPrints(text: string)
    requires forall c <- text :: IsTypable(c)
    ensures PlanShape(TypedText(text)) && PlanText(TypedText(text)) == Escape(text)
    decreases |text|
  {
    hide KeyShape;
    hide KeyText;
    hide CharKey;
    hide PlanShape;
    TypedTextShape(text);
    if text != [] {
      CharKeyShape(text[0]);
      TypedTextPrints(text[1..]);
      assert TypedText(text)[1..] == TypedText(text[1..]);
    }
  }

  lemma {:induction false} TypedTextReads(text: string)
    requires forall c <- text :: IsTypable(c)
    ensures ReadBack(TypedText(text)) == Some(text)
    decreases |text|
  {
    hide KeyShape;
    hide CharKey;
    if text != [] {
      CharKeyShape(text[0]);
      TypedTextReads(text[1..]);
      assert TypedText(text)[1..] == TypedText(text[1..]);
      assert text == [text[0]] + text[1..];
    }
  }

  /** Escaped text compiles to one key for each character, and a host reads the text. */
  lemma TextCompiles(text: string, options: Options)
    requires ValidTiming(options) && forall c <- text :: IsTypable(c)
    requires |Escape(text)| <= SOURCE_MAX_BYTES && WithinLimits(TypedText(text), options)
    ensures Compile(Escape(text), options) == Done(Plan(TypedText(text), Duration(TypedText(text), options)))
    ensures ReadBack(TypedText(text)) == Some(text)
  {
    TypedTextPrints(text);
    TypedTextReads(text);
    RoundTrip(Plan(TypedText(text), Duration(TypedText(text), options)), options);
  }
}
