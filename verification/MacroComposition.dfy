/** How compilation relates to cutting and joining source text. */
module MacroComposition {
  import opened Errors
  import opened MacroKeymap
  import opened MacroCompiler

  // ---- A token does not depend on what follows, with one exception ----

  lemma {:induction false} FindCloseLocal(s: string, t: string, i: nat)
    requires i <= |s| && FindClose(s, i).Some?
    ensures FindClose(s + t, i) == FindClose(s, i)
    decreases |s| - i
  {
    if s[i] != '}' {
      FindCloseLocal(s, t, i + 1);
    }
  }

  lemma OpenBraceLocal(s: string, t: string)
    requires s != [] && s[0] == '{' && ParseOpenBrace(s).Token?
    ensures ParseOpenBrace(s + t) == ParseOpenBrace(s)
  {
    if !Doubled(s, 0) {
      FindCloseLocal(s, t, 1);
      var close := FindClose(s, 1).value;
      assert (s + t)[1..close] == s[1..close];
    }
  }

  lemma NonBracketLocal(s: string, t: string)
    requires s != [] && NonBracketToken(s).Token?
    ensures NonBracketToken(s + t) == NonBracketToken(s)
  {
    hide ParseOpenBrace;
    if s[0] == '{' { OpenBraceLocal(s, t); }
  }

  predicate StartsWithClose(t: string) { t != [] && t[0] == ']' }

  lemma GroupStepLocal(s: string, t: string, i: nat, accumulator: Accumulator)
    requires i < |s|
    requires var step := ScanGroupStep(s, i, accumulator);
      step.Continue? || (step.Close? && !(i + 1 == |s| && StartsWithClose(t)))
    ensures ScanGroupStep(s + t, i, accumulator) == ScanGroupStep(s, i, accumulator)
  {
    hide NonBracketToken;
    hide MergeStep;
    if s[i] != ']' && s[i] != '[' {
      assert (s + t)[i..] == s[i..] + t;
      NonBracketLocal(s[i..], t);
    }
  }

  lemma {:induction false} GroupLocal(s: string, t: string, i: nat, accumulator: Accumulator)
    requires 0 < |s| && i <= |s| && ScanGroup(s, i, accumulator).Group?
    requires !(ScanGroup(s, i, accumulator).end == |s| && StartsWithClose(t))
    ensures ScanGroup(s + t, i, accumulator) == ScanGroup(s, i, accumulator)
    decreases |s| - i
  {
    hide ScanGroupStep;
    GroupStepLocal(s, t, i, accumulator);
    match ScanGroupStep(s, i, accumulator)
    case Continue(next, consumed) => GroupLocal(s, t, i + consumed, next);
    case _ =>
  }

  /** A group that ends the text is still open to a `]` that follows it. */
  predicate LeavesOpen(s: string, t: string)
    requires s != [] && NextToken(s).Token?
  {
    NextToken(s).action.kind == Chord && NextToken(s).consumed == |s| && StartsWithClose(t)
  }

  lemma OnlyGroupsAreChords(s: string)
    requires s != [] && NextToken(s).Token?
    ensures NextToken(s).action.kind == Chord <==> s[0] == '[' && !Doubled(s, 0)
  {}

  lemma NextTokenLocal(s: string, t: string)
    requires s != [] && NextToken(s).Token? && !LeavesOpen(s, t)
    ensures NextToken(s + t) == NextToken(s)
  {
    hide NonBracketToken;
    hide ScanGroup;
    OnlyGroupsAreChords(s);
    if s[0] == '[' {
      if !Doubled(s, 0) { GroupLocal(s, t, 1, EMPTY_GROUP); }
    } else if s[0] != ']' {
      NonBracketLocal(s, t);
    }
  }

  // ---- In the exceptional case the group takes the bracket ----

  lemma {:induction false} MergeUsagesGrows(accumulator: Accumulator, usages: seq<nat>)
    requires MergeUsages(accumulator, usages).Merged?
    ensures MergeUsages(accumulator, usages).accumulator
         == Accumulator(accumulator.modifiers, accumulator.usages + usages)
    decreases |usages|
  {
    if usages == [] {
      assert accumulator.usages + [] == accumulator.usages;
    } else {
      MergeUsagesGrows(accumulator.(usages := accumulator.usages + [usages[0]]), usages[1..]);
      assert accumulator.usages + [usages[0]] + usages[1..] == accumulator.usages + usages;
    }
  }

  lemma MergeMemberGrows(accumulator: Accumulator, member: Action)
    requires MergeMember(accumulator, member).Merged?
    ensures MergeMember(accumulator, member).accumulator
         == Accumulator(accumulator.modifiers | member.modifiers, accumulator.usages + member.usages)
  {
    MergeUsagesGrows(accumulator.(modifiers := accumulator.modifiers | member.modifiers), member.usages);
  }

  lemma GroupStepGrows(s: string, i: nat, accumulator: Accumulator)
    requires i < |s| && ScanGroupStep(s, i, accumulator).Continue?
    ensures var next := ScanGroupStep(s, i, accumulator).accumulator;
      |accumulator.usages| <= |next.usages| && (s[i] == ']' ==> |accumulator.usages| < |next.usages|)
  {
    hide NonBracketToken;
    hide MergeMember;
    var member := if s[i] == ']' then KeyAction(HidKey(0, KEY_RIGHT_BRACE))
                  else if s[i] == '[' then KeyAction(HidKey(0, KEY_LEFT_BRACE))
                  else NonBracketToken(s[i..]).action;
    MergeMemberGrows(accumulator, member);
  }

  lemma {:induction false} GroupGrows(s: string, i: nat, accumulator: Accumulator)
    requires 0 < |s| && i <= |s| && ScanGroup(s, i, accumulator).Group?
    ensures |accumulator.usages| <= |ScanGroup(s, i, accumulator).accumulator.usages|
    decreases |s| - i
  {
    hide ScanGroupStep;
    match ScanGroupStep(s, i, accumulator)
    case Continue(next, consumed) =>
      GroupStepGrows(s, i, accumulator);
      GroupGrows(s, i + consumed, next);
    case _ =>
  }

  lemma GroupStepSwallows(s: string, t: string, i: nat, accumulator: Accumulator)
    requires i + 1 == |s| && StartsWithClose(t) && ScanGroupStep(s, i, accumulator).Close?
    ensures s[i] == ']'
    ensures ScanGroupStep(s + t, i, accumulator) == MergeStep(accumulator, KeyAction(HidKey(0, KEY_RIGHT_BRACE)), 2, i)
  {
    hide NonBracketToken;
    hide MergeMember;
  }

  lemma {:induction false} GroupSwallows(s: string, t: string, i: nat, accumulator: Accumulator)
    requires 0 < |s| && i <= |s|
    requires ScanGroup(s, i, accumulator).Group? && ScanGroup(s, i, accumulator).end == |s|
    requires StartsWithClose(t)
    ensures var longer := ScanGroup(s + t, i, accumulator);
      longer.Group? ==> |ScanGroup(s, i, accumulator).accumulator.usages| < |longer.accumulator.usages|
    decreases |s| - i
  {
    hide ScanGroupStep;
    hide MergeMember;
    match ScanGroupStep(s, i, accumulator)
    case Continue(next, consumed) =>
      GroupStepLocal(s, t, i, accumulator);
      GroupSwallows(s, t, i + consumed, next);
    case Close =>
      GroupStepSwallows(s, t, i, accumulator);
      match ScanGroupStep(s + t, i, accumulator)
      case Continue(next, consumed) =>
        GroupStepGrows(s + t, i, accumulator);
        if ScanGroup(s + t, i + consumed, next).Group? { GroupGrows(s + t, i + consumed, next); }
      case _ =>
  }

  lemma NextTokenSwallows(s: string, t: string)
    requires s != [] && NextToken(s).Token? && LeavesOpen(s, t)
    ensures NextToken(s + t).Token? ==> |NextToken(s).action.usages| < |NextToken(s + t).action.usages|
  {
    hide NonBracketToken;
    hide ScanGroup;
    OnlyGroupsAreChords(s);
    GroupSwallows(s, t, 1, EMPTY_GROUP);
  }

  // ---- Joining two readable sources ----

  predicate EndsWithGroup(actions: seq<Action>) {
    actions != [] && actions[|actions| - 1].kind == Chord
  }

  lemma LexStep(s: string, t: string)
    requires s != [] && NextToken(s).Token?
    ensures (s + t)[NextToken(s).consumed..] == s[NextToken(s).consumed..] + t
  {}

  lemma LexFirst(s: string)
    requires s != [] && NextToken(s).Token? && Lex(s).Tokens?
    ensures Lex(s[NextToken(s).consumed..]).Tokens?
    ensures Lex(s).actions == [NextToken(s).action] + Lex(s[NextToken(s).consumed..]).actions
    ensures Lex(s).actions[1..] == Lex(s[NextToken(s).consumed..]).actions
  {
    hide NextToken;
  }

  lemma LexReadsFirst(s: string)
    requires s != [] && Lex(s).Tokens?
    ensures NextToken(s).Token?
  {
    hide NextToken;
  }

  lemma LexJoinStep(a: string, b: string)
    requires a != [] && NextToken(a).Token? && NextToken(a + b) == NextToken(a)
    ensures var rest := Lex(a[NextToken(a).consumed..] + b);
      Lex(a + b) == match rest case Unreadable => Unreadable case Tokens(actions) => Tokens([NextToken(a).action] + actions)
  {
    hide NextToken;
    LexStep(a, b);
  }

  lemma {:induction false} LexJoin(a: string, b: string)
    requires Lex(a).Tokens? && Lex(b).Tokens?
    requires !(EndsWithGroup(Lex(a).actions) && StartsWithClose(b))
    ensures Lex(a + b) == Tokens(Lex(a).actions + Lex(b).actions)
    decreases |a|
  {
    hide NextToken;
    if a == [] {
      assert a + b == b && [] + Lex(b).actions == Lex(b).actions;
    } else {
      LexReadsFirst(a);
      LexFirst(a);
      var token := NextToken(a);
      var rest := a[token.consumed..];
      assert !LeavesOpen(a, b) by {
        if token.consumed == |a| { assert rest == []; }
      }
      NextTokenLocal(a, b);
      LexJoin(rest, b);
      LexJoinStep(a, b);
      assert [token.action] + (Lex(rest).actions + Lex(b).actions) == Lex(a).actions + Lex(b).actions;
    }
  }

  lemma {:induction false} LexDoesNotJoin(a: string, b: string)
    requires Lex(a).Tokens? && Lex(b).Tokens?
    requires EndsWithGroup(Lex(a).actions) && StartsWithClose(b)
    ensures Lex(a + b) != Tokens(Lex(a).actions + Lex(b).actions)
    decreases |a|
  {
    hide NextToken;
    LexReadsFirst(a);
    LexFirst(a);
    var token := NextToken(a);
    var rest := a[token.consumed..];
    var joined := Lex(a).actions + Lex(b).actions;
    if rest == [] {
      NextTokenSwallows(a, b);
      assert joined[0] == token.action;
      if Lex(a + b).Tokens? {
        LexReadsFirst(a + b);
        LexFirst(a + b);
      }
    } else {
      NextTokenLocal(a, b);
      LexDoesNotJoin(rest, b);
      LexJoinStep(a, b);
      assert joined[1..] == Lex(rest).actions + Lex(b).actions;
      if Lex(rest + b).Tokens? {
        assert ([token.action] + Lex(rest + b).actions)[1..] == Lex(rest + b).actions;
      }
    }
  }

  lemma {:induction false} DurationConcat(first: seq<Action>, second: seq<Action>, options: Options)
    ensures Duration(first + second, options) == Duration(first, options) + Duration(second, options)
    decreases |first|
  {
    if first == [] {
      assert first + second == second;
    } else {
      assert (first + second)[1..] == first[1..] + second;
      DurationConcat(first[1..], second, options);
    }
  }

  /** Joining two compilable sources compiles to the joined plans with their
      durations added exactly when the totals are in range and it is not the case
      that a group ends the first source and `]` starts the second. */
  lemma Compositional(a: string, b: string, options: Options, p: Plan, q: Plan)
    requires Compile(a, options) == Done(p) && Compile(b, options) == Done(q)
    ensures Compile(a + b, options) == Done(Plan(p.actions + q.actions, p.estimatedMs + q.estimatedMs))
      <==> && |a| + |b| <= SOURCE_MAX_BYTES
           && |p.actions| + |q.actions| <= ACTIONS_MAX
           && p.estimatedMs + q.estimatedMs <= DURATION_MAX_MS
           && !(EndsWithGroup(p.actions) && StartsWithClose(b))
  {
    hide Compile;
    hide Lex;
    var joined := Plan(p.actions + q.actions, p.estimatedMs + q.estimatedMs);
    CompileMeaning(a, options, p);
    CompileMeaning(b, options, q);
    CompileMeaning(a + b, options, joined);
    DurationConcat(p.actions, q.actions, options);
    if EndsWithGroup(p.actions) && StartsWithClose(b) {
      LexDoesNotJoin(a, b);
    } else {
      LexJoin(a, b);
    }
  }

  /** The exception happens: the group of `[a]` swallows the key of `]]`. */
  lemma GroupThenBracketDiffers(options: Options)
    requires ValidTiming(options)
    ensures Lex("[a]") == Tokens([Action(Chord, 0, [0x04], 0)])
    ensures Lex("]]") == Tokens([Action(Key, 0, [0x30], 0)])
    ensures Lex("[a]" + "]]") != Tokens([Action(Chord, 0, [0x04], 0), Action(Key, 0, [0x30], 0)])
  {
    GroupOfOneKey();
    var s := "]]";
    assert NextToken(s) == Token(Action(Key, 0, [0x30], 0), 2);
    assert s[2..] == [];
    assert Lex(s) == Tokens([Action(Key, 0, [0x30], 0)] + []);
    LexDoesNotJoin("[a]", "]]");
  }

  lemma GroupOfOneKey()
    ensures Lex("[a]") == Tokens([Action(Chord, 0, [0x04], 0)])
  {
    var s := "[a]";
    assert s[1..] == "a]" && s[3..] == [];
    assert NonBracketToken(s[1..]) == Token(Action(Key, 0, [0x04], 0), 1);
    assert MergeUsages(Accumulator(0, []), [0x04]) == Merged(Accumulator(0, [0x04])) by {
      assert [] + [0x04] == [0x04];
      assert MergeUsages(Accumulator(0, [0x04]), []) == Merged(Accumulator(0, [0x04]));
    }
    assert ScanGroupStep(s, 1, EMPTY_GROUP) == Continue(Accumulator(0, [0x04]), 1);
    assert ScanGroupStep(s, 2, Accumulator(0, [0x04])) == Close;
    assert ScanGroup(s, 2, Accumulator(0, [0x04])) == Group(Accumulator(0, [0x04]), 3);
    assert ScanGroup(s, 1, EMPTY_GROUP) == Group(Accumulator(0, [0x04]), 3);
    assert Lex(s[3..]) == Tokens([]);
    assert Lex(s) == Tokens([Action(Chord, 0, [0x04], 0)] + []);
  }

  // ---- Tokens partition the source into self-contained texts ----

  lemma {:induction false} FindCloseAlone(s: string, m: nat, i: nat)
    requires i <= m <= |s| && FindClose(s, i).Some? && FindClose(s, i).value < m
    ensures FindClose(s[..m], i) == FindClose(s, i)
    decreases m - i
  {
    if s[i] != '}' { FindCloseAlone(s, m, i + 1); }
  }

  lemma NonBracketAlone(s: string, m: nat)
    requires s != [] && NonBracketToken(s).Token? && NonBracketToken(s).consumed <= m <= |s|
    ensures NonBracketToken(s[..m]) == NonBracketToken(s)
  {
    hide ParseDirective;
    if s[0] == '{' && !Doubled(s, 0) {
      assert FindClose(s, 1).value < m by { DirectiveConsumes(s); }
      FindCloseAlone(s, m, 1);
      var close := FindClose(s, 1).value;
      assert s[..m][1..close] == s[1..close];
    }
  }

  lemma DirectiveConsumes(s: string)
    requires s != [] && s[0] == '{' && !Doubled(s, 0) && ParseOpenBrace(s).Token?
    ensures ParseOpenBrace(s).consumed == FindClose(s, 1).value + 1
  {}

  lemma GroupStepAlone(s: string, end: nat, i: nat, g: Accumulator)
    requires i < end <= |s|
    requires var step := ScanGroupStep(s, i, g);
      (step.Close? && end == i + 1) || (step.Continue? && i + step.consumed <= end)
    ensures ScanGroupStep(s[..end], i, g) == ScanGroupStep(s, i, g)
  {
    hide NonBracketToken;
    hide MergeMember;
    if s[i] != ']' && s[i] != '[' {
      assert s[..end][i..] == s[i..][..end - i];
      NonBracketAlone(s[i..], end - i);
    }
  }

  lemma {:induction false} GroupAlone(s: string, i: nat, g: Accumulator)
    requires 0 < |s| && i <= |s| && ScanGroup(s, i, g).Group?
    ensures ScanGroup(s[..ScanGroup(s, i, g).end], i, g) == ScanGroup(s, i, g)
    decreases |s| - i
  {
    hide ScanGroupStep;
    GroupStepAlone(s, ScanGroup(s, i, g).end, i, g);
    match ScanGroupStep(s, i, g)
    case Continue(next, consumed) => GroupAlone(s, i + consumed, next);
    case _ =>
  }

  /** A token's own text reads as that token. */
  lemma NextTokenAlone(s: string)
    requires s != [] && NextToken(s).Token?
    ensures NextToken(s[..NextToken(s).consumed]) == NextToken(s)
  {
    hide NonBracketToken;
    hide ScanGroup;
    if s[0] == '[' {
      if !Doubled(s, 0) { GroupAlone(s, 1, EMPTY_GROUP); }
    } else if s[0] != ']' {
      NonBracketAlone(s, NonBracketToken(s).consumed);
    }
  }

  function Texts(source: string): seq<string>
    decreases |source|
  {
    if source == [] || NextToken(source).Reject? then []
    else [source[..NextToken(source).consumed]] + Texts(source[NextToken(source).consumed..])
  }

  function Join(texts: seq<string>): string {
    if texts == [] then [] else texts[0] + Join(texts[1..])
  }

  /** The tokens of a readable source cut it into non-empty texts, one for each
      action, and each text read on its own gives exactly that action. */
  lemma {:induction false} TextsPartition(source: string)
    requires Lex(source).Tokens?
    ensures Join(Texts(source)) == source
    ensures |Texts(source)| == |Lex(source).actions|
    ensures forall k :: 0 <= k < |Texts(source)| ==>
      Texts(source)[k] != [] && Lex(Texts(source)[k]) == Tokens([Lex(source).actions[k]])
    decreases |source|
  {
    hide NextToken;
    if source != [] {
      LexReadsFirst(source);
      LexFirst(source);
      var token := NextToken(source);
      var text, rest := source[..token.consumed], source[token.consumed..];
      NextTokenAlone(source);
      assert Lex(text) == Tokens([token.action]) by {
        assert text[token.consumed..] == [];
        assert Lex([]) == Tokens([]);
        assert [token.action] + [] == [token.action];
      }
      TextsPartition(rest);
      assert Texts(source)[1..] == Texts(rest);
      forall k | 0 <= k < |Texts(source)|
        ensures Texts(source)[k] != [] && Lex(Texts(source)[k]) == Tokens([Lex(source).actions[k]])
      {
        if k > 0 { assert Texts(source)[k] == Texts(rest)[k - 1]; }
      }
    }
  }
}
