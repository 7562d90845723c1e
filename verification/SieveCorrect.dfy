/**
 The compiled text means what the rules mean: the tokens of a script parse to the
 expected commands, and running those gives the effects of the rules themselves.
 */
module SieveCorrect {
  import opened Text
  import opened SieveLanguage
  import opened SieveCompile
  import opened SieveLexing

  // ----- Parsing the tokens of each form -----

  predicate ArgStart(ts: seq<Token>) {
    ts != [] && (ts[0].Str? || ts[0].Tag? || ts[0] == Punct('['))
  }

  lemma LastString(v: string, rest: seq<Token>)
    ensures ParseStrings([Str(v), Punct(']')] + rest) == Ok([v], rest)
  {
  }

  lemma NextString(v: string, ts: seq<Token>, vs: seq<string>, rest: seq<Token>)
    requires ParseStrings(ts) == Ok(vs, rest)
    ensures ParseStrings([Str(v), Punct(',')] + ts) == Ok([v] + vs, rest)
  {
  }

  lemma {:induction false} StringsParse(vs: seq<string>, rest: seq<Token>)
    requires vs != []
    ensures ParseStrings(Flatten(StrTokens(vs), [Punct(',')]) + [Punct(']')] + rest) == Ok(vs, rest)
  {
    hide ParseStrings;
    var ts := Flatten(StrTokens(vs), [Punct(',')]) + [Punct(']')] + rest;
    if |vs| == 1 {
      LastString(vs[0], rest);
      assert ts == [Str(vs[0]), Punct(']')] + rest && [vs[0]] == vs;
    } else {
      StringsParse(vs[1..], rest);
      var tail := Flatten(StrTokens(vs[1..]), [Punct(',')]) + [Punct(']')] + rest;
      assert StrTokens(vs)[1..] == StrTokens(vs[1..]);
      assert ts == [Str(vs[0]), Punct(',')] + tail;
      NextString(vs[0], tail, vs[1..], rest);
      assert [vs[0]] + vs[1..] == vs;
    }
  }

  lemma ListArg(vs: seq<string>, rest: seq<Token>)
    requires vs != []
    ensures ParseArgs(ListTokens(vs) + rest) == PushArg(Strings(vs), ParseArgs(rest))
  {
    hide ParseStrings;
    StringsParse(vs, rest);
    var inner := Flatten(StrTokens(vs), [Punct(',')]) + [Punct(']')] + rest;
    assert ListTokens(vs) + rest == [Punct('[')] + inner;
    assert ([Punct('[')] + inner)[1..] == inner;
  }

  lemma LastStrArg(v: string, rest: seq<Token>)
    requires !ArgStart(rest)
    ensures ParseArgs([Str(v)] + rest) == Ok([Strings([v])], rest)
  {
  }

  lemma TagThen(w: string, rest: seq<Token>)
    ensures ParseArgs([Tag(w)] + rest) == PushArg(TagArg(w), ParseArgs(rest))
  {
  }

  function ConditionAst(c: Condition): Test {
    Test("header", [TagArg(OpName(c.op)), Strings(FieldHeaders(c.field)), Strings([c.value])], [])
  }

  predicate EndsTest(ts: seq<Token>) {
    ts != [] && ts[0] in [Punct(','), Punct(')'), Punct('{')]
  }

  lemma ConditionParses(c: Condition, rest: seq<Token>)
    requires EndsTest(rest)
    ensures ParseTest(ConditionTokens(c) + rest) == Ok(ConditionAst(c), rest)
  {
    hide ListTokens, ParseArgs;
    var hs := FieldHeaders(c.field);
    LastStrArg(c.value, rest);
    ListArg(hs, [Str(c.value)] + rest);
    TagThen(OpName(c.op), ListTokens(hs) + ([Str(c.value)] + rest));
    var ts := ConditionTokens(c) + rest;
    assert ts == [Ident("header")] + ([Tag(OpName(c.op))] + (ListTokens(hs) + ([Str(c.value)] + rest)));
    assert ts[1..] == [Tag(OpName(c.op))] + (ListTokens(hs) + ([Str(c.value)] + rest));
    assert [TagArg(OpName(c.op))] + ([Strings(hs)] + [Strings([c.value])]) == ConditionAst(c).args;
  }

  function ConditionAsts(cs: seq<Condition>): seq<Test> {
    seq(|cs|, i requires 0 <= i < |cs| => ConditionAst(cs[i]))
  }

  lemma {:induction false} ConditionsParse(cs: seq<Condition>, rest: seq<Token>)
    requires cs != []
    ensures ParseTestList(Flatten(ConditionTokenLists(cs), [Punct(',')]) + [Punct(')')] + rest) == Ok(ConditionAsts(cs), rest)
  {
    hide ParseTest, ConditionTokens;
    var ts := Flatten(ConditionTokenLists(cs), [Punct(',')]) + [Punct(')')] + rest;
    if |cs| == 1 {
      ConditionParses(cs[0], [Punct(')')] + rest);
      assert ts == ConditionTokens(cs[0]) + ([Punct(')')] + rest);
      assert ([Punct(')')] + rest)[1..] == rest;
      assert ConditionAsts(cs) == [ConditionAst(cs[0])];
    } else {
      ConditionsParse(cs[1..], rest);
      assert ConditionTokenLists(cs)[1..] == ConditionTokenLists(cs[1..]);
      var tail := Flatten(ConditionTokenLists(cs[1..]), [Punct(',')]) + [Punct(')')] + rest;
      ConditionParses(cs[0], [Punct(',')] + tail);
      assert ts == ConditionTokens(cs[0]) + ([Punct(',')] + tail);
      assert ([Punct(',')] + tail)[1..] == tail;
      assert ConditionAsts(cs) == [ConditionAst(cs[0])] + ConditionAsts(cs[1..]);
    }
  }

  function TestAst(r: Rule): Test {
    if |r.conditions| == 1 then ConditionAst(r.conditions[0])
    else Test(Combinator(r), [], ConditionAsts(r.conditions))
  }

  lemma TestParses(r: Rule, rest: seq<Token>)
    requires r.conditions != [] && EndsTest(rest)
    ensures ParseTest(TestTokens(r) + rest) == Ok(TestAst(r), rest)
  {
    hide ParseTestList, ConditionTokens;
    var cs := r.conditions;
    if |cs| == 1 {
      ConditionParses(cs[0], rest);
    } else {
      ConditionsParse(cs, rest);
      var inner := Flatten(ConditionTokenLists(cs), [Punct(',')]) + [Punct(')')] + rest;
      var ts := TestTokens(r) + rest;
      assert ts == [Ident(Combinator(r)), Punct('(')] + inner;
      assert ts[1..] == [Punct('(')] + inner && ([Punct('(')] + inner)[1..] == inner;
    }
  }

  function ActionAst(a: Action): Command {
    match a.kind
    case FileInto => Simple("fileinto", [TagArg("create"), Strings([ArgText(a)])], [])
    case Keep => Simple("keep", [], [])
    case Discard => Simple("discard", [], [])
    case Seen => Simple("addflag", [Strings(["\\Seen"])], [])
    case Flag => Simple("addflag", [Strings([ArgText(a)])], [])
    case Redirect => Simple("redirect", [Strings([ArgText(a)])], [])
    case Stop => Simple("stop", [], [])
  }

  /** `word ARGS ;` for argument tokens that parse to `args`. */
  lemma SimpleParses(w: string, at: seq<Token>, args: seq<Arg>, rest: seq<Token>)
    requires ParseArgs(at + ([Punct(';')] + rest)) == Ok(args, [Punct(';')] + rest)
    ensures ParseCommand([Ident(w)] + at + [Punct(';')] + rest) == Ok(Simple(w, args, []), rest)
  {
    hide ParseArgs;
    var ts := [Ident(w)] + at + [Punct(';')] + rest;
    assert ts[1..] == at + ([Punct(';')] + rest);
    assert ([Punct(';')] + rest)[1..] == rest;
  }

  lemma ActionArgsParse(a: Action, end: seq<Token>)
    requires end != [] && end[0] == Punct(';')
    ensures ParseArgs(ActionArgTokens(a) + end) == Ok(ActionAst(a).args, end)
  {
    hide ParseArgs;
    var at := ActionArgTokens(a);
    if |at| == 0 {
      NoArgs(end);
      assert at + end == end;
    } else if |at| == 1 {
      LastStrArg(at[0].value, end);
    } else {
      LastStrArg(at[1].value, end);
      TagThen("create", [at[1]] + end);
      assert at + end == [at[0]] + ([at[1]] + end);
      assert [TagArg("create")] + [Strings([at[1].value])] == ActionAst(a).args;
    }
  }

  lemma NoArgs(rest: seq<Token>)
    requires !ArgStart(rest)
    ensures ParseArgs(rest) == Ok([], rest)
  {
  }

  lemma ActionParses(a: Action, rest: seq<Token>)
    ensures ParseCommand(ActionTokens(a) + rest) == Ok(ActionAst(a), rest)
  {
    hide ParseCommand, ParseArgs;
    ActionArgsParse(a, [Punct(';')] + rest);
    SimpleParses(ActionAst(a).name, ActionArgTokens(a), ActionAst(a).args, rest);
    assert ActionTokens(a) == [Ident(ActionAst(a).name)] + ActionArgTokens(a) + [Punct(';')];
  }

  function ActionArgTokens(a: Action): seq<Token> {
    match a.kind
    case FileInto => [Tag("create"), Str(ArgText(a))]
    case Seen => [Str("\\Seen")]
    case Flag => [Str(ArgText(a))]
    case Redirect => [Str(ArgText(a))]
    case _ => []
  }

  function PushCommands(cs: seq<Command>, r: Parsed<seq<Command>>): Parsed<seq<Command>> {
    if r.Ok? then Ok(cs + r.value, r.rest) else Fail
  }

  lemma PushTwice(c: Command, cs: seq<Command>, r: Parsed<seq<Command>>)
    ensures PushCommands([c], PushCommands(cs, r)) == PushCommands([c] + cs, r)
  {
    if r.Ok? {
      assert [c] + (cs + r.value) == [c] + cs + r.value;
    }
  }

  lemma CommandThen(ts: seq<Token>, c: Command, rest: seq<Token>)
    requires ts != [] && ts[0].Ident? && ParseCommand(ts + rest) == Ok(c, rest)
    ensures ParseCommands(ts + rest) == PushCommands([c], ParseCommands(rest))
  {
  }

  function ActionAsts(actions: seq<Action>): seq<Command> {
    seq(|actions|, i requires 0 <= i < |actions| => ActionAst(actions[i]))
  }

  lemma {:induction false} FlattenCons(ts: seq<Token>, tss: seq<seq<Token>>)
    ensures Flatten([ts] + tss, []) == ts + Flatten(tss, [])
  {
  }

  lemma {:induction false} BodyParses(actions: seq<Action>, rest: seq<Token>)
    ensures ParseCommands(BodyTokens(actions) + rest) == PushCommands(ActionAsts(actions), ParseCommands(rest))
  {
    hide ParseCommands, ParseCommand, ActionTokens, ActionAst;
    if actions == [] {
      assert BodyTokens(actions) + rest == rest;
      PushNone(ParseCommands(rest));
    } else {
      var a, t := actions[0], actions[1..];
      assert ActionTokenLists(actions) == [ActionTokens(a)] + ActionTokenLists(t);
      FlattenCons(ActionTokens(a), ActionTokenLists(t));
      assert BodyTokens(actions) + rest == ActionTokens(a) + (BodyTokens(t) + rest);
      ActionParses(a, BodyTokens(t) + rest);
      ActionHead(a);
      CommandThen(ActionTokens(a), ActionAst(a), BodyTokens(t) + rest);
      BodyParses(t, rest);
      PushTwice(ActionAst(a), ActionAsts(t), ParseCommands(rest));
      assert ActionAsts(actions) == [ActionAst(a)] + ActionAsts(t);
    }
  }

  lemma PushNone(r: Parsed<seq<Command>>)
    ensures PushCommands([], r) == r
  {
    if r.Ok? {
      assert [] + r.value == r.value;
    }
  }

  lemma ActionHead(a: Action)
    ensures ActionTokens(a) != [] && ActionTokens(a)[0].Ident?
  {
  }

  function RuleAsts(r: Rule): seq<Command> {
    if r.conditions == [] then ActionAsts(r.actions)
    else [Compound("if", [], [TestAst(r)], ActionAsts(r.actions))]
  }

  lemma {:induction false} IfParses(r: Rule, rest: seq<Token>)
    requires r.conditions != []
    ensures ParseCommand(RuleTokens(r) + rest) == Ok(RuleAsts(r)[0], rest)
  {
    hide ParseTest, ParseCommands, TestTokens, BodyTokens;
    var close := [Punct('}')] + rest;
    var open := [Punct('{')] + (BodyTokens(r.actions) + close);
    var ts := RuleTokens(r) + rest;
    TestHead(r);
    assert ts == [Ident("if")] + (TestTokens(r) + open);
    assert ts[1..] == TestTokens(r) + open;
    assert ParseArgs(TestTokens(r) + open) == Ok([], TestTokens(r) + open);
    TestParses(r, open);
    assert open[1..] == BodyTokens(r.actions) + close;
    BodyParses(r.actions, close);
    CommandsEnd(close);
    assert ActionAsts(r.actions) + [] == ActionAsts(r.actions);
    assert close[1..] == rest;
  }

  lemma CommandsEnd(ts: seq<Token>)
    requires ts == [] || !ts[0].Ident?
    ensures ParseCommands(ts) == Ok([], ts)
  {
  }

  lemma TestHead(r: Rule)
    requires r.conditions != []
    ensures TestTokens(r) != [] && TestTokens(r)[0].Ident?
  {
  }

  lemma RuleParses(r: Rule, rest: seq<Token>)
    ensures ParseCommands(RuleTokens(r) + rest) == PushCommands(RuleAsts(r), ParseCommands(rest))
  {
    hide ParseCommand, ParseCommands, TestTokens, BodyTokens;
    if r.conditions == [] {
      BodyParses(r.actions, rest);
    } else {
      IfParses(r, rest);
      CommandThen(RuleTokens(r), RuleAsts(r)[0], rest);
    }
  }

  function RulesAst(rules: seq<Rule>): seq<Command> {
    if rules == [] then [] else RuleAsts(rules[0]) + RulesAst(rules[1..])
  }

  lemma {:induction false} RulesParse(rules: seq<Rule>)
    ensures ParseCommands(Flatten(RulesTokens(rules), [])) == Ok(RulesAst(rules), [])
  {
    hide ParseCommands, RuleTokens, RuleAsts;
    if rules == [] {
      CommandsEnd([]);
    } else {
      assert RulesTokens(rules) == [RuleTokens(rules[0])] + RulesTokens(rules[1..]);
      FlattenCons(RuleTokens(rules[0]), RulesTokens(rules[1..]));
      RulesParse(rules[1..]);
      RuleParses(rules[0], Flatten(RulesTokens(rules[1..]), []));
    }
  }

  function ScriptAst(exts: seq<string>, rules: seq<Rule>): seq<Command> {
    (if exts != [] then [Simple("require", [Strings(exts)], [])] else []) + RulesAst(rules)
  }

  lemma ScriptParses(exts: seq<string>, rules: seq<Rule>)
    ensures ParseCommands(ScriptTokens(exts, rules)) == Ok(ScriptAst(exts, rules), [])
  {
    hide ParseCommand, ParseCommands, RuleTokens, ListTokens;
    var tail := Flatten(RulesTokens(rules), []);
    RulesParse(rules);
    if exts == [] {
      assert PartTokens(exts, rules) == RulesTokens(rules);
      assert [] + RulesAst(rules) == RulesAst(rules);
    } else {
      assert PartTokens(exts, rules) == [RequireTokens(exts)] + RulesTokens(rules);
      FlattenCons(RequireTokens(exts), RulesTokens(rules));
      RequireParses(exts, tail);
      CommandThen(RequireTokens(exts), Simple("require", [Strings(exts)], []), tail);
    }
  }

  lemma RequireParses(exts: seq<string>, rest: seq<Token>)
    requires exts != []
    ensures ParseCommand(RequireTokens(exts) + rest) == Ok(Simple("require", [Strings(exts)], []), rest)
  {
    hide ListTokens, ParseCommand;
    var semi := [Punct(';')] + rest;
    ListArg(exts, semi);
    assert ParseArgs(semi) == Ok([], semi);
    SimpleParses("require", ListTokens(exts), [Strings(exts)], rest);
    assert RequireTokens(exts) + rest == [Ident("require")] + ListTokens(exts) + [Punct(';')] + rest;
  }

  // ----- Running the commands -----

  /** The evaluator's header test on a compiled condition is the condition itself. */
  lemma ConditionMeans(c: Condition, m: Message)
    ensures EvalTest(ConditionAst(c), m) == Some(ConditionHolds(c, m))
  {
    hide Satisfies, KeyMatches, HeaderHolds;
    var hs, mt := FieldHeaders(c.field), OpName(c.op);
    forall h | h in hs ensures HeaderTest(m, mt, [h], [c.value]) <==> HeaderHolds(c, m, h) {
      HeaderMeans(c, m, h);
    }
    assert HeaderTest(m, mt, hs, [c.value]) <==> exists h :: h in hs && HeaderTest(m, mt, [h], [c.value]) by {
      OneHeaderEach(m, mt, hs, c.value);
    }
    assert mt in ["is", "contains", "matches"];
  }

  lemma HeaderMeans(c: Condition, m: Message, h: string)
    requires h in FieldHeaders(c.field)
    ensures HeaderTest(m, OpName(c.op), [h], [c.value]) <==> HeaderHolds(c, m, h)
  {
    var mt := OpName(c.op);
    assert ToLower(h) == h;
    assert forall v :: KeyMatches(mt, v, c.value) == Satisfies(c.op, v, c.value);
    if HeaderHolds(c, m, h) {
      var i :| 0 <= i < |m[h]| && Satisfies(c.op, m[h][i], c.value);
      assert h in [h] && c.value in [c.value] && KeyMatches(mt, m[ToLower(h)][i], c.value);
    }
  }

  lemma OneHeaderEach(m: Message, mt: string, names: seq<string>, key: string)
    ensures HeaderTest(m, mt, names, [key]) <==> exists h :: h in names && HeaderTest(m, mt, [h], [key])
  {
    hide KeyMatches;
    if HeaderTest(m, mt, names, [key]) {
      var n, i, k :| n in names && k in [key] && ToLower(n) in m && 0 <= i < |m[ToLower(n)]| &&
                     KeyMatches(mt, m[ToLower(n)][i], k);
      assert n in [n];
      assert HeaderTest(m, mt, [n], [key]);
    }
    if h :| h in names && HeaderTest(m, mt, [h], [key]) {
      var n, i, k :| n in [h] && k in [key] && ToLower(n) in m && 0 <= i < |m[ToLower(n)]| &&
                     KeyMatches(mt, m[ToLower(n)][i], k);
      assert n in names;
    }
  }

  lemma {:induction false} ConditionsMean(cs: seq<Condition>, m: Message, all: bool)
    ensures EvalTests(ConditionAsts(cs), m, all) == Some(
              if all then forall i :: 0 <= i < |cs| ==> ConditionHolds(cs[i], m)
              else exists i :: 0 <= i < |cs| && ConditionHolds(cs[i], m))
  {
    hide ConditionHolds, ConditionAst;
    if cs != [] {
      ConditionMeans(cs[0], m);
      ConditionsMean(cs[1..], m, all);
      assert ConditionAsts(cs)[1..] == ConditionAsts(cs[1..]);
      var t := cs[1..];
      assert forall i :: 0 <= i < |t| ==> t[i] == cs[i + 1];
      if !all && ConditionHolds(cs[0], m) {
      } else if !all && (exists i :: 0 <= i < |cs| && ConditionHolds(cs[i], m)) {
        var i :| 0 <= i < |cs| && ConditionHolds(cs[i], m);
        assert t[i - 1] == cs[i];
      } else if all && (forall i :: 0 <= i < |t| ==> ConditionHolds(t[i], m)) && ConditionHolds(cs[0], m) {
        forall i | 0 <= i < |cs| ensures ConditionHolds(cs[i], m) {
          if i > 0 {
            assert t[i - 1] == cs[i];
          }
        }
      }
    }
  }

  lemma TestMeans(r: Rule, m: Message)
    requires r.conditions != []
    ensures EvalTest(TestAst(r), m) == Some(RuleApplies(r, m))
  {
    hide ConditionHolds, ConditionAst;
    if |r.conditions| == 1 {
      ConditionMeans(r.conditions[0], m);
    } else {
      ConditionsMean(r.conditions, m, r.mode == All);
    }
  }

  ghost predicate Declared(actions: seq<Action>, exts: set<string>) {
    forall i, e :: 0 <= i < |actions| && e in ActionRequires(actions[i]) ==> e in exts
  }

  /** A declared action that is not `stop` runs to its effect. */
  lemma ActionMeans(a: Action, exts: set<string>)
    requires Declared([a], exts) && a.kind != Stop
    ensures ActionEffect(ActionAst(a), exts) == Some(RunActions([a]).effects[0])
  {
  }

  function ThenRules(o: Outcome, rest: Outcome): Outcome {
    if o.stopped then o else Outcome(o.effects + rest.effects, rest.stopped)
  }

  /** The actions run in order, and the rest of the script after them unless they stopped. */
  lemma {:induction false} ActionsRun(actions: seq<Action>, rest: seq<Command>, m: Message, exts: set<string>,
                                      chain: Option<bool>, o: Outcome)
    requires Declared(actions, exts)
    requires forall ch :: Exec(rest, m, exts, ch) == Some(o)
    ensures Exec(ActionAsts(actions) + rest, m, exts, chain) == Some(ThenRules(RunActions(actions), o))
  {
    hide ActionEffect, ActionAst, Exec, RunActions, ActionAsts, ActionRequires;
    if actions == [] {
      NoActions(rest, o);
    } else {
      var a, t := actions[0], actions[1..];
      var more := ActionAsts(t) + rest;
      FirstAction(actions, rest);
      DeclaredRest(actions, exts);
      if a.kind == Stop {
        StopRuns(a, more, m, exts, chain);
        StopFirst(actions, o);
      } else {
        ActionsRun(t, rest, m, exts, None, o);
        ActionMeans(a, exts);
        SimpleRuns(a, more, m, exts, chain);
        RunActionsCons(a, t);
        var e, rt := RunActions([a]).effects[0], RunActions(t);
        assert [e] + (rt.effects + o.effects) == [e] + rt.effects + o.effects;
      }
    }
  }

  lemma NoActions(rest: seq<Command>, o: Outcome)
    ensures ActionAsts([]) + rest == rest && ThenRules(RunActions([]), o) == o
  {
    assert [] + o.effects == o.effects;
  }

  lemma FirstAction(actions: seq<Action>, rest: seq<Command>)
    requires actions != []
    ensures ActionAsts(actions) + rest == [ActionAst(actions[0])] + (ActionAsts(actions[1..]) + rest)
    ensures actions == [actions[0]] + actions[1..]
  {
    hide ActionAst;
  }

  lemma DeclaredRest(actions: seq<Action>, exts: set<string>)
    requires actions != [] && Declared(actions, exts)
    ensures Declared([actions[0]], exts) && Declared(actions[1..], exts)
  {
    hide ActionRequires;
    forall i, e | 0 <= i < |actions[1..]| && e in ActionRequires(actions[1..][i]) ensures e in exts {
      assert actions[1..][i] == actions[i + 1];
    }
    assert [actions[0]][0] == actions[0];
  }

  lemma StopFirst(actions: seq<Action>, o: Outcome)
    requires actions != [] && actions[0].kind == Stop
    ensures ThenRules(RunActions(actions), o) == Outcome([], true)
  {
  }

  lemma StopRuns(a: Action, rest: seq<Command>, m: Message, exts: set<string>, chain: Option<bool>)
    requires a.kind == Stop
    ensures Exec([ActionAst(a)] + rest, m, exts, chain) == Some(Outcome([], true))
  {
  }

  lemma RunActionsCons(a: Action, t: seq<Action>)
    requires a.kind != Stop
    ensures RunActions([a]).effects != []
    ensures RunActions([a] + t) ==
            Outcome([RunActions([a]).effects[0]] + RunActions(t).effects, RunActions(t).stopped)
  {
  }

  lemma SimpleRuns(a: Action, rest: seq<Command>, m: Message, exts: set<string>, chain: Option<bool>)
    requires a.kind != Stop && ActionEffect(ActionAst(a), exts).Some?
    ensures Exec([ActionAst(a)] + rest, m, exts, chain) ==
            Then(Outcome([ActionEffect(ActionAst(a), exts).value], false), Exec(rest, m, exts, None))
  {
  }

  ghost predicate AllDeclared(rules: seq<Rule>, exts: set<string>) {
    forall i :: 0 <= i < |rules| ==> Declared(rules[i].actions, exts)
  }

  lemma {:induction false} RulesRun(rules: seq<Rule>, m: Message, exts: set<string>)
    requires AllDeclared(rules, exts)
    ensures forall ch :: Exec(RulesAst(rules), m, exts, ch) == Some(RunRules(rules, m))
  {
    if rules != [] {
      var r, t := rules[0], rules[1..];
      assert forall i :: 0 <= i < |t| ==> t[i] == rules[i + 1];
      RulesRun(t, m, exts);
      forall ch ensures Exec(RulesAst(rules), m, exts, ch) == Some(RunRules(rules, m)) {
        RuleRuns(r, RulesAst(t), m, exts, ch, RunRules(t, m));
      }
    }
  }

  lemma RuleRuns(r: Rule, rest: seq<Command>, m: Message, exts: set<string>, chain: Option<bool>, o: Outcome)
    requires Declared(r.actions, exts)
    requires forall ch :: Exec(rest, m, exts, ch) == Some(o)
    ensures Exec(RuleAsts(r) + rest, m, exts, chain) ==
            Some(if RuleApplies(r, m) then ThenRules(RunActions(r.actions), o) else o)
  {
    if r.conditions == [] {
      ActionsRun(r.actions, rest, m, exts, chain, o);
    } else {
      hide RuleApplies, TestAst, RunActions;
      TestMeans(r, m);
      var body := ActionAsts(r.actions);
      forall ch ensures Exec([], m, exts, ch) == Some(Outcome([], false)) {
      }
      ActionsRun(r.actions, [], m, exts, None, Outcome([], false));
      var done := RunActions(r.actions);
      assert body + [] == body && done.effects + [] == done.effects;
      var cs := RuleAsts(r) + rest;
      assert cs[0] == Compound("if", [], [TestAst(r)], body) && cs[1..] == rest;
    }
  }

  /** Compilation preserves meaning, on every message and for every rule list whose names stay in their comments. */
  lemma ScriptMeansRules(rules: seq<Rule>, m: Message)
    requires NamesHarmless(rules)
    ensures RunText(ScriptText(rules), m) == Some(RunRules(rules, m))
  {
    hide Lex, ParseCommands, ScriptTokens, ScriptText, Exec, RunRules, RulesAst;
    var exts := Requires(rules);
    var declared := set e | e in exts;
    ScriptLexes(rules);
    ScriptParses(exts, rules);
    RequiresExact(rules);
    forall i, j, e | 0 <= i < |rules| && 0 <= j < |rules[i].actions| && e in ActionRequires(rules[i].actions[j])
      ensures e in declared
    {
      assert Uses(rules, e);
    }
    RulesRun(rules, m, declared);
    var cs := ScriptAst(exts, rules);
    NoRequire(rules);
    if exts == [] {
      assert cs == RulesAst(rules) && declared == {};
    } else {
      assert cs[1..] == RulesAst(rules) && {} + declared == declared;
      assert RunCommands(RulesAst(rules), m, declared) == Exec(RulesAst(rules), m, declared, None);
      assert RunCommands(cs, m, {}) == RunCommands(cs[1..], m, {} + declared);
    }
  }

  // ----- Names that leave their comment -----

  /** Without separators it does not matter how tokens are grouped. */
  lemma {:induction false} FlattenMerge(a: seq<seq<Token>>, x: seq<Token>, y: seq<Token>, b: seq<seq<Token>>)
    ensures Flatten(a + [x + y] + b, []) == Flatten(a + [x, y] + b, [])
    decreases |a|
  {
    hide Flatten;
    if a == [] {
      assert a + [x + y] + b == [x + y] + b;
      assert a + [x, y] + b == [x] + ([y] + b);
      FlattenCons(x + y, b);
      FlattenCons(x, [y] + b);
      FlattenCons(y, b);
      Assoc(x, y, Flatten(b, []));
    } else {
      assert a + [x + y] + b == [a[0]] + (a[1..] + [x + y] + b);
      assert a + [x, y] + b == [a[0]] + (a[1..] + [x, y] + b);
      FlattenCons(a[0], a[1..] + [x + y] + b);
      FlattenCons(a[0], a[1..] + [x, y] + b);
      FlattenMerge(a[1..], x, y, b);
    }
  }

  lemma SameRequires(a: seq<Rule>, b: seq<Rule>)
    requires forall e :: Uses(a, e) <==> Uses(b, e)
    ensures Requires(a) == Requires(b)
  {
    hide Uses, KeepIf;
  }

  lemma RenamingRequires(rules: seq<Rule>, i: nat, name: string)
    requires i < |rules|
    ensures Requires(rules[i := rules[i].(name := name)]) == Requires(rules)
  {
    hide ActionRequires, Requires;
    var odd := rules[i := rules[i].(name := name)];
    assert forall k :: 0 <= k < |rules| ==> odd[k].actions == rules[k].actions;
    forall e ensures Uses(odd, e) <==> Uses(rules, e) {}
    SameRequires(odd, rules);
  }

  /** The list with a rule of its own for some actions, without conditions, in front of rule `i`. */
  function Inserted(rules: seq<Rule>, i: nat, acts: seq<Action>): seq<Rule>
    requires i < |rules|
  {
    rules[..i] + [Rule(rules[i].name, All, [], acts), rules[i]] + rules[i + 1..]
  }

  lemma InsertedAt(rules: seq<Rule>, i: nat, acts: seq<Action>, k: nat)
    requires i < |rules| && k <= |rules|
    ensures |Inserted(rules, i, acts)| == |rules| + 1
    ensures Inserted(rules, i, acts)[k] ==
            if k < i then rules[k] else if k == i then Rule(rules[i].name, All, [], acts) else rules[k - 1]
  {
  }

  /** Inserting actions whose extensions are all in use. */
  lemma InsertingRequires(rules: seq<Rule>, i: nat, acts: seq<Action>)
    requires i < |rules|
    requires forall a, e :: a in acts && e in ActionRequires(a) ==> Uses(rules, e)
    ensures Requires(Inserted(rules, i, acts)) == Requires(rules)
  {
    hide ActionRequires, Inserted, Requires;
    var more := Inserted(rules, i, acts);
    InsertedAt(rules, i, acts, 0);
    forall e ensures Uses(more, e) <==> Uses(rules, e) {
      if k, j :| 0 <= k < |more| && 0 <= j < |more[k].actions| && e in ActionRequires(more[k].actions[j]) {
        InsertedAt(rules, i, acts, k);
        if k == i { assert acts[j] in acts; }
      }
      if k, j :| 0 <= k < |rules| && 0 <= j < |rules[k].actions| && e in ActionRequires(rules[k].actions[j]) {
        var at := if k < i then k else k + 1;
        InsertedAt(rules, i, acts, at);
        assert more[at] == rules[k];
      }
    }
    SameRequires(more, rules);
  }

  /** The tokens of the list with the name, and of the list with the inserted rule. */
  lemma InsertedTokens(rules: seq<Rule>, i: nat, acts: seq<Action>, first: seq<seq<Token>>)
    requires i < |rules|
    ensures Flatten(first + RulesTokens(rules)[i := BodyTokens(acts) + RuleTokens(rules[i])], [])
         == Flatten(first + RulesTokens(Inserted(rules, i, acts)), [])
  {
    hide RuleTokens, BodyTokens, Flatten, Inserted;
    var x, y := BodyTokens(acts), RuleTokens(rules[i]);
    var a, b := first + RulesTokens(rules[..i]), RulesTokens(rules[i + 1..]);
    assert first + RulesTokens(rules)[i := x + y] == a + [x + y] + b;
    assert RuleTokens(Rule(rules[i].name, All, [], acts)) == x by { PlainRuleTokens(rules[i].name, acts); }
    InsertedAt(rules, i, acts, 0);
    forall k | 0 <= k <= |rules|
      ensures RulesTokens(Inserted(rules, i, acts))[k] == (RulesTokens(rules[..i]) + [x, y] + b)[k]
    {
      InsertedAt(rules, i, acts, k);
    }
    assert RulesTokens(Inserted(rules, i, acts)) == RulesTokens(rules[..i]) + [x, y] + b;
    assert first + RulesTokens(Inserted(rules, i, acts)) == a + [x, y] + b;
    FlattenMerge(a, x, y, b);
  }

  lemma PlainRuleTokens(name: string, acts: seq<Action>)
    ensures RuleTokens(Rule(name, All, [], acts)) == BodyTokens(acts)
  {
  }

  /**
   What a line break in a name does: whatever actions its lines spell, the script runs them in front of the rule,
   whether or not the rule's condition holds, in any rule of any list, on every message.
   */
  lemma NameRunsAsActions(rules: seq<Rule>, i: nat, acts: seq<Action>, m: Message)
    requires NamesHarmless(rules) && i < |rules|
    requires forall a, e :: a in acts && e in ActionRequires(a) ==> Uses(rules, e)
    ensures RunText(ScriptText(rules[i := rules[i].(name := WithLines(rules[i].name, acts))]), m)
         == Some(RunRules(Inserted(rules, i, acts), m))
  {
    NameLexesAsRule(rules, i, acts);
    hide RunRules, ScriptText, WithLines, Inserted, Lex, ParseCommands, RunCommands, Harmless, ActionRequires, Uses;
    InsertedHarmless(rules, i, acts);
    ScriptMeansRules(Inserted(rules, i, acts), m);
  }

  lemma InsertedHarmless(rules: seq<Rule>, i: nat, acts: seq<Action>)
    requires NamesHarmless(rules) && i < |rules|
    ensures NamesHarmless(Inserted(rules, i, acts))
  {
    hide Inserted, Harmless;
    InsertedAt(rules, i, acts, 0);
    var more := Inserted(rules, i, acts);
    forall k | 0 <= k < |more| ensures Harmless(more[k].name) { InsertedAt(rules, i, acts, k); }
  }

  lemma NameLexesAsRule(rules: seq<Rule>, i: nat, acts: seq<Action>)
    requires NamesHarmless(rules) && i < |rules|
    requires forall a, e :: a in acts && e in ActionRequires(a) ==> Uses(rules, e)
    ensures Lex(ScriptText(rules[i := rules[i].(name := WithLines(rules[i].name, acts))]))
         == Lex(ScriptText(Inserted(rules, i, acts)))
  {
    hide Lex, ScriptText, WithLines, Inserted, Harmless, ActionRequires, Uses, Requires, Closed, CompileRule, RuleTokens,
      BodyTokens, Flatten;
    var r := rules[i];
    var odd := rules[i := r.(name := WithLines(r.name, acts))];
    var tss := RulesTokens(rules)[i := BodyTokens(acts) + RuleTokens(r)];
    forall k | 0 <= k < |odd| ensures Closed(CompileRule(odd[k]), tss[k]) {
      if k == i { LinesInNameLex(r, acts); } else { RuleLexes(rules[k]); }
    }
    ScriptLexesTo(odd, tss);
    RenamingRequires(rules, i, WithLines(r.name, acts));
    InsertingRequires(rules, i, acts);
    InsertedHarmless(rules, i, acts);
    ScriptLexes(Inserted(rules, i, acts));
    InsertedTokens(rules, i, acts, RequirePart(Requires(rules)));
  }

  /**
   So a second line "  stop;" ends the filters there, on every message; and that is what the rules mean exactly if
   they had stopped before, or stop next with nothing done.
   */
  lemma LineBreakInNameChangesMeaning(rules: seq<Rule>, i: nat, m: Message)
    requires NamesHarmless(rules) && i < |rules|
    ensures var odd := rules[i := rules[i].(name := WithLines(rules[i].name, [Action(Stop, None)]))];
            var before, next := RunRules(rules[..i], m), RunRules(rules[i..], m);
            && RunText(ScriptText(odd), m) == Some(Outcome(before.effects, true))
            && (RunText(ScriptText(odd), m) == Some(RunRules(odd, m)) <==> before.stopped || next == Outcome([], true))
  {
    hide RunText, ScriptText, RunRules, WithLines, Harmless, ActionRequires, Uses;
    var stop := [Action(Stop, None)];
    var r := rules[i];
    forall a | a in stop ensures ActionRequires(a) == [] { StopNeedsNothing(a); }
    NameRunsAsActions(rules, i, stop, m);
    var rest := [Rule(r.name, All, [], stop), r] + rules[i + 1..];
    assert Inserted(rules, i, stop) == rules[..i] + rest;
    RunInTwo(rules[..i], rest, m);
    StopRule(rest, m);
    RenamedRuns(rules, i, WithLines(r.name, stop), m);
    assert rules[..i] + rules[i..] == rules;
    RunInTwo(rules[..i], rules[i..], m);
    var before, next := RunRules(rules[..i], m), RunRules(rules[i..], m);
    assert before.effects + [] == before.effects;
    assert before.effects + next.effects == before.effects ==> next.effects == [] by {
      assert |before.effects + next.effects| == |before.effects| + |next.effects|;
    }
  }

  lemma StopNeedsNothing(a: Action)
    requires a.kind == Stop
    ensures ActionRequires(a) == []
  {
  }

  lemma StopRule(rules: seq<Rule>, m: Message)
    requires rules != [] && rules[0].conditions == [] && rules[0].actions == [Action(Stop, None)]
    ensures RunRules(rules, m) == Outcome([], true)
  {
  }

  lemma {:induction false} RunInTwo(a: seq<Rule>, b: seq<Rule>, m: Message)
    ensures RunRules(a + b, m) == ThenRules(RunRules(a, m), RunRules(b, m))
    decreases |a|
  {
    hide RunActions, RuleApplies;
    if a == [] {
      assert a + b == b && [] + RunRules(b, m).effects == RunRules(b, m).effects;
    } else {
      assert (a + b)[1..] == a[1..] + b;
      RunInTwo(a[1..], b, m);
      Assoc(RunActions(a[0].actions).effects, RunRules(a[1..], m).effects, RunRules(b, m).effects);
    }
  }

  lemma {:induction false} RenamedRuns(rules: seq<Rule>, i: nat, name: string, m: Message)
    requires i < |rules|
    ensures RunRules(rules[i := rules[i].(name := name)], m) == RunRules(rules, m)
    decreases |rules|
  {
    hide RunActions;
    var odd := rules[i := rules[i].(name := name)];
    if i == 0 {
      assert odd[1..] == rules[1..];
    } else {
      assert odd[1..] == rules[1..][i - 1 := rules[1..][i - 1].(name := name)];
      RenamedRuns(rules[1..], i - 1, name, m);
    }
  }

  lemma {:induction false} NoRequire(rules: seq<Rule>)
    ensures RulesAst(rules) != [] ==> RulesAst(rules)[0].name != "require"
  {
    if rules != [] && RuleAsts(rules[0]) == [] {
      NoRequire(rules[1..]);
      assert RulesAst(rules) == RulesAst(rules[1..]);
    }
  }

  /** compileScript: the emitted text runs to the effects of the rules. */
  method CompileScript(rules: seq<Rule>) returns (text: string)
    ensures text == ScriptText(rules)
    ensures NamesHarmless(rules) ==> forall m :: RunText(text, m) == Some(RunRules(rules, m))
  {
    hide RunText, RunRules, CompileRule, RequireLine, BANNER;
    var exts := CollectRequires(rules);
    var parts := [BANNER];
    if |exts| > 0 {
      parts := parts + [RequireLine(exts)];
    }
    ghost var front := parts;
    for i := 0 to |rules|
      invariant parts == front + RuleTexts(rules[..i])
    {
      assert RuleTexts(rules[..i + 1]) == RuleTexts(rules[..i]) + [CompileRule(rules[i])];
      parts := parts + [CompileRule(rules[i])];
    }
    assert rules[..|rules|] == rules;
    assert parts == [BANNER] + Parts(exts, rules);
    text := Join(parts, "\n\n") + "\n";
    if NamesHarmless(rules) {
      forall m ensures RunText(text, m) == Some(RunRules(rules, m)) {
        ScriptMeansRules(rules, m);
      }
    }
  }
}
