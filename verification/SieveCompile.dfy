/**
 The filter-rule compiler (apps/api/src/webmail/sieve-compile.ts): structured
 rules to Sieve text, and the meaning the rules have before compilation.
 */
module SieveCompile {
  import opened Text
  import L = SieveLanguage

  datatype Field = From | To | Cc | Subject | AnyField
  datatype Op = Contains | Is | Matches
  datatype Match = All | Any
  datatype Condition = Condition(field: Field, op: Op, value: string)
  datatype ActionType = FileInto | Keep | Discard | Seen | Flag | Redirect | Stop
  datatype Action = Action(kind: ActionType, arg: Option<string>)
  datatype Rule = Rule(name: string, mode: Match, conditions: seq<Condition>, actions: seq<Action>)

  // ----- What a rule list means, without any text -----

  predicate Satisfies(op: Op, value: string, key: string) {
    match op
    case Contains => exists i :: 0 <= i <= |value| && ToLower(key) <= ToLower(value)[i..]
    case Is => ToLower(value) == ToLower(key)
    case Matches => L.Glob(ToLower(value), ToLower(key))
  }

  /** Some value of the message's header of this name satisfies the test. */
  predicate HeaderHolds(c: Condition, m: L.Message, name: string) {
    name in m && exists i :: 0 <= i < |m[name]| && Satisfies(c.op, m[name][i], c.value)
  }

  predicate ConditionHolds(c: Condition, m: L.Message) {
    match c.field
    case From => HeaderHolds(c, m, "from")
    case To => HeaderHolds(c, m, "to")
    case Cc => HeaderHolds(c, m, "cc")
    case Subject => HeaderHolds(c, m, "subject")
    case AnyField =>
      HeaderHolds(c, m, "from") || HeaderHolds(c, m, "to") || HeaderHolds(c, m, "cc") || HeaderHolds(c, m, "subject")
  }

  predicate RuleApplies(r: Rule, m: L.Message) {
    if r.conditions == [] then true
    else if |r.conditions| == 1 || r.mode == All then
      forall i :: 0 <= i < |r.conditions| ==> ConditionHolds(r.conditions[i], m)
    else exists i :: 0 <= i < |r.conditions| && ConditionHolds(r.conditions[i], m)
  }

  function RunActions(actions: seq<Action>): L.Outcome {
    if actions == [] then L.Outcome([], false)
    else if actions[0].kind == Stop then L.Outcome([], true)
    else
      var arg := if actions[0].arg.Some? then actions[0].arg.value else "";
      var e := match actions[0].kind
        case FileInto => L.Filed(arg, true)
        case Keep => L.Kept
        case Discard => L.Discarded
        case Seen => L.Flagged(["\\Seen"])
        case Flag => L.Flagged([arg])
        case _ => L.Redirected(arg);
      var rest := RunActions(actions[1..]);
      L.Outcome([e] + rest.effects, rest.stopped)
  }

  /** Each rule that applies contributes its actions, in order, until a `stop`. */
  function RunRules(rules: seq<Rule>, m: L.Message): L.Outcome {
    if rules == [] then L.Outcome([], false)
    else
      var rest := RunRules(rules[1..], m);
      if !RuleApplies(rules[0], m) then rest
      else
        var o := RunActions(rules[0].actions);
        if o.stopped then o else L.Outcome(o.effects + rest.effects, rest.stopped)
  }

  // ----- The compiler -----

  function Escape(value: string): string {
    Subst(Subst(value, '\\', "\\\\"), '"', "\\\"")
  }

  function Quote(value: string): string {
    "\"" + Escape(value) + "\""
  }

  function QuoteAll(values: seq<string>): seq<string> {
    seq(|values|, i requires 0 <= i < |values| => Quote(values[i]))
  }

  function FieldHeaders(f: Field): seq<string> {
    match f
    case From => ["from"]
    case To => ["to"]
    case Cc => ["cc"]
    case Subject => ["subject"]
    case AnyField => ["from", "to", "cc", "subject"]
  }

  /** `a.arg ?? ""` */
  function ArgText(a: Action): string {
    if a.arg.Some? then a.arg.value else ""
  }

  function HeaderList(f: Field): string {
    "[" + Join(QuoteAll(FieldHeaders(f)), ", ") + "]"
  }

  function OpName(op: Op): string {
    match op
    case Contains => "contains"
    case Is => "is"
    case Matches => "matches"
  }

  function CompileCondition(c: Condition): string {
    "header " + (":" + OpName(c.op)) + " " + HeaderList(c.field) + " " + Quote(c.value)
  }

  function ActionRequires(a: Action): seq<string> {
    match a.kind
    case FileInto => ["fileinto", "mailbox"]
    case Seen => ["imap4flags"]
    case Flag => ["imap4flags"]
    case _ => []
  }

  function CompileAction(a: Action): string {
    match a.kind
    case FileInto => "fileinto :create " + Quote(ArgText(a)) + ";"
    case Keep => "keep;"
    case Discard => "discard;"
    case Seen => "addflag \"\\\\Seen\";"
    case Flag => "addflag " + Quote(ArgText(a)) + ";"
    case Redirect => "redirect " + Quote(ArgText(a)) + ";"
    case Stop => "stop;"
  }

  function ActionLines(actions: seq<Action>): seq<string> {
    seq(|actions|, i requires 0 <= i < |actions| => "  " + CompileAction(actions[i]))
  }

  function TestTexts(cs: seq<Condition>): seq<string> {
    seq(|cs|, i requires 0 <= i < |cs| => CompileCondition(cs[i]))
  }

  function CompileTests(r: Rule): string {
    var tests := TestTexts(r.conditions);
    if |tests| == 1 then tests[0]
    else (if r.mode == Any then "anyof" else "allof") + " (" + Join(tests, ", ") + ")"
  }

  function CompileRule(r: Rule): string {
    var body := Join(ActionLines(r.actions), "\n");
    var header := "# " + r.name;
    if r.conditions == [] then header + "\n" + body
    else header + "\nif " + CompileTests(r) + " {\n" + body + "\n}"
  }

  const BANNER := "#" + (" Generated by JustMail " + "\U{2014} do not edit;" + (" managed via" + " the Filters UI."))

  ghost predicate Uses(rules: seq<Rule>, ext: string) {
    exists i, j :: 0 <= i < |rules| && 0 <= j < |rules[i].actions| && ext in ActionRequires(rules[i].actions[j])
  }

  function KeepIf(b: bool, ext: string): seq<string> {
    if b then [ext] else []
  }

  /** The require list: the used extensions in the fixed order. */
  ghost function Requires(rules: seq<Rule>): seq<string> {
    KeepIf(Uses(rules, "fileinto"), "fileinto") + KeepIf(Uses(rules, "mailbox"), "mailbox")
    + KeepIf(Uses(rules, "imap4flags"), "imap4flags")
  }

  /** An extension is declared if and only if some action needs it, and never twice. */
  lemma RequiresExact(rules: seq<Rule>)
    ensures forall e :: e in Requires(rules) <==> Uses(rules, e)
    ensures forall i, j :: 0 <= i < j < |Requires(rules)| ==> Requires(rules)[i] != Requires(rules)[j]
  {
    var fi, mb, fl := "fileinto", "mailbox", "imap4flags";
    assert |fi| == 8 && |mb| == 7 && |fl| == 10;
    forall e ensures e in Requires(rules) <==> Uses(rules, e) {
      if Uses(rules, e) {
        var i, j :| 0 <= i < |rules| && 0 <= j < |rules[i].actions| && e in ActionRequires(rules[i].actions[j]);
        assert e == fi || e == mb || e == fl;
      }
    }
  }

  /** collectRequires: a set filled action by action, then read off in the fixed order. */
  method CollectRequires(rules: seq<Rule>) returns (exts: seq<string>)
    ensures exts == Requires(rules)
  {
    var present: set<string> := {};
    for i := 0 to |rules|
      invariant forall e :: e in present <==> Uses(rules[..i], e)
    {
      var actions := rules[i].actions;
      ghost var before := present;
      for j := 0 to |actions|
        invariant forall e :: e in present <==> e in before || exists k :: 0 <= k < j && e in ActionRequires(actions[k])
      {
        var reqs := ActionRequires(actions[j]);
        for k := 0 to |reqs|
          invariant forall e :: e in present <==>
            e in before || (exists k :: 0 <= k < j && e in ActionRequires(actions[k])) || e in reqs[..k]
        {
          assert reqs[..k + 1] == reqs[..k] + [reqs[k]];
          present := present + {reqs[k]};
        }
        assert reqs[..|reqs|] == reqs;
      }
      UsesSnoc(rules[..i], rules[i]);
      assert rules[..i + 1] == rules[..i] + [rules[i]];
    }
    assert rules[..|rules|] == rules;
    exts := KeepIf("fileinto" in present, "fileinto") + KeepIf("mailbox" in present, "mailbox")
      + KeepIf("imap4flags" in present, "imap4flags");
  }

  lemma UsesSnoc(rules: seq<Rule>, r: Rule)
    ensures forall e :: Uses(rules + [r], e) <==>
              Uses(rules, e) || exists k :: 0 <= k < |r.actions| && e in ActionRequires(r.actions[k])
  {
    forall e ensures Uses(rules + [r], e) <==>
              Uses(rules, e) || exists k :: 0 <= k < |r.actions| && e in ActionRequires(r.actions[k])
    {
      var all := rules + [r];
      if Uses(rules, e) {
        var i, j :| 0 <= i < |rules| && 0 <= j < |rules[i].actions| && e in ActionRequires(rules[i].actions[j]);
        assert all[i] == rules[i];
      }
      if k :| 0 <= k < |r.actions| && e in ActionRequires(r.actions[k]) {
        assert all[|rules|] == r;
      }
    }
  }

  function RequireLine(exts: seq<string>): string {
    "require [" + Join(QuoteAll(exts), ", ") + "];"
  }

  function RuleTexts(rules: seq<Rule>): seq<string> {
    seq(|rules|, i requires 0 <= i < |rules| => CompileRule(rules[i]))
  }

  /** What follows the banner in the parts array. */
  function Parts(exts: seq<string>, rules: seq<Rule>): seq<string> {
    (if exts != [] then [RequireLine(exts)] else []) + RuleTexts(rules)
  }

  ghost function ScriptText(rules: seq<Rule>): string {
    Join([BANNER] + Parts(Requires(rules), rules), "\n\n") + "\n"
  }
}
