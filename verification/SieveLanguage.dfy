/**
 A reader and evaluator for the part of Sieve (RFC 5228) that mail filters use:
 the lexical rules of sections 2.3 and 2.4.2, the generic grammar of section 8.2,
 and the control commands, actions and tests of sections 3 to 5, plus `:create`
 (RFC 5490) and `addflag` (RFC 5232).  A bare LF is accepted where the standard
 writes CRLF.
 */
module SieveLanguage {
  import opened Text

  // ----- Lexical tokens (section 8.1) -----

  datatype Token = Ident(name: string) | Tag(name: string) | Str(value: string) | Punct(mark: char)

  predicate IsIdentStart(c: char) {
    'a' <= c <= 'z' || 'A' <= c <= 'Z' || c == '_'
  }

  predicate IsIdentChar(c: char) {
    IsIdentStart(c) || '0' <= c <= '9'
  }

  predicate IsBlank(c: char) {
    c == ' ' || c == '\t' || c == '\r' || c == '\n'
  }

  predicate IsPunct(c: char) {
    c in ['[', ']', '(', ')', '{', '}', ',', ';']
  }

  /** Length of the identifier characters that begin `s`. */
  function IdentLength(s: string): (n: nat)
    ensures n <= |s|
  {
    if s != "" && IsIdentChar(s[0]) then 1 + IdentLength(s[1..]) else 0
  }

  /** What follows a hash comment: it runs to a CR or LF and may not run to the end of the script. */
  function AfterComment(s: string): (r: Option<string>)
    ensures r.Some? ==> |r.value| < |s|
  {
    if s == "" then None
    else if s[0] == '\r' || s[0] == '\n' then Some(s[1..])
    else AfterComment(s[1..])
  }

  /** The value of a quoted string whose opening quote is consumed, and what follows the closing quote. */
  function QuotedRest(s: string): (r: Option<(string, string)>)
    ensures r.Some? ==> |r.value.1| < |s|
  {
    if s == "" then None
    else if s[0] == '"' then Some(("", s[1..]))
    else if s[0] == '\\' then
      if |s| < 2 then None else PushFront(s[1], QuotedRest(s[2..]))
    else PushFront(s[0], QuotedRest(s[1..]))
  }

  function PushFront(c: char, r: Option<(string, string)>): Option<(string, string)> {
    if r.Some? then Some(([c] + r.value.0, r.value.1)) else None
  }

  function Prepend(ts: seq<Token>, r: Option<seq<Token>>): (p: Option<seq<Token>>)
    ensures ts == [] ==> p == r
  {
    if r.Some? then
      assert [] + r.value == r.value;
      Some(ts + r.value)
    else None
  }

  function Lex(s: string): Option<seq<Token>>
    decreases |s|
  {
    if s == "" then Some([])
    else if IsBlank(s[0]) then Lex(s[1..])
    else if s[0] == '#' then
      var r := AfterComment(s[1..]);
      if r.Some? then Lex(r.value) else None
    else if s[0] == '"' then
      var r := QuotedRest(s[1..]);
      if r.Some? then Prepend([Str(r.value.0)], Lex(r.value.1)) else None
    else if IsPunct(s[0]) then Prepend([Punct(s[0])], Lex(s[1..]))
    else if IsIdentStart(s[0]) then
      var n := IdentLength(s);
      Prepend([Ident(ToLower(s[..n]))], Lex(s[n..]))
    else if s[0] == ':' && |s| > 1 && IsIdentStart(s[1]) then
      var n := IdentLength(s[1..]);
      Prepend([Tag(ToLower(s[1..][..n]))], Lex(s[1..][n..]))
    else None
  }

  // ----- Grammar (section 8.2) -----

  datatype Arg = Strings(values: seq<string>) | TagArg(name: string)
  datatype Test = Test(name: string, args: seq<Arg>, tests: seq<Test>)
  datatype Command =
    | Simple(name: string, args: seq<Arg>, tests: seq<Test>)
    | Compound(name: string, args: seq<Arg>, tests: seq<Test>, block: seq<Command>)

  datatype Parsed<+T> = Fail | Ok(value: T, rest: seq<Token>)

  predicate Starts(ts: seq<Token>, c: char) {
    ts != [] && ts[0] == Punct(c)
  }

  /** string *("," string) "]" */
  function ParseStrings(ts: seq<Token>): (r: Parsed<seq<string>>)
    ensures r.Ok? ==> |r.rest| < |ts|
  {
    if ts == [] || !ts[0].Str? then Fail
    else if Starts(ts[1..], ']') then Ok([ts[0].value], ts[2..])
    else if Starts(ts[1..], ',') then
      var r := ParseStrings(ts[2..]);
      if r.Ok? then Ok([ts[0].value] + r.value, r.rest) else Fail
    else Fail
  }

  /** *argument */
  function ParseArgs(ts: seq<Token>): (r: Parsed<seq<Arg>>)
    ensures r.Ok? ==> |r.rest| <= |ts|
    decreases |ts|
  {
    if ts == [] then Ok([], ts)
    else if ts[0].Str? then PushArg(Strings([ts[0].value]), ParseArgs(ts[1..]))
    else if ts[0].Tag? then PushArg(TagArg(ts[0].name), ParseArgs(ts[1..]))
    else if Starts(ts, '[') then
      var l := ParseStrings(ts[1..]);
      if l.Ok? then PushArg(Strings(l.value), ParseArgs(l.rest)) else Fail
    else Ok([], ts)
  }

  function PushArg(a: Arg, r: Parsed<seq<Arg>>): (p: Parsed<seq<Arg>>)
    ensures r.Ok? && r.value == [] ==> p == Ok([a], r.rest)
  {
    if r.Ok? then
      assert r.value == [] ==> [a] + r.value == [a];
      Ok([a] + r.value, r.rest)
    else Fail
  }

  /** [test / test-list] */
  function ParseOptTests(ts: seq<Token>): (r: Parsed<seq<Test>>)
    ensures r.Ok? ==> |r.rest| <= |ts|
    decreases |ts|, 1
  {
    if ts != [] && ts[0].Ident? then
      var t := ParseTest(ts);
      if t.Ok? then Ok([t.value], t.rest) else Fail
    else if Starts(ts, '(') then ParseTestList(ts[1..])
    else Ok([], ts)
  }

  function ParseTest(ts: seq<Token>): (r: Parsed<Test>)
    ensures r.Ok? ==> |r.rest| < |ts|
    decreases |ts|, 0
  {
    if ts == [] || !ts[0].Ident? then Fail
    else
      var a := ParseArgs(ts[1..]);
      if a.Fail? then Fail
      else
        var t := ParseOptTests(a.rest);
        if t.Fail? then Fail else Ok(Test(ts[0].name, a.value, t.value), t.rest)
  }

  /** test *("," test) ")" */
  function ParseTestList(ts: seq<Token>): (r: Parsed<seq<Test>>)
    ensures r.Ok? ==> |r.rest| < |ts|
    decreases |ts|, 1
  {
    var t := ParseTest(ts);
    if t.Fail? then Fail
    else if Starts(t.rest, ')') then Ok([t.value], t.rest[1..])
    else if Starts(t.rest, ',') then
      var r := ParseTestList(t.rest[1..]);
      if r.Ok? then Ok([t.value] + r.value, r.rest) else Fail
    else Fail
  }

  /** identifier arguments (";" / block) */
  function ParseCommand(ts: seq<Token>): (r: Parsed<Command>)
    ensures r.Ok? ==> |r.rest| < |ts|
    decreases |ts|, 0
  {
    if ts == [] || !ts[0].Ident? then Fail
    else
      var a := ParseArgs(ts[1..]);
      if a.Fail? then Fail
      else
        var t := ParseOptTests(a.rest);
        if t.Fail? then Fail
        else if Starts(t.rest, ';') then Ok(Simple(ts[0].name, a.value, t.value), t.rest[1..])
        else if Starts(t.rest, '{') then
          var b := ParseCommands(t.rest[1..]);
          if b.Ok? && Starts(b.rest, '}')
          then Ok(Compound(ts[0].name, a.value, t.value, b.value), b.rest[1..])
          else Fail
        else Fail
  }

  /** *command */
  function ParseCommands(ts: seq<Token>): (r: Parsed<seq<Command>>)
    ensures r.Ok? ==> |r.rest| <= |ts|
    decreases |ts|, 1
  {
    if ts == [] || !ts[0].Ident? then Ok([], ts)
    else
      var c := ParseCommand(ts);
      if c.Fail? then Fail
      else
        var r := ParseCommands(c.rest);
        if r.Ok? then Ok([c.value] + r.value, r.rest) else Fail
  }

  // ----- Evaluation -----

  /** Header values by lower-case field name, in message order. */
  type Message = map<string, seq<string>>

  datatype Effect =
    | Filed(mailbox: string, create: bool)
    | Kept
    | Discarded
    | Flagged(flags: seq<string>)
    | Redirected(address: string)

  /** What a run did, and whether a `stop` ended it. */
  datatype Outcome = Outcome(effects: seq<Effect>, stopped: bool)

  /** :matches of section 2.7.1: `*` any run, `?` one character, a backslash quotes the next. */
  predicate Glob(s: string, p: string)
    decreases |s| + |p|
  {
    if p == "" then s == ""
    else if p[0] == '*' then Glob(s, p[1..]) || (s != "" && Glob(s[1..], p))
    else if s == "" then false
    else if p[0] == '?' then Glob(s[1..], p[1..])
    else if p[0] == '\\' && |p| > 1 then s[0] == p[1] && Glob(s[1..], p[2..])
    else s[0] == p[0] && Glob(s[1..], p[1..])
  }

  /** One value against one key under i;ascii-casemap. */
  predicate KeyMatches(matchType: string, value: string, key: string) {
    var v, k := ToLower(value), ToLower(key);
    if matchType == "contains" then exists i :: 0 <= i <= |v| && k <= v[i..]
    else if matchType == "matches" then Glob(v, k)
    else v == k
  }

  predicate HeaderTest(m: Message, matchType: string, names: seq<string>, keys: seq<string>) {
    exists n, i, k :: n in names && k in keys && ToLower(n) in m && 0 <= i < |m[ToLower(n)]| &&
                      KeyMatches(matchType, m[ToLower(n)][i], k)
  }

  function EvalTest(t: Test, m: Message): Option<bool>
    decreases t, 1
  {
    if t.name == "header" && t.tests == [] then
      if |t.args| == 3 && t.args[0].TagArg? && t.args[0].name in ["is", "contains", "matches"] &&
         t.args[1].Strings? && t.args[2].Strings?
      then Some(HeaderTest(m, t.args[0].name, t.args[1].values, t.args[2].values))
      else if |t.args| == 2 && t.args[0].Strings? && t.args[1].Strings?
      then Some(HeaderTest(m, "is", t.args[0].values, t.args[1].values))
      else None
    else if t.name == "allof" && t.args == [] && t.tests != [] then EvalTests(t.tests, m, true)
    else if t.name == "anyof" && t.args == [] && t.tests != [] then EvalTests(t.tests, m, false)
    else if t.name == "not" && t.args == [] && |t.tests| == 1 then
      var r := EvalTest(t.tests[0], m);
      if r.Some? then Some(!r.value) else None
    else if t.name == "true" && t.args == [] && t.tests == [] then Some(true)
    else if t.name == "false" && t.args == [] && t.tests == [] then Some(false)
    else None
  }

  /** Conjunction (`all`) or disjunction of the tests. */
  function EvalTests(ts: seq<Test>, m: Message, all: bool): Option<bool>
    decreases ts, 0
  {
    if ts == [] then Some(all)
    else
      var h, r := EvalTest(ts[0], m), EvalTests(ts[1..], m, all);
      if h.Some? && r.Some? then Some(if all then h.value && r.value else h.value || r.value) else None
  }

  /** The effect of an action command; None for a malformed or undeclared one. */
  function ActionEffect(c: Command, exts: set<string>): Option<Effect> {
    if c.tests != [] || c.Compound? then None
    else if c.name == "keep" && c.args == [] then Some(Kept)
    else if c.name == "discard" && c.args == [] then Some(Discarded)
    else if c.name == "redirect" && |c.args| == 1 && OneString(c.args[0]) then
      Some(Redirected(c.args[0].values[0]))
    else if c.name == "addflag" && "imap4flags" in exts && |c.args| == 1 && c.args[0].Strings? then
      Some(Flagged(c.args[0].values))
    else if c.name == "fileinto" && "fileinto" in exts then
      if |c.args| == 1 && OneString(c.args[0]) then Some(Filed(c.args[0].values[0], false))
      else if |c.args| == 2 && c.args[0] == TagArg("create") && "mailbox" in exts && OneString(c.args[1])
      then Some(Filed(c.args[1].values[0], true))
      else None
    else None
  }

  predicate OneString(a: Arg) {
    a.Strings? && |a.values| == 1
  }

  function Then(first: Outcome, rest: Option<Outcome>): Option<Outcome> {
    if first.stopped then Some(first)
    else if rest.Some? then Some(Outcome(first.effects + rest.value.effects, rest.value.stopped))
    else None
  }

  /** Run commands; `chain` is whether a branch of the if-chain just before was taken, if there is one. */
  function Exec(cs: seq<Command>, m: Message, exts: set<string>, chain: Option<bool>): Option<Outcome>
    decreases cs
  {
    if cs == [] then Some(Outcome([], false))
    else
      var c, rest := cs[0], cs[1..];
      if c.name == "if" || (c.name == "elsif" && chain.Some?) then
        if c.args == [] && |c.tests| == 1 && c.Compound? then
          var t := EvalTest(c.tests[0], m);
          var done := c.name == "elsif" && chain.value;
          if t.None? then None
          else if t.value && !done then
            var o := Exec(c.block, m, exts, None);
            if o.Some? then Then(o.value, Exec(rest, m, exts, Some(true))) else None
          else Exec(rest, m, exts, Some(done))
        else None
      else if c.name == "else" && chain.Some? && c.args == [] && c.tests == [] && c.Compound? then
        if chain.value then Exec(rest, m, exts, None)
        else
          var o := Exec(c.block, m, exts, None);
          if o.Some? then Then(o.value, Exec(rest, m, exts, None)) else None
      else if c == Simple("stop", [], []) then Some(Outcome([], true))
      else
        var e := ActionEffect(c, exts);
        if e.Some? then Then(Outcome([e.value], false), Exec(rest, m, exts, None)) else None
  }

  /** Section 3.2: `require` comes first, and only declared extensions may be used. */
  function RunCommands(cs: seq<Command>, m: Message, exts: set<string>): Option<Outcome> {
    if cs != [] && cs[0].name == "require" then
      if |cs[0].args| == 1 && cs[0].args[0].Strings? && cs[0].tests == [] && cs[0].Simple?
      then RunCommands(cs[1..], m, exts + set e | e in cs[0].args[0].values)
      else None
    else Exec(cs, m, exts, None)
  }

  /** Lex, parse and run a script; None if it is not a valid script. */
  function RunText(text: string, m: Message): Option<Outcome> {
    var ts := Lex(text);
    if ts.None? then None
    else
      var p := ParseCommands(ts.value);
      if p.Ok? && p.rest == [] then RunCommands(p.value, m, {}) else None
  }
}
