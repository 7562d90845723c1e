/**
 Every script the compiler emits lexes, under RFC 5228, to the tokens of its
 require line and rules: comments, layout and quoting disappear.
 */
module SieveLexing {
  import opened Text
  import opened SieveLanguage
  import opened SieveCompile

  // ----- Lexing, piece by piece -----

  /** Whatever follows it, `p` lexes to `ts`. */
  ghost predicate Closed(p: string, ts: seq<Token>) {
    forall r: string :: Lex(p + r) == Prepend(ts, Lex(r))
  }

  lemma PrependTwice(ts: seq<Token>, us: seq<Token>, r: Option<seq<Token>>)
    ensures Prepend(ts, Prepend(us, r)) == Prepend(ts + us, r)
  {
    if r.Some? {
      assert ts + (us + r.value) == ts + us + r.value;
    }
  }

  lemma Chain(p: string, ts: seq<Token>, q: string, us: seq<Token>)
    requires Closed(p, ts) && Closed(q, us)
    ensures Closed(p + q, ts + us)
  {
    hide Lex;
    forall r: string ensures Lex(p + q + r) == Prepend(ts + us, Lex(r)) {
      assert p + q + r == p + (q + r);
      PrependTwice(ts, us, Lex(r));
    }
  }

  lemma BlankLexes(c: char)
    requires IsBlank(c)
    ensures Closed([c], [])
  {
  }

  lemma PunctLexes(c: char)
    requires IsPunct(c)
    ensures Closed([c], [Punct(c)])
  {
  }

  predicate LowerWord(w: string) {
    w != "" && forall i :: 0 <= i < |w| ==> 'a' <= w[i] <= 'z'
  }

  lemma {:induction false} WordLength(w: string, r: string)
    requires forall i :: 0 <= i < |w| ==> 'a' <= w[i] <= 'z'
    requires r != "" && !IsIdentChar(r[0])
    ensures IdentLength(w + r) == |w|
  {
    if w == "" {
      assert w + r == r;
    } else {
      WordLength(w[1..], r);
      assert (w + r)[1..] == w[1..] + r;
    }
  }

  lemma WordStep(w: string, r: string)
    requires LowerWord(w) && r != "" && !IsIdentChar(r[0])
    ensures Lex(w + r) == Prepend([Ident(w)], Lex(r))
  {
    WordLength(w, r);
    assert (w + r)[..|w|] == w && (w + r)[|w|..] == r;
    assert ToLower(w) == w;
    assert 'a' <= w[0] <= 'z';
  }

  lemma TagStep(w: string, r: string)
    requires LowerWord(w) && r != "" && !IsIdentChar(r[0])
    ensures Lex(":" + (w + r)) == Prepend([Tag(w)], Lex(r))
  {
    WordLength(w, r);
    assert (w + r)[..|w|] == w && (w + r)[|w|..] == r;
    assert ToLower(w) == w;
    assert 'a' <= w[0] <= 'z';
    assert (":" + (w + r))[1..] == w + r;
  }

  /** A word up to the blank or punctuation `d` that ends it. */
  lemma WordLexes(w: string, d: char, us: seq<Token>)
    requires LowerWord(w) && !IsIdentChar(d) && Closed([d], us)
    ensures Closed(w + [d], [Ident(w)] + us)
  {
    hide Lex;
    forall r: string ensures Lex(w + [d] + r) == Prepend([Ident(w)] + us, Lex(r)) {
      assert w + [d] + r == w + ([d] + r);
      WordStep(w, [d] + r);
      PrependTwice([Ident(w)], us, Lex(r));
    }
  }

  lemma TagLexes(w: string, d: char, us: seq<Token>)
    requires LowerWord(w) && !IsIdentChar(d) && Closed([d], us)
    ensures Closed(":" + w + [d], [Tag(w)] + us)
  {
    hide Lex;
    forall r: string ensures Lex(":" + w + [d] + r) == Prepend([Tag(w)] + us, Lex(r)) {
      assert ":" + w + [d] + r == ":" + (w + ([d] + r));
      TagStep(w, [d] + r);
      PrependTwice([Tag(w)], us, Lex(r));
    }
  }

  // ----- Comments -----

  /** Text after a hash whose later lines, if any, are blank or comments again. */
  predicate InComment(s: string) {
    s == "" || (if s[0] == '\r' || s[0] == '\n' then BlankLines(s[1..]) else InComment(s[1..]))
  }

  predicate BlankLines(s: string) {
    s == "" || (if IsBlank(s[0]) then BlankLines(s[1..]) else s[0] == '#' && InComment(s[1..]))
  }

  lemma {:induction false} CommentSkips(s: string, r: string)
    requires InComment(s)
    ensures AfterComment(s + "\n" + r).Some? && Lex(AfterComment(s + "\n" + r).value) == Lex(r)
    decreases |s|
  {
    var t := s + "\n" + r;
    if s == "" {
      assert t[1..] == r;
    } else {
      assert t[1..] == s[1..] + "\n" + r;
      if s[0] == '\r' || s[0] == '\n' { BlankSkips(s[1..], r); } else { CommentSkips(s[1..], r); }
    }
  }

  lemma {:induction false} BlankSkips(s: string, r: string)
    requires BlankLines(s)
    ensures Lex(s + "\n" + r) == Lex(r)
    decreases |s|
  {
    var t := s + "\n" + r;
    if s == "" {
      assert t[1..] == r;
    } else {
      assert t[1..] == s[1..] + "\n" + r;
      if IsBlank(s[0]) { BlankSkips(s[1..], r); } else { CommentSkips(s[1..], r); }
    }
  }

  /** Otherwise the lexer meets a token, or an error. */
  lemma {:induction false} CommentShows(s: string)
    requires !InComment(s)
    ensures AfterComment(s + "\n").Some? ==> Lex(AfterComment(s + "\n").value) != Some([])
    decreases |s|
  {
    var t := s + "\n";
    assert t[1..] == s[1..] + "\n";
    if s[0] == '\r' || s[0] == '\n' { BlankShows(s[1..]); } else { CommentShows(s[1..]); }
  }

  lemma {:induction false} BlankShows(s: string)
    requires !BlankLines(s)
    ensures Lex(s + "\n") != Some([])
    decreases |s|
  {
    var t := s + "\n";
    assert t[1..] == s[1..] + "\n";
    if IsBlank(s[0]) {
      BlankShows(s[1..]);
    } else if s[0] == '#' {
      CommentShows(s[1..]);
    }
  }

  /** A hash, a text and a line break vanish whatever follows, exactly when no later line of the text is more than a comment. */
  lemma CommentVanishesIff(s: string)
    ensures Closed("#" + s + "\n", []) <==> InComment(s)
  {
    if InComment(s) {
      forall r: string ensures Lex("#" + s + "\n" + r) == Prepend([], Lex(r)) {
        CommentSkips(s, r);
        assert ("#" + s + "\n" + r)[1..] == s + "\n" + r;
      }
    } else {
      CommentShows(s);
      var t := "#" + s + "\n";
      assert t[1..] == s + "\n" && t + "" == t;
      assert Lex(t) != Some([]);
      assert Closed(t, []) ==> Lex(t + "") == Prepend([], Lex(""));
    }
  }

  lemma {:induction false} OneLineInComment(s: string)
    requires OneLine(s)
    ensures InComment(s)
  {
    if s != "" { OneLineInComment(s[1..]); }
  }

  /** The two replacement passes act on each character separately. */
  lemma EscapeStep(c: char, v: string)
    ensures Escape([c] + v) == (if c == '\\' || c == '"' then ['\\', c] else [c]) + Escape(v)
  {
    var x := Subst([c], '\\', "\\\\");
    SubstAppend([c], v, '\\', "\\\\");
    SubstAppend(x, Subst(v, '\\', "\\\\"), '"', "\\\"");
    assert [c][1..] == "";
    if c == '\\' {
      assert x == ['\\'] + ['\\'];
      SubstAppend(['\\'], ['\\'], '"', "\\\"");
      assert ['\\'][1..] == "";
    } else {
      assert x == [c];
    }
  }

  /** quote is inverted by the quoted-string rule of section 2.4.2. */
  lemma {:induction false} QuotedReads(v: string, r: string)
    ensures QuotedRest(Escape(v) + "\"" + r) == Some((v, r))
  {
    if v == "" {
      assert Escape(v) + "\"" + r == "\"" + r;
      assert ("\"" + r)[1..] == r;
    } else {
      var c, t := v[0], v[1..];
      assert v == [c] + t;
      EscapeStep(c, t);
      QuotedReads(t, r);
      var tail := Escape(t) + "\"" + r;
      var s := Escape(v) + "\"" + r;
      if c == '\\' || c == '"' {
        assert s == ['\\', c] + tail;
        assert s[2..] == tail;
      } else {
        assert s == [c] + tail;
        assert s[1..] == tail;
      }
    }
  }

  lemma QuoteLexes(v: string)
    ensures Closed(Quote(v), [Str(v)])
  {
    forall r: string ensures Lex(Quote(v) + r) == Prepend([Str(v)], Lex(r)) {
      QuotedReads(v, r);
      assert (Quote(v) + r)[1..] == Escape(v) + "\"" + r;
    }
  }

  /** `lead w d`, where `lead` already lexes: the shape of every keyword the compiler writes. */
  lemma BlankWord(w: string)
    requires LowerWord(w)
    ensures Closed(w + " ", [Ident(w)])
  {
    hide Closed;
    BlankLexes(' ');
    WordLexes(w, ' ', []);
    assert [Ident(w)] + [] == [Ident(w)];
  }

  // ----- Joined pieces -----

  function Flatten(tss: seq<seq<Token>>, sep: seq<Token>): seq<Token> {
    if tss == [] then []
    else if |tss| == 1 then tss[0]
    else tss[0] + sep + Flatten(tss[1..], sep)
  }

  lemma {:induction false} JoinLexes(ps: seq<string>, tss: seq<seq<Token>>, sep: string, st: seq<Token>)
    requires |ps| == |tss| && Closed(sep, st)
    requires forall i :: 0 <= i < |ps| ==> Closed(ps[i], tss[i])
    ensures Closed(Join(ps, sep), Flatten(tss, st))
  {
    if |ps| == 0 {
      forall r: string ensures Lex("" + r) == Prepend([], Lex(r)) {
        assert "" + r == r;
      }
    } else if |ps| > 1 {
      JoinLexes(ps[1..], tss[1..], sep, st);
      Chain(ps[0], tss[0], sep, st);
      Chain(ps[0] + sep, tss[0] + st, Join(ps[1..], sep), Flatten(tss[1..], st));
    }
  }

  lemma CommaLexes()
    ensures Closed(", ", [Punct(',')])
  {
  }

  function StrTokens(vs: seq<string>): seq<seq<Token>> {
    seq(|vs|, i requires 0 <= i < |vs| => [Str(vs[i])])
  }

  /** `["a", "b"]` */
  function ListTokens(vs: seq<string>): seq<Token> {
    [Punct('[')] + Flatten(StrTokens(vs), [Punct(',')]) + [Punct(']')]
  }

  lemma ListLexes(vs: seq<string>)
    ensures Closed("[" + Join(QuoteAll(vs), ", ") + "]", ListTokens(vs))
  {
    hide Closed;
    forall i | 0 <= i < |vs| ensures Closed(QuoteAll(vs)[i], StrTokens(vs)[i]) {
      QuoteLexes(vs[i]);
    }
    CommaLexes();
    JoinLexes(QuoteAll(vs), StrTokens(vs), ", ", [Punct(',')]);
    PunctLexes('[');
    PunctLexes(']');
    var j, ft := Join(QuoteAll(vs), ", "), Flatten(StrTokens(vs), [Punct(',')]);
    Chain("[", [Punct('[')], j, ft);
    Chain("[" + j, [Punct('[')] + ft, "]", [Punct(']')]);
  }

  // ----- Tokens of each compiled form -----

  function ConditionTokens(c: Condition): seq<Token> {
    [Ident("header"), Tag(OpName(c.op))] + ListTokens(FieldHeaders(c.field)) + [Str(c.value)]
  }

  lemma ConditionLexes(c: Condition)
    ensures Closed(CompileCondition(c), ConditionTokens(c))
  {
    hide Closed, Quote, ListTokens;
    BlankWord("header");
    BlankLexes(' ');
    TagLexes(OpName(c.op), ' ', []);
    ListLexes(FieldHeaders(c.field));
    QuoteLexes(c.value);
    HeaderShape(OpName(c.op), HeaderList(c.field), ListTokens(FieldHeaders(c.field)), c.value);
  }

  /** `header :op LIST "value"`, whatever list text is between. */
  lemma HeaderShape(w: string, list: string, lt: seq<Token>, v: string)
    requires Closed("header" + " ", [Ident("header")]) && Closed(":" + w + " ", [Tag(w)] + [])
    requires Closed(list, lt) && Closed(" ", []) && Closed(Quote(v), [Str(v)])
    ensures Closed("header " + (":" + w) + " " + list + " " + Quote(v), [Ident("header"), Tag(w)] + lt + [Str(v)])
  {
    hide Closed, Quote;
    var q := Quote(v);
    Chain("header" + " ", [Ident("header")], ":" + w + " ", [Tag(w)] + []);
    var p1, t1 := "header" + " " + (":" + w + " "), [Ident("header")] + ([Tag(w)] + []);
    Chain(p1, t1, list, lt);
    Chain(p1 + list, t1 + lt, " ", []);
    Chain(p1 + list + " ", t1 + lt + [], q, [Str(v)]);
    assert "header" + " " == "header ";
    assert p1 + list + " " + q == "header " + (":" + w) + " " + list + " " + q;
    assert t1 + lt + [] + [Str(v)] == [Ident("header"), Tag(w)] + lt + [Str(v)];
  }

  function ActionTokens(a: Action): seq<Token> {
    match a.kind
    case FileInto => [Ident("fileinto"), Tag("create"), Str(ArgText(a)), Punct(';')]
    case Keep => [Ident("keep"), Punct(';')]
    case Discard => [Ident("discard"), Punct(';')]
    case Seen => [Ident("addflag"), Str("\\Seen"), Punct(';')]
    case Flag => [Ident("addflag"), Str(ArgText(a)), Punct(';')]
    case Redirect => [Ident("redirect"), Str(ArgText(a)), Punct(';')]
    case Stop => [Ident("stop"), Punct(';')]
  }

  /** `word;` */
  lemma BareActionLexes(w: string)
    requires LowerWord(w)
    ensures Closed(w + ";", [Ident(w), Punct(';')])
  {
    hide Closed;
    PunctLexes(';');
    WordLexes(w, ';', [Punct(';')]);
    assert [Ident(w)] + [Punct(';')] == [Ident(w), Punct(';')];
  }

  /** `word "argument";` after whatever `lead` lexes to. */
  lemma ArgActionLexes(lead: string, lt: seq<Token>, arg: string)
    requires Closed(lead, lt)
    ensures Closed(lead + Quote(arg) + ";", lt + [Str(arg), Punct(';')])
  {
    hide Closed;
    PunctLexes(';');
    QuoteLexes(arg);
    Chain(lead, lt, Quote(arg), [Str(arg)]);
    Chain(lead + Quote(arg), lt + [Str(arg)], ";", [Punct(';')]);
    assert lt + [Str(arg)] + [Punct(';')] == lt + [Str(arg), Punct(';')];
  }

  /** A text without special characters is its own escape. */
  lemma {:induction false} EscapePlain(v: string)
    requires '\\' !in v && '"' !in v
    ensures Escape(v) == v
  {
    if v != "" {
      assert v == [v[0]] + v[1..];
      EscapeStep(v[0], v[1..]);
      EscapePlain(v[1..]);
    }
  }

  lemma SeenText()
    ensures "addflag \"\\\\Seen\";" == "addflag " + Quote("\\Seen") + ";"
  {
    hide Escape;
    var plain := "Seen";
    EscapeStep('\\', plain);
    EscapePlain(plain);
    assert "\\Seen" == ['\\'] + plain;
    assert Quote("\\Seen") == "\"" + (['\\', '\\'] + plain) + "\"";
  }

  lemma FileIntoLexes(arg: string)
    ensures Closed("fileinto :create " + Quote(arg) + ";", [Ident("fileinto"), Tag("create"), Str(arg), Punct(';')])
  {
    hide Closed, Quote;
    BlankWord("fileinto");
    BlankLexes(' ');
    TagLexes("create", ' ', []);
    Chain("fileinto" + " ", [Ident("fileinto")], ":" + "create" + " ", [Tag("create")] + []);
    var lead, lt := "fileinto" + " " + (":" + "create" + " "), [Ident("fileinto")] + ([Tag("create")] + []);
    ArgActionLexes(lead, lt, arg);
    assert lead == "fileinto :create ";
    assert lt + [Str(arg), Punct(';')] == [Ident("fileinto"), Tag("create"), Str(arg), Punct(';')];
  }

  /** `word "argument";` */
  lemma WordArgLexes(w: string, arg: string)
    requires LowerWord(w)
    ensures Closed(w + " " + Quote(arg) + ";", [Ident(w), Str(arg), Punct(';')])
  {
    hide Closed, Quote;
    BlankWord(w);
    ArgActionLexes(w + " ", [Ident(w)], arg);
    assert [Ident(w)] + [Str(arg), Punct(';')] == [Ident(w), Str(arg), Punct(';')];
  }

  lemma ActionLexes(a: Action)
    ensures Closed(CompileAction(a), ActionTokens(a))
  {
    hide Closed, Quote;
    match a.kind
    case FileInto => FileIntoLexes(ArgText(a));
    case Keep => BareActionLexes("keep"); assert "keep" + ";" == "keep;";
    case Discard => BareActionLexes("discard"); assert "discard" + ";" == "discard;";
    case Seen => SeenText(); WordArgLexes("addflag", "\\Seen"); assert "addflag" + " " == "addflag ";
    case Flag => WordArgLexes("addflag", ArgText(a)); assert "addflag" + " " == "addflag ";
    case Redirect => WordArgLexes("redirect", ArgText(a)); assert "redirect" + " " == "redirect ";
    case Stop => BareActionLexes("stop"); assert "stop" + ";" == "stop;";
  }

  function ActionTokenLists(actions: seq<Action>): seq<seq<Token>> {
    seq(|actions|, i requires 0 <= i < |actions| => ActionTokens(actions[i]))
  }

  function BodyTokens(actions: seq<Action>): seq<Token> {
    Flatten(ActionTokenLists(actions), [])
  }

  lemma BodyLexes(actions: seq<Action>)
    ensures Closed(Join(ActionLines(actions), "\n"), BodyTokens(actions))
  {
    hide Closed, CompileAction, ActionTokens;
    BlankLexes(' ');
    BlankLexes('\n');
    Chain(" ", [], " ", []);
    assert " " + " " == "  ";
    forall i | 0 <= i < |actions| ensures Closed(ActionLines(actions)[i], ActionTokenLists(actions)[i]) {
      ActionLexes(actions[i]);
      Chain("  ", [] + [], CompileAction(actions[i]), ActionTokens(actions[i]));
      assert [] + [] + ActionTokens(actions[i]) == ActionTokens(actions[i]);
    }
    JoinLexes(ActionLines(actions), ActionTokenLists(actions), "\n", []);
  }

  function ConditionTokenLists(cs: seq<Condition>): seq<seq<Token>> {
    seq(|cs|, i requires 0 <= i < |cs| => ConditionTokens(cs[i]))
  }

  function Combinator(r: Rule): string {
    if r.mode == Any then "anyof" else "allof"
  }

  function TestTokens(r: Rule): seq<Token> {
    if |r.conditions| == 1 then ConditionTokens(r.conditions[0])
    else [Ident(Combinator(r)), Punct('(')] + Flatten(ConditionTokenLists(r.conditions), [Punct(',')]) + [Punct(')')]
  }

  lemma TestsLex(r: Rule)
    ensures Closed(CompileTests(r), TestTokens(r))
  {
    hide Closed, CompileCondition, ConditionTokens;
    var cs := r.conditions;
    var tests := TestTexts(cs);
    forall i | 0 <= i < |cs| ensures Closed(tests[i], ConditionTokenLists(cs)[i]) {
      ConditionLexes(cs[i]);
    }
    if |cs| != 1 {
      CommaLexes();
      JoinLexes(tests, ConditionTokenLists(cs), ", ", [Punct(',')]);
      var j, ft, w := Join(tests, ", "), Flatten(ConditionTokenLists(cs), [Punct(',')]), Combinator(r);
      BlankWord(w);
      PunctLexes('(');
      PunctLexes(')');
      Chain(w + " ", [Ident(w)], "(", [Punct('(')]);
      Chain(w + " " + "(", [Ident(w)] + [Punct('(')], j, ft);
      Chain(w + " " + "(" + j, [Ident(w)] + [Punct('(')] + ft, ")", [Punct(')')]);
      assert CompileTests(r) == w + " (" + j + ")";
      assert w + " " + "(" + j + ")" == w + " (" + j + ")";
      assert [Ident(w)] + [Punct('(')] + ft + [Punct(')')] == TestTokens(r);
    }
  }

  function RuleTokens(r: Rule): seq<Token> {
    if r.conditions == [] then BodyTokens(r.actions)
    else [Ident("if")] + TestTokens(r) + [Punct('{')] + BodyTokens(r.actions) + [Punct('}')]
  }

  /** A rule's name stays in the comment it is written into. */
  predicate Harmless(name: string) {
    InComment(" " + name)
  }

  /** A rule's text after its comment line. */
  function Code(r: Rule): string {
    var body := Join(ActionLines(r.actions), "\n");
    if r.conditions == [] then body else "if " + CompileTests(r) + " {\n" + body + "\n}"
  }

  lemma RuleText(r: Rule)
    ensures CompileRule(r) == "#" + (" " + r.name) + "\n" + Code(r)
  {
    hide Join, ActionLines, CompileTests;
    var top := "# " + r.name;
    assert "#" + (" " + r.name) == top;
    if r.conditions != [] {
      var tests, body := CompileTests(r), Join(ActionLines(r.actions), "\n");
      assert top + "\nif " == top + "\n" + "if ";
      Assoc(top + "\n", "if ", tests);
      Assoc(top + "\n", "if " + tests, " {\n");
      Assoc(top + "\n", "if " + tests + " {\n", body);
      Assoc(top + "\n", "if " + tests + " {\n" + body, "\n}");
    }
  }

  lemma CodeLexes(r: Rule)
    ensures Closed(Code(r), RuleTokens(r))
  {
    hide Closed, BodyTokens, TestTokens, CompileTests;
    var body, bt := Join(ActionLines(r.actions), "\n"), BodyTokens(r.actions);
    BodyLexes(r.actions);
    if r.conditions != [] {
      TestsLex(r);
      BlankWord("if");
      OpenBrace();
      CloseBrace();
      var tests, tt := CompileTests(r), TestTokens(r);
      var p1, t1 := "if" + " ", [Ident("if")];
      Chain(p1, t1, tests, tt);
      Chain(p1 + tests, t1 + tt, " {\n", [Punct('{')]);
      Chain(p1 + tests + " {\n", t1 + tt + [Punct('{')], body, bt);
      Chain(p1 + tests + " {\n" + body, t1 + tt + [Punct('{')] + bt, "\n}", [Punct('}')]);
      assert p1 == "if ";
      assert t1 + tt + [Punct('{')] + bt + [Punct('}')] == RuleTokens(r);
    }
  }

  lemma RuleLexes(r: Rule)
    requires Harmless(r.name)
    ensures Closed(CompileRule(r), RuleTokens(r))
  {
    hide Closed, RuleTokens, Code, CompileRule;
    CommentVanishesIff(" " + r.name);
    CodeLexes(r);
    RuleText(r);
    Chain("#" + (" " + r.name) + "\n", [], Code(r), RuleTokens(r));
    assert [] + RuleTokens(r) == RuleTokens(r);
  }

  /** The lines of `acts` written into the name. */
  function WithLines(name: string, acts: seq<Action>): string {
    name + "\n" + Join(ActionLines(acts), "\n")
  }

  /** A name that goes on with action lines: their tokens come before the rule's own, outside its condition. */
  lemma LinesInNameLex(r: Rule, acts: seq<Action>)
    requires Harmless(r.name)
    ensures Closed(CompileRule(r.(name := WithLines(r.name, acts))), BodyTokens(acts) + RuleTokens(r))
  {
    hide Closed, RuleTokens, Code, CompileRule, BodyTokens, ActionLines, Join;
    var odd := r.(name := WithLines(r.name, acts));
    var top, lines := "#" + (" " + r.name) + "\n", Join(ActionLines(acts), "\n");
    CommentVanishesIff(" " + r.name);
    BodyLexes(acts);
    BlankLexes('\n');
    CodeLexes(r);
    RuleText(odd);
    SameCode(r, odd.name);
    Chain(top, [], lines, BodyTokens(acts));
    Chain(top + lines, [] + BodyTokens(acts), "\n", []);
    Chain(top + lines + "\n", [] + BodyTokens(acts) + [], Code(r), RuleTokens(r));
    assert [] + BodyTokens(acts) + [] == BodyTokens(acts);
    NameLines(r.name, lines);
  }

  lemma SameCode(r: Rule, name: string)
    ensures Code(r.(name := name)) == Code(r)
  {
  }

  lemma NameLines(name: string, lines: string)
    ensures "#" + (" " + (name + "\n" + lines)) + "\n" == "#" + (" " + name) + "\n" + lines + "\n"
  {
    Assoc(" ", name + "\n", lines);
    Assoc(" ", name, "\n");
    Assoc("#", " " + name + "\n", lines);
    Assoc("#", " " + name, "\n");
  }

  lemma OpenBrace()
    ensures Closed(" {\n", [Punct('{')])
  {
    hide Closed;
    BlankLexes(' ');
    BlankLexes('\n');
    PunctLexes('{');
    Chain(" ", [], "{", [Punct('{')]);
    Chain(" " + "{", [] + [Punct('{')], "\n", []);
    assert " " + "{" + "\n" == " {\n" && [] + [Punct('{')] + [] == [Punct('{')];
  }

  lemma CloseBrace()
    ensures Closed("\n}", [Punct('}')])
  {
  }

  function RequireTokens(exts: seq<string>): seq<Token> {
    [Ident("require")] + ListTokens(exts) + [Punct(';')]
  }

  lemma RequireLexes(exts: seq<string>)
    ensures Closed(RequireLine(exts), RequireTokens(exts))
  {
    hide Closed, ListTokens;
    var list := "[" + Join(QuoteAll(exts), ", ") + "]";
    BlankWord("require");
    ListLexes(exts);
    PunctLexes(';');
    Chain("require" + " ", [Ident("require")], list, ListTokens(exts));
    Chain("require" + " " + list, [Ident("require")] + ListTokens(exts), ";", [Punct(';')]);
    assert "require" + " " + "[" == "require [";
    assert "]" + ";" == "];";
    assert "require" + " " + list + ";" == RequireLine(exts);
  }

  function RequirePart(exts: seq<string>): seq<seq<Token>> {
    if exts != [] then [RequireTokens(exts)] else []
  }

  function RulesTokens(rules: seq<Rule>): seq<seq<Token>> {
    seq(|rules|, i requires 0 <= i < |rules| => RuleTokens(rules[i]))
  }

  function PartTokens(exts: seq<string>, rules: seq<Rule>): seq<seq<Token>> {
    RequirePart(exts) + RulesTokens(rules)
  }

  ghost predicate NamesHarmless(rules: seq<Rule>) {
    forall i :: 0 <= i < |rules| ==> Harmless(rules[i].name)
  }

  /** A script's parts lex to its require tokens and whatever its rules lex to. */
  lemma PartsLex(exts: seq<string>, rules: seq<Rule>, tss: seq<seq<Token>>)
    requires |tss| == |rules| && forall i :: 0 <= i < |rules| ==> Closed(CompileRule(rules[i]), tss[i])
    ensures Closed(Join(Parts(exts, rules), "\n\n"), Flatten(RequirePart(exts) + tss, []))
  {
    hide Closed, RequireLine, RequireTokens, CompileRule, RuleTokens;
    BlankLexes('\n');
    Chain("\n", [], "\n", []);
    var nil: seq<Token> := [];
    assert "\n" + "\n" == "\n\n" && nil + nil == nil;
    RequireLexes(exts);
    JoinLexes(Parts(exts, rules), RequirePart(exts) + tss, "\n\n", []);
  }

  lemma BannerLexes()
    ensures Closed(BANNER + "\n", [])
  {
    hide Closed;
    var p, q, r, t := " Generated by JustMail ", "\U{2014} do not edit;", " managed via", " the Filters UI.";
    assert OneLine(p) && OneLine(q);
    assert OneLine(r) && OneLine(t);
    OneLineInComment(p + q + (r + t));
    CommentVanishesIff(p + q + (r + t));
  }

  /** A commented banner, then the parts two line breaks apart, then a final line break. */
  lemma ScriptShape(banner: string, parts: seq<string>, ts: seq<Token>)
    requires Closed(banner + "\n", []) && Closed("\n", []) && Closed(Join(parts, "\n\n"), ts)
    requires parts == [] ==> ts == []
    ensures Closed(Join([banner] + parts, "\n\n") + "\n", ts)
  {
    hide Closed;
    var all, j := [banner] + parts, Join(parts, "\n\n");
    if parts == [] {
      assert Join(all, "\n\n") == banner;
    } else {
      assert all[1..] == parts;
      Chain(banner + "\n", [], "\n", []);
      Chain(banner + "\n" + "\n", [] + [], j, ts);
      Chain(banner + "\n" + "\n" + j, [] + [] + ts, "\n", []);
      assert "\n" + "\n" == "\n\n";
      assert Join(all, "\n\n") + "\n" == banner + "\n" + "\n" + j + "\n";
      assert [] + [] + ts + [] == ts;
    }
  }

  function ScriptTokens(exts: seq<string>, rules: seq<Rule>): seq<Token> {
    Flatten(PartTokens(exts, rules), [])
  }

  /** The whole script lexes to what its require line and its rules lex to. */
  lemma ScriptLexesTo(rules: seq<Rule>, tss: seq<seq<Token>>)
    requires |tss| == |rules| && forall i :: 0 <= i < |rules| ==> Closed(CompileRule(rules[i]), tss[i])
    ensures Lex(ScriptText(rules)) == Some(Flatten(RequirePart(Requires(rules)) + tss, []))
  {
    hide Lex, RequireLine, RequireTokens, CompileRule, RuleTokens, Join, Flatten;
    var exts := Requires(rules);
    var text := ScriptText(rules);
    var ts := Flatten(RequirePart(exts) + tss, []);
    PartsLex(exts, rules, tss);
    BannerLexes();
    BlankLexes('\n');
    FlattenNothing();
    ScriptShape(BANNER, Parts(exts, rules), ts);
    assert text + "" == text;
    assert Lex(text + "") == Prepend(ts, Lex(""));
    LexEmpty();
    assert ts + [] == ts;
  }

  lemma FlattenNothing()
    ensures Flatten([], []) == []
  {
  }

  /** Comments and layout gone. */
  lemma ScriptLexes(rules: seq<Rule>)
    requires NamesHarmless(rules)
    ensures Lex(ScriptText(rules)) == Some(ScriptTokens(Requires(rules), rules))
  {
    hide Lex, CompileRule, RuleTokens, ScriptText, Requires, Harmless, Closed;
    forall i | 0 <= i < |rules| ensures Closed(CompileRule(rules[i]), RulesTokens(rules)[i]) {
      RuleLexes(rules[i]);
    }
    ScriptLexesTo(rules, RulesTokens(rules));
  }

  lemma LexEmpty()
    ensures Lex("") == Some([])
  {
  }
}
