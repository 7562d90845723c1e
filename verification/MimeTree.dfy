/**
 The scan is exact on well-formed messages: on the rendering of a MIME tree
 (RFC 2046 section 5.1.1) it accepts if and only if the multipart nesting depth and
 the part count are within the limits.
 */
module MimeTree {
  import opened Text
  import opened MimeScan

  /** A part by its lines: a leaf, or a multipart with its other header lines, preamble, parts and epilogue. */
  datatype Part =
    | Leaf(lines: seq<string>)
    | Multi(headers: seq<string>, boundary: string, preamble: seq<string>, parts: seq<Part>, epilogue: seq<string>)

  function DeclarationLine(b: string): string {
    "Content-Type: multipart/mixed; " + ("boundary=\"" + b + "\"")
  }

  function Head(p: Part): seq<string>
    requires p.Multi?
  {
    p.headers + ([DeclarationLine(p.boundary), ""] + p.preamble)
  }

  function Render(p: Part): seq<string>
    decreases p, 1
  {
    match p
    case Leaf(lines) => lines
    case Multi(_, b, _, parts, epilogue) => Head(p) + (RenderAll(parts, b) + (["--" + b + "--"] + epilogue))
  }

  function RenderAll(parts: seq<Part>, b: string): seq<string>
    decreases parts, 0
  {
    if parts == [] then [] else ["--" + b] + (Render(parts[0]) + RenderAll(parts[1..], b))
  }

  function Max(a: nat, b: nat): nat {
    if a < b then b else a
  }

  function Depth(p: Part): nat
    decreases p, 1
  {
    if p.Leaf? then 0 else 1 + DepthAll(p.parts)
  }

  function DepthAll(parts: seq<Part>): nat
    decreases parts, 0
  {
    if parts == [] then 0 else Max(Depth(parts[0]), DepthAll(parts[1..]))
  }

  function Count(p: Part): nat
    decreases p, 1
  {
    if p.Leaf? then 0 else CountAll(p.parts)
  }

  function CountAll(parts: seq<Part>): nat
    decreases parts, 0
  {
    if parts == [] then 0 else 1 + Count(parts[0]) + CountAll(parts[1..])
  }

  /** A boundary that its delimiter lines and its declaration carry unchanged. */
  predicate GoodBoundary(b: string) {
    && b != "" && Trimmed(b) && (forall i :: 0 <= i < |b| ==> IsTokenChar(b[i]))
    && !(|b| >= 2 && b[|b| - 2..] == "--")
  }

  /** No line is a delimiter line of a declared boundary. */
  predicate Quiet(lines: seq<string>, boundaries: set<string>) {
    forall i :: 0 <= i < |lines| ==>
      DelimiterOf(lines[i]).NoDelimiter? || DelimiterOf(lines[i]).token !in boundaries
  }

  /** A message tree: good boundaries, distinct from those of the enclosing parts, at least one part in each
      multipart, and no other line that is a delimiter line of a declared boundary. */
  predicate Message(p: Part, enclosing: seq<string>, boundaries: set<string>)
    decreases p, 1
  {
    match p
    case Leaf(lines) => Quiet(lines, boundaries)
    case Multi(headers, b, preamble, parts, epilogue) =>
      && GoodBoundary(b) && b !in enclosing && parts != []
      && Quiet(headers, boundaries) && Quiet(preamble, boundaries) && Quiet(epilogue, boundaries)
      && AllMessages(parts, enclosing + [b], boundaries)
  }

  predicate AllMessages(parts: seq<Part>, enclosing: seq<string>, boundaries: set<string>)
    decreases parts, 0
  {
    parts == [] || (Message(parts[0], enclosing, boundaries) && AllMessages(parts[1..], enclosing, boundaries))
  }

  /** The same with every boundary known to be declared. */
  predicate WellFormed(p: Part, enclosing: seq<string>, boundaries: set<string>)
    decreases p, 1
  {
    match p
    case Leaf(lines) => Quiet(lines, boundaries)
    case Multi(headers, b, preamble, parts, epilogue) =>
      && GoodBoundary(b) && b !in enclosing && b in boundaries && parts != []
      && Quiet(Head(p), boundaries) && Quiet(epilogue, boundaries)
      && AllWellFormed(parts, enclosing + [b], boundaries)
  }

  predicate AllWellFormed(parts: seq<Part>, enclosing: seq<string>, boundaries: set<string>)
    decreases parts, 0
  {
    parts == [] || (WellFormed(parts[0], enclosing, boundaries) && AllWellFormed(parts[1..], enclosing, boundaries))
  }

  // ----- Delimiter lines of a good boundary -----

  lemma SuffixNotBlank(b: string, w: string, n: nat)
    requires GoodBoundary(b) && Blanks(w) && n < |b|
    ensures !Blanks((b + w)[n..])
    ensures !("--" <= (b + w)[n..] && Blanks((b + w)[n + 2..]))
  {
    var body := b + w;
    var last := |b| - 1;
    assert body[n..][last - n] == b[last];
    if "--" <= body[n..] {
      assert body[n] == '-' && body[n + 1] == '-';
      if n + 2 <= last { assert body[n + 2..][last - (n + 2)] == b[last]; }
    }
  }

  lemma BlankStart(w: string)
    requires Blanks(w)
    ensures !("--" <= w)
  {
    if w != "" { assert w[0] != '-'; }
  }

  lemma {:induction false} OpenFrom(b: string, w: string, n: nat)
    requires GoodBoundary(b) && Blanks(w) && 1 <= n <= |b|
    ensures DelimiterFrom(b + w, n) == Open(b)
    decreases |b| - n
  {
    var body := b + w;
    assert body[n - 1] == b[n - 1];
    if n < |b| {
      SuffixNotBlank(b, w, n);
      OpenFrom(b, w, n + 1);
    } else {
      assert body[n..] == w && body[..n] == b;
      BlankStart(w);
    }
  }

  lemma {:induction false} CloseFrom(b: string, w: string, n: nat)
    requires GoodBoundary(b) && Blanks(w) && 1 <= n <= |b|
    ensures DelimiterFrom(b + ("--" + w), n) == Close(b)
    decreases |b| - n
  {
    var body := b + ("--" + w);
    assert body[n - 1] == b[n - 1];
    assert body[n..][|b| - n] == '-';
    assert !Blanks(body[n..]);
    if n < |b| {
      assert body[n + 2..][|b| + 1 - (n + 2)] == '-';
      CloseFrom(b, w, n + 1);
    } else {
      assert body[n..] == "--" + w && body[n + 2..] == w && body[..n] == b;
    }
  }

  /** A delimiter line may end in spaces and tabs. */
  lemma DelimiterLines(b: string, w: string)
    requires GoodBoundary(b) && Blanks(w)
    ensures DelimiterOf("--" + b + w) == Open(b)
    ensures DelimiterOf("--" + b + "--" + w) == Close(b)
  {
    hide DelimiterFrom;
    OpenFrom(b, w, 1);
    CloseFrom(b, w, 1);
    assert ("--" + b + w)[2..] == b + w;
    assert ("--" + b + "--" + w)[2..] == b + ("--" + w);
  }

  // ----- Scanning a rendering -----

  lemma {:induction false} ScanAppend(stack: seq<string>, parts: nat, a: seq<string>, b: seq<string>, bs: set<string>)
    ensures Scan(stack, parts, a + b, bs) ==
            var s := Scan(stack, parts, a, bs);
            if s.Running? then Scan(s.stack, s.parts, b, bs) else s
    decreases |a|
  {
    hide Step;
    if a == [] {
      assert a + b == b;
    } else {
      assert (a + b)[1..] == a[1..] + b;
      var s := Step(stack, parts, a[0], bs);
      if s.Running? {
        ScanAppend(s.stack, s.parts, a[1..], b, bs);
      }
    }
  }

  lemma {:induction false} QuietScan(stack: seq<string>, parts: nat, lines: seq<string>, bs: set<string>)
    requires Quiet(lines, bs)
    ensures Scan(stack, parts, lines, bs) == Running(stack, parts)
    decreases |lines|
  {
    hide DelimiterOf;
    if lines != [] {
      QuietScan(stack, parts, lines[1..], bs);
    }
  }

  lemma ScanOne(stack: seq<string>, parts: nat, line: string, bs: set<string>)
    ensures Scan(stack, parts, [line], bs) == Step(stack, parts, line, bs)
  {
  }

  /** The delimiter before a part: pushes the boundary unless it is already on top, and counts the part. */
  lemma OpenStep(stack: seq<string>, parts: nat, b: string, bs: set<string>)
    requires GoodBoundary(b) && b in bs && |stack| <= MAX_DEPTH
    ensures b !in stack ==>
              Step(stack, parts, "--" + b, bs) ==
              if |stack| + 1 > MAX_DEPTH then TooDeep
              else if parts + 1 > MAX_PARTS then TooMany else Running(stack + [b], parts + 1)
    ensures Step(stack + [b], parts, "--" + b, bs) ==
            if parts + 1 > MAX_PARTS then TooMany else Running(stack + [b], parts + 1)
  {
    hide DelimiterOf;
    DelimiterLines(b, "");
    assert "--" + b + "" == "--" + b && "--" + b + "--" + "" == "--" + b + "--";
  }

  lemma CloseStep(stack: seq<string>, parts: nat, b: string, bs: set<string>)
    requires GoodBoundary(b) && b in bs && b !in stack
    ensures Step(stack + [b], parts, "--" + b + "--", bs) == Running(stack, parts)
  {
    hide DelimiterOf;
    DelimiterLines(b, "");
    assert "--" + b + "" == "--" + b && "--" + b + "--" + "" == "--" + b + "--";
    assert (stack + [b])[..|stack|] == stack;
  }

  predicate Within(depth: nat, count: nat) {
    depth <= 8 && count <= 200
  }

  /** The machine runs over a whole part and comes back to its stack, or rejects, by depth and count alone. */
  ghost predicate Exact(s: State, stack: seq<string>, parts: nat, depth: nat, count: nat) {
    if Within(|stack| + depth, parts + count) then s == Running(stack, parts + count) else !s.Running?
  }

  lemma {:induction false} PartScan(p: Part, stack: seq<string>, parts: nat, bs: set<string>)
    requires WellFormed(p, stack, bs) && Within(|stack|, parts)
    ensures Exact(Scan(stack, parts, Render(p), bs), stack, parts, Depth(p), Count(p))
    decreases p, 2
  {
    hide Scan, Step, DelimiterOf;
    match p
    case Leaf(lines) => QuietScan(stack, parts, lines, bs);
    case Multi(_, b, _, ps, epilogue) =>
      var close := "--" + b + "--";
      var body := RenderAll(ps, b) + ([close] + epilogue);
      QuietScan(stack, parts, Head(p), bs);
      ScanAppend(stack, parts, Head(p), body, bs);
      FirstPartScan(p, stack, parts, bs);
      ScanAppend(stack, parts, RenderAll(ps, b), [close] + epilogue, bs);
      var s := Scan(stack, parts, RenderAll(ps, b), bs);
      if s.Running? {
        CloseStep(stack, s.parts, b, bs);
        ScanOne(s.stack, s.parts, close, bs);
        ScanAppend(s.stack, s.parts, [close], epilogue, bs);
        QuietScan(stack, s.parts, epilogue, bs);
      }
  }

  /** The parts of a multipart, from a stack without its boundary to one with it on top. */
  lemma {:induction false} FirstPartScan(p: Part, stack: seq<string>, parts: nat, bs: set<string>)
    requires p.Multi? && WellFormed(p, stack, bs) && Within(|stack|, parts)
    ensures var s := Scan(stack, parts, RenderAll(p.parts, p.boundary), bs);
            if Within(|stack| + Depth(p), parts + Count(p)) then s == Running(stack + [p.boundary], parts + Count(p))
            else !s.Running?
    decreases p, 1
  {
    hide Scan, Step, DelimiterOf;
    var b, ps := p.boundary, p.parts;
    var open := "--" + b;
    var rest := Render(ps[0]) + RenderAll(ps[1..], b);
    assert Depth(p) == 1 + Max(Depth(ps[0]), DepthAll(ps[1..]));
    assert Count(p) == 1 + Count(ps[0]) + CountAll(ps[1..]);
    OpenStep(stack, parts, b, bs);
    ScanOne(stack, parts, open, bs);
    ScanAppend(stack, parts, [open], rest, bs);
    if Within(|stack| + 1, parts + 1) {
      var inner := stack + [b];
      PartScan(ps[0], inner, parts + 1, bs);
      ScanAppend(inner, parts + 1, Render(ps[0]), RenderAll(ps[1..], b), bs);
      var s := Scan(inner, parts + 1, Render(ps[0]), bs);
      if s.Running? {
        MorePartsScan(ps[1..], b, stack, s.parts, bs);
      }
    }
  }

  /** Further parts, with the boundary on top of the stack. */
  lemma {:induction false} MorePartsScan(ps: seq<Part>, b: string, stack: seq<string>, parts: nat, bs: set<string>)
    requires AllWellFormed(ps, stack + [b], bs) && GoodBoundary(b) && b in bs && Within(|stack| + 1, parts)
    ensures Exact(Scan(stack + [b], parts, RenderAll(ps, b), bs), stack + [b], parts, DepthAll(ps), CountAll(ps))
    decreases ps, 0
  {
    hide Scan, Step, DelimiterOf;
    var inner := stack + [b];
    if ps == [] {
      QuietScan(inner, parts, [], bs);
    } else {
      var open := "--" + b;
      var rest := Render(ps[0]) + RenderAll(ps[1..], b);
      OpenStep(stack, parts, b, bs);
      ScanOne(inner, parts, open, bs);
      ScanAppend(inner, parts, [open], rest, bs);
      if parts + 1 <= MAX_PARTS {
        PartScan(ps[0], inner, parts + 1, bs);
        ScanAppend(inner, parts + 1, Render(ps[0]), RenderAll(ps[1..], b), bs);
        var s := Scan(inner, parts + 1, Render(ps[0]), bs);
        if s.Running? {
          MorePartsScan(ps[1..], b, stack, s.parts, bs);
        }
      }
    }
  }

  // ----- From lines to text -----

  lemma JoinOne(lines: seq<string>)
    requires |lines| == 1
    ensures Join(lines, "\r\n") == lines[0]
  {
  }

  lemma JoinCrlf(lines: seq<string>)
    requires |lines| > 1
    ensures Join(lines, "\r\n") == lines[0] + "\r" + ['\n'] + Join(lines[1..], "\r\n")
  {
  }

  lemma {:induction false} SplitCrlf(lines: seq<string>)
    requires lines != [] && forall i :: 0 <= i < |lines| ==> '\n' !in lines[i]
    ensures var raw := Split(Join(lines, "\r\n"), '\n');
            && |raw| == |lines| && raw[|raw| - 1] == lines[|lines| - 1]
            && forall i :: 0 <= i < |lines| - 1 ==> raw[i] == lines[i] + "\r"
  {
    hide Split, Join;
    if |lines| == 1 {
      assert Join(lines, "\r\n") == lines[0] by { JoinOne(lines); }
      SplitWhole(lines[0], '\n');
    } else {
      var t := Join(lines[1..], "\r\n");
      JoinCrlf(lines);
      SplitCrlf(lines[1..]);
      SplitAt(lines[0] + "\r", '\n', t);
      assert forall i :: 1 <= i < |lines| ==> lines[i] == lines[1..][i - 1];
    }
  }

  /** Lines joined by CRLF split back into the same lines. */
  lemma LinesOfText(lines: seq<string>)
    requires lines != [] && forall i :: 0 <= i < |lines| ==> '\n' !in lines[i]
    ensures Lines(Join(lines, "\r\n")) == lines
  {
    hide Split, Join;
    SplitCrlf(lines);
    var raw := Split(Join(lines, "\r\n"), '\n');
    var split := Lines(Join(lines, "\r\n"));
    forall i | 0 <= i < |lines| ensures split[i] == lines[i] {
      assert i < |lines| - 1 ==> raw[i][..|raw[i]| - 1] == lines[i] && raw[i][|raw[i]| - 1] == '\r';
    }
  }

  lemma {:induction false} LineInText(lines: seq<string>, l: string) returns (u: string, v: string)
    requires l in lines
    ensures Join(lines, "\r\n") == u + l + v && (v == "" || v[0] == '\r')
  {
    if lines[0] == l {
      u := "";
      v := if |lines| == 1 then "" else "\r\n" + Join(lines[1..], "\r\n");
    } else {
      u, v := LineInText(lines[1..], l);
      var t := lines[0] + "\r\n";
      assert t + (u + l + v) == t + u + l + v;
      u := t + u;
    }
  }

  // ----- Every declared boundary of the tree is found -----

  /** No match that starts before a semicolon runs past it. */
  lemma {:induction false} ScanReaches(u: string, rest: string)
    ensures Declared(rest) <= Declared(u + ";" + rest)
    decreases |u|
  {
    hide Declaration;
    var s := u + ";" + rest;
    var m := Declaration(s);
    if u == "" {
      NoMatchAt(";" + rest, ';');
      assert s == ";" + rest && s[1..] == rest;
    } else if m.Some? {
      var n := m.value.1;
      assert s[|u|] == ';';
      if n > |u| {
        DeclarationNoSemicolon(s, |u|);
        assert false;
      }
      ScanReaches(u[n..], rest);
      assert s[n..] == u[n..] + ";" + rest;
    } else {
      ScanReaches(u[1..], rest);
      assert s[1..] == u[1..] + ";" + rest;
    }
  }

  lemma NoMatchAt(s: string, c: char)
    requires s != "" && s[0] == c && LowerChar(c) != 'b'
    ensures Declaration(s).None?
  {
    hide Captured;
    if |s| >= 8 {
      assert ToLower(s[..8])[0] == LowerChar(c) && "boundary"[0] == 'b';
    }
  }

  lemma {:induction false} TokenLengthAt(b: string, v: string)
    requires (forall i :: 0 <= i < |b| ==> IsTokenChar(b[i])) && (v == "" || !IsTokenChar(v[0]))
    ensures TokenLength(b + v) == |b|
  {
    if b == "" {
      assert b + v == v;
    } else {
      TokenLengthAt(b[1..], v);
      assert (b + v)[1..] == b[1..] + v;
    }
  }

  predicate AllSpace(s: string) {
    forall i :: 0 <= i < |s| ==> IsSpace(s[i])
  }

  lemma {:induction false} SpaceLengthAt(w: string, v: string)
    requires AllSpace(w) && v != "" && !IsSpace(v[0])
    ensures SpaceLength(w + v) == |w|
  {
    if w == "" {
      assert w + v == v;
    } else {
      SpaceLengthAt(w[1..], v);
      assert (w + v)[1..] == w[1..] + v;
    }
  }

  lemma CapturedToken(w: string, quote: string, b: string, v: string)
    requires GoodBoundary(b) && AllSpace(w) && quote in ["", "\""] && (v == "" || !IsTokenChar(v[0]))
    ensures var c := Captured(w + (quote + (b + v))); c.Some? && c.value.0 == b
  {
    hide GoodBoundary, SpaceLength, TokenLength, IsSpace, IsTokenChar, BlankEnd, AllSpace, QuoteLength, TokenAt, Captured;
    GoodStart(b);
    OptionalQuote(quote, b + v);
    var t := quote + (b + v);
    var s := w + t;
    assert (b + v)[0] == b[0];
    assert t[0] == if quote == "" then b[0] else '"';
    QuoteIsNoSpace();
    SpaceLengthAt(w, t);
    DropParts(w, quote, b + v);
    TokenLengthAt(b, v);
    TokenThere(s, |w| + |quote|, b);
    CapturedIs(s, |w|, |quote|, |b|);
  }

  lemma DropParts(w: string, quote: string, rest: string)
    ensures var s := w + (quote + rest); s[|w|..] == quote + rest && s[|w| + |quote|..] == rest
  {
  }

  lemma CapturedIs(s: string, spaces: nat, quote: nat, n: nat)
    requires SpaceLength(s) == spaces && QuoteLength(s[spaces..]) == quote && spaces + quote <= |s|
    requires TokenLength(s[spaces + quote..]) == n > 0 && spaces + quote + n <= |s|
    ensures Captured(s) == Some(TokenAt(s, spaces + quote, n))
  {
    hide SpaceLength, TokenLength, QuoteLength, TokenAt, BlankEnd, IsSpace, IsTokenChar;
  }

  lemma TokenThere(s: string, from: nat, b: string)
    requires from + |b| <= |s| && b <= s[from..]
    ensures TokenAt(s, from, |b|).0 == b
  {
  }

  lemma OptionalQuote(quote: string, rest: string)
    requires quote in ["", "\""] && rest != "" && rest[0] != '"'
    ensures QuoteLength(quote + rest) == |quote|
  {
  }

  lemma GoodStart(b: string)
    requires GoodBoundary(b)
    ensures b != "" && !IsSpace(b[0]) && b[0] != '"' && forall i :: 0 <= i < |b| ==> IsTokenChar(b[i])
  {
  }

  lemma QuoteIsNoSpace()
    ensures !IsSpace('"')
  {
  }

  /** A declaration matches in any case and spacing, quoted or not, with the boundary as its token. */
  lemma DeclarationMatches(word: string, s1: string, s2: string, quote: string, b: string, v: string)
    requires GoodBoundary(b) && ToLower(word) == "boundary" && AllSpace(s1) && AllSpace(s2)
    requires quote in ["", "\""] && (v == "" || !IsTokenChar(v[0]))
    ensures b in Declared(word + (s1 + ("=" + (s2 + (quote + (b + v))))))
  {
    hide Captured, GoodBoundary, IsTokenChar;
    var rest := s2 + (quote + (b + v));
    var tail := s1 + ("=" + rest);
    var s := word + tail;
    assert s[..8] == word && s[8..] == tail;
    SpaceLengthAt(s1, "=" + rest);
    assert s[8 + |s1|] == '=' && s[8 + |s1| + 1..] == rest;
    CapturedToken(s2, quote, b, v);
    assert Declaration(s).Some? && Declaration(s).value.0 == b;
    GoodIsTrimmed(b);
  }

  lemma GoodIsTrimmed(b: string)
    requires GoodBoundary(b)
    ensures Trim(b) == b
  {
  }

  lemma DeclaredLine(lines: seq<string>, b: string)
    requires GoodBoundary(b) && DeclarationLine(b) in lines
    ensures b in Declared(Join(lines, "\r\n"))
  {
    hide GoodBoundary, Declared, Join;
    var u, v := LineInText(lines, DeclarationLine(b));
    var d := "boundary=\"" + b + "\"";
    var type' := "Content-Type: multipart/mixed";
    var rest := d + v;
    assert "Content-Type: multipart/mixed; " == type' + ";" + " ";
    assert u + DeclarationLine(b) + v == (u + type') + ";" + (" " + rest);
    ScanReaches(u + type', " " + rest);
    SkipBlank(rest);
    var q := "\"" + v;
    assert ToLower("boundary") == "boundary";
    DeclarationMatches("boundary", "", "", "\"", b, q);
    assert rest == "boundary" + ("" + ("=" + ("" + ("\"" + (b + q)))));
  }

  lemma SkipBlank(rest: string)
    ensures Declared(" " + rest) == Declared(rest)
  {
    hide Declaration;
    NoMatchAt(" " + rest, ' ');
    assert (" " + rest)[1..] == rest;
  }

  lemma HeadQuiet(p: Part, bs: set<string>)
    requires p.Multi? && Quiet(p.headers, bs) && Quiet(p.preamble, bs)
    ensures Quiet(Head(p), bs)
  {
    hide DelimiterFrom;
    var d := DeclarationLine(p.boundary);
    assert d[0] == 'C' && !("--" <= d);
    assert DelimiterOf("").NoDelimiter?;
  }

  lemma {:induction false} AllDeclared(p: Part, enclosing: seq<string>, lines: seq<string>, bs: set<string>)
    requires bs == Declared(Join(lines, "\r\n")) && Message(p, enclosing, bs)
    requires forall l :: l in Render(p) ==> l in lines
    ensures WellFormed(p, enclosing, bs)
    decreases p, 1
  {
    hide GoodBoundary, Quiet, Declared, Join;
    if p.Multi? {
      HeadQuiet(p, bs);
      assert Head(p)[|p.headers|] == DeclarationLine(p.boundary);
      assert DeclarationLine(p.boundary) in Head(p);
      assert DeclarationLine(p.boundary) in Render(p);
      DeclaredLine(lines, p.boundary);
      assert forall l :: l in RenderAll(p.parts, p.boundary) ==> l in Render(p);
      PartsDeclared(p.parts, p.boundary, enclosing + [p.boundary], lines, bs);
    }
  }

  lemma {:induction false} PartsDeclared(ps: seq<Part>, b: string, enclosing: seq<string>, lines: seq<string>,
                                         bs: set<string>)
    requires bs == Declared(Join(lines, "\r\n")) && AllMessages(ps, enclosing, bs)
    requires forall l :: l in RenderAll(ps, b) ==> l in lines
    ensures AllWellFormed(ps, enclosing, bs)
    decreases ps, 0
  {
    hide Declared, Join, Message, WellFormed, Render;
    if ps != [] {
      assert forall l :: l in Render(ps[0]) ==> l in RenderAll(ps, b);
      assert forall l :: l in RenderAll(ps[1..], b) ==> l in RenderAll(ps, b);
      AllDeclared(ps[0], enclosing, lines, bs);
      PartsDeclared(ps[1..], b, enclosing, lines, bs);
    }
  }

  function MessageText(p: Part): string {
    Join(Render(p), "\r\n")
  }

  /** Exactness: a well-formed message is accepted if and only if its depth and part count are within the limits,
      and the stack is then empty at the end. */
  lemma AcceptsIffWithinLimits(p: Part)
    requires Message(p, [], Declared(MessageText(p)))
    requires Render(p) != [] && forall i :: 0 <= i < |Render(p)| ==> '\n' !in Render(p)[i]
    ensures Check(MessageText(p)).Running? <==> Depth(p) <= 8 && Count(p) <= 200
    ensures Check(MessageText(p)).Running? ==> Check(MessageText(p)) == Running([], Count(p))
  {
    hide Declared, Join, Lines, Scan, Render, WellFormed, Message;
    var bs := Declared(MessageText(p));
    LinesOfText(Render(p));
    AllDeclared(p, [], Render(p), bs);
    PartScan(p, [], 0, bs);
    if bs == {} {
      NoBoundaries(p);
    }
  }

  lemma NoBoundaries(p: Part)
    requires WellFormed(p, [], {})
    ensures Depth(p) == 0 && Count(p) == 0
  {
  }

  /** On any input, every state the scan passes through is within the limits. */
  lemma {:induction false} ScanStaysWithin(stack: seq<string>, parts: nat, lines: seq<string>, bs: set<string>, n: nat)
    requires Within(|stack|, parts) && n <= |lines|
    ensures var s := Scan(stack, parts, lines[..n], bs); s.Running? ==> Within(|s.stack|, s.parts)
    ensures Scan(stack, parts, lines, bs).Running? ==> Scan(stack, parts, lines[..n], bs).Running?
    decreases n
  {
    hide DelimiterOf;
    if n > 0 {
      var s := Step(stack, parts, lines[0], bs);
      assert lines[..n][1..] == lines[1..][..n - 1] && lines[..n][0] == lines[0];
      if s.Running? {
        ScanStaysWithin(s.stack, s.parts, lines[1..], bs, n - 1);
      }
    }
  }
}
