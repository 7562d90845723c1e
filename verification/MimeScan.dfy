/**
 The MIME structure guard (packages/mail-parser/src/index.ts,
 assertStructureWithinLimits): a one-pass stack machine over the lines of a
 message.  A char stands for a byte read as latin1.
 */
module MimeScan {
  import opened Text

  const MAX_PARTS := 200
  const MAX_DEPTH := 8

  // ----- Declared boundaries: /boundary\s*=\s*"?([^";\r\n]+)"?/gi -----

  function SpaceLength(s: string): (n: nat)
    ensures n <= |s| && forall i :: 0 <= i < n ==> IsSpace(s[i])
  {
    if s != "" && IsSpace(s[0]) then 1 + SpaceLength(s[1..]) else 0
  }

  predicate IsTokenChar(c: char) {
    c != '"' && c != ';' && c != '\r' && c != '\n'
  }

  function TokenLength(s: string): (n: nat)
    ensures n <= |s| && forall i :: 0 <= i < n ==> IsTokenChar(s[i])
  {
    if s != "" && IsTokenChar(s[0]) then 1 + TokenLength(s[1..]) else 0
  }

  /** Length of an optional double quote at `s`. */
  function QuoteLength(s: string): (n: nat)
    ensures n <= |s| && n <= 1 && (n == 1 ==> s[0] == '"')
  {
    if s != "" && s[0] == '"' then 1 else 0
  }

  /** How many of the first `n` white-space characters the pattern gives back when nothing else can match the
      token: it then captures the last one that is not a line break. */
  function BlankEnd(s: string, n: nat): (r: nat)
    requires n <= |s|
    ensures r <= n
  {
    if n == 0 then 0 else if IsTokenChar(s[n - 1]) then n else BlankEnd(s, n - 1)
  }

  /** A match at the start of `s`: the captured token and the length of the match. */
  function Declaration(s: string): (r: Option<(string, nat)>)
    ensures r.Some? ==> 0 < r.value.1 <= |s|
  {
    if |s| < 8 || ToLower(s[..8]) != "boundary" then None
    else
      var eq := 8 + SpaceLength(s[8..]);
      if eq == |s| || s[eq] != '=' then None
      else
        var v := Captured(s[eq + 1..]);
        if v.Some? then Some((v.value.0, eq + 1 + v.value.1)) else None
  }

  /** The token of `n` characters at `from`, and where an optional closing quote ends. */
  function TokenAt(s: string, from: nat, n: nat): (r: (string, nat))
    requires from + n <= |s|
    ensures r.1 <= |s|
  {
    var end := from + n;
    (s[from..end], end + QuoteLength(s[end..]))
  }

  /** The part of a match after the equals sign. */
  function Captured(s: string): (r: Option<(string, nat)>)
    ensures r.Some? ==> r.value.1 <= |s|
  {
    var spaces := SpaceLength(s);
    var open := spaces + QuoteLength(s[spaces..]);
    var n := TokenLength(s[open..]);
    if n > 0 then Some(TokenAt(s, open, n))
    else
      var k := BlankEnd(s, spaces);
      if k == 0 then None else Some(TokenAt(s, k - 1, 1))
  }

  /** No piece of the pattern matches a semicolon. */
  lemma CapturedNoSemicolon(s: string, i: nat)
    requires Captured(s).Some? && i < Captured(s).value.1
    ensures s[i] != ';'
  {
  }

  lemma DeclarationNoSemicolon(s: string, i: nat)
    requires Declaration(s).Some? && i < Declaration(s).value.1
    ensures s[i] != ';'
  {
    hide Captured;
    var word, head, tail := "boundary", s[..8], s[8..];
    var eq := 8 + SpaceLength(tail);
    if i < 8 {
      assert ToLower(head)[i] == word[i] == LowerChar(s[i]);
      assert word[i] != ';';
    } else if i < eq {
      assert s[i] == tail[i - 8];
    } else if i > eq {
      var rest := s[eq + 1..];
      CapturedNoSemicolon(rest, i - (eq + 1));
      assert s[i] == rest[i - (eq + 1)];
    }
  }

  function Declared(s: string): set<string>
    decreases |s|
  {
    if s == "" then {}
    else
      var m := Declaration(s);
      if m.Some? then {Trim(m.value.0)} + Declared(s[m.value.1..]) else Declared(s[1..])
  }

  // ----- Lines and delimiter lines -----

  /** `text.split(/\r?\n/)` */
  function Lines(text: string): seq<string> {
    var raw := Split(text, '\n');
    seq(|raw|, i requires 0 <= i < |raw| =>
      if i + 1 < |raw| && raw[i] != "" && raw[i][|raw[i]| - 1] == '\r' then raw[i][..|raw[i]| - 1] else raw[i])
  }

  predicate Blanks(s: string) {
    forall i :: 0 <= i < |s| ==> s[i] == ' ' || s[i] == '\t'
  }

  datatype Delimiter = NoDelimiter | Open(token: string) | Close(token: string)

  /** /^--(.+?)(--)?[ \t]*$/ on what follows the two dashes, trying tokens of `n` characters and longer. */
  function DelimiterFrom(body: string, n: nat): Delimiter
    requires 1 <= n
    decreases |body| - n
  {
    if n > |body| || body[n - 1] == '\r' then NoDelimiter
    else if "--" <= body[n..] && Blanks(body[n + 2..]) then Close(body[..n])
    else if Blanks(body[n..]) then Open(body[..n])
    else DelimiterFrom(body, n + 1)
  }

  function DelimiterOf(line: string): Delimiter {
    if "--" <= line then DelimiterFrom(line[2..], 1) else NoDelimiter
  }

  // ----- The stack machine -----

  datatype State = Running(stack: seq<string>, parts: nat) | TooDeep | TooMany

  /** `stack.lastIndexOf(token)`, or the stack's length if it is not there. */
  function LastIndex(stack: seq<string>, token: string): (i: nat)
    ensures i <= |stack| && (i < |stack| ==> stack[i] == token && token !in stack[i + 1..])
    ensures i == |stack| ==> token !in stack
  {
    if stack == [] then 0
    else if stack[|stack| - 1] == token then |stack| - 1
    else
      var i := LastIndex(stack[..|stack| - 1], token);
      if i == |stack| - 1 then |stack| else i
  }

  function Step(stack: seq<string>, parts: nat, line: string, boundaries: set<string>): State {
    var d := DelimiterOf(line);
    if d.NoDelimiter? || d.token !in boundaries then Running(stack, parts)
    else if d.Close? then Running(stack[..LastIndex(stack, d.token)], parts)
    else
      var pushed := if stack != [] && stack[|stack| - 1] == d.token then stack else stack + [d.token];
      if |pushed| > |stack| && |pushed| > MAX_DEPTH then TooDeep
      else if parts + 1 > MAX_PARTS then TooMany
      else Running(pushed, parts + 1)
  }

  function Scan(stack: seq<string>, parts: nat, lines: seq<string>, boundaries: set<string>): State
    decreases |lines|
  {
    if lines == [] then Running(stack, parts)
    else
      var s := Step(stack, parts, lines[0], boundaries);
      if s.Running? then Scan(s.stack, s.parts, lines[1..], boundaries) else s
  }

  function Check(text: string): State {
    var boundaries := Declared(text);
    if boundaries == {} then Running([], 0) else Scan([], 0, Lines(text), boundaries)
  }

  /** The declaration loop: `exec` from the last match on. */
  method CollectBoundaries(text: string) returns (boundaries: set<string>)
    ensures boundaries == Declared(text)
  {
    hide Declaration;
    boundaries := {};
    var i := 0;
    assert text[0..] == text;
    while i < |text|
      invariant 0 <= i <= |text|
      invariant boundaries + Declared(text[i..]) == Declared(text)
    {
      var m := Declaration(text[i..]);
      if m.Some? {
        assert text[i..][m.value.1..] == text[i + m.value.1..];
        boundaries := boundaries + {Trim(m.value.0)};
        i := i + m.value.1;
      } else {
        assert text[i..][1..] == text[i + 1..];
        i := i + 1;
      }
    }
  }

  /** assertStructureWithinLimits */
  method AssertStructureWithinLimits(text: string) returns (result: State)
    ensures result == Check(text)
  {
    hide DelimiterOf, Lines;
    var boundaries := CollectBoundaries(text);
    if boundaries == {} {
      return Running([], 0);
    }
    var stack: seq<string> := [];
    var parts := 0;
    var lines := Lines(text);
    for i := 0 to |lines|
      invariant Scan(stack, parts, lines[i..], boundaries) == Scan([], 0, lines, boundaries)
    {
      var line := lines[i];
      assert lines[i..][1..] == lines[i + 1..] && lines[i..][0] == line;
      var d := DelimiterOf(line);
      if d.NoDelimiter? || d.token !in boundaries {
        continue;
      }
      if d.Close? {
        var idx := LastIndex(stack, d.token);
        assert stack[..|stack|] == stack;
        if idx < |stack| {
          stack := stack[..idx];
        }
        continue;
      }
      if |stack| == 0 || stack[|stack| - 1] != d.token {
        stack := stack + [d.token];
        if |stack| > MAX_DEPTH {
          return TooDeep;
        }
      }
      parts := parts + 1;
      if parts > MAX_PARTS {
        return TooMany;
      }
    }
    result := Running(stack, parts);
  }
}
