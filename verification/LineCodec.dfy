/**
 The line layer shared by apps/api/src/contacts/vcard.ts and
 apps/api/src/calendar/ical.ts: folding at 75 characters, unfolding, and value
 escaping (RFC 2425 section 5.8.1, RFC 2426 section 5, RFC 5545 sections 3.1 and
 3.3.11).
 */
module LineCodec {
  import opened Text

  const CRLF := "\r\n"

  /** `NAME:value` */
  function Line(name: string, value: string): string {
    name + ":" + value
  }

  /** A property name as the codecs write them. */
  predicate Name(n: string) {
    n != "" && forall i :: 0 <= i < |n| ==> 'A' <= n[i] <= 'Z'
  }

  // ----- Unfolding -----

  /** `text.replace(/\r\n/g, "\n")` */
  function CrlfToLf(s: string): string {
    if s == "" then ""
    else if |s| > 1 && s[0] == '\r' && s[1] == '\n' then "\n" + CrlfToLf(s[2..])
    else [s[0]] + CrlfToLf(s[1..])
  }

  function PhysicalLines(text: string): seq<string> {
    Split(Subst(CrlfToLf(text), '\r', "\n"), '\n')
  }

  predicate Continues(line: string) {
    line != "" && (line[0] == ' ' || line[0] == '\t')
  }

  /** Append each line to `out`, or to its last entry if it is a continuation. */
  function Merge(out: seq<string>, raw: seq<string>): seq<string>
    decreases raw
  {
    if raw == [] then out
    else if Continues(raw[0]) && out != []
    then Merge(out[|out| - 1 := out[|out| - 1] + raw[0][1..]], raw[1..])
    else Merge(out + [raw[0]], raw[1..])
  }

  function Unfold(text: string): seq<string> {
    Merge([], PhysicalLines(text))
  }

  /** unfoldLines */
  method UnfoldLines(text: string) returns (out: seq<string>)
    ensures out == Unfold(text)
  {
    var raw := PhysicalLines(text);
    out := [];
    for i := 0 to |raw|
      invariant Merge(out, raw[i..]) == Unfold(text)
    {
      var line := raw[i];
      assert raw[i..][1..] == raw[i + 1..];
      if Continues(line) && |out| > 0 {
        out := out[|out| - 1 := out[|out| - 1] + line[1..]];
      } else {
        out := out + [line];
      }
    }
  }

  // ----- Folding -----

  function Continuations(rest: string): seq<string> {
    if rest == "" then []
    else if |rest| <= 74 then [" " + rest]
    else [" " + rest[..74]] + Continuations(rest[74..])
  }

  /** The physical lines of one logical line. */
  function Chunks(line: string): (r: seq<string>)
    ensures r != []
  {
    if |line| <= 75 then [line] else [line[..75]] + Continuations(line[75..])
  }

  function Fold(line: string): string {
    Join(Chunks(line), CRLF)
  }

  /** foldLine */
  method FoldLine(line: string) returns (text: string)
    ensures text == Fold(line)
  {
    if |line| <= 75 {
      assert Join([line], CRLF) == line;
      return line;
    }
    var chunks := [line[..75]];
    var rest := line[75..];
    while |rest| > 0
      invariant chunks + Continuations(rest) == Chunks(line)
    {
      var n := if |rest| < 74 then |rest| else 74;
      ghost var tail := Continuations(rest);
      assert tail == [" " + rest[..n]] + Continuations(rest[n..]) by {
        assert |rest| <= 74 ==> rest[..n] == rest && rest[n..] == "";
      }
      chunks := chunks + [" " + rest[..n]];
      rest := rest[n..];
    }
    assert chunks + [] == chunks;
    text := Join(chunks, CRLF);
  }

  /** `lines.map(foldLine).join("\r\n") + "\r\n"` */
  function Print(lines: seq<string>): string {
    Join(FoldAll(lines), CRLF) + CRLF
  }

  function FoldAll(lines: seq<string>): seq<string> {
    seq(|lines|, i requires 0 <= i < |lines| => Fold(lines[i]))
  }

  method PrintLines(lines: seq<string>) returns (text: string)
    ensures text == Print(lines)
  {
    hide Fold;
    var folded := [];
    for i := 0 to |lines|
      invariant folded == FoldAll(lines[..i])
    {
      var f := FoldLine(lines[i]);
      assert FoldAll(lines[..i + 1]) == FoldAll(lines[..i]) + [f];
      folded := folded + [f];
    }
    assert lines[..|lines|] == lines;
    text := Join(folded, CRLF) + CRLF;
  }

  // ----- Folding is undone by unfolding -----

  function Terminated(lines: seq<string>): string {
    if lines == [] then "" else lines[0] + "\r\n" + Terminated(lines[1..])
  }

  function AllChunks(lines: seq<string>): seq<string> {
    if lines == [] then [] else Chunks(lines[0]) + AllChunks(lines[1..])
  }

  lemma {:induction false} TerminatedAppend(a: seq<string>, b: seq<string>)
    ensures Terminated(a + b) == Terminated(a) + Terminated(b)
  {
    if a == [] {
      assert a + b == b;
    } else {
      TerminatedAppend(a[1..], b);
      assert (a + b)[1..] == a[1..] + b;
    }
  }

  lemma {:induction false} JoinTerminates(ls: seq<string>)
    requires ls != []
    ensures Join(ls, CRLF) + CRLF == Terminated(ls)
  {
    if |ls| > 1 {
      JoinTerminates(ls[1..]);
    }
  }

  lemma {:induction false} PrintTerminates(lines: seq<string>)
    requires lines != []
    ensures Print(lines) == Terminated(AllChunks(lines))
  {
    hide Terminated, Chunks, Join;
    var l, t := lines[0], lines[1..];
    JoinTerminates(Chunks(l));
    TerminatedAppend(Chunks(l), AllChunks(t));
    JoinCons(Fold(l), FoldAll(t));
    assert FoldAll(lines) == [Fold(l)] + FoldAll(t);
    if t == [] {
      assert AllChunks(lines) == Chunks(l) + [];
      assert Chunks(l) + [] == Chunks(l);
    } else {
      PrintTerminates(t);
      assert Print(lines) == Fold(l) + CRLF + Print(t);
    }
  }

  lemma JoinCons(s: string, parts: seq<string>)
    ensures Join([s] + parts, CRLF) == if parts == [] then s else s + CRLF + Join(parts, CRLF)
  {
  }

  /** CRLF, LF, or a CR that no LF follows. */
  predicate IsLineEnd(e: string, rest: string) {
    e == CRLF || e == "\n" || (e == "\r" && (rest == "" || rest[0] != '\n'))
  }

  lemma {:induction false} LineBreaks(p: string, e: string, r: string)
    requires OneLine(p) && IsLineEnd(e, r)
    ensures Subst(CrlfToLf(p + e + r), '\r', "\n") == p + "\n" + Subst(CrlfToLf(r), '\r', "\n")
  {
    var s := p + e + r;
    if p == "" {
      assert s == e + r;
      EndsLine(e, r);
    } else {
      LineBreaks(p[1..], e, r);
      assert s[1..] == p[1..] + e + r;
      assert ([s[0]] + CrlfToLf(s[1..]))[1..] == CrlfToLf(s[1..]);
      assert [p[0]] + (p[1..] + "\n") == p + "\n";
    }
  }

  lemma EndsLine(e: string, r: string)
    requires IsLineEnd(e, r)
    ensures Subst(CrlfToLf(e + r), '\r', "\n") == "\n" + Subst(CrlfToLf(r), '\r', "\n")
  {
    var s := e + r;
    if e == CRLF {
      assert s[2..] == r;
      assert ("\n" + CrlfToLf(r))[1..] == CrlfToLf(r);
    } else {
      assert s[1..] == r && s[0] == e[0];
      assert ([s[0]] + CrlfToLf(r))[1..] == CrlfToLf(r);
    }
  }

  /** A line ends at a CRLF, at an LF, and at a CR that no LF follows. */
  lemma AnyLineEnd(p: string, e: string, r: string)
    requires OneLine(p) && IsLineEnd(e, r)
    ensures PhysicalLines(p + e + r) == [p] + PhysicalLines(r)
  {
    LineBreaks(p, e, r);
    SplitAt(p, '\n', Subst(CrlfToLf(r), '\r', "\n"));
  }

  lemma {:induction false} TerminatedLines(ls: seq<string>)
    requires forall i :: 0 <= i < |ls| ==> OneLine(ls[i])
    ensures PhysicalLines(Terminated(ls)) == ls + [""]
  {
    if ls != [] {
      TerminatedLines(ls[1..]);
      AnyLineEnd(ls[0], CRLF, Terminated(ls[1..]));
      assert [ls[0]] + (ls[1..] + [""]) == ls + [""];
    }
  }

  /** A line that begins with a space or a tab continues the one before it. */
  lemma MergeNext(out: seq<string>, acc: string, blank: char, c: string, raw: seq<string>)
    requires blank == ' ' || blank == '\t'
    ensures Merge(out + [acc], [[blank] + c] + raw) == Merge(out + [acc + c], raw)
  {
    var all := [[blank] + c] + raw;
    assert all[0] == [blank] + c && all[1..] == raw && ([blank] + c)[1..] == c;
    assert (out + [acc])[|out| := acc + c] == out + [acc + c];
  }

  lemma {:induction false} MergeContinuations(out: seq<string>, acc: string, rest: string, more: seq<string>)
    ensures Merge(out + [acc], Continuations(rest) + more) == Merge(out + [acc + rest], more)
    decreases |rest|
  {
    hide Merge;
    if rest == "" {
      assert Continuations(rest) + more == more && acc + rest == acc;
    } else if |rest| <= 74 {
      MergeNext(out, acc, ' ', rest, more);
    } else {
      var c, t := rest[..74], rest[74..];
      MergeNext(out, acc, ' ', c, Continuations(t) + more);
      assert Continuations(rest) + more == [" " + c] + (Continuations(t) + more);
      MergeContinuations(out, acc + c, t, more);
      assert c + t == rest && acc + c + t == acc + (c + t);
    }
  }

  /** A logical line that does not begin with a blank. */
  predicate Logical(line: string) {
    OneLine(line) && line != "" && line[0] != ' ' && line[0] != '\t'
  }

  lemma LineLogical(n: string, p: string, value: string)
    requires Name(n) && OneLine(p) && OneLine(value)
    ensures Logical(Line(n + p, value))
  {
  }

  lemma PlainLogical(n: string, value: string)
    requires Name(n) && OneLine(value)
    ensures Logical(Line(n, value))
  {
  }

  lemma MergeLine(out: seq<string>, l: string, more: seq<string>)
    requires Logical(l)
    ensures Merge(out, Chunks(l) + more) == Merge(out + [l], more)
  {
    var first := Chunks(l)[0];
    var raw := Chunks(l) + more;
    assert raw[0] == first && !Continues(first);
    if |l| <= 75 {
      assert raw[1..] == more;
    } else {
      assert raw[1..] == Continuations(l[75..]) + more;
      MergeContinuations(out, first, l[75..], more);
      assert l[..75] + l[75..] == l;
    }
  }

  lemma {:induction false} MergeChunks(out: seq<string>, lines: seq<string>)
    requires forall i :: 0 <= i < |lines| ==> Logical(lines[i])
    ensures Merge(out, AllChunks(lines) + [""]) == out + lines + [""]
    decreases |lines|
  {
    hide Merge, Chunks;
    if lines == [] {
      assert AllChunks(lines) + [""] == [""];
      MergeBlank(out);
    } else {
      var l, more := lines[0], AllChunks(lines[1..]) + [""];
      MergeChunks(out + [l], lines[1..]);
      MergeLine(out, l, more);
      assert AllChunks(lines) + [""] == Chunks(l) + more;
      assert out + [l] + lines[1..] == out + lines;
    }
  }

  lemma MergeBlank(out: seq<string>)
    ensures Merge(out, [""]) == out + [""]
  {
  }

  lemma {:induction false} ContinuationsFit(rest: string)
    requires OneLine(rest)
    ensures forall i :: 0 <= i < |Continuations(rest)| ==>
              |Continuations(rest)[i]| <= 75 && OneLine(Continuations(rest)[i])
  {
    if |rest| > 74 {
      ContinuationsFit(rest[74..]);
    }
  }

  lemma {:induction false} ChunksFit(lines: seq<string>)
    requires forall i :: 0 <= i < |lines| ==> OneLine(lines[i])
    ensures forall i :: 0 <= i < |AllChunks(lines)| ==>
              |AllChunks(lines)[i]| <= 75 && OneLine(AllChunks(lines)[i])
  {
    if lines != [] {
      ChunksFit(lines[1..]);
      if |lines[0]| > 75 {
        ContinuationsFit(lines[0][75..]);
      }
    }
  }

  /** Unfolding the printed text gives back exactly the logical lines, and no physical line is over 75. */
  lemma FoldingRoundTrip(lines: seq<string>)
    requires lines != [] && forall i :: 0 <= i < |lines| ==> Logical(lines[i])
    ensures Unfold(Print(lines)) == lines + [""]
    ensures forall p :: p in PhysicalLines(Print(lines)) ==> |p| <= 75
    ensures var ps := PhysicalLines(Print(lines)); Print(lines) == Terminated(ps[..|ps| - 1])
  {
    var chunks := AllChunks(lines);
    PrintTerminates(lines);
    ChunksFit(lines);
    TerminatedLines(chunks);
    MergeChunks([], lines);
    assert [] + lines + [""] == lines + [""];
    assert (chunks + [""])[..|chunks|] == chunks;
  }

  // ----- Escaping -----

  /** What escaping does to one character. */
  function EscapeChar(c: char): string {
    if c == '\n' then "\\n"
    else if c == '\\' || c == ',' || c == ';' then ['\\', c]
    else [c]
  }

  function EscapeMap(v: string): string {
    if v == "" then "" else EscapeChar(v[0]) + EscapeMap(v[1..])
  }

  /** escapeValue of vcard.ts: four passes. */
  function EscapeValue(v: string): string {
    Subst(Subst(Subst(Subst(v, '\\', "\\\\"), '\n', "\\n"), ',', "\\,"), ';', "\\;")
  }

  /** escapeText of ical.ts: the last two passes the other way round. */
  function EscapeText(v: string): string {
    Subst(Subst(Subst(Subst(v, '\\', "\\\\"), '\n', "\\n"), ';', "\\;"), ',', "\\,")
  }

  /** A pass distributes over the first character of what the earlier passes produced. */
  lemma PassStep(head: string, tail: string, c: char, sub: string, out: string)
    requires Subst(head, c, sub) == out
    ensures Subst(head + tail, c, sub) == out + Subst(tail, c, sub)
  {
    SubstAppend(head, tail, c, sub);
  }

  /** Both four-pass escapes are the one character map. */
  lemma {:induction false} EscapesAgree(v: string)
    ensures EscapeValue(v) == EscapeMap(v) && EscapeText(v) == EscapeMap(v)
  {
    if v != "" {
      var c, t := v[0], v[1..];
      assert v == [c] + t;
      EscapesAgree(t);
      var t1 := Subst(t, '\\', "\\\\");
      var t2 := Subst(t1, '\n', "\\n");
      var h1 := if c == '\\' then "\\\\" else [c];
      var h2 := if c == '\n' then "\\n" else h1;
      HeadPasses(c);
      PassStep([c], t, '\\', "\\\\", h1);
      PassStep(h1, t1, '\n', "\\n", h2);
      PassStep(h2, t2, ',', "\\,", if c == ',' then "\\," else h2);
      PassStep(h2, t2, ';', "\\;", if c == ';' then "\\;" else h2);
      PassStep(if c == ',' then "\\," else h2, Subst(t2, ',', "\\,"), ';', "\\;", EscapeChar(c));
      PassStep(if c == ';' then "\\;" else h2, Subst(t2, ';', "\\;"), ',', "\\,", EscapeChar(c));
    }
  }

  /** The passes on one character. */
  lemma HeadPasses(c: char)
    ensures var h1 := if c == '\\' then "\\\\" else [c];
            var h2 := if c == '\n' then "\\n" else h1;
            var h3 := if c == ',' then "\\," else h2;
            var h4 := if c == ';' then "\\;" else h2;
            && Subst([c], '\\', "\\\\") == h1
            && Subst(h1, '\n', "\\n") == h2
            && Subst(h2, ',', "\\,") == h3 && Subst(h3, ';', "\\;") == EscapeChar(c)
            && Subst(h2, ';', "\\;") == h4 && Subst(h4, ',', "\\,") == EscapeChar(c)
  {
  }

  /** unescapeValue / unescapeText, as a function of the whole text. */
  function Unescape(v: string): string {
    if v == "" then ""
    else if v[0] == '\\' && |v| > 1 then
      (if v[1] == 'n' || v[1] == 'N' then "\n" else [v[1]]) + Unescape(v[2..])
    else [v[0]] + Unescape(v[1..])
  }

  /** One step of Unescape at position `i`. */
  lemma UnescapeStep(v: string, i: nat)
    requires i < |v|
    ensures Unescape(v[i..]) ==
            if v[i] == '\\' && i + 1 < |v| then
              (if v[i + 1] == 'n' || v[i + 1] == 'N' then "\n" else [v[i + 1]]) + Unescape(v[i + 2..])
            else [v[i]] + Unescape(v[i + 1..])
  {
  }

  method UnescapeLoop(v: string) returns (out: string)
    ensures out == Unescape(v)
  {
    hide Unescape;
    out := "";
    var i := 0;
    assert v[0..] == v && "" + Unescape(v) == Unescape(v);
    while i < |v|
      invariant 0 <= i <= |v|
      invariant out + Unescape(v[i..]) == Unescape(v)
    {
      UnescapeStep(v, i);
      var ch := v[i];
      if ch == '\\' && i + 1 < |v| {
        i := i + 1;
        var next := v[i];
        if next == 'n' || next == 'N' {
          out := out + "\n";
        } else {
          out := out + [next];
        }
      } else {
        out := out + [ch];
      }
      i := i + 1;
    }
    UnescapeNothing(v[|v|..]);
  }

  lemma UnescapeNothing(v: string)
    requires v == ""
    ensures Unescape(v) == ""
  {
  }

  function Glue(s: string, parts: seq<string>): (r: seq<string>)
    requires parts != []
    ensures r != []
    ensures s == "" ==> r == parts
  {
    assert "" + parts[0] == parts[0];
    [s + parts[0]] + parts[1..]
  }

  /** Split at delimiters that no backslash quotes. */
  function SplitUnescaped(v: string, delim: char): (r: seq<string>)
    ensures r != []
  {
    if v == "" then [""]
    else if v[0] == '\\' && |v| > 1 then Glue(v[..2], SplitUnescaped(v[2..], delim))
    else if v[0] == delim then [""] + SplitUnescaped(v[1..], delim)
    else Glue(v[..1], SplitUnescaped(v[1..], delim))
  }

  /** One step of SplitUnescaped at position `i`. */
  lemma SplitStep(v: string, i: nat, delim: char)
    requires i < |v|
    ensures SplitUnescaped(v[i..], delim) ==
            if v[i] == '\\' && i + 1 < |v| then Glue(v[i..i + 2], SplitUnescaped(v[i + 2..], delim))
            else if v[i] == delim then [""] + SplitUnescaped(v[i + 1..], delim)
            else Glue([v[i]], SplitUnescaped(v[i + 1..], delim))
  {
    var t := v[i..];
    assert t[1..] == v[i + 1..] && t[..1] == [v[i]];
    if i + 1 < |v| {
      assert t[2..] == v[i + 2..] && t[..2] == v[i..i + 2];
    }
  }

  /** splitUnescaped */
  method SplitUnescapedLoop(v: string, delim: char) returns (parts: seq<string>)
    ensures parts == SplitUnescaped(v, delim)
  {
    hide SplitUnescaped, Glue;
    parts := [];
    var cur := "";
    var i := 0;
    assert v[0..] == v;
    while i < |v|
      invariant 0 <= i <= |v|
      invariant parts + Glue(cur, SplitUnescaped(v[i..], delim)) == SplitUnescaped(v, delim)
    {
      SplitStep(v, i, delim);
      var ch := v[i];
      if ch == '\\' && i + 1 < |v| {
        assert v[i..i + 2] == [ch, v[i + 1]];
        GlueTwice(cur, [ch, v[i + 1]], SplitUnescaped(v[i + 2..], delim));
        i := i + 1;
        cur := cur + [ch, v[i]];
      } else if ch == delim {
        GluePart(cur, SplitUnescaped(v[i + 1..], delim));
        parts := parts + [cur];
        cur := "";
      } else {
        GlueTwice(cur, [ch], SplitUnescaped(v[i + 1..], delim));
        cur := cur + [ch];
      }
      i := i + 1;
    }
    SplitNothing(v[|v|..], delim);
    GluePart(cur, []);
    parts := parts + [cur];
  }

  lemma SplitNothing(v: string, delim: char)
    requires v == ""
    ensures SplitUnescaped(v, delim) == [""] + []
  {
  }

  lemma GluePart(a: string, parts: seq<string>)
    ensures Glue(a, [""] + parts) == [a] + parts
  {
    assert a + "" == a && ([""] + parts)[1..] == parts;
  }

  lemma GlueTwice(a: string, b: string, parts: seq<string>)
    requires parts != []
    ensures Glue(a, Glue(b, parts)) == Glue(a + b, parts)
  {
    assert a + (b + parts[0]) == a + b + parts[0];
  }

  lemma UnescapeUnit(c: char, t: string)
    ensures Unescape(EscapeChar(c) + t) == [c] + Unescape(t)
  {
  }

  /** Unescaping inverts escaping, for every value. */
  lemma {:induction false} UnescapeInverts(v: string)
    ensures Unescape(EscapeMap(v)) == v
  {
    if v != "" {
      UnescapeInverts(v[1..]);
      UnescapeUnit(v[0], EscapeMap(v[1..]));
      assert [v[0]] + v[1..] == v;
    }
  }

  lemma SplitUnit(c: char, t: string)
    ensures SplitUnescaped(EscapeChar(c) + t, ';') == Glue(EscapeChar(c), SplitUnescaped(t, ';'))
  {
  }

  lemma SplitDelim(r: string)
    ensures SplitUnescaped(";" + r, ';') == [""] + SplitUnescaped(r, ';')
  {
  }

  /** No escaped value holds an unescaped delimiter. */
  lemma {:induction false} EscapedIsOnePart(v: string, r: string)
    ensures SplitUnescaped(EscapeMap(v) + ";" + r, ';') == [EscapeMap(v)] + SplitUnescaped(r, ';')
    ensures SplitUnescaped(EscapeMap(v), ';') == [EscapeMap(v)]
  {
    hide SplitUnescaped;
    if v == "" {
      assert "" + ";" + r == ";" + r;
      SplitDelim(r);
      SplitNothing("", ';');
    } else {
      var c, t := v[0], EscapeMap(v[1..]);
      EscapedIsOnePart(v[1..], r);
      SplitUnit(c, t);
      SplitUnit(c, t + ";" + r);
      assert EscapeMap(v) + ";" + r == EscapeChar(c) + (t + ";" + r);
    }
  }

  /** A text without the delimiter is a single part, quoted or not. */
  lemma {:induction false} OnePart(s: string, d: char)
    requires d !in s
    ensures SplitUnescaped(s, d) == [s]
    decreases |s|
  {
    if s != "" {
      if s[0] == '\\' && |s| > 1 {
        OnePart(s[2..], d);
        assert s[..2] + s[2..] == s;
      } else {
        OnePart(s[1..], d);
        assert s[..1] + s[1..] == s;
      }
    }
  }

  /** Escaping leaves no line feed, and a carriage return only where there was one. */
  lemma {:induction false} EscapeOneLine(v: string)
    ensures '\n' !in EscapeMap(v)
    ensures '\r' !in v ==> '\r' !in EscapeMap(v)
  {
    if v != "" {
      EscapeOneLine(v[1..]);
    }
  }

  // ----- Nothing read from unfolded text holds a carriage return -----

  lemma {:induction false} SubstRemoves(s: string)
    ensures '\r' !in Subst(s, '\r', "\n")
  {
    if s != "" {
      SubstRemoves(s[1..]);
    }
  }

  lemma {:induction false} SplitKeeps(s: string, d: char, c: char)
    requires c !in s
    ensures forall p :: p in Split(s, d) ==> c !in p
  {
    if s != "" {
      SplitKeeps(s[1..], d, c);
    }
  }

  lemma {:induction false} MergeKeeps(out: seq<string>, raw: seq<string>)
    requires forall i :: 0 <= i < |out| ==> OneLine(out[i])
    requires forall i :: 0 <= i < |raw| ==> OneLine(raw[i])
    ensures forall i :: 0 <= i < |Merge(out, raw)| ==> OneLine(Merge(out, raw)[i])
    decreases |raw|
  {
    if raw != [] {
      if Continues(raw[0]) && out != [] {
        MergeKeeps(out[|out| - 1 := out[|out| - 1] + raw[0][1..]], raw[1..]);
      } else {
        MergeKeeps(out + [raw[0]], raw[1..]);
      }
    }
  }

  lemma UnfoldedLines(text: string)
    ensures forall i :: 0 <= i < |Unfold(text)| ==> OneLine(Unfold(text)[i])
  {
    var norm := Subst(CrlfToLf(text), '\r', "\n");
    SubstRemoves(CrlfToLf(text));
    SplitKeeps(norm, '\n', '\r');
    MergeKeeps([], PhysicalLines(text));
  }

  lemma {:induction false} UnescapeKeeps(v: string)
    requires '\r' !in v
    ensures '\r' !in Unescape(v)
    decreases |v|
  {
    if v != "" {
      if v[0] == '\\' && |v| > 1 {
        UnescapeKeeps(v[2..]);
      } else {
        UnescapeKeeps(v[1..]);
      }
    }
  }

  lemma {:induction false} SplitUnescapedKeeps(v: string, d: char, c: char)
    requires c !in v
    ensures forall p :: p in SplitUnescaped(v, d) ==> c !in p
    decreases |v|
  {
    if v != "" {
      if v[0] == '\\' && |v| > 1 {
        SplitUnescapedKeeps(v[2..], d, c);
      } else {
        SplitUnescapedKeeps(v[1..], d, c);
      }
    }
  }
}
