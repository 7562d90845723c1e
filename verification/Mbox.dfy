/**
 The mbox exporter (apps/api/src/retention/export.service.ts) and the reader it is meant for.
 A byte is the character of its code, as in the latin1 text the exporter escapes.
 */
module Mbox {
  import opened Text

  const FROM := "From "

  /** The text matches `>*From ` here. */
  predicate Quotable(s: string) {
    if s != "" && s[0] == '>' then Quotable(s[1..]) else FROM <= s
  }

  /** Where JavaScript's `^` starts a line in latin1 text: after CR as well as LF. */
  predicate IsBreak(c: char) {
    c == '\n' || c == '\r'
  }

  // ----- Escaping -----

  /** escapeMbox from a point that is at a line start or not. */
  function Escape(s: string, start: bool): string {
    if s == "" then ""
    else (if start && Quotable(s) then ">" else "") + [s[0]] + Escape(s[1..], IsBreak(s[0]))
  }

  /** The mboxrd reader's inverse: one ">" off each quoted line; lines start after LF, or also after CR. */
  function Unescape(s: string, start: bool, cr: bool): string {
    if s == "" then ""
    else if start && s[0] == '>' && Quotable(s[1..]) then Unescape(s[1..], false, cr)
    else [s[0]] + Unescape(s[1..], s[0] == '\n' || (cr && s[0] == '\r'), cr)
  }

  lemma {:induction false} PrefixSame(p: string, s: string, rest: string)
    requires forall c :: c in p ==> !IsBreak(c)
    requires rest == "" || IsBreak(rest[0])
    ensures p <= Escape(s, false) + rest <==> p <= s
    decreases |p|
  {
    if p != "" {
      assert !IsBreak(p[0]);
      if s != "" {
        var e := Escape(s, false);
        assert e == [s[0]] + Escape(s[1..], IsBreak(s[0]));
        if s[0] == p[0] {
          PrefixSame(p[1..], s[1..], rest);
          assert (e + rest)[1..] == Escape(s[1..], false) + rest;
          Uncons(p, e + rest);
          Uncons(p, s);
        } else {
          assert (e + rest)[0] == s[0];
        }
      }
    }
  }

  lemma Uncons(p: string, s: string)
    requires p != "" && s != "" && p[0] == s[0]
    ensures p <= s <==> p[1..] <= s[1..]
  {
  }

  lemma {:induction false} QuotableSame(s: string)
    ensures Quotable(Escape(s, false)) <==> Quotable(s)
  {
    if s != "" && s[0] == '>' {
      assert Escape(s, false)[1..] == Escape(s[1..], false);
      QuotableSame(s[1..]);
    } else {
      PrefixSame(FROM, s, "");
      assert Escape(s, false) + "" == Escape(s, false);
    }
  }

  /** Reading with the exporter's own idea of a line gives every text back. */
  lemma {:induction false} UnescapeInvertsEscape(s: string, start: bool)
    ensures Unescape(Escape(s, start), start, true) == s
    decreases |s|, start
  {
    if s != "" {
      var e := Escape(s, start);
      var tail := Escape(s[1..], IsBreak(s[0]));
      if start && Quotable(s) {
        assert e[1..] == Escape(s, false);
        QuotableSame(s);
        UnescapeInvertsEscape(s, false);
      } else {
        assert e == [s[0]] + tail && e[1..] == tail;
        if s[0] == '>' { QuotableSame(s[1..]); }
        UnescapeInvertsEscape(s[1..], IsBreak(s[0]));
      }
    }
  }

  // ----- Readers that end lines at LF only -----

  /** Texts where a lone CR stands right before something an exporter would quote. */
  predicate QuotedAfterCr(s: string, afterCr: bool) {
    s != "" && ((afterCr && Quotable(s)) || QuotedAfterCr(s[1..], s[0] == '\r'))
  }

  lemma {:induction false} QuotedAfterCrAt(s: string, afterCr: bool)
    ensures QuotedAfterCr(s, afterCr) <==>
            (afterCr && Quotable(s)) || exists i :: 0 <= i < |s| && s[i] == '\r' && Quotable(s[i + 1..])
    decreases |s|
  {
    if s != "" {
      var rest := s[1..];
      QuotedAfterCrAt(rest, s[0] == '\r');
      if i :| 0 <= i < |rest| && rest[i] == '\r' && Quotable(rest[i + 1..]) {
        assert s[i + 1] == '\r' && s[i + 1 + 1..] == rest[i + 1..];
      }
      if i :| 0 <= i < |s| && s[i] == '\r' && Quotable(s[i + 1..]) {
        if i > 0 { assert rest[i - 1] == '\r' && rest[i - 1 + 1..] == s[i + 1..]; }
      }
    }
  }

  lemma {:induction false} UnescapeLfOnly(s: string, lf: bool, afterCr: bool)
    requires !(lf && afterCr)
    ensures var r := Unescape(Escape(s, lf || afterCr), lf, false);
            |r| >= |s| && (|r| == |s| ==> r == s) && (|r| == |s| <==> !QuotedAfterCr(s, afterCr))
    decreases |s|, lf || afterCr
  {
    if s != "" {
      var e := Escape(s, lf || afterCr);
      var tail := Escape(s[1..], IsBreak(s[0]));
      if (lf || afterCr) && Quotable(s) {
        assert e[1..] == Escape(s, false);
        QuotableSame(s);
        UnescapeLfOnly(s, false, false);
      } else {
        assert e == [s[0]] + tail && e[1..] == tail;
        if s[0] == '>' { QuotableSame(s[1..]); }
        UnescapeLfOnly(s[1..], s[0] == '\n', s[0] == '\r');
      }
    }
  }

  /** A reader that knows only LF line ends recovers exactly the messages with no such CR. */
  lemma LfReaderRecoversIff(s: string)
    ensures Unescape(Escape(s, true), true, false) == s <==>
            !exists i :: 0 <= i < |s| && s[i] == '\r' && Quotable(s[i + 1..])
  {
    UnescapeLfOnly(s, true, false);
    QuotedAfterCrAt(s, false);
  }

  /** Such a message: the reader leaves the ">" the exporter put after the CR. */
  lemma CrBeforeFromIsKept()
    ensures Unescape(Escape("\rFrom x", true), true, false) != "\rFrom x"
  {
    var s := "\rFrom x";
    assert s[0 + 1..][..5] == FROM;
    assert s[0] == '\r' && Quotable(s[0 + 1..]);
    LfReaderRecoversIff(s);
  }

  // ----- Framing -----

  /** `when` is a UTC date string; `source` is missing when the server returned none. */
  datatype Message = Message(source: Option<string>, when: string)
  datatype Folder = Folder(locks: bool, messages: seq<Message>)
  datatype Exported = Exported(when: string, source: string)

  function Header(when: string): string {
    "From MAILER-DAEMON " + when
  }

  function Entry(x: Exported): string {
    Header(x.when) + "\n" + Escape(x.source, true) + "\n"
  }

  function File(xs: seq<Exported>): string {
    if xs == [] then "" else Entry(xs[0]) + File(xs[1..])
  }

  lemma {:induction false} FileAppend(xs: seq<Exported>, x: Exported)
    ensures File(xs + [x]) == File(xs) + Entry(x)
    decreases |xs|
  {
    hide Entry;
    if xs == [] {
      assert File([x]) == Entry(x) + File([]);
    } else {
      assert (xs + [x])[1..] == xs[1..] + [x];
      FileAppend(xs[1..], x);
      Assoc(Entry(xs[0]), File(xs[1..]), Entry(x));
    }
  }

  /** The messages an export holds: of folders that lock, those with a source. */
  function Sources(messages: seq<Message>): seq<Exported>
    decreases |messages|
  {
    if messages == [] then []
    else
      var m := messages[|messages| - 1];
      Sources(messages[..|messages| - 1]) + (if m.source.Some? then [Exported(m.when, m.source.value)] else [])
  }

  function Contents(folders: seq<Folder>): seq<Exported>
    decreases |folders|
  {
    if folders == [] then []
    else
      var f := folders[|folders| - 1];
      Contents(folders[..|folders| - 1]) + (if f.locks then Sources(f.messages) else [])
  }

  lemma {:induction false} SourcesAppend(a: seq<Message>, b: seq<Message>)
    ensures Sources(a + b) == Sources(a) + Sources(b)
    decreases |b|
  {
    if b == [] {
      assert a + b == a && Sources(a) + [] == Sources(a);
    } else {
      var n := |b| - 1;
      assert (a + b)[..|a + b| - 1] == a + b[..n];
      SourcesAppend(a, b[..n]);
      Assoc(Sources(a), Sources(b[..n]), if b[n].source.Some? then [Exported(b[n].when, b[n].source.value)] else []);
    }
  }

  lemma {:induction false} ContentsAppend(a: seq<Folder>, b: seq<Folder>)
    ensures Contents(a + b) == Contents(a) + Contents(b)
    decreases |b|
  {
    hide Sources;
    if b == [] {
      assert a + b == a && Contents(a) + [] == Contents(a);
    } else {
      var n := |b| - 1;
      assert (a + b)[..|a + b| - 1] == a + b[..n];
      ContentsAppend(a, b[..n]);
      Assoc(Contents(a), Contents(b[..n]), if b[n].locks then Sources(b[n].messages) else []);
    }
  }

  /** Every message with a source is exported in its place, unless its folder cannot be locked; no other is. */
  lemma ExportedInPlace(a: seq<Folder>, f: Folder, b: seq<Folder>, ms: seq<Message>, m: Message, ns: seq<Message>)
    requires f.messages == ms + ([m] + ns)
    ensures Contents(a + ([f] + b)) ==
            if !f.locks then Contents(a) + Contents(b)
            else Contents(a) + (Sources(ms) + ((if m.source.Some? then [Exported(m.when, m.source.value)] else [])
                                               + Sources(ns)) + Contents(b))
    ensures Contents([]) == [] && Sources([]) == []
  {
    ContentsAppend(a, [f] + b);
    ContentsAppend([f], b);
    OneFolder(f);
    OneMessage(m);
    SourcesAppend(ms, [m] + ns);
    SourcesAppend([m], ns);
    hide Contents, Sources;
    assert [] + Contents(b) == Contents(b);
  }

  lemma OneFolder(f: Folder)
    ensures Contents([f]) == (if f.locks then Sources(f.messages) else []) && Contents([]) == []
  {
    assert [f][..0] == [];
    hide Sources;
  }

  lemma OneMessage(m: Message)
    ensures Sources([m]) == (if m.source.Some? then [Exported(m.when, m.source.value)] else []) && Sources([]) == []
  {
    assert [m][..0] == [];
  }

  method BuildMbox(folders: seq<Folder>) returns (buffer: string, count: nat)
    ensures buffer == File(Contents(folders)) && count == |Contents(folders)|
  {
    hide File, Escape;
    buffer, count := "", 0;
    assert File([]) == "" by { EmptyFile(); }
    for i := 0 to |folders|
      invariant buffer == File(Contents(folders[..i])) && count == |Contents(folders[..i])|
    {
      ghost var before := Contents(folders[..i]);
      assert folders[..i + 1][..i] == folders[..i];
      var folder := folders[i];
      assert before + [] == before;
      if !folder.locks { continue; }
      var messages := folder.messages;
      assert before + Sources(messages[..0]) == before;
      for j := 0 to |messages|
        invariant buffer == File(before + Sources(messages[..j])) && count == |before + Sources(messages[..j])|
      {
        ghost var got := before + Sources(messages[..j]);
        assert messages[..j + 1][..j] == messages[..j];
        var m := messages[j];
        assert got + [] == got;
        Assoc(before, Sources(messages[..j]), if m.source.Some? then [Exported(m.when, m.source.value)] else []);
        if m.source.None? { continue; }
        ghost var x := Exported(m.when, m.source.value);
        FileAppend(got, x);
        ThreePieces(buffer, m.when, m.source.value);
        buffer := buffer + (Header(m.when) + "\n");
        buffer := buffer + Escape(m.source.value, true);
        buffer := buffer + "\n";
        count := count + 1;
      }
      assert messages[..|messages|] == messages;
    }
    assert folders[..|folders|] == folders;
  }

  lemma EmptyFile()
    ensures File([]) == ""
  {
  }

  lemma ThreePieces(buffer: string, when: string, source: string)
    ensures buffer + (Header(when) + "\n") + Escape(source, true) + "\n" == buffer + Entry(Exported(when, source))
  {
  }

  // ----- Reading -----

  /** The length of a message's text: up to the next line (after LF) that starts with "From ". */
  function BodyLength(s: string, start: bool): (n: nat)
    ensures n <= |s|
  {
    if s == "" || (start && FROM <= s) then 0 else 1 + BodyLength(s[1..], s[0] == '\n')
  }

  /** Split at "From " lines, drop each message's separator newline, unquote. */
  function Read(file: string): seq<string>
    decreases |file|
  {
    var eol := IndexOf(file, '\n');
    if !(FROM <= file) || eol.None? then []
    else
      var rest := file[eol.value + 1..];
      var n := BodyLength(rest, true);
      [Unescape(rest[..if n > 0 then n - 1 else 0], true, true)] + Read(rest[n..])
  }

  /** A quoted text never shows a "From " line before its end. */
  lemma NotFrom(s: string, rest: string)
    requires rest != "" && rest[0] == '\n'
    ensures !(FROM <= Escape(s, true) + rest)
  {
    if Quotable(s) {
      if s != "" { assert (Escape(s, true) + rest)[0] == '>'; }
    } else {
      PrefixSame(FROM, s, rest);
      assert Escape(s, true) == Escape(s, false);
      assert !(FROM <= s);
    }
  }

  lemma {:induction false} BodyEndsAtEntry(s: string, lf: bool, start: bool, next: string)
    requires lf ==> start
    requires next == "" || FROM <= next
    ensures BodyLength(Escape(s, start) + ("\n" + next), lf) == |Escape(s, start)| + 1
    decreases |s|, start
  {
    var rest := "\n" + next;
    var e := Escape(s, start);
    assert rest[1..] == next;
    if s == "" {
      assert e + rest == rest;
    } else if start && Quotable(s) {
      var inner := Escape(s, false);
      assert e == ">" + inner;
      assert (e + rest)[1..] == inner + rest && (e + rest)[0] == '>';
      BodyEndsAtEntry(s, false, false, next);
    } else {
      var tail := Escape(s[1..], IsBreak(s[0]));
      assert e == [s[0]] + tail;
      assert (e + rest)[1..] == tail + rest && (e + rest)[0] == s[0];
      if lf { NotFrom(s, rest); }
      BodyEndsAtEntry(s[1..], s[0] == '\n', IsBreak(s[0]), next);
    }
  }

  lemma ReadEntry(x: Exported, next: string)
    requires '\n' !in x.when && (next == "" || FROM <= next)
    ensures Read(Entry(x) + next) == [x.source] + Read(next)
  {
    hide Unescape, Escape, BodyLength;
    var header, text := Header(x.when), Escape(x.source, true);
    var rest := text + ("\n" + next);
    var file := Entry(x) + next;
    assert file == header + ['\n'] + rest;
    HeaderShape(x.when);
    hide Header;
    IndexOfAt(header, '\n', rest);
    assert FROM <= file;
    assert file[|header| + 1..] == rest;
    BodyEndsAtEntry(x.source, true, true, next);
    assert rest[..|text|] == text && rest[|text| + 1..] == next;
    UnescapeInvertsEscape(x.source, true);
  }

  lemma HeaderShape(when: string)
    requires '\n' !in when
    ensures Header(when) == "From MAILER-DAEMON " + when && '\n' !in Header(when) && FROM <= Header(when)
  {
  }

  lemma FileShape(xs: seq<Exported>)
    ensures File(xs) == "" || FROM <= File(xs)
  {
  }

  function SourcesOf(xs: seq<Exported>): seq<string> {
    seq(|xs|, i requires 0 <= i < |xs| => xs[i].source)
  }

  lemma {:induction false} ReadFile(xs: seq<Exported>)
    requires forall x :: x in xs ==> '\n' !in x.when
    ensures Read(File(xs)) == SourcesOf(xs)
    decreases |xs|
  {
    if xs == [] {
      assert Read("") == [];
    } else {
      hide Read, Entry;
      var rest := xs[1..];
      assert File(xs) == Entry(xs[0]) + File(rest);
      FileShape(rest);
      hide File;
      assert xs[0] in xs;
      ReadEntry(xs[0], File(rest));
      assert forall x :: x in rest ==> x in xs;
      ReadFile(rest);
      SourcesOfCons(xs);
    }
  }

  lemma SourcesOfCons(xs: seq<Exported>)
    requires xs != []
    ensures SourcesOf(xs) == [xs[0].source] + SourcesOf(xs[1..])
  {
  }

  /** Exporting and reading back gives every exported message, byte for byte, and their count. */
  method ExportRoundTrip(folders: seq<Folder>) returns (buffer: string, count: nat)
    requires forall x :: x in Contents(folders) ==> '\n' !in x.when
    ensures Read(buffer) == SourcesOf(Contents(folders)) && count == |Read(buffer)|
  {
    buffer, count := BuildMbox(folders);
    ReadFile(Contents(folders));
  }
}
