/**
 The zone-file export (apps/api/src/dkim/dns.service.ts) against a reader of the master-file format
 (RFC 1035 section 5.1).
 */
module ZoneFile {
  import opened Text
  import Desec

  // ----- TXT rdata -----

  function EscapeQuotes(c: string): string {
    Subst(c, '"', "\\\"")
  }

  function RdataOf(chunks: seq<string>): string
    requires chunks != []
    decreases |chunks|
  {
    "\"" + EscapeQuotes(chunks[0]) + "\"" + if |chunks| == 1 then "" else " " + RdataOf(chunks[1..])
  }

  /** txtRdata */
  function TxtRdata(content: string): string {
    RdataOf(Desec.Chunks(content))
  }

  predicate IsBlank(c: char) {
    c == ' ' || c == '\t'
  }

  function Push(c: char, r: Option<string>): Option<string> {
    if r.Some? then Some([c] + r.value) else None
  }

  function Value(a: char, b: char, c: char): nat
    requires IsDigit(a) && IsDigit(b) && IsDigit(c)
  {
    100 * (a - '0') as nat + 10 * (b - '0') as nat + (c - '0') as nat
  }

  /** The text of a sequence of quoted strings, joined: from outside a string, or from inside one. */
  function ReadStrings(s: string, inside: bool): Option<string> {
    if s == "" then (if inside then None else Some(""))
    else if !inside then
      if IsBlank(s[0]) then ReadStrings(s[1..], false)
      else if s[0] == '"' then ReadStrings(s[1..], true)
      else None
    else if s[0] == '"' then ReadStrings(s[1..], false)
    else if s[0] != '\\' then Push(s[0], ReadStrings(s[1..], true))
    else if |s| == 1 then None
    else if !IsDigit(s[1]) then Push(s[1], ReadStrings(s[2..], true))
    else if |s| < 4 || !IsDigit(s[2]) || !IsDigit(s[3]) || Value(s[1], s[2], s[3]) > 255 then None
    else Push(Value(s[1], s[2], s[3]) as char, ReadStrings(s[4..], true))
  }

  /** What follows a chunk's closing quote. */
  function Rest(more: seq<string>): string {
    if more == [] then "" else " " + RdataOf(more)
  }

  /** The rest of a chunk, its closing quote, and the chunks after it. */
  function Tail(t: string, more: seq<string>): string {
    EscapeQuotes(t) + ("\"" + Rest(more))
  }

  lemma TailStep(t: string, more: seq<string>)
    requires t != ""
    ensures t[0] == '"' ==> Tail(t, more) == "\\\"" + Tail(t[1..], more)
    ensures t[0] != '"' ==> Tail(t, more) == [t[0]] + Tail(t[1..], more)
  {
    Assoc(if t[0] == '"' then "\\\"" else [t[0]], EscapeQuotes(t[1..]), "\"" + Rest(more));
  }

  lemma TailEnd(more: seq<string>)
    ensures Tail("", more) == "\"" + Rest(more)
  {
  }

  lemma RestOpens(more: seq<string>)
    requires more != []
    ensures Rest(more) == " \"" + Tail(more[0], more[1..])
  {
  }

  /** Out of step by one quote, nothing reads. */
  lemma {:induction false} OutOfStep(t: string, more: seq<string>)
    ensures ReadStrings(Tail(t, more), false) == None
    decreases |more|, |t|, 1
  {
    var s := Tail(t, more);
    if t != "" {
      TailStep(t, more);
      hide Tail;
      if t[0] != '"' {
        assert s[1..] == Tail(t[1..], more);
        OutOfStep(t[1..], more);
      }
    } else {
      assert s == "\"" + Rest(more);
      assert s[1..] == Rest(more);
      InsideRest(more);
    }
  }

  lemma {:induction false} InsideRest(more: seq<string>)
    ensures ReadStrings(Rest(more), true) == None
    decreases |more|, 0, 0
  {
    if more != [] {
      RestOpens(more);
      ClosesAfterBlank(Tail(more[0], more[1..]));
      hide ReadStrings, Rest, Tail;
      OutOfStep(more[0], more[1..]);
    }
  }

  lemma ClosesAfterBlank(next: string)
    ensures ReadStrings(" \"" + next, true) == Push(' ', ReadStrings(next, false))
    ensures ReadStrings("\"" + (" \"" + next), true) == ReadStrings(next, true)
  {
    var r := " \"" + next;
    var q := "\"" + next;
    assert r[0] == ' ' && r[1..] == q && q[0] == '"' && q[1..] == next;
    assert ReadStrings(q, false) == ReadStrings(next, true);
    assert ReadStrings(r, false) == ReadStrings(q, false);
    assert ("\"" + r)[1..] == r;
  }

  function All(t: string, more: seq<string>): string {
    t + Desec.Concat(more)
  }

  predicate NoBackslash(t: string, more: seq<string>) {
    '\\' !in t && forall c :: c in more ==> '\\' !in c
  }

  /** Reading on from inside a chunk: the text itself without backslashes; otherwise nothing, or something shorter. */
  lemma {:induction false} ReadsTail(t: string, more: seq<string>)
    ensures var r := ReadStrings(Tail(t, more), true);
            if NoBackslash(t, more) then r == Some(All(t, more))
            else r.None? || |r.value| < |All(t, more)|
    decreases |more|, |t|, 1
  {
    if t == "" {
      if more == [] {
        TailEnd(more);
        assert All("", []) == "";
      } else {
        NextChunk(more);
        hide ReadStrings, Rest, Tail, NoBackslash, All;
        ReadsTail(more[0], more[1..]);
      }
    } else if t[0] != '\\' {
      PlainStep(t, more);
      hide ReadStrings, Rest, Tail, NoBackslash, All;
      ReadsTail(t[1..], more);
    } else {
      BackslashStep(t, more);
    }
  }

  lemma NextChunk(more: seq<string>)
    requires more != []
    ensures ReadStrings(Tail("", more), true) == ReadStrings(Tail(more[0], more[1..]), true)
    ensures All("", more) == All(more[0], more[1..])
    ensures NoBackslash("", more) <==> NoBackslash(more[0], more[1..])
  {
    TailEnd(more);
    RestOpens(more);
    ClosesAfterBlank(Tail(more[0], more[1..]));
    SplitMore(more);
    hide ReadStrings, Rest, Tail, NoBackslash;
  }

  lemma SplitMore(more: seq<string>)
    requires more != []
    ensures NoBackslash("", more) <==> NoBackslash(more[0], more[1..])
  {
  }

  lemma PlainStep(t: string, more: seq<string>)
    requires t != "" && t[0] != '\\'
    ensures ReadStrings(Tail(t, more), true) == Push(t[0], ReadStrings(Tail(t[1..], more), true))
    ensures NoBackslash(t, more) <==> NoBackslash(t[1..], more)
    ensures All(t, more) == [t[0]] + All(t[1..], more)
  {
    var s := Tail(t, more);
    TailStep(t, more);
    HeadBackslash(t);
    Assoc([t[0]], t[1..], Desec.Concat(more));
    assert t == [t[0]] + t[1..];
    hide Tail, ReadStrings, IsDigit;
    if t[0] == '"' {
      assert !IsDigit('"') by { QuoteIsNoDigit(); }
      assert s[2..] == Tail(t[1..], more);
      EscapeAt(s);
    } else {
      assert s[1..] == Tail(t[1..], more);
      PlainAt(s);
    }
  }

  lemma HeadBackslash(t: string)
    requires t != "" && t[0] != '\\'
    ensures '\\' in t <==> '\\' in t[1..]
  {
  }

  lemma QuoteIsNoDigit()
    ensures !IsDigit('"')
  {
  }

  lemma PlainAt(s: string)
    requires s != "" && s[0] != '"' && s[0] != '\\'
    ensures ReadStrings(s, true) == Push(s[0], ReadStrings(s[1..], true))
  {
  }

  lemma EscapeAt(s: string)
    requires |s| >= 2 && s[0] == '\\' && !IsDigit(s[1])
    ensures ReadStrings(s, true) == Push(s[1], ReadStrings(s[2..], true))
  {
  }

  /** An escape pair in front of more text. */
  lemma EscapePair(c: char, rest: string)
    requires !IsDigit(c)
    ensures ReadStrings(['\\'] + ([c] + rest), true) == Push(c, ReadStrings(rest, true))
  {
    hide ReadStrings;
    var tail := [c] + rest;
    var s := ['\\'] + tail;
    assert s[1] == tail[0] && s[2..] == tail[1..] == rest;
    EscapeAt(s);
  }

  lemma BackslashEnds(more: seq<string>)
    ensures ReadStrings(Tail("\\", more), true) == None
  {
    TailStep("\\", more);
    TailEnd(more);
    InsideRest(more);
    hide Tail, Rest, ReadStrings;
    QuoteIsNoDigit();
    EscapePair('"', Rest(more));
    assert "\\"[1..] == "";
  }

  lemma BackslashQuote(t: string, more: seq<string>)
    requires |t| >= 2 && t[0] == '\\' && t[1] == '"'
    ensures ReadStrings(Tail(t, more), true) == None
  {
    TailStep(t, more);
    TailStep(t[1..], more);
    assert t[1..][1..] == t[2..];
    OutOfStep(t[2..], more);
    hide Tail, Rest, ReadStrings;
    Opens(Tail(t[2..], more));
    EscapePair('\\', "\"" + Tail(t[2..], more));
  }

  lemma Opens(rest: string)
    ensures ReadStrings("\"" + rest, true) == ReadStrings(rest, false)
    ensures "\\\"" + rest == ['\\'] + ("\"" + rest)
  {
  }

  lemma BackslashPlain(t: string, more: seq<string>)
    requires |t| >= 2 && t[0] == '\\' && t[1] != '"' && !IsDigit(t[1])
    ensures ReadStrings(Tail(t, more), true) == Push(t[1], ReadStrings(Tail(t[2..], more), true))
  {
    var s := Tail(t, more);
    TailStep(t, more);
    assert t[1..][1..] == t[2..];
    TailStep(t[1..], more);
    hide Tail, Rest, ReadStrings;
    assert s[2..] == Tail(t[2..], more);
    EscapeAt(s);
  }

  lemma BackslashDigit(t: string, more: seq<string>)
    requires |t| >= 2 && t[0] == '\\' && IsDigit(t[1]) && ReadStrings(Tail(t, more), true).Some?
    ensures |t| >= 4
    ensures exists c :: ReadStrings(Tail(t, more), true) == Push(c, ReadStrings(Tail(t[4..], more), true))
  {
    var s := Tail(t, more);
    TailStep(t, more);
    TailStep(t[1..], more);
    assert s[1] == t[1];
    DigitsOfContent(t, more);
  }

  /** A backslash swallows what follows it, or the closing quote. */
  lemma {:induction false} BackslashStep(t: string, more: seq<string>)
    requires t != "" && t[0] == '\\'
    ensures var r := ReadStrings(Tail(t, more), true); r.None? || |r.value| < |All(t, more)|
    decreases |more|, |t|, 0
  {
    hide ReadStrings, Tail, NoBackslash;
    if |t| == 1 {
      assert t == "\\";
      BackslashEnds(more);
    } else if t[1] == '"' {
      BackslashQuote(t, more);
    } else if !IsDigit(t[1]) {
      BackslashPlain(t, more);
      Shorter(t[2..], more);
    } else if ReadStrings(Tail(t, more), true).Some? {
      BackslashDigit(t, more);
      Shorter(t[4..], more);
    }
  }

  lemma Shorter(u: string, more: seq<string>)
    ensures ReadStrings(Tail(u, more), true).Some? ==> |ReadStrings(Tail(u, more), true).value| <= |All(u, more)|
    decreases |more|, |u|, 2
  {
    ReadsTail(u, more);
  }

  /** Digits after a backslash can only be the content's own. */
  lemma DigitsOfContent(t: string, more: seq<string>)
    requires |t| >= 2 && t[0] == '\\' && IsDigit(t[1])
    requires var s := Tail(t, more); |s| >= 4 && IsDigit(s[2]) && IsDigit(s[3])
    ensures |t| >= 4 && Tail(t, more)[4..] == Tail(t[4..], more)
  {
    var s := Tail(t, more);
    TailStep(t, more);
    TailStep(t[1..], more);
    assert s == [t[0]] + ([t[1]] + Tail(t[2..], more));
    assert s[2..] == Tail(t[2..], more);
    if |t| > 2 {
      TailStep(t[2..], more);
      assert s[3..] == s[2..][1..];
      assert t[2..][1..] == t[3..];
      if |t| > 3 {
        TailStep(t[3..], more);
        assert t[3..][1..] == t[4..];
        assert s[4..] == s[3..][1..];
      }
    }
  }

  /** A zone reader gets the content back exactly when it holds no backslash: quotes are escaped, backslashes are not. */
  lemma TxtReadsIff(content: string)
    ensures ReadStrings(TxtRdata(content), false) == Some(content) <==> '\\' !in content
  {
    var chunks := Desec.Chunks(content);
    Desec.ChunksCut(content);
    RestOpens(chunks);
    var s := TxtRdata(content);
    assert Rest(chunks)[1..] == s;
    assert s[1..] == Tail(chunks[0], chunks[1..]);
    ReadsTail(chunks[0], chunks[1..]);
    assert All(chunks[0], chunks[1..]) == content;
    SplitMore(chunks);
    BackslashIn(chunks);
  }

  /** The shortest value that does not survive. */
  lemma BackslashIsLost()
    ensures ReadStrings(TxtRdata("\\"), false) != Some("\\")
  {
    assert "\\"[0] == '\\';
    TxtReadsIff("\\");
  }

  lemma {:induction false} BackslashIn(chunks: seq<string>)
    ensures NoBackslash("", chunks) <==> '\\' !in Desec.Concat(chunks)
    decreases |chunks|
  {
    if chunks != [] {
      BackslashIn(chunks[1..]);
      SplitMore(chunks);
    }
  }

  // ----- The file -----

  datatype ZoneRecord = ZoneRecord(kind: string, name: string, content: string, ttl: nat, priority: Option<nat>)

  function Fqdn(name: string): string {
    if name != "" && name[|name| - 1] == '.' then name else name + "."
  }

  function Rdata(r: ZoneRecord): string {
    if r.kind == "TXT" then TxtRdata(r.content)
    else if r.kind == "MX" then
      Decimal(if r.priority.Some? then r.priority.value else 10) + " " + Fqdn(r.content)
    else if r.kind == "CNAME" then Fqdn(r.content)
    else r.content
  }

  function Tabbed(a: string, b: string): string {
    a + ['\t'] + b
  }

  function RecordLine(r: ZoneRecord): string {
    Tabbed(Fqdn(r.name), Tabbed(Decimal(r.ttl), Tabbed("IN", Tabbed(r.kind, Rdata(r)))))
  }

  /** The second and third comment lines, in pieces the solver can hold. */
  function ImportNote(): string {
    "; Import into any " + "authoritative DNS " + "server (BIND, " + "PowerDNS, Knot, " + "NSD, Technitium, " + "dnsmasq)."
  }

  function OwnersNote(): string {
    "; Owner names are " + "fully qualified. " + "After the zone " + "reloads, click " + "\"Recheck\" to " + "verify."
  }

  function Banner(domain: string): seq<string> {
    ["; JustMail DNS " + "records for " + domain, ImportNote(), OwnersNote(), ""]
  }

  function RecordLines(rs: seq<ZoneRecord>): seq<string> {
    seq(|rs|, i requires 0 <= i < |rs| => RecordLine(rs[i]))
  }

  function ZoneText(domain: string, rs: seq<ZoneRecord>): string {
    Join(Banner(domain) + RecordLines(rs), "\n") + "\n"
  }

  /** toZoneFile */
  method ToZoneFile(domain: string, records: seq<ZoneRecord>) returns (text: string)
    ensures text == ZoneText(domain, records)
  {
    hide Tabbed, Banner, Rdata, Fqdn;
    var lines := Banner(domain);
    for i := 0 to |records|
      invariant lines == Banner(domain) + RecordLines(records[..i])
    {
      var r := records[i];
      assert records[..i + 1] == records[..i] + [r];
      assert RecordLines(records[..i + 1]) == RecordLines(records[..i]) + [RecordLine(r)];
      var rdata := Rdata(r);
      lines := lines + [Tabbed(Fqdn(r.name), Tabbed(Decimal(r.ttl), Tabbed("IN", Tabbed(r.kind, rdata))))];
    }
    assert records[..|records|] == records;
    text := Join(lines, "\n") + "\n";
  }

  // ----- Reading it -----

  datatype Entry = Entry(owner: string, ttl: string, class_: string, kind: string, rdata: string)

  /** A field, and what follows its tab. */
  function TakeField(line: string): Option<(string, string)> {
    var i := IndexOf(line, '\t');
    if i.None? then None else Some((line[..i.value], line[i.value + 1..]))
  }

  /** Four tab-separated fields and the rest of the line. */
  function ReadRecord(line: string): Option<Entry> {
    var a := TakeField(line);
    if a.None? then None
    else
      var b := TakeField(a.value.1);
      if b.None? then None
      else
        var c := TakeField(b.value.1);
        if c.None? then None
        else
          var d := TakeField(c.value.1);
          if d.None? then None else Some(Entry(a.value.0, b.value.0, c.value.0, d.value.0, d.value.1))
  }

  /** The entries of a file's lines; blank lines and comments are skipped. */
  function ReadLines(lines: seq<string>): Option<seq<Entry>>
    decreases |lines|
  {
    if lines == [] then Some([])
    else
      var rest := ReadLines(lines[1..]);
      if lines[0] == "" || lines[0][0] == ';' then rest
      else
        var e := ReadRecord(lines[0]);
        if e.None? || rest.None? then None else Some([e.value] + rest.value)
  }

  function ReadZone(text: string): Option<seq<Entry>> {
    ReadLines(Split(text, '\n'))
  }

  /** Fields that cannot break the line format: no tab or line break, and no comment as owner. */
  predicate Plain(r: ZoneRecord) {
    && (forall c :: c in r.name || c in r.kind ==> c != '\t' && c != '\n')
    && '\n' !in r.content && (r.name != "" ==> r.name[0] != ';')
  }

  function EntryOf(r: ZoneRecord): Entry {
    Entry(Fqdn(r.name), Decimal(r.ttl), "IN", r.kind, Rdata(r))
  }

  function EntriesOf(rs: seq<ZoneRecord>): seq<Entry> {
    seq(|rs|, i requires 0 <= i < |rs| => EntryOf(rs[i]))
  }

  lemma TakesField(a: string, b: string)
    requires '\t' !in a
    ensures TakeField(Tabbed(a, b)) == Some((a, b))
  {
    IndexOfAt(a, '\t', b);
    hide IndexOf;
    var line := a + ['\t'] + b;
    assert line[..|a|] == a && line[|a| + 1..] == b;
  }

  lemma RecordReads(r: ZoneRecord)
    requires Plain(r)
    ensures ReadRecord(RecordLine(r)) == Some(EntryOf(r))
  {
    hide Rdata, Decimal, Tabbed, TakeField;
    DecimalHasNo(r.ttl, '\t');
    assert '\t' !in Fqdn(r.name) && '\t' !in "IN";
    hide Fqdn;
    var l3 := Tabbed(r.kind, Rdata(r));
    var l2 := Tabbed("IN", l3);
    var l1 := Tabbed(Decimal(r.ttl), l2);
    TakesField(r.kind, Rdata(r));
    TakesField("IN", l3);
    TakesField(Decimal(r.ttl), l2);
    TakesField(Fqdn(r.name), l1);
  }

  lemma DecimalHasNo(n: nat, c: char)
    requires !IsDigit(c)
    ensures c !in Decimal(n)
  {
  }

  lemma {:induction false} QuotedHasNoBreak(chunks: seq<string>)
    requires chunks != [] && forall c :: c in chunks ==> '\n' !in c
    ensures '\n' !in RdataOf(chunks)
    decreases |chunks|
  {
    SubstChars(chunks[0], '"', "\\\"");
    assert chunks[0] in chunks;
    if |chunks| > 1 {
      assert forall c :: c in chunks[1..] ==> c in chunks;
      QuotedHasNoBreak(chunks[1..]);
    }
  }

  lemma RecordIsOneLine(r: ZoneRecord)
    requires Plain(r)
    ensures '\n' !in RecordLine(r) && RecordLine(r) != "" && RecordLine(r)[0] != ';'
  {
    hide Decimal, RdataOf;
    DecimalHasNo(r.ttl, '\n');
    assert '\n' !in Rdata(r) by {
      Desec.ChunksCut(r.content);
      var chunks := Desec.Chunks(r.content);
      forall c | c in chunks ensures '\n' !in c { assert forall x :: x in c ==> x in r.content; }
      QuotedHasNoBreak(chunks);
      DecimalHasNo(if r.priority.Some? then r.priority.value else 10, '\n');
    }
    hide Rdata;
    assert '\n' !in "IN";
    assert '\n' !in Tabbed(r.kind, Rdata(r));
    assert '\n' !in Tabbed("IN", Tabbed(r.kind, Rdata(r)));
    assert '\n' !in Tabbed(Decimal(r.ttl), Tabbed("IN", Tabbed(r.kind, Rdata(r))));
    assert '\n' !in Fqdn(r.name) && Fqdn(r.name) != "" && Fqdn(r.name)[0] != ';';
  }

  lemma {:induction false} SplitJoin(lines: seq<string>)
    requires lines != [] && forall i :: 0 <= i < |lines| ==> '\n' !in lines[i]
    ensures Split(Join(lines, "\n") + "\n", '\n') == lines + [""]
    decreases |lines|
  {
    if |lines| == 1 {
      SplitAt(lines[0], '\n', "");
      assert lines[0] + ['\n'] + "" == lines[0] + "\n";
      assert lines == [lines[0]];
    } else {
      var rest := Join(lines[1..], "\n") + "\n";
      assert Join(lines, "\n") + "\n" == lines[0] + ['\n'] + rest;
      SplitAt(lines[0], '\n', rest);
      SplitJoin(lines[1..]);
      assert lines + [""] == [lines[0]] + (lines[1..] + [""]);
    }
  }

  lemma {:induction false} RecordsRead(rs: seq<ZoneRecord>)
    requires forall r :: r in rs ==> Plain(r)
    ensures ReadLines(RecordLines(rs) + [""]) == Some(EntriesOf(rs))
    decreases |rs|
  {
    hide RecordLine, ReadRecord, EntryOf, Plain;
    var lines := RecordLines(rs) + [""];
    if rs == [] {
      assert lines == [""] && lines[1..] == [];
    } else {
      assert lines[1..] == RecordLines(rs[1..]) + [""];
      assert rs[0] in rs && forall r :: r in rs[1..] ==> r in rs;
      RecordReads(rs[0]);
      RecordIsOneLine(rs[0]);
      RecordsRead(rs[1..]);
      assert EntriesOf(rs) == [EntryOf(rs[0])] + EntriesOf(rs[1..]);
    }
  }

  /** The exported file reads back as exactly its records' lines, in order. */
  lemma ZoneEntries(domain: string, rs: seq<ZoneRecord>)
    requires '\n' !in domain && forall r :: r in rs ==> Plain(r)
    ensures ReadZone(ZoneText(domain, rs)) == Some(EntriesOf(rs))
  {
    var banner, lines := Banner(domain), RecordLines(rs);
    BannerLines(domain);
    forall i | 0 <= i < |lines| ensures '\n' !in lines[i] {
      assert rs[i] in rs;
      RecordIsOneLine(rs[i]);
    }
    assert forall i :: 0 <= i < |banner| ==> '\n' !in banner[i] && (banner[i] == "" || banner[i][0] == ';');
    hide *;
    assert forall i :: 0 <= i < |banner + lines| ==>
      (banner + lines)[i] == if i < |banner| then banner[i] else lines[i - |banner|];
    ZoneTextIs(domain, rs);
    SplitJoin(banner + lines);
    Assoc(banner, lines, [""]);
    RecordsRead(rs);
    SkipsComments(banner, lines + [""]);
  }

  /** What a record says, read off its entry: TXT strings decoded, other types as they stand. */
  function Content(e: Entry): Option<string> {
    if e.kind == "TXT" then ReadStrings(e.rdata, false) else Some(e.rdata)
  }

  /**
   The exported file reads back as exactly its records, in order: owner, type and lifetime of each; a TXT content
   if and only if it holds no backslash; mail hosts and aliases fully qualified.
   */
  lemma ZoneReads(domain: string, rs: seq<ZoneRecord>)
    requires '\n' !in domain && forall r :: r in rs ==> Plain(r)
    ensures var es := ReadZone(ZoneText(domain, rs));
            && es.Some? && |es.value| == |rs|
            && forall i :: 0 <= i < |rs| ==>
                 var r, e := rs[i], es.value[i];
                 && e.owner == (if r.name != "" && r.name[|r.name| - 1] == '.' then r.name else r.name + ".")
                 && e.kind == r.kind && Number(e.ttl) == r.ttl
                 && (r.kind == "TXT" ==> (Content(e) == Some(r.content) <==> '\\' !in r.content))
                 && var host := if r.content != "" && r.content[|r.content| - 1] == '.' then r.content else r.content + ".";
                 && (r.kind == "MX" ==>
                       e.rdata == Decimal(if r.priority.Some? then r.priority.value else 10) + " " + host)
                 && (r.kind == "CNAME" ==> Content(e) == Some(host))
                 && (r.kind !in ["TXT", "MX", "CNAME"] ==> Content(e) == Some(r.content))
  {
    ZoneEntries(domain, rs);
    hide Decimal, Number, ReadStrings, TxtRdata, ReadZone, ZoneText, Plain;
    forall i | 0 <= i < |rs|
      ensures Number(Decimal(rs[i].ttl)) == rs[i].ttl
      ensures ReadStrings(TxtRdata(rs[i].content), false) == Some(rs[i].content) <==> '\\' !in rs[i].content
    {
      NumberOfDecimal(rs[i].ttl);
      TxtReadsIff(rs[i].content);
    }
  }

  lemma ZoneTextIs(domain: string, rs: seq<ZoneRecord>)
    ensures ReadZone(ZoneText(domain, rs)) ==
            ReadLines(Split(Join(Banner(domain) + RecordLines(rs), "\n") + "\n", '\n'))
  {
  }

  predicate CommentLine(s: string) {
    '\n' !in s && (s == "" || s[0] == ';')
  }

  lemma LongerComment(a: string, b: string)
    requires CommentLine(a) && a != "" && '\n' !in b
    ensures CommentLine(a + b) && a + b != ""
  {
  }

  lemma BannerLines(domain: string)
    requires '\n' !in domain
    ensures forall i :: 0 <= i < |Banner(domain)| ==> CommentLine(Banner(domain)[i])
    ensures Banner(domain) != []
  {
    ImportIsComment();
    OwnersIsComment();
    var lead := "; JustMail DNS ";
    assert '\n' !in "records for " && CommentLine(lead);
    hide ImportNote, OwnersNote, CommentLine;
    LongerComment(lead, "records for ");
    LongerComment(lead + "records for ", domain);
    assert CommentLine("") by { EmptyIsComment(); }
  }

  lemma EmptyIsComment()
    ensures CommentLine("")
  {
  }

  lemma ImportIsComment()
    ensures CommentLine(ImportNote())
  {
    assert CommentLine("; Import into any ") && '\n' !in "authoritative DNS " && '\n' !in "server (BIND, ";
    assert '\n' !in "PowerDNS, Knot, " && '\n' !in "NSD, Technitium, " && '\n' !in "dnsmasq).";
    hide CommentLine;
    LongerComment("; Import into any ", "authoritative DNS ");
    LongerComment("; Import into any " + "authoritative DNS ", "server (BIND, ");
    LongerComment("; Import into any " + "authoritative DNS " + "server (BIND, ", "PowerDNS, Knot, ");
    LongerComment("; Import into any " + "authoritative DNS " + "server (BIND, " + "PowerDNS, Knot, ", "NSD, Technitium, ");
    LongerComment("; Import into any " + "authoritative DNS " + "server (BIND, " + "PowerDNS, Knot, " + "NSD, Technitium, ",
                  "dnsmasq).");
  }

  lemma OwnersIsComment()
    ensures CommentLine(OwnersNote())
  {
    assert CommentLine("; Owner names are ") && '\n' !in "fully qualified. " && '\n' !in "After the zone ";
    assert '\n' !in "reloads, click " && '\n' !in "\"Recheck\" to " && '\n' !in "verify.";
    hide CommentLine;
    LongerComment("; Owner names are ", "fully qualified. ");
    LongerComment("; Owner names are " + "fully qualified. ", "After the zone ");
    LongerComment("; Owner names are " + "fully qualified. " + "After the zone ", "reloads, click ");
    LongerComment("; Owner names are " + "fully qualified. " + "After the zone " + "reloads, click ", "\"Recheck\" to ");
    LongerComment("; Owner names are " + "fully qualified. " + "After the zone " + "reloads, click " + "\"Recheck\" to ",
                  "verify.");
  }

  lemma {:induction false} SkipsComments(comments: seq<string>, more: seq<string>)
    requires forall i :: 0 <= i < |comments| ==> comments[i] == "" || comments[i][0] == ';'
    ensures ReadLines(comments + more) == ReadLines(more)
    decreases |comments|
  {
    if comments == [] {
      assert comments + more == more;
    } else {
      assert (comments + more)[1..] == comments[1..] + more;
      SkipsComments(comments[1..], more);
    }
  }
}
