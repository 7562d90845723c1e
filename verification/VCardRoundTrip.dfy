/**
 Which cards survive being written and read back: exactly the canonical ones.
 */
module VCardRoundTrip {
  import opened Text
  import opened LineCodec
  import opened VCard

  // ----- The condition -----

  predicate CanonicalLabel(l: string) {
    && l != "" && Trimmed(l) && OneLine(l) && ToLower(l) == l
    && '"' !in l && ';' !in l && ':' !in l && ',' !in l
  }

  predicate CanonicalEntry(e: Entry) {
    && e.value != "" && Trimmed(e.value) && '\r' !in e.value
    && (e.tag.Some? ==> CanonicalLabel(e.tag.value))
  }

  predicate Canonical(c: Card) {
    && c.uid != "" && !(|c.uid| >= 9 && ToLower(c.uid[..9]) == "urn:uuid:") && '\r' !in c.uid
    && '\r' !in c.fullName
    && (forall i :: 0 <= i < |c.emails| ==> CanonicalEntry(c.emails[i]))
    && (forall i :: 0 <= i < |c.phones| ==> CanonicalEntry(c.phones[i]))
    && (c.organization.Some? ==>
          c.organization.value != "" && Trimmed(c.organization.value) && '\r' !in c.organization.value)
    && (c.note.Some? ==> c.note.value != "" && '\r' !in c.note.value)
  }

  // ----- What one written property line reads as -----

  lemma {:induction false} ColonAfter(head: string, value: string)
    requires ':' !in head && '"' !in head
    ensures ColonAt(head + ":" + value, false) == Some(|head|)
  {
    if head != "" {
      ColonAfter(head[1..], value);
      assert (head + ":" + value)[1..] == head[1..] + ":" + value;
    }
  }

  lemma PropertyRead(head: string, value: string)
    requires ':' !in head && '"' !in head
    ensures var segs := SplitUnescaped(head, ';');
            ParseProperty(Line(head, value)) == Some(Property(ToUpper(segs[0]), AddParams(map[], segs[1..]), value))
  {
    ColonAfter(head, value);
    var line := head + ":" + value;
    assert line[..|head|] == head && line[|head| + 1..] == value;
  }

  lemma PlainRead(n: string, value: string)
    requires Name(n)
    ensures ParseProperty(Line(n, value)) == Some(Property(n, map[], value))
  {
    hide ParseProperty, SplitUnescaped;
    PropertyRead(n, value);
    OnePart(n, ';');
    assert ToUpper(n) == n;
    assert [n][1..] == [];
  }

  lemma {:induction false} SplitPlain(a: string, r: string)
    requires '\\' !in a && ';' !in a
    ensures SplitUnescaped(a + ";" + r, ';') == [a] + SplitUnescaped(r, ';')
  {
    var s := a + ";" + r;
    if a == "" {
      assert s[1..] == r;
    } else {
      SplitPlain(a[1..], r);
      assert s[1..] == a[1..] + ";" + r && s[..1] == a[..1];
      assert a[..1] + a[1..] == a;
    }
  }

  /** `NAME;TYPE=label:value` carries the label back as its one TYPE value. */
  lemma TypedRead(n: string, l: string, value: string)
    requires Name(n) && '"' !in l && ';' !in l && ':' !in l && ',' !in l
    ensures ParseProperty(Line(n + (";" + ("TYPE=" + l)), value)) == Some(Property(n, map["TYPE" := [l]], value))
  {
    hide ParseProperty, SplitUnescaped, AddParam, Line;
    var seg := "TYPE=" + l;
    var head := n + (";" + seg);
    PropertyRead(head, value);
    Assoc(n, ";", seg);
    SplitPlain(n, seg);
    OnePart(seg, ';');
    assert ToUpper(n) == n;
    TypeParam(l);
    assert [n, seg][1..] == [seg] && [seg][1..] == [];
    assert AddParams(map[], [seg]) == AddParam(map[], seg);
  }

  lemma TypeParam(l: string)
    requires '"' !in l && ',' !in l
    ensures AddParam(map[], "TYPE=" + l) == map["TYPE" := [l]]
  {
    hide Split, Subst, IndexOf;
    var seg, name := "TYPE=" + l, "TYPE";
    assert "TYPE=" == name + ['='];
    IndexOfAt(name, '=', l);
    assert seg[..4] == name && seg[5..] == l && ToUpper(name) == name;
    SplitWhole(l, ',');
    SubstChars(l, '"', "");
    assert DropAllQuotes([l]) == [l];
    assert [] + [l] == [l];
  }

  // ----- Labels -----

  /** The written label has no character a bare parameter cannot hold, and no new ones. */
  lemma BareLabelFacts(v: string)
    ensures var b := BareLabel(v);
            && Trimmed(b) && '"' !in b && ';' !in b && ':' !in b && ',' !in b && (OneLine(v) ==> OneLine(b))
    ensures Trimmed(v) && '"' !in v && ';' !in v && ':' !in v && ',' !in v ==> BareLabel(v) == v
  {
    var a := Subst(v, '"', "");
    var b := Subst(a, ';', "");
    var c := Subst(b, ':', "");
    SubstChars(v, '"', "");
    SubstChars(a, ';', "");
    SubstChars(b, ':', "");
    SubstChars(c, ',', "");
    TrimFacts(Subst(c, ',', ""));
    TrimFacts(v);
  }

  lemma LowerFacts(s: string)
    ensures ToLower(ToLower(s)) == ToLower(s)
    ensures Trimmed(s) ==> Trimmed(ToLower(s))
    ensures forall c :: !('a' <= c <= 'z') && c in ToLower(s) ==> c in s
  {
  }

  // ----- What survives -----

  /** The label read back for a written one. */
  function ReadLabel(tag: Option<string>): Option<string> {
    if tag.Some? && tag.value != "" then Some(ToLower(BareLabel(tag.value))) else None
  }

  function ReadEntry(es: seq<Entry>, e: Entry): seq<Entry> {
    if Trim(e.value) == "" then es else es + [Entry(Trim(e.value), ReadLabel(e.tag))]
  }

  function ReadEntries(acc: seq<Entry>, es: seq<Entry>): seq<Entry>
    decreases |es|
  {
    if es == [] then acc else ReadEntries(ReadEntry(acc, es[0]), es[1..])
  }

  /** The card read back from a written one. */
  function Normal(c: Card): Option<Card> {
    var org := if c.organization.Some? then NonEmpty(Trim(c.organization.value)) else None;
    var note := if c.note.Some? then NonEmpty(c.note.value) else None;
    if StripUrn(c.uid) == "" then None
    else Some(Card(StripUrn(c.uid), c.fullName, ReadEntries([], c.emails), ReadEntries([], c.phones), org, note))
  }

  /** Every written line stays one line. */
  predicate WritableEntry(e: Entry) {
    '\r' !in e.value && (e.tag.Some? ==> OneLine(BareLabel(e.tag.value)))
  }

  predicate Writable(c: Card) {
    && '\r' !in c.uid && '\r' !in c.fullName
    && (forall i :: 0 <= i < |c.emails| ==> WritableEntry(c.emails[i]))
    && (forall i :: 0 <= i < |c.phones| ==> WritableEntry(c.phones[i]))
    && (c.organization.Some? ==> '\r' !in c.organization.value)
    && (c.note.Some? ==> '\r' !in c.note.value)
  }

  // ----- Reading the written lines in order -----

  lemma {:induction false} ReadLinesAppend(st: Reading, a: seq<string>, b: seq<string>)
    ensures ReadLines(st, a + b) == ReadLines(ReadLines(st, a), b)
    decreases |a|
  {
    if a == [] {
      assert a + b == b;
    } else {
      ReadLinesAppend(ReadLine(st, a[0]), a[1..], b);
      assert (a + b)[1..] == a[1..] + b;
    }
  }

  lemma ReadLinesOne(st: Reading, line: string)
    ensures ReadLines(st, [line]) == ReadLine(st, line)
  {
  }

  lemma PlainLine(st: Reading, n: string, value: string)
    requires Name(n)
    ensures ReadLine(st, Line(n, value)) == ReadProperty(st, Property(n, map[], value))
  {
    hide ParseProperty, ReadProperty;
    PlainRead(n, value);
  }

  lemma ValueReads(v: string)
    ensures Unescape(EscapeValue(v)) == v
    ensures SplitUnescaped(EscapeValue(v), ';') == [EscapeValue(v)]
    ensures SplitUnescaped(EscapeValue(v) + ";" + ";;;", ';') == [EscapeValue(v)] + SplitUnescaped(";;;", ';')
  {
    hide Unescape, SplitUnescaped, EscapeValue;
    EscapesAgree(v);
    UnescapeInverts(v);
    EscapedIsOnePart(v, ";;;");
  }

  predicate EntryName(n: string) {
    n == "EMAIL" || n == "TEL"
  }

  lemma PreferredOne(l: string)
    ensures Preferred([l], l) == l
  {
  }

  /** The reading after one more entry of either kind. */
  function WithEntry(st: Reading, n: string, e: Entry): Reading {
    if n == "EMAIL" then st.(emails := ReadEntry(st.emails, e)) else st.(phones := ReadEntry(st.phones, e))
  }

  /** The written entry line parses to a property with the same value and, in lower case, the same label. */
  lemma EntryProperty(n: string, e: Entry) returns (p: Property)
    requires EntryName(n)
    ensures ParseProperty(EntryLine(n, e)) == Some(p)
    ensures p.name == n && p.value == EscapeValue(e.value) && FirstType(p) == ReadLabel(e.tag)
  {
    hide ParseProperty, EscapeValue, BareLabel, Preferred, Line;
    assert Name(n);
    if e.tag.Some? && e.tag.value != "" {
      var l := BareLabel(e.tag.value);
      BareLabelFacts(e.tag.value);
      TypedRead(n, l, EscapeValue(e.value));
      p := Property(n, map["TYPE" := [l]], EscapeValue(e.value));
      PreferredOne(l);
    } else {
      PlainRead(n, EscapeValue(e.value));
      assert n + "" == n;
      p := Property(n, map[], EscapeValue(e.value));
    }
  }

  lemma EntryReads(st: Reading, n: string, e: Entry)
    requires EntryName(n)
    ensures ReadLine(st, EntryLine(n, e)) == WithEntry(st, n, e)
  {
    hide ParseProperty, EscapeValue, EntryLine, Unescape, Trim, FirstType, ReadLabel;
    ValueReads(e.value);
    var p := EntryProperty(n, e);
    ParsesNonEmpty(EntryLine(n, e));
  }

  lemma ParsesNonEmpty(line: string)
    requires ParseProperty(line).Some?
    ensures line != ""
  {
  }

  function WithEntries(st: Reading, n: string, es: seq<Entry>): Reading {
    if n == "EMAIL" then st.(emails := ReadEntries(st.emails, es)) else st.(phones := ReadEntries(st.phones, es))
  }

  lemma {:induction false} EntriesRead(st: Reading, n: string, es: seq<Entry>)
    requires EntryName(n)
    ensures ReadLines(st, EntryLines(n, es)) == WithEntries(st, n, es)
    decreases |es|
  {
    hide ReadLine, EntryLine, ReadEntry;
    if es != [] {
      EntryReads(st, n, es[0]);
      EntriesRead(WithEntry(st, n, es[0]), n, es[1..]);
      assert EntryLines(n, es)[1..] == EntryLines(n, es[1..]);
    }
  }

  /** A line whose property the reader does not use. */
  lemma UnusedLine(st: Reading, n: string, value: string)
    requires Name(n) && n !in ["UID", "FN", "N", "EMAIL", "TEL", "ORG", "NOTE"]
    ensures ReadLine(st, Line(n, value)) == st
  {
    hide ParseProperty, Line;
    PlainLine(st, n, value);
  }

  lemma HeadReads(st: Reading)
    ensures forall i :: 0 <= i < 3 ==> ReadLine(st, HeadLines()[i]) == st
  {
    hide ReadLine, Line;
    UnusedLine(st, "BEGIN", "VCARD");
    UnusedLine(st, "VERSION", "3.0");
    UnusedLine(st, "PRODID", PRODID);
  }

  lemma UidReads(st: Reading, v: string)
    ensures ReadLine(st, Line("UID", EscapeValue(v))) == st.(uid := StripUrn(v))
  {
    hide ReadLine, EscapeValue, StripUrn, Unescape, Line;
    ValueReads(v);
    PlainLine(st, "UID", EscapeValue(v));
  }

  lemma FnReads(st: Reading, v: string)
    ensures ReadLine(st, Line("FN", EscapeValue(v))) == st.(fn := v)
  {
    hide ReadLine, EscapeValue, Unescape, Line;
    ValueReads(v);
    PlainLine(st, "FN", EscapeValue(v));
  }

  lemma NReads(st: Reading, value: string)
    ensures ReadLine(st, Line("N", value)) == st.(nFallback := NameFallback(value))
  {
    hide ReadLine, NameFallback, Line;
    PlainLine(st, "N", value);
  }

  lemma FrontReads(c: Card)
    ensures ReadLines(START, FrontLines(c)) ==
            START.(uid := StripUrn(c.uid), fn := c.fullName, nFallback := NameFallback(EscapeValue(c.fullName) + ";" + ";;;"))
  {
    hide ReadLine, ReadLines, EscapeValue, StripUrn, NameFallback, Line;
    var s1 := START.(uid := StripUrn(c.uid));
    var s2 := s1.(fn := c.fullName);
    HeadReads(START);
    UidReads(START, c.uid);
    FnReads(s1, c.fullName);
    NReads(s2, EscapeValue(c.fullName) + ";" + ";;;");
    var ls := FrontLines(c);
    assert ls[0] == HeadLines()[0] && ls[1] == HeadLines()[1] && ls[2] == HeadLines()[2];
    SixLines(START, ls);
  }

  lemma SixLines(st: Reading, ls: seq<string>)
    requires |ls| == 6
    ensures ReadLines(st, ls) ==
            ReadLine(ReadLine(ReadLine(ReadLine(ReadLine(ReadLine(st, ls[0]), ls[1]), ls[2]), ls[3]), ls[4]), ls[5])
  {
    hide ReadLine, ReadLines;
    assert ls == [ls[0]] + ([ls[1]] + ([ls[2]] + ([ls[3]] + ([ls[4]] + [ls[5]]))));
    var s1 := ReadLine(st, ls[0]);
    var s2 := ReadLine(s1, ls[1]);
    var s3 := ReadLine(s2, ls[2]);
    var s4 := ReadLine(s3, ls[3]);
    ReadLinesOne(st, ls[0]);
    ReadLinesOne(s1, ls[1]);
    ReadLinesOne(s2, ls[2]);
    ReadLinesOne(s3, ls[3]);
    ReadLinesOne(s4, ls[4]);
    ReadLinesOne(ReadLine(s4, ls[4]), ls[5]);
    ReadLinesAppend(s4, [ls[4]], [ls[5]]);
    ReadLinesAppend(s3, [ls[3]], [ls[4]] + [ls[5]]);
    ReadLinesAppend(s2, [ls[2]], [ls[3]] + ([ls[4]] + [ls[5]]));
    ReadLinesAppend(s1, [ls[1]], [ls[2]] + ([ls[3]] + ([ls[4]] + [ls[5]])));
    ReadLinesAppend(st, [ls[0]], [ls[1]] + ([ls[2]] + ([ls[3]] + ([ls[4]] + [ls[5]]))));
  }

  lemma EmptyFallback()
    ensures NameFallback(EscapeValue("") + ";" + ";;;") == ""
  {
    ValueReads("");
    SplitPlain("", ";;");
    assert "" + ";" + ";;" == ";;;";
    assert Unescape("") == "" && Trim("") == "";
  }

  lemma OrgReads(st: Reading, v: Option<string>)
    requires st.organization.None?
    ensures ReadLines(st, OptionLine("ORG", v)) ==
            st.(organization := if v.Some? then NonEmpty(Trim(v.value)) else None)
  {
    hide ReadLine, EscapeValue, Unescape, SplitUnescaped, Trim, Line;
    if v.Some? && v.value != "" {
      PlainLine(st, "ORG", EscapeValue(v.value));
      ReadLinesOne(st, OptionLine("ORG", v)[0]);
      ValueReads(v.value);
    } else {
      TrimFacts("");
    }
  }

  lemma NoteReads(st: Reading, v: Option<string>)
    requires st.note.None?
    ensures ReadLines(st, OptionLine("NOTE", v)) == st.(note := if v.Some? then NonEmpty(v.value) else None)
  {
    hide ReadLine, EscapeValue, Unescape, Line;
    if v.Some? && v.value != "" {
      PlainLine(st, "NOTE", EscapeValue(v.value));
      ReadLinesOne(st, OptionLine("NOTE", v)[0]);
      ValueReads(v.value);
    }
  }

  lemma EndReads(st: Reading)
    ensures ReadLines(st, [Line("END", "VCARD"), ""]) == st
  {
    hide ReadLines, Line;
    var end := Line("END", "VCARD");
    UnusedLine(st, "END", "VCARD");
    ReadLinesOne(st, end);
    ReadLinesOne(st, "");
    ReadLinesAppend(st, [end], [""]);
    assert [end] + [""] == [end, ""];
  }

  /** Reading all the written lines gives what survives. */
  lemma CardLinesRead(c: Card)
    ensures Finish(ReadLines(START, CardLines(c) + [""])) == Normal(c)
  {
    hide ReadLine, ReadLines, EntryLine, StripUrn, NameFallback, OptionLine, FrontLines, EscapeValue, Trim, Line;
    var es, ts := EntryLines("EMAIL", c.emails), EntryLines("TEL", c.phones);
    var og, nt := OptionLine("ORG", c.organization), OptionLine("NOTE", c.note);
    var end := [Line("END", "VCARD"), ""];
    assert CardLines(c) + [""] == FrontLines(c) + (es + (ts + (og + (nt + end))));
    FrontReads(c);
    var s0 := ReadLines(START, FrontLines(c));
    var s1 := WithEntries(s0, "EMAIL", c.emails);
    var s2 := WithEntries(s1, "TEL", c.phones);
    EntriesRead(s0, "EMAIL", c.emails);
    EntriesRead(s1, "TEL", c.phones);
    OrgReads(s2, c.organization);
    var s3 := ReadLines(s2, og);
    NoteReads(s3, c.note);
    var s4 := ReadLines(s3, nt);
    EndReads(s4);
    ReadLinesAppend(START, FrontLines(c), es + (ts + (og + (nt + end))));
    ReadLinesAppend(s0, es, ts + (og + (nt + end)));
    ReadLinesAppend(s1, ts, og + (nt + end));
    ReadLinesAppend(s2, og, nt + end);
    ReadLinesAppend(s3, nt, end);
    if c.fullName == "" {
      EmptyFallback();
    }
  }

  // ----- Every written line is one logical line -----

  lemma EntryLinesLogical(n: string, es: seq<Entry>)
    requires EntryName(n) && forall i :: 0 <= i < |es| ==> WritableEntry(es[i])
    ensures forall i :: 0 <= i < |es| ==> Logical(EntryLines(n, es)[i])
  {
    hide EscapeValue, BareLabel, Line;
    assert Name(n);
    forall i | 0 <= i < |es| ensures Logical(EntryLine(n, es[i])) {
      var e := es[i];
      EscapesAgree(e.value);
      EscapeOneLine(e.value);
      assert OneLine(";") && OneLine("TYPE=");
      LineLogical(n, TypeSuffix(e.tag), EscapeValue(e.value));
    }
  }

  lemma ValueLineLogical(n: string, v: string, end: string)
    requires Name(n) && '\r' !in v && OneLine(end)
    ensures Logical(Line(n, EscapeValue(v) + end)) && Logical(Line(n, EscapeValue(v)))
  {
    hide EscapeValue, Line;
    EscapesAgree(v);
    EscapeOneLine(v);
    PlainLogical(n, EscapeValue(v) + end);
    PlainLogical(n, EscapeValue(v));
  }

  lemma OptionLineLogical(n: string, v: Option<string>)
    requires Name(n) && (v.Some? ==> '\r' !in v.value)
    ensures forall i :: 0 <= i < |OptionLine(n, v)| ==> Logical(OptionLine(n, v)[i])
  {
    hide EscapeValue, Line;
    if v.Some? && v.value != "" {
      ValueLineLogical(n, v.value, "");
    }
  }

  lemma HeadLogical()
    ensures Logical(Line("BEGIN", "VCARD")) && Logical(Line("VERSION", "3.0")) && Logical(Line("END", "VCARD"))
    ensures Logical(Line("PRODID", PRODID))
  {
    hide Line, Logical;
    assert OneLine("VCARD") && OneLine("3.0");
    PlainLogical("BEGIN", "VCARD");
    PlainLogical("VERSION", "3.0");
    PlainLogical("END", "VCARD");
    assert OneLine(PRODID);
    PlainLogical("PRODID", PRODID);
  }

  lemma FrontLogical(c: Card)
    requires '\r' !in c.uid && '\r' !in c.fullName
    ensures forall i :: 0 <= i < |FrontLines(c)| ==> Logical(FrontLines(c)[i])
  {
    hide EscapeValue, Logical, Line;
    HeadLogical();
    assert OneLine(";" + ";;;");
    ValueLineLogical("UID", c.uid, "");
    ValueLineLogical("FN", c.fullName, "");
    ValueLineLogical("N", c.fullName, ";" + ";;;");
    Assoc(EscapeValue(c.fullName), ";", ";;;");
  }

  lemma CardLinesLogical(c: Card)
    requires Writable(c)
    ensures forall i :: 0 <= i < |CardLines(c)| ==> Logical(CardLines(c)[i])
  {
    hide EntryLine, FrontLines, OptionLine, Logical, Line;
    FrontLogical(c);
    HeadLogical();
    EntryLinesLogical("EMAIL", c.emails);
    EntryLinesLogical("TEL", c.phones);
    OptionLineLogical("ORG", c.organization);
    OptionLineLogical("NOTE", c.note);
  }

  /** What is read back, for every card whose lines stay lines. */
  lemma WrittenCardReads(c: Card)
    requires Writable(c)
    ensures Parse(Serialize(c)) == Normal(c)
    ensures forall p :: p in PhysicalLines(Serialize(c)) ==> |p| <= 75
  {
    hide Unfold, Print, ReadLines, Finish, Normal, Logical;
    CardLinesLogical(c);
    FoldingRoundTrip(CardLines(c));
    CardLinesRead(c);
  }

  // ----- What survives unchanged -----

  predicate StableEntry(e: Entry) {
    Trim(e.value) == e.value && e.value != "" && ReadLabel(e.tag) == e.tag
  }

  lemma StableIsCanonical(e: Entry)
    requires WritableEntry(e)
    ensures StableEntry(e) <==> CanonicalEntry(e)
  {
    hide BareLabel, Trim;
    TrimFacts(e.value);
    if e.tag.Some? {
      var l := e.tag.value;
      BareLabelFacts(l);
      LowerFacts(BareLabel(l));
      LowerFacts(l);
    }
  }

  lemma {:induction false} ReadEntriesShape(acc: seq<Entry>, es: seq<Entry>)
    ensures acc <= ReadEntries(acc, es) && |ReadEntries(acc, es)| <= |acc| + |es|
    decreases |es|
  {
    hide Trim, ReadLabel;
    if es != [] {
      ReadEntriesShape(ReadEntry(acc, es[0]), es[1..]);
    }
  }

  lemma {:induction false} EntriesSurvive(acc: seq<Entry>, es: seq<Entry>)
    ensures ReadEntries(acc, es) == acc + es <==> forall i :: 0 <= i < |es| ==> StableEntry(es[i])
    decreases |es|
  {
    hide Trim, ReadLabel;
    if es != [] {
      var next, t := ReadEntry(acc, es[0]), es[1..];
      ReadEntriesShape(next, t);
      assert acc + es == acc + [es[0]] + t;
      if StableEntry(es[0]) {
        EntriesSurvive(next, t);
        assert forall i :: 0 <= i < |t| ==> t[i] == es[i + 1];
        if forall i :: 0 <= i < |t| ==> StableEntry(t[i]) {
          forall i | 0 <= i < |es| ensures StableEntry(es[i]) {
            assert i > 0 ==> es[i] == t[i - 1];
          }
        }
      } else {
        assert (acc + es)[|acc|] == es[0];
      }
    }
  }

  lemma UidSurvives(uid: string)
    ensures StripUrn(uid) == uid <==> !(|uid| >= 9 && ToLower(uid[..9]) == "urn:uuid:")
  {
  }

  lemma SurvivesIfCanonical(c: Card)
    requires Writable(c)
    ensures Normal(c) == Some(c) <==> Canonical(c)
  {
    hide Trim, ReadEntries, StripUrn, StableEntry, CanonicalEntry;
    UidSurvives(c.uid);
    EntriesSurvive([], c.emails);
    EntriesSurvive([], c.phones);
    assert [] + c.emails == c.emails && [] + c.phones == c.phones;
    forall i | 0 <= i < |c.emails| ensures StableEntry(c.emails[i]) <==> CanonicalEntry(c.emails[i]) {
      StableIsCanonical(c.emails[i]);
    }
    forall i | 0 <= i < |c.phones| ensures StableEntry(c.phones[i]) <==> CanonicalEntry(c.phones[i]) {
      StableIsCanonical(c.phones[i]);
    }
    if c.organization.Some? {
      TrimFacts(c.organization.value);
    }
    TrimFacts("");
  }

  // ----- Every card that is read is writable -----

  predicate CleanEntry(e: Entry) {
    '\r' !in e.value && (e.tag.Some? ==> OneLine(e.tag.value))
  }

  predicate CleanReading(st: Reading) {
    && '\r' !in st.uid && '\r' !in st.fn && '\r' !in st.nFallback
    && (forall i :: 0 <= i < |st.emails| ==> CleanEntry(st.emails[i]))
    && (forall i :: 0 <= i < |st.phones| ==> CleanEntry(st.phones[i]))
    && (st.organization.Some? ==> '\r' !in st.organization.value)
    && (st.note.Some? ==> '\r' !in st.note.value)
  }

  predicate CleanParams(params: map<string, seq<string>>) {
    forall k, i :: k in params && 0 <= i < |params[k]| ==> OneLine(params[k][i])
  }

  lemma AddParamClean(params: map<string, seq<string>>, seg: string)
    requires CleanParams(params) && OneLine(seg)
    ensures CleanParams(AddParam(params, seg))
  {
    var eq := IndexOf(seg, '=');
    if eq.None? {
      SubstChars(seg, '"', "");
    } else {
      var raw := seg[eq.value + 1..];
      SplitKeeps(raw, ',', '\r');
      SplitKeeps(raw, ',', '\n');
      forall i | 0 <= i < |Split(raw, ',')| ensures OneLine(DropQuotes(Split(raw, ',')[i])) {
        SubstChars(Split(raw, ',')[i], '"', "");
      }
    }
  }

  lemma {:induction false} AddParamsClean(params: map<string, seq<string>>, segs: seq<string>)
    requires CleanParams(params) && forall i :: 0 <= i < |segs| ==> OneLine(segs[i])
    ensures CleanParams(AddParams(params, segs))
    decreases |segs|
  {
    hide AddParam, CleanParams;
    if segs != [] {
      AddParamClean(params, segs[0]);
      AddParamsClean(AddParam(params, segs[0]), segs[1..]);
    }
  }

  lemma {:induction false} PreferredIn(types: seq<string>, default: string)
    ensures Preferred(types, default) == default || Preferred(types, default) in types
  {
    if types != [] {
      PreferredIn(types[1..], default);
    }
  }

  /** A property read from one line has a clean value and a clean label. */
  lemma PropertyClean(line: string)
    requires OneLine(line)
    ensures ParseProperty(line).Some? ==>
              var p := ParseProperty(line).value;
              OneLine(p.value) && (FirstType(p).Some? ==> OneLine(FirstType(p).value))
  {
    hide SplitUnescaped, AddParams, ColonAt, Preferred;
    var colon := ColonAt(line, false);
    if colon.Some? {
      var head := line[..colon.value];
      SplitUnescapedKeeps(head, ';', '\r');
      SplitUnescapedKeeps(head, ';', '\n');
      var segs := SplitUnescaped(head, ';');
      AddParamsClean(map[], segs[1..]);
      var types := Values(AddParams(map[], segs[1..]), "TYPE");
      if types != [] {
        PreferredIn(types, types[0]);
        LowerFacts(Preferred(types, types[0]));
      }
    }
  }

  lemma CleanValue(v: string)
    requires '\r' !in v
    ensures '\r' !in Unescape(v) && '\r' !in Trim(Unescape(v)) && '\r' !in StripUrn(Unescape(v))
  {
    hide Unescape, Trim;
    UnescapeKeeps(v);
    TrimFacts(Unescape(v));
  }

  lemma CleanParts(v: string)
    requires '\r' !in v
    ensures '\r' !in NameFallback(v)
    ensures '\r' !in Trim(Unescape(SplitUnescaped(v, ';')[0]))
  {
    hide Unescape, Trim, SplitUnescaped;
    SplitUnescapedKeeps(v, ';', '\r');
    var parts := SplitUnescaped(v, ';');
    CleanValue(parts[0]);
    if |parts| > 1 {
      CleanValue(parts[1]);
    }
    var family := Unescape(parts[0]);
    var given := if |parts| > 1 then Unescape(parts[1]) else "";
    TrimFacts(if given == "" then family else if family == "" then given else given + " " + family);
  }

  lemma ReadLineClean(st: Reading, line: string)
    requires CleanReading(st) && OneLine(line)
    ensures CleanReading(ReadLine(st, line))
  {
    hide Unescape, Trim, SplitUnescaped, ParseProperty, FirstType, NameFallback, StripUrn;
    PropertyClean(line);
    if ParseProperty(line).Some? {
      var p := ParseProperty(line).value;
      CleanValue(p.value);
      CleanParts(p.value);
    }
  }

  lemma {:induction false} ReadLinesClean(st: Reading, lines: seq<string>)
    requires CleanReading(st) && forall i :: 0 <= i < |lines| ==> OneLine(lines[i])
    ensures CleanReading(ReadLines(st, lines))
    decreases |lines|
  {
    hide CleanReading, ReadLine;
    if lines != [] {
      ReadLineClean(st, lines[0]);
      ReadLinesClean(ReadLine(st, lines[0]), lines[1..]);
    }
  }

  lemma CleanIsWritable(e: Entry)
    requires CleanEntry(e)
    ensures WritableEntry(e)
  {
    hide BareLabel;
    if e.tag.Some? {
      BareLabelFacts(e.tag.value);
    }
  }

  lemma ReadCardWritable(text: string)
    ensures Parse(text).Some? ==> Writable(Parse(text).value)
  {
    hide Unfold, ReadLines, CleanEntry, WritableEntry;
    UnfoldedLines(text);
    ReadLinesClean(START, Unfold(text));
    var st := ReadLines(START, Unfold(text));
    forall i | 0 <= i < |st.emails| ensures WritableEntry(st.emails[i]) {
      CleanIsWritable(st.emails[i]);
    }
    forall i | 0 <= i < |st.phones| ensures WritableEntry(st.phones[i]) {
      CleanIsWritable(st.phones[i]);
    }
  }

  /** The round trip, exactly: a card comes back unchanged if and only if it is canonical. */
  lemma RoundTripIffCanonical(c: Card)
    ensures Parse(Serialize(c)) == Some(c) <==> Canonical(c)
  {
    hide Parse, Serialize, Normal, BareLabel;
    if Parse(Serialize(c)) == Some(c) {
      ReadCardWritable(Serialize(c));
    }
    if Canonical(c) {
      forall i | 0 <= i < |c.emails| ensures WritableEntry(c.emails[i]) {
        CanonicalIsWritable(c.emails[i]);
      }
      forall i | 0 <= i < |c.phones| ensures WritableEntry(c.phones[i]) {
        CanonicalIsWritable(c.phones[i]);
      }
    }
    if Writable(c) {
      WrittenCardReads(c);
      SurvivesIfCanonical(c);
    }
  }

  lemma CanonicalIsWritable(e: Entry)
    requires CanonicalEntry(e)
    ensures WritableEntry(e)
  {
    hide BareLabel;
    if e.tag.Some? {
      BareLabelFacts(e.tag.value);
    }
  }

  /** The lines around a written card's own. */
  lemma WrittenEnvelope(c: Card)
    requires Writable(c)
    ensures var ls := Unfold(Serialize(c));
            && |ls| >= 6 && ls[..3] == ["BEGIN:VCARD", "VERSION:3.0", "PRODID:-//JustMail//Contacts//EN"]
            && ls[|ls| - 2..] == ["END:VCARD", ""]
    ensures var ps := PhysicalLines(Serialize(c)); Serialize(c) == Terminated(ps[..|ps| - 1])
  {
    hide Unfold, Print, Logical, EntryLines, OptionLine, EscapeValue, PhysicalLines, Terminated;
    CardLinesLogical(c);
    FoldingRoundTrip(CardLines(c));
    EnvelopeLines();
    var ls := CardLines(c) + [""];
    assert ls[0] == HeadLines()[0] && ls[1] == HeadLines()[1] && ls[2] == HeadLines()[2];
  }

  lemma EnvelopeLines()
    ensures Line("BEGIN", "VCARD") == "BEGIN:VCARD" && Line("VERSION", "3.0") == "VERSION:3.0"
    ensures Line("PRODID", PRODID) == "PRODID:-//JustMail//Contacts//EN" && Line("END", "VCARD") == "END:VCARD"
  {
  }

  // ----- What other programs write -----

  function QuotesIn(s: string): nat {
    if s == "" then 0 else (if s[0] == '"' then 1 else 0) + QuotesIn(s[1..])
  }

  predicate InQuotes(line: string, j: nat, inQuote: bool)
    requires j <= |line|
  {
    (QuotesIn(line[..j]) % 2 == 1) != inQuote
  }

  lemma InQuotesNext(line: string, j: nat, inQuote: bool)
    requires j < |line|
    ensures InQuotes(line, j + 1, inQuote) <==> InQuotes(line[1..], j, if line[0] == '"' then !inQuote else inQuote)
  {
    assert line[..j + 1][0] == line[0] && line[..j + 1][1..] == line[1..][..j];
  }

  /** The value begins after the first colon that an even number of double quotes comes before. */
  lemma {:induction false} ColonAtIff(line: string, inQuote: bool, k: nat)
    ensures ColonAt(line, inQuote) == Some(k) <==>
            && k < |line| && line[k] == ':' && !InQuotes(line, k, inQuote)
            && forall j :: 0 <= j < k && line[j] == ':' ==> InQuotes(line, j, inQuote)
    decreases |line|
  {
    hide InQuotes;
    if line != "" {
      var next := if line[0] == '"' then !inQuote else inQuote;
      assert InQuotes(line, 0, inQuote) == inQuote by { NoQuotesYet(line, inQuote); }
      forall j | 0 <= j < |line| ensures InQuotes(line, j + 1, inQuote) <==> InQuotes(line[1..], j, next) {
        InQuotesNext(line, j, inQuote);
      }
      if 0 < k < |line| {
        ColonAtIff(line[1..], next, k - 1);
        assert forall j :: 0 < j < k ==> line[j] == line[1..][j - 1];
        forall j | 0 < j <= k ensures InQuotes(line, j, inQuote) <==> InQuotes(line[1..], j - 1, next) {
          InQuotesNext(line, j - 1, inQuote);
        }
      }
    }
  }

  lemma NoQuotesYet(line: string, inQuote: bool)
    ensures InQuotes(line, 0, inQuote) == inQuote
  {
  }

  /** The label of an entry: its first type other than "pref", or else its first; in lower case. */
  lemma FirstTypeMeans(p: Property)
    ensures FirstType(p).None? <==> !("TYPE" in p.params && p.params["TYPE"] != [])
    ensures FirstType(p).Some? ==>
      var types := p.params["TYPE"];
      exists i :: 0 <= i < |types| && FirstType(p) == Some(ToLower(types[i]))
                  && (forall j :: 0 <= j < i ==> ToLower(types[j]) == "pref")
                  && (ToLower(types[i]) != "pref" || (i == 0 && forall t :: t in types ==> ToLower(t) == "pref"))
  {
    hide ToLower;
    if FirstType(p).Some? {
      var types := p.params["TYPE"];
      var i := PreferredAt(types, types[0]);
      assert i == |types| ==> types[0] in types && FirstType(p) == Some(ToLower(types[0]));
    }
  }

  lemma {:induction false} PreferredAt(types: seq<string>, default: string) returns (i: nat)
    ensures i <= |types| && forall j :: 0 <= j < i ==> ToLower(types[j]) == "pref"
    ensures if i < |types| then Preferred(types, default) == types[i] && ToLower(types[i]) != "pref"
            else Preferred(types, default) == default
  {
    hide ToLower;
    i := 0;
    if types != [] && ToLower(types[0]) == "pref" {
      var k := PreferredAt(types[1..], default);
      i := k + 1;
    }
  }

  /** Parameters: a bare segment is a type; a named one adds each of its comma-separated values, without quotes. */
  lemma ParamsAdd(params: map<string, seq<string>>, name: string, a: string, b: string)
    requires '=' !in name && ',' !in a && ',' !in b
    ensures AddParam(params, name) == params["TYPE" := Values(params, "TYPE") + [DropQuotes(name)]]
    ensures var key := ToUpper(name);
            && AddParam(params, name + "=" + a) == params[key := Values(params, key) + [DropQuotes(a)]]
            && AddParam(params, name + "=" + (a + "," + b)) ==
               params[key := Values(params, key) + [DropQuotes(a), DropQuotes(b)]]
  {
    hide ToUpper, DropQuotes;
    IndexOfAt(name, '=', a);
    IndexOfAt(name, '=', a + "," + b);
    SplitWhole(a, ',');
    SplitAt(a, ',', b);
    SplitWhole(b, ',');
    var s, t := name + "=" + a, name + "=" + (a + "," + b);
    assert s == name + ['='] + a && t == name + ['='] + (a + "," + b) && a + "," + b == a + [','] + b;
    assert s[..|name|] == name && s[|name| + 1..] == a && t[..|name|] == name && t[|name| + 1..] == a + "," + b;
    assert DropAllQuotes([a]) == [DropQuotes(a)] && DropAllQuotes([a] + [b]) == [DropQuotes(a), DropQuotes(b)];
  }

  /** Without a formatted name the card is called by its given and family names. */
  lemma NamedByParts(st: Reading, family: string, given: string, rest: string)
    ensures ReadLine(st, Line("N", EscapeValue(family) + ";" + (EscapeValue(given) + ";" + rest))) ==
            st.(nFallback := Trim(if given == "" then family else if family == "" then given else given + " " + family))
    ensures st.uid != "" && st.fn == "" ==> Finish(st).value.fullName == st.nFallback
  {
    hide Unescape, EscapeValue, Trim, Line;
    var tail := EscapeValue(given) + ";" + rest;
    NReads(st, EscapeValue(family) + ";" + tail);
    EscapesAgree(family);
    EscapesAgree(given);
    EscapedIsOnePart(family, tail);
    EscapedIsOnePart(given, rest);
    UnescapeInverts(family);
    UnescapeInverts(given);
  }
}
