/**
 Which events survive being written and read back: among events at instants of
 the years 1000 to 9999, exactly the canonical ones.
 */
module ICalRoundTrip {
  import opened Text
  import opened LineCodec
  import opened ICal

  // ----- The condition -----

  /** A time the codec can write with a four-digit year. */
  predicate Writes(i: Instant) {
    Real(i) && i.year >= 1000
  }

  /** An event at the instants `s` and `t`. */
  predicate At(e: Event, s: Instant, t: Instant) {
    Writes(s) && Writes(t) && e.startsAt == ToIso(s) && e.endsAt == ToIso(t)
  }

  /** No finer than the written form: whole seconds, or midnight for an all-day event. */
  predicate Coarse(i: Instant, allDay: bool) {
    i.milli == 0 && (allDay ==> i.hour == 0 && i.minute == 0 && i.second == 0)
  }

  predicate CanonicalText(v: Option<string>) {
    v.Some? ==> v.value != "" && '\r' !in v.value
  }

  predicate Canonical(e: Event, s: Instant, t: Instant) {
    && e.uid != "" && Trimmed(e.uid) && '\r' !in e.uid && '\r' !in e.summary
    && CanonicalText(e.location) && CanonicalText(e.description)
    && Coarse(s, e.allDay) && Coarse(t, e.allDay)
  }

  // ----- Digits -----

  lemma DecimalLengths(n: nat)
    ensures n < 10 ==> |Decimal(n)| == 1
    ensures 10 <= n < 100 ==> |Decimal(n)| == 2
    ensures 100 <= n < 1000 ==> |Decimal(n)| == 3
    ensures 1000 <= n < 10000 ==> |Decimal(n)| == 4
  {
  }

  lemma PadFacts(n: nat, width: nat)
    requires 2 <= width <= 4 && (width == 2 ==> n < 100) && (width == 3 ==> n < 1000) && n < 10000
    ensures |Pad(n, width)| == width && AllDigits(Pad(n, width)) && Number(Pad(n, width)) == n
    ensures width == 4 && n >= 1000 ==> Pad(n, width) == Decimal(n)
  {
    DecimalLengths(n);
    PadStartFacts(Decimal(n), width);
    NumberOfDecimal(n);
  }

  /** ISO text determines the instant. */
  lemma IsoInjective(i: Instant, j: Instant)
    requires Real(i) && Real(j) && ToIso(i) == ToIso(j)
    ensures i == j
  {
    IsoFields(i);
    IsoFields(j);
  }

  lemma IsoFields(i: Instant)
    requires Real(i)
    ensures var t := ToIso(i);
            && |t| == 24 && i == Instant(Number(t[..4]), Number(t[5..7]), Number(t[8..10]), Number(t[11..13]),
                                         Number(t[14..16]), Number(t[17..19]), Number(t[20..23]))
  {
    hide Pad, Number;
    PadFacts(i.year, 4);
    PadFacts(i.month, 2);
    PadFacts(i.day, 2);
    PadFacts(i.hour, 2);
    PadFacts(i.minute, 2);
    PadFacts(i.second, 2);
    PadFacts(i.milli, 3);
    var d := DayText(i);
    assert |d| == 10 && d[..4] == Pad(i.year, 4) && d[5..7] == Pad(i.month, 2) && d[8..10] == Pad(i.day, 2);
    var c := Pad(i.hour, 2) + ":" + Pad(i.minute, 2) + ":" + Pad(i.second, 2);
    assert |c| == 8 && c[..2] == Pad(i.hour, 2) && c[3..5] == Pad(i.minute, 2) && c[6..8] == Pad(i.second, 2);
    var t := ToIso(i);
    assert t == d + ("T" + c + ("." + Pad(i.milli, 3) + "Z"));
    assert t[..10] == d && t[11..19] == c && t[20..23] == Pad(i.milli, 3);
    assert t[..4] == d[..4] && t[5..7] == d[5..7] && t[8..10] == d[8..10];
    assert t[11..13] == c[..2] && t[14..16] == c[3..5] && t[17..19] == c[6..8];
  }

  /** A `Date` constructor of the assumed kind exists: the assumption is not empty. */
  ghost function SomeDate(text: string): Option<Instant> {
    if exists i :: Real(i) && ToIso(i) == text then
      var i :| Real(i) && ToIso(i) == text;
      Some(i)
    else if exists i :: Real(i) && i.milli == 0 && IsoSeconds(i) == text then
      var i :| Real(i) && i.milli == 0 && IsoSeconds(i) == text;
      Some(i)
    else None
  }

  lemma ReadsIsoIsPossible()
    ensures ReadsIso((s: string) => SomeDate(s))
  {
    hide ToIso, IsoSeconds, Real;
    forall i | Real(i)
      ensures SomeDate(ToIso(i)) == Some(i) && (i.milli == 0 ==> SomeDate(IsoSeconds(i)) == Some(i))
    {
      var j := SomeDate(ToIso(i)).value;
      IsoInjective(i, j);
      if i.milli == 0 {
        SecondsLength(i);
        assert forall k :: Real(k) ==> ToIso(k) != IsoSeconds(i) by {
          forall k | Real(k) ensures ToIso(k) != IsoSeconds(i) {
            IsoFields(k);
          }
        }
        var k := SomeDate(IsoSeconds(i)).value;
        SecondsInjective(i, k);
      }
    }
  }

  lemma SecondsLength(i: Instant)
    requires Real(i)
    ensures |IsoSeconds(i)| == 20
  {
    hide Pad;
    PadFacts(i.year, 4);
    PadFacts(i.month, 2);
    PadFacts(i.day, 2);
    PadFacts(i.hour, 2);
    PadFacts(i.minute, 2);
    PadFacts(i.second, 2);
  }

  lemma SecondsInjective(i: Instant, j: Instant)
    requires Real(i) && Real(j) && i.milli == j.milli == 0 && IsoSeconds(i) == IsoSeconds(j)
    ensures i == j
  {
    hide SecondText;
    assert SecondText(i) == IsoSeconds(i)[..|IsoSeconds(i)| - 1];
    assert SecondText(j) == IsoSeconds(j)[..|IsoSeconds(j)| - 1];
    assert ToIso(i) == ToIso(j);
    IsoInjective(i, j);
  }

  // ----- Written times read back -----

  /** The instant as the written form keeps it. */
  function Coarsen(i: Instant, allDay: bool): Instant {
    if allDay then i.(hour := 0, minute := 0, second := 0, milli := 0) else i.(milli := 0)
  }

  /** Where the pieces of a written date-time are. */
  lemma DateTimePieces(d: string, c: string)
    requires |d| == 8 && |c| == 6 && AllDigits(d) && AllDigits(c)
    ensures forall z :: z in ["", "Z"] ==>
      var v := d + "T" + c + z;
            && |v| == 15 + |z| && Trim(v) == v && IsDateTime(v)
            && v[..4] == d[..4] && v[4..6] == d[4..6] && v[6..8] == d[6..8]
            && v[9..11] == c[..2] && v[11..13] == c[2..4] && v[13..15] == c[4..6]
  {
  }

  lemma ClockPieces(h: string, mi: string, s: string)
    requires |h| == 2 && |mi| == 2 && |s| == 2
    ensures var c := h + mi + s; |c| == 6 && c[..2] == h && c[2..4] == mi && c[4..6] == s
    ensures AllDigits(h) && AllDigits(mi) && AllDigits(s) ==> AllDigits(h + mi + s)
  {
  }

  lemma DatePieces(y: string, mo: string, d: string)
    requires |y| == 4 && |mo| == 2 && |d| == 2
    ensures var v := y + mo + d; |v| == 8 && v[..4] == y && v[4..6] == mo && v[6..8] == d
    ensures AllDigits(y) && AllDigits(mo) && AllDigits(d) ==> AllDigits(y + mo + d)
  {
  }

  /** A date-time with or without its Z, whatever time zone a parameter names, is read as UTC. */
  lemma DateTimeReads(i: Instant, newDate: NewDate, p: Property, z: string)
    requires Writes(i) && ReadsIso(newDate) && !("VALUE" in p.params && p.params["VALUE"] == "DATE")
    requires z in ["", "Z"] && p.value + (if z == "" then "Z" else "") == FormatDateTime(Some(i))
    ensures ParseDate(p, newDate) == Some((ToIso(Coarsen(i, false)), false))
  {
    hide Pad, Trim, ToIso, Decimal, ReadsIso, IsDateTime, AllDigits;
    PadFacts(i.year, 4);
    PadFacts(i.month, 2);
    PadFacts(i.day, 2);
    PadFacts(i.hour, 2);
    PadFacts(i.minute, 2);
    PadFacts(i.second, 2);
    var y, mo, d := Pad(i.year, 4), Pad(i.month, 2), Pad(i.day, 2);
    var h, mi, s := Pad(i.hour, 2), Pad(i.minute, 2), Pad(i.second, 2);
    DatePieces(y, mo, d);
    ClockPieces(h, mi, s);
    DateTimePieces(y + mo + d, h + mi + s);
    var v := (y + mo + d) + "T" + (h + mi + s);
    assert FormatDateTime(Some(i)) == v + "Z";
    assert p.value == v + z by { if z == "" { assert (p.value + "Z")[..|p.value|] == p.value && (v + "Z")[..|v|] == v; } }
    ReadSeconds(i, newDate);
    SecondsShape(y, mo, d, h, mi, s);
  }

  lemma SecondsShape(y: string, mo: string, d: string, h: string, mi: string, s: string)
    ensures y + "-" + mo + "-" + d + "T" + (h + ":" + mi + ":" + s) + "Z" ==
            y + "-" + mo + "-" + d + "T" + h + ":" + mi + ":" + s + "Z"
  {
  }

  lemma ReadSeconds(i: Instant, newDate: NewDate)
    requires Writes(i) && ReadsIso(newDate)
    ensures newDate(IsoSeconds(Coarsen(i, false))) == Some(Coarsen(i, false))
    ensures newDate(IsoSeconds(Coarsen(i, true))) == Some(Coarsen(i, true))
  {
  }

  /** Eight digits are a day, and so is what begins with them when a parameter says DATE. */
  lemma DayReads(i: Instant, newDate: NewDate, p: Property, rest: string)
    requires Writes(i) && ReadsIso(newDate) && Trim(p.value) == p.value == FormatDate(Some(i)) + rest
    requires rest == "" || ("VALUE" in p.params && p.params["VALUE"] == "DATE")
    ensures ParseDate(p, newDate) == Some((ToIso(Coarsen(i, true)), true))
  {
    hide Pad, Trim, ToIso, Decimal, ReadsIso, AllDigits;
    PadFacts(i.year, 4);
    PadFacts(i.month, 2);
    PadFacts(i.day, 2);
    var v := p.value;
    DatePieces(Pad(i.year, 4), Pad(i.month, 2), Pad(i.day, 2));
    assert v[..8] == FormatDate(Some(i)) && v[..4] == v[..8][..4] && v[4..6] == v[..8][4..6] && v[6..8] == v[..8][6..8];
    assert rest == "" ==> v == v[..8];
    ReadSeconds(i, newDate);
    MidnightText(i);
  }

  lemma DayTrimmed(i: Instant)
    requires Writes(i)
    ensures Trim(FormatDate(Some(i))) == FormatDate(Some(i))
  {
    hide Pad, Trim, Decimal;
    PadFacts(i.year, 4);
    PadFacts(i.month, 2);
    PadFacts(i.day, 2);
    DigitsTrimmed(FormatDate(Some(i)));
  }

  lemma DigitsTrimmed(v: string)
    requires v != "" && AllDigits(v)
    ensures Trim(v) == v
  {
  }

  /** Any other value is what the `Date` constructor makes of it, or the epoch. */
  lemma OtherDateReads(p: Property, newDate: NewDate)
    requires !("VALUE" in p.params && p.params["VALUE"] == "DATE")
    requires !IsDateTime(Trim(p.value)) && !(|Trim(p.value)| == 8 && AllDigits(Trim(p.value)))
    ensures ParseDate(p, newDate) ==
            Some((if newDate(Trim(p.value)).Some? then ToIso(newDate(Trim(p.value)).value) else "1970-01-01T00:00:00.000Z", false))
  {
    EpochText();
    hide ToIso, Trim;
  }

  lemma EpochText()
    ensures ToIso(EPOCH) == "1970-01-01T00:00:00.000Z"
  {
    assert Decimal(1970) == Decimal(197) + "0" && Decimal(197) == Decimal(19) + "7" && Decimal(19) == "1" + "9";
    assert Pad(1970, 4) == "1970";
    assert Pad(1, 2) == "01" && Pad(0, 2) == "00" && Pad(0, 3) == "000" by { PadZeros(); }
  }

  lemma PadZeros()
    ensures Pad(1, 2) == "01" && Pad(0, 2) == "00" && Pad(0, 3) == "000"
  {
    assert PadStart("1", 2) == PadStart("0" + "1", 2) && PadStart("0", 2) == PadStart("0" + "0", 2);
    assert PadStart("0", 3) == PadStart("0" + "0", 3) && PadStart("0" + "0", 3) == PadStart("0" + ("0" + "0"), 3);
  }

  lemma MidnightText(i: Instant)
    ensures IsoSeconds(Coarsen(i, true)) == DayText(i) + "T00:00:00Z"
  {
  }

  // ----- Property lines -----

  lemma PlainRead(n: string, value: string)
    requires Name(n)
    ensures ParseProperty(Line(n, value)) == Some(Property(n, map[], value))
  {
    var line := Line(n, value);
    IndexOfAt(n, ':', value);
    assert line[..|n|] == n && line[|n| + 1..] == value;
    SplitWhole(n, ';');
    assert ToUpper(n) == n && [n][1..] == [];
  }

  lemma DateRead(n: string, value: string)
    requires Name(n)
    ensures ParseProperty(Line(n + ";" + "VALUE=DATE", value)) == Some(Property(n, map["VALUE" := "DATE"], value))
  {
    hide AddParams, Split;
    var p := "VALUE=DATE";
    var head := n + ";" + p;
    var line := Line(head, value);
    IndexOfAt(head, ':', value);
    assert line[..|head|] == head && line[|head| + 1..] == value;
    SplitAt(n, ';', p);
    SplitWhole(p, ';');
    assert [n, p][1..] == [p];
    assert ToUpper(n) == n;
    DateParam();
  }

  lemma DateParam()
    ensures AddParams(map[], ["VALUE=DATE"]) == map["VALUE" := "DATE"]
  {
    hide IndexOf, Subst;
    var seg, name, value := "VALUE=DATE", "VALUE", "DATE";
    assert seg == name + ['='] + value;
    IndexOfAt(name, '=', value);
    assert seg[..5] == name && seg[6..] == value && ToUpper(name) == name;
    SubstChars(value, '"', "");
    assert [seg][1..] == [];
    ParamsEnd(map["VALUE" := "DATE"]);
  }

  lemma ParamsEnd(params: map<string, string>)
    ensures AddParams(params, []) == params
  {
  }

  lemma PlainLine(st: Reading, n: string, value: string, nd: NewDate)
    requires Name(n)
    ensures ReadLine(st, Line(n, value), nd) == ReadProperty(st, Property(n, map[], value), nd)
  {
    hide ParseProperty, ReadProperty;
    PlainRead(n, value);
  }

  lemma ValueReads(v: string)
    ensures Unescape(EscapeText(v)) == v
  {
    hide Unescape, EscapeText;
    EscapesAgree(v);
    UnescapeInverts(v);
  }

  // ----- Reading the written lines in order -----

  function Bind(r: Option<Reading>, lines: seq<string>, nd: NewDate): Option<Reading> {
    if r.Some? then ReadLines(r.value, lines, nd) else None
  }

  lemma {:induction false} ReadLinesAppend(st: Reading, a: seq<string>, b: seq<string>, nd: NewDate)
    ensures ReadLines(st, a + b, nd) == Bind(ReadLines(st, a, nd), b, nd)
    decreases |a|
  {
    hide ReadLine;
    if a == [] {
      assert a + b == b;
    } else {
      assert (a + b)[1..] == a[1..] + b;
      var next := ReadLine(st, a[0], nd);
      if next.Some? {
        ReadLinesAppend(next.value, a[1..], b, nd);
      }
    }
  }

  /** A line that reads, then the rest. */
  lemma NextLine(st: Reading, line: string, rest: seq<string>, next: Reading, nd: NewDate)
    requires ReadLine(st, line, nd) == Some(next)
    ensures ReadLines(st, [line] + rest, nd) == ReadLines(next, rest, nd)
  {
  }

  lemma HeadReads(nd: NewDate, rest: seq<string>)
    ensures ReadLines(START, HeadLines() + rest, nd) == ReadLines(START, rest, nd)
  {
    hide ReadLine, ReadLines, Line;
    var ls := HeadLines();
    BeginCalendar(nd);
    SkippedOutside("VERSION", "2.0", nd);
    SkippedOutside("PRODID", PRODID, nd);
    SkippedOutside("CALSCALE", "GREGORIAN", nd);
    NextLine(START, ls[3], rest, START, nd);
    NextLine(START, ls[2], [ls[3]] + rest, START, nd);
    NextLine(START, ls[1], [ls[2]] + ([ls[3]] + rest), START, nd);
    NextLine(START, ls[0], [ls[1]] + ([ls[2]] + ([ls[3]] + rest)), START, nd);
    assert ls + rest == [ls[0]] + ([ls[1]] + ([ls[2]] + ([ls[3]] + rest)));
  }

  /** Before BEGIN:VEVENT every property but BEGIN and END is skipped. */
  lemma SkippedOutside(n: string, value: string, nd: NewDate)
    requires Name(n) && n != "BEGIN" && n != "END"
    ensures ReadLine(START, Line(n, value), nd) == Some(START)
  {
    hide ParseProperty;
    PlainLine(START, n, value, nd);
  }

  lemma BeginCalendar(nd: NewDate)
    ensures ReadLine(START, Line("BEGIN", "VCALENDAR"), nd) == Some(START)
  {
    hide ParseProperty;
    assert ToUpper("VCALENDAR")[1] == 'C' && "VEVENT"[1] == 'E';
    PlainLine(START, "BEGIN", "VCALENDAR", nd);
  }

  lemma EventOpens(st: Reading, nd: NewDate)
    ensures ReadLine(st, Line("BEGIN", "VEVENT"), nd) == Some(st.(inEvent := true))
    ensures ReadLine(st, Line("END", "VEVENT"), nd) == Some(st.(inEvent := false))
  {
    hide ParseProperty;
    assert ToUpper("VEVENT") == "VEVENT";
    PlainLine(st, "BEGIN", "VEVENT", nd);
    PlainLine(st, "END", "VEVENT", nd);
  }

  lemma CalendarCloses(nd: NewDate, st: Reading)
    requires !st.inEvent
    ensures ReadLine(st, Line("END", "VCALENDAR"), nd) == Some(st)
    ensures ReadLine(st, "", nd) == Some(st)
  {
    hide ParseProperty;
    assert ToUpper("VCALENDAR")[1] == 'C' && "VEVENT"[1] == 'E';
    PlainLine(st, "END", "VCALENDAR", nd);
  }

  lemma UidReads(st: Reading, v: string, nd: NewDate)
    requires st.inEvent
    ensures ReadLine(st, Line("UID", EscapeText(v)), nd) == Some(st.(uid := Trim(v)))
  {
    hide ParseProperty, ReadLine, EscapeText, Unescape, Trim;
    ValueReads(v);
    PlainLine(st, "UID", EscapeText(v), nd);
  }

  lemma StampReads(st: Reading, d: Option<Instant>, nd: NewDate)
    requires st.inEvent
    ensures ReadLine(st, TimeLine("DTSTAMP", d, false), nd) == Some(st)
  {
    hide ReadLine, FormatDateTime;
    PlainLine(st, "DTSTAMP", FormatDateTime(d), nd);
  }

  lemma SummaryReads(st: Reading, v: string, nd: NewDate)
    requires st.inEvent
    ensures ReadLine(st, Line("SUMMARY", EscapeText(v)), nd) == Some(st.(summary := v))
  {
    hide ParseProperty, ReadLine, EscapeText, Unescape;
    ValueReads(v);
    PlainLine(st, "SUMMARY", EscapeText(v), nd);
  }

  function Survives(v: Option<string>): Option<string> {
    if v.Some? then NonEmpty(v.value) else None
  }

  lemma OptionsRead(st: Reading, loc: Option<string>, desc: Option<string>, nd: NewDate, rest: seq<string>)
    requires st.inEvent && st.location.None? && st.description.None?
    ensures ReadLines(st, OptionLine("LOCATION", loc) + (OptionLine("DESCRIPTION", desc) + rest), nd) ==
            ReadLines(st.(location := Survives(loc), description := Survives(desc)), rest, nd)
  {
    hide ReadLine, ReadLines, EscapeText, Unescape;
    var s1 := st.(location := Survives(loc));
    var more := OptionLine("DESCRIPTION", desc) + rest;
    if loc.Some? && loc.value != "" {
      ValueReads(loc.value);
      PlainLine(st, "LOCATION", EscapeText(loc.value), nd);
      NextLine(st, OptionLine("LOCATION", loc)[0], more, s1, nd);
    } else {
      assert OptionLine("LOCATION", loc) + more == more;
    }
    if desc.Some? && desc.value != "" {
      ValueReads(desc.value);
      PlainLine(s1, "DESCRIPTION", EscapeText(desc.value), nd);
      NextLine(s1, OptionLine("DESCRIPTION", desc)[0], rest, s1.(description := Survives(desc)), nd);
    } else {
      assert more == rest;
    }
  }

  /** The property a written time line parses to, and the time it carries. */
  lemma TimeProperty(n: string, i: Instant, allDay: bool, nd: NewDate) returns (p: Property)
    requires Name(n) && Writes(i) && ReadsIso(nd)
    ensures ParseProperty(TimeLine(n, Some(i), allDay)) == Some(p) && p.name == n
    ensures ParseDate(p, nd) == Some((ToIso(Coarsen(i, allDay)), allDay))
  {
    hide ParseProperty, FormatDate, FormatDateTime, ToIso, ReadsIso, ParseDate;
    if allDay {
      DateRead(n, FormatDate(Some(i)));
      p := Property(n, map["VALUE" := "DATE"], FormatDate(Some(i)));
      assert FormatDate(Some(i)) + "" == FormatDate(Some(i));
      DayTrimmed(i);
      DayReads(i, nd, p, "");
    } else {
      PlainRead(n, FormatDateTime(Some(i)));
      p := Property(n, map[], FormatDateTime(Some(i)));
      assert FormatDateTime(Some(i)) + "" == FormatDateTime(Some(i));
      DateTimeReads(i, nd, p, "Z");
    }
  }

  lemma StartReads(st: Reading, i: Instant, allDay: bool, nd: NewDate)
    requires st.inEvent && Writes(i) && ReadsIso(nd)
    ensures ReadLine(st, TimeLine("DTSTART", Some(i), allDay), nd) ==
            Some(st.(start := ToIso(Coarsen(i, allDay)), allDay := st.allDay || allDay))
  {
    hide ParseProperty, ToIso, ReadsIso, ParseDate;
    var p := TimeProperty("DTSTART", i, allDay, nd);
  }

  lemma EndReadsAt(st: Reading, i: Instant, allDay: bool, nd: NewDate)
    requires st.inEvent && Writes(i) && ReadsIso(nd)
    ensures ReadLine(st, TimeLine("DTEND", Some(i), allDay), nd) ==
            Some(st.(end := ToIso(Coarsen(i, allDay)), allDay := st.allDay || allDay))
  {
    hide ParseProperty, ToIso, ReadsIso, ParseDate;
    var p := TimeProperty("DTEND", i, allDay, nd);
  }

  lemma TimesRead(st: Reading, e: Event, s: Instant, t: Instant, nd: NewDate, rest: seq<string>)
    requires st.inEvent && !st.allDay && At(e, s, t) && ReadsIso(nd)
    ensures ReadLines(st, TimeLines(e, nd) + rest, nd) ==
            ReadLines(st.(start := ToIso(Coarsen(s, e.allDay)), end := ToIso(Coarsen(t, e.allDay)), allDay := e.allDay),
                      rest, nd)
  {
    hide ReadLine, ReadLines, TimeLine, ToIso;
    assert nd(ToIso(s)) == Some(s) && nd(ToIso(t)) == Some(t);
    var a, b := TimeLine("DTSTART", Some(s), e.allDay), TimeLine("DTEND", Some(t), e.allDay);
    StartReads(st, s, e.allDay, nd);
    var s1 := st.(start := ToIso(Coarsen(s, e.allDay)), allDay := e.allDay);
    EndReadsAt(s1, t, e.allDay, nd);
    NextLine(st, a, [b] + rest, s1, nd);
    NextLine(s1, b, rest, s1.(end := ToIso(Coarsen(t, e.allDay))), nd);
    assert [a, b] + rest == [a] + ([b] + rest);
  }

  /** The event read back from a written one. */
  function Normal(e: Event, s: Instant, t: Instant): ParseResult {
    if Trim(e.uid) == "" then NotAnEvent
    else Parsed(Event(Trim(e.uid), e.summary, ToIso(Coarsen(s, e.allDay)), ToIso(Coarsen(t, e.allDay)), e.allDay,
                      Survives(e.location), Survives(e.description)))
  }

  lemma EventLinesRead(e: Event, s: Instant, t: Instant, now: Instant, nd: NewDate)
    requires At(e, s, t) && ReadsIso(nd)
    ensures Finish(ReadLines(START, EventLines(e, now, nd) + [""], nd)) == Normal(e, s, t)
  {
    hide ReadLine, ReadLines, TimeLines, TimeLine, OptionLine, Line, HeadLines, ToIso, EscapeText, Trim, At, ReadsIso, Coarsen;
    var times, og, ds := TimeLines(e, nd), OptionLine("LOCATION", e.location), OptionLine("DESCRIPTION", e.description);
    var sum, uid, stamp := Line("SUMMARY", EscapeText(e.summary)), Line("UID", EscapeText(e.uid)),
      TimeLine("DTSTAMP", nd(ToIso(now)), false);
    var begin := Line("BEGIN", "VEVENT");
    var l6 := [Line("END", "VEVENT"), Line("END", "VCALENDAR"), ""];
    var l5 := og + (ds + l6);
    var l4 := [sum] + l5;
    var l3 := times + l4;
    var l2 := [begin] + ([uid] + ([stamp] + l3));
    assert EventLines(e, now, nd) + [""] == HeadLines() + l2;
    HeadReads(nd, l2);
    var s1 := START.(inEvent := true);
    EventOpens(START, nd);
    NextLine(START, begin, [uid] + ([stamp] + l3), s1, nd);
    var s2 := s1.(uid := Trim(e.uid));
    UidReads(s1, e.uid, nd);
    NextLine(s1, uid, [stamp] + l3, s2, nd);
    StampReads(s2, nd(ToIso(now)), nd);
    NextLine(s2, stamp, l3, s2, nd);
    TimesRead(s2, e, s, t, nd, l4);
    var s3 := s2.(start := ToIso(Coarsen(s, e.allDay)), end := ToIso(Coarsen(t, e.allDay)), allDay := e.allDay);
    SummaryReads(s3, e.summary, nd);
    var s4 := s3.(summary := e.summary);
    NextLine(s3, sum, l5, s4, nd);
    OptionsRead(s4, e.location, e.description, nd, l6);
    EndReads(s4.(location := Survives(e.location), description := Survives(e.description)), nd);
    IsoNotEmpty(Coarsen(s, e.allDay));
    IsoNotEmpty(Coarsen(t, e.allDay));
  }

  lemma IsoNotEmpty(i: Instant)
    ensures ToIso(i) != ""
  {
  }

  lemma EndReads(st: Reading, nd: NewDate)
    ensures ReadLines(st, [Line("END", "VEVENT"), Line("END", "VCALENDAR"), ""], nd) == Some(st.(inEvent := false))
  {
    hide ReadLine, Line;
    var s1 := st.(inEvent := false);
    var a, b := Line("END", "VEVENT"), Line("END", "VCALENDAR");
    EventOpens(st, nd);
    CalendarCloses(nd, s1);
    NextLine(s1, "", [], s1, nd);
    NextLine(s1, b, [""], s1, nd);
    NextLine(st, a, [b, ""], s1, nd);
    assert [""] + [] == [""] && [b] + [""] == [b, ""] && [a] + [b, ""] == [a, b, ""];
  }

  // ----- Every written line is one logical line -----

  lemma ValueLineLogical(n: string, v: string)
    requires Name(n) && '\r' !in v
    ensures Logical(Line(n, EscapeText(v)))
  {
    hide EscapeText, Line;
    EscapesAgree(v);
    EscapeOneLine(v);
    PlainLogical(n, EscapeText(v));
  }

  lemma PadOneLine(n: nat, width: nat)
    ensures OneLine(Pad(n, width)) && OneLine(Decimal(n))
  {
    hide PadStart, Decimal;
    PadStartFacts(Decimal(n), width);
  }

  lemma FormatOneLine(d: Option<Instant>)
    ensures OneLine(FormatDate(d)) && OneLine(FormatDateTime(d))
  {
    hide Pad, Decimal;
    assert OneLine("NaNNaNNaN");
    if d.Some? {
      PadOneLine(d.value.year, 4);
      PadOneLine(d.value.month, 2);
      PadOneLine(d.value.day, 2);
      PadOneLine(d.value.hour, 2);
      PadOneLine(d.value.minute, 2);
      PadOneLine(d.value.second, 2);
    }
  }

  lemma TimeLineLogical(n: string, d: Option<Instant>, allDay: bool)
    requires Name(n)
    ensures Logical(TimeLine(n, d, allDay))
  {
    hide FormatDate, FormatDateTime, Line;
    FormatOneLine(d);
    if allDay {
      var p := ";" + "VALUE=DATE";
      assert OneLine(p);
      LineLogical(n, p, FormatDate(d));
      Assoc(n, ";", "VALUE=DATE");
    } else {
      PlainLogical(n, FormatDateTime(d));
    }
  }

  lemma HeadLogical()
    ensures forall i :: 0 <= i < |HeadLines()| ==> Logical(HeadLines()[i])
  {
    hide Logical, Line;
    assert OneLine("VCALENDAR") && OneLine("2.0") && OneLine("GREGORIAN");
    PlainLogical("BEGIN", "VCALENDAR");
    PlainLogical("VERSION", "2.0");
    assert OneLine(PRODID);
    PlainLogical("PRODID", PRODID);
    PlainLogical("CALSCALE", "GREGORIAN");
  }

  lemma TailLogical()
    ensures Logical(Line("BEGIN", "VEVENT")) && Logical(Line("END", "VEVENT")) && Logical(Line("END", "VCALENDAR"))
  {
  }

  predicate Writable(e: Event) {
    && '\r' !in e.uid && '\r' !in e.summary
    && (e.location.Some? ==> '\r' !in e.location.value) && (e.description.Some? ==> '\r' !in e.description.value)
  }

  lemma FrontLogical(e: Event, now: Instant, nd: NewDate)
    requires '\r' !in e.uid
    ensures forall i :: 0 <= i < |FrontLines(e, now, nd)| ==> Logical(FrontLines(e, now, nd)[i])
  {
    hide Logical, EscapeText, TimeLine, HeadLines, Line, ToIso;
    HeadLogical();
    TailLogical();
    ValueLineLogical("UID", e.uid);
    TimeLineLogical("DTSTAMP", nd(ToIso(now)), false);
  }

  lemma OptionLogical(n: string, v: Option<string>)
    requires Name(n) && (v.Some? ==> '\r' !in v.value)
    ensures forall i :: 0 <= i < |OptionLine(n, v)| ==> Logical(OptionLine(n, v)[i])
  {
    hide Logical, EscapeText, Line;
    if v.Some? {
      ValueLineLogical(n, v.value);
    }
  }

  lemma EventLinesLogical(e: Event, now: Instant, nd: NewDate)
    requires Writable(e)
    ensures forall i :: 0 <= i < |EventLines(e, now, nd)| ==> Logical(EventLines(e, now, nd)[i])
  {
    hide Logical, FrontLines, TimeLine, OptionLine, EscapeText, Line;
    FrontLogical(e, now, nd);
    TimeLineLogical("DTSTART", nd(e.startsAt), e.allDay);
    TimeLineLogical("DTEND", nd(e.endsAt), e.allDay);
    ValueLineLogical("SUMMARY", e.summary);
    OptionLogical("LOCATION", e.location);
    OptionLogical("DESCRIPTION", e.description);
    TailLogical();
  }

  /** What is read back, for every event whose texts have no carriage return. */
  lemma WrittenEventReads(e: Event, s: Instant, t: Instant, now: Instant, nd: NewDate)
    requires Writable(e) && At(e, s, t) && ReadsIso(nd)
    ensures Parse(Serialize(e, now, nd), nd) == Normal(e, s, t)
    ensures forall p :: p in PhysicalLines(Serialize(e, now, nd)) ==> |p| <= 75
  {
    hide Unfold, Print, ReadLines, Finish, Normal, Logical, EventLines;
    EventLinesLogical(e, now, nd);
    LinesNotEmpty(e, now, nd);
    FoldingRoundTrip(EventLines(e, now, nd));
    EventLinesRead(e, s, t, now, nd);
  }

  /** The lines around a written event's own, and its time stamp. */
  lemma WrittenEnvelope(e: Event, now: Instant, nd: NewDate)
    requires Writable(e) && Real(now) && ReadsIso(nd)
    ensures var ls := Unfold(Serialize(e, now, nd));
            && |ls| >= 8
            && ls[..5] == ["BEGIN:VCALENDAR", "VERSION:2.0", "PRODID:-//JustMail//Calendar//EN", "CALSCALE:GREGORIAN",
                           "BEGIN:VEVENT"]
            && ls[6] == "DTSTAMP:" + FormatDateTime(Some(now))
            && ls[|ls| - 3..] == ["END:VEVENT", "END:VCALENDAR", ""]
    ensures var ps := PhysicalLines(Serialize(e, now, nd)); Serialize(e, now, nd) == Terminated(ps[..|ps| - 1])
  {
    hide Unfold, Print, Logical, TimeLines, OptionLine, EscapeText, PhysicalLines, Terminated, FormatDateTime;
    EventLinesLogical(e, now, nd);
    LinesNotEmpty(e, now, nd);
    FoldingRoundTrip(EventLines(e, now, nd));
    EnvelopeLines();
    var ls := EventLines(e, now, nd) + [""];
    assert ls[0] == HeadLines()[0] && ls[1] == HeadLines()[1] && ls[2] == HeadLines()[2] && ls[3] == HeadLines()[3];
    assert nd(ToIso(now)) == Some(now);
    assert Line("DTSTAMP", FormatDateTime(Some(now))) == "DTSTAMP:" + FormatDateTime(Some(now)) by {
      assert "DTSTAMP" + ":" == "DTSTAMP:";
    }
  }

  lemma EnvelopeLines()
    ensures Line("BEGIN", "VCALENDAR") == "BEGIN:VCALENDAR" && Line("VERSION", "2.0") == "VERSION:2.0"
    ensures Line("PRODID", PRODID) == "PRODID:-//JustMail//Calendar//EN"
    ensures Line("CALSCALE", "GREGORIAN") == "CALSCALE:GREGORIAN" && Line("BEGIN", "VEVENT") == "BEGIN:VEVENT"
    ensures Line("END", "VEVENT") == "END:VEVENT" && Line("END", "VCALENDAR") == "END:VCALENDAR"
  {
  }

  lemma LinesNotEmpty(e: Event, now: Instant, nd: NewDate)
    ensures EventLines(e, now, nd) != []
  {
  }

  // ----- Every event that is read has no carriage return -----

  predicate CleanReading(st: Reading) {
    && '\r' !in st.uid && '\r' !in st.summary
    && (st.location.Some? ==> '\r' !in st.location.value) && (st.description.Some? ==> '\r' !in st.description.value)
  }

  lemma ReadLineClean(st: Reading, line: string, nd: NewDate)
    requires CleanReading(st) && OneLine(line) && ReadLine(st, line, nd).Some?
    ensures CleanReading(ReadLine(st, line, nd).value)
  {
    hide Unescape, Trim, ParseDate, ParseProperty;
    var p := ParseProperty(line);
    if p.Some? {
      ValueClean(line);
      UnescapeKeeps(p.value.value);
      TrimFacts(Unescape(p.value.value));
    }
  }

  lemma ValueClean(line: string)
    requires OneLine(line) && ParseProperty(line).Some?
    ensures '\r' !in ParseProperty(line).value.value
  {
  }

  lemma {:induction false} ReadLinesClean(st: Reading, lines: seq<string>, nd: NewDate)
    requires CleanReading(st) && forall i :: 0 <= i < |lines| ==> OneLine(lines[i])
    ensures ReadLines(st, lines, nd).Some? ==> CleanReading(ReadLines(st, lines, nd).value)
    decreases |lines|
  {
    hide CleanReading, ReadLine;
    if lines != [] && ReadLine(st, lines[0], nd).Some? {
      ReadLineClean(st, lines[0], nd);
      ReadLinesClean(ReadLine(st, lines[0], nd).value, lines[1..], nd);
    }
  }

  lemma ReadEventWritable(text: string, nd: NewDate)
    ensures Parse(text, nd).Parsed? ==> Writable(Parse(text, nd).event)
  {
    hide Unfold, ReadLines;
    UnfoldedLines(text);
    ReadLinesClean(START, Unfold(text), nd);
  }

  /** The round trip, exactly: an event comes back unchanged if and only if it is canonical. */
  lemma RoundTripIffCanonical(e: Event, s: Instant, t: Instant, now: Instant, nd: NewDate)
    requires At(e, s, t) && ReadsIso(nd)
    ensures Parse(Serialize(e, now, nd), nd) == Parsed(e) <==> Canonical(e, s, t)
  {
    hide Parse, Serialize, ToIso, Trim, ReadsIso;
    if Parse(Serialize(e, now, nd), nd) == Parsed(e) {
      ReadEventWritable(Serialize(e, now, nd), nd);
    }
    if Writable(e) {
      WrittenEventReads(e, s, t, now, nd);
      TrimFacts(e.uid);
      CoarsenSame(s, e.allDay);
      CoarsenSame(t, e.allDay);
    }
  }

  lemma CoarsenSame(i: Instant, allDay: bool)
    requires Real(i)
    ensures ToIso(Coarsen(i, allDay)) == ToIso(i) <==> Coarse(i, allDay)
  {
    hide ToIso;
    if ToIso(Coarsen(i, allDay)) == ToIso(i) {
      IsoInjective(Coarsen(i, allDay), i);
    }
  }

  // ----- What other programs write -----

  predicate IsProperty(line: string, name: string) {
    ParseProperty(line).Some? && ParseProperty(line).value.name == name
  }

  /** What stands before the event, other calendar components included, does not matter. */
  lemma {:induction false} OutsideIgnored(before: seq<string>, lines: seq<string>, nd: NewDate)
    requires forall l :: l in before && IsProperty(l, "BEGIN") ==> ToUpper(ParseProperty(l).value.value) != "VEVENT"
    ensures ReadLines(START, before + lines, nd) == ReadLines(START, lines, nd)
    decreases |before|
  {
    hide ParseProperty, ParseDate;
    if before == [] {
      assert before + lines == lines;
    } else {
      assert before[0] in before && forall l :: l in before[1..] ==> l in before;
      assert (before + lines)[0] == before[0] && (before + lines)[1..] == before[1..] + lines;
      SkippedBefore(before[0], nd);
      OutsideIgnored(before[1..], lines, nd);
    }
  }

  lemma SkippedBefore(line: string, nd: NewDate)
    requires IsProperty(line, "BEGIN") ==> ToUpper(ParseProperty(line).value.value) != "VEVENT"
    ensures ReadLine(START, line, nd) == Some(START)
  {
    hide ParseProperty, ParseDate;
  }

  lemma {:induction false} NoEndRead(st: Reading, lines: seq<string>, nd: NewDate)
    requires forall l :: l in lines ==> !IsProperty(l, "DTEND")
    ensures ReadLines(st, lines, nd).Some? ==> ReadLines(st, lines, nd).value.end == st.end
    decreases |lines|
  {
    hide ParseProperty, ParseDate, Unescape, Trim;
    if lines != [] && ReadLine(st, lines[0], nd).Some? {
      assert lines[0] in lines && forall l :: l in lines[1..] ==> l in lines;
      NoEndRead(ReadLine(st, lines[0], nd).value, lines[1..], nd);
    }
  }

  /** An event without an end lasts until its start. */
  lemma EndsWhereItStarts(text: string, nd: NewDate)
    requires forall l :: l in Unfold(text) ==> !IsProperty(l, "DTEND")
    ensures Parse(text, nd).Parsed? ==> Parse(text, nd).event.endsAt == Parse(text, nd).event.startsAt
  {
    hide ReadLines, Unfold, IsProperty;
    NoEndRead(START, Unfold(text), nd);
  }
}
