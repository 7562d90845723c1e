/**
 The iCalendar codec (apps/api/src/calendar/ical.ts, RFC 5545).  The `Date`
 constructor is a parameter, `newDate`; None is an invalid date.
 */
module ICal {
  import opened Text
  import opened LineCodec

  // ----- Instants and the texts they are exchanged in -----

  datatype Instant = Instant(year: nat, month: nat, day: nat, hour: nat, minute: nat, second: nat, milli: nat)

  type NewDate = string -> Option<Instant>

  function DaysIn(year: nat, month: nat): nat {
    if month == 2 then (if year % 4 == 0 && (year % 100 != 0 || year % 400 == 0) then 29 else 28)
    else if month in [4, 6, 9, 11] then 30 else 31
  }

  predicate Real(i: Instant) {
    && i.year <= 9999 && 1 <= i.month <= 12 && 1 <= i.day <= DaysIn(i.year, i.month)
    && i.hour < 24 && i.minute < 60 && i.second < 60 && i.milli < 1000
  }

  /** pad */
  function Pad(n: nat, width: nat): string {
    PadStart(Decimal(n), width)
  }

  function DayText(i: Instant): string {
    Pad(i.year, 4) + "-" + Pad(i.month, 2) + "-" + Pad(i.day, 2)
  }

  function SecondText(i: Instant): string {
    DayText(i) + "T" + (Pad(i.hour, 2) + ":" + Pad(i.minute, 2) + ":" + Pad(i.second, 2))
  }

  /** The text without milliseconds that parseDate puts together. */
  function IsoSeconds(i: Instant): string {
    SecondText(i) + "Z"
  }

  /** `toISOString()` */
  function ToIso(i: Instant): string {
    SecondText(i) + "." + Pad(i.milli, 3) + "Z"
  }

  /** What the codec relies on: a real instant's ISO text is read back as that instant. */
  ghost predicate ReadsIso(newDate: NewDate) {
    forall i :: Real(i) ==>
      newDate(ToIso(i)) == Some(i) && (i.milli == 0 ==> newDate(IsoSeconds(i)) == Some(i))
  }

  // ----- Properties -----

  datatype Property = Property(name: string, params: map<string, string>, value: string)

  function AddParams(params: map<string, string>, segs: seq<string>): map<string, string>
    decreases |segs|
  {
    if segs == [] then params
    else
      var eq := IndexOf(segs[0], '=');
      AddParams(if eq.None? then params
                else params[ToUpper(segs[0][..eq.value]) := Subst(segs[0][eq.value + 1..], '"', "")], segs[1..])
  }

  /** parseProperty */
  function ParseProperty(line: string): Option<Property> {
    var colon := IndexOf(line, ':');
    if colon.None? then None
    else
      var segs := Split(line[..colon.value], ';');
      Some(Property(ToUpper(segs[0]), AddParams(map[], segs[1..]), line[colon.value + 1..]))
  }

  predicate AllDigits(s: string) {
    forall i :: 0 <= i < |s| ==> IsDigit(s[i])
  }

  /** `s.slice(a, b)` */
  function Slice(s: string, a: nat, b: nat): string
    requires a <= b
  {
    var lo, hi := if a <= |s| then a else |s|, if b <= |s| then b else |s|;
    s[lo..hi]
  }

  /** /^(\d{4})(\d{2})(\d{2})T(\d{2})(\d{2})(\d{2})(Z)?$/ */
  predicate IsDateTime(v: string) {
    && (|v| == 15 || (|v| == 16 && v[15] == 'Z'))
    && AllDigits(v[..8]) && v[8] == 'T' && AllDigits(v[9..15])
  }

  /** parseDate: the ISO text and whether the value was a DATE; None if `toISOString` throws. */
  function ParseDate(p: Property, newDate: NewDate): Option<(string, bool)> {
    var v := Trim(p.value);
    var isDate := ("VALUE" in p.params && p.params["VALUE"] == "DATE") || (|v| == 8 && AllDigits(v));
    if isDate then
      var d := newDate(Slice(v, 0, 4) + "-" + Slice(v, 4, 6) + "-" + Slice(v, 6, 8) + "T00:00:00Z");
      if d.Some? then Some((ToIso(d.value), true)) else None
    else if IsDateTime(v) then
      var d := newDate(v[..4] + "-" + v[4..6] + "-" + v[6..8] + "T" + v[9..11] + ":" + v[11..13] + ":" + v[13..15] + "Z");
      if d.Some? then Some((ToIso(d.value), false)) else None
    else
      var d := newDate(v);
      Some((if d.Some? then ToIso(d.value) else ToIso(EPOCH), false))
  }

  const EPOCH := Instant(1970, 1, 1, 0, 0, 0, 0)

  // ----- Reading an event -----

  datatype Event = Event(uid: string, summary: string, startsAt: string, endsAt: string, allDay: bool,
                         location: Option<string>, description: Option<string>)

  datatype ParseResult = RangeError | NotAnEvent | Parsed(event: Event)

  /** The variables of parseICal. */
  datatype Reading = Reading(inEvent: bool, uid: string, summary: string, location: Option<string>,
                             description: Option<string>, start: string, end: string, allDay: bool)

  const START := Reading(false, "", "", None, None, "", "", false)

  /** One property; None if a date throws. */
  function ReadProperty(st: Reading, p: Property, newDate: NewDate): Option<Reading> {
    if p.name == "BEGIN" && ToUpper(p.value) == "VEVENT" then Some(st.(inEvent := true))
    else if p.name == "END" && ToUpper(p.value) == "VEVENT" then Some(st.(inEvent := false))
    else if !st.inEvent then Some(st)
    else if p.name == "UID" then Some(st.(uid := Trim(Unescape(p.value))))
    else if p.name == "SUMMARY" then Some(st.(summary := Unescape(p.value)))
    else if p.name == "LOCATION" then Some(st.(location := NonEmpty(Unescape(p.value))))
    else if p.name == "DESCRIPTION" then Some(st.(description := NonEmpty(Unescape(p.value))))
    else if p.name == "DTSTART" then
      var d := ParseDate(p, newDate);
      if d.Some? then Some(st.(start := d.value.0, allDay := st.allDay || d.value.1)) else None
    else if p.name == "DTEND" then
      var d := ParseDate(p, newDate);
      if d.Some? then Some(st.(end := d.value.0, allDay := st.allDay || d.value.1)) else None
    else Some(st)
  }

  function ReadLine(st: Reading, line: string, newDate: NewDate): Option<Reading> {
    var p := ParseProperty(line);
    if line == "" || p.None? then Some(st) else ReadProperty(st, p.value, newDate)
  }

  function ReadLines(st: Reading, lines: seq<string>, newDate: NewDate): Option<Reading>
    decreases |lines|
  {
    if lines == [] then Some(st)
    else
      var next := ReadLine(st, lines[0], newDate);
      if next.Some? then ReadLines(next.value, lines[1..], newDate) else None
  }

  function Finish(st: Option<Reading>): ParseResult {
    if st.None? then RangeError
    else
      var r := st.value;
      if r.uid == "" || r.start == "" then NotAnEvent
      else Parsed(Event(r.uid, r.summary, r.start, if r.end == "" then r.start else r.end, r.allDay,
                        r.location, r.description))
  }

  function Parse(text: string, newDate: NewDate): ParseResult {
    Finish(ReadLines(START, Unfold(text), newDate))
  }

  /** parseICal */
  method ParseICal(text: string, newDate: NewDate) returns (result: ParseResult)
    ensures result == Parse(text, newDate)
  {
    hide ReadProperty, ParseProperty, Unfold;
    var lines := UnfoldLines(text);
    var st := START;
    for i := 0 to |lines|
      invariant ReadLines(st, lines[i..], newDate) == ReadLines(START, lines, newDate)
    {
      var line := lines[i];
      assert lines[i..][1..] == lines[i + 1..];
      if line == "" {
        continue;
      }
      var prop := ParsePropertyLoop(line);
      if prop.None? {
        continue;
      }
      var next := ReadProperty(st, prop.value, newDate);
      if next.None? {
        return RangeError;
      }
      st := next.value;
    }
    result := Finish(Some(st));
  }

  /** parseProperty: the parameter loop. */
  method ParsePropertyLoop(line: string) returns (p: Option<Property>)
    ensures p == ParseProperty(line)
  {
    var colon := IndexOf(line, ':');
    if colon.None? {
      return None;
    }
    var segments := Split(line[..colon.value], ';');
    var params: map<string, string> := map[];
    for k := 1 to |segments|
      invariant AddParams(params, segments[k..]) == AddParams(map[], segments[1..])
    {
      var seg := segments[k];
      assert segments[k..][1..] == segments[k + 1..];
      var eq := IndexOf(seg, '=');
      if eq.Some? {
        params := params[ToUpper(seg[..eq.value]) := Subst(seg[eq.value + 1..], '"', "")];
      }
    }
    p := Some(Property(ToUpper(segments[0]), params, line[colon.value + 1..]));
  }

  // ----- Writing an event -----

  function FormatDate(d: Option<Instant>): string {
    if d.None? then "NaNNaNNaN"
    else Decimal(d.value.year) + Pad(d.value.month, 2) + Pad(d.value.day, 2)
  }

  function FormatDateTime(d: Option<Instant>): string {
    FormatDate(d) + "T"
    + (if d.None? then "NaNNaNNaN" else Pad(d.value.hour, 2) + Pad(d.value.minute, 2) + Pad(d.value.second, 2))
    + "Z"
  }

  /** A DTSTART, DTEND or DTSTAMP line. */
  function TimeLine(name: string, d: Option<Instant>, allDay: bool): string {
    if allDay then Line(name + ";" + "VALUE=DATE", FormatDate(d)) else Line(name, FormatDateTime(d))
  }

  function TimeLines(e: Event, newDate: NewDate): seq<string> {
    [TimeLine("DTSTART", newDate(e.startsAt), e.allDay), TimeLine("DTEND", newDate(e.endsAt), e.allDay)]
  }

  function OptionLine(name: string, v: Option<string>): seq<string> {
    if v.Some? && v.value != "" then [Line(name, EscapeText(v.value))] else []
  }

  function HeadLines(): seq<string> {
    [Line("BEGIN", "VCALENDAR"), Line("VERSION", "2.0"), Line("PRODID", PRODID), Line("CALSCALE", "GREGORIAN")]
  }

  const PRODID := "-//JustMail//Calendar//EN"

  function FrontLines(e: Event, now: Instant, newDate: NewDate): seq<string> {
    HeadLines() + [Line("BEGIN", "VEVENT"), Line("UID", EscapeText(e.uid)),
                   TimeLine("DTSTAMP", newDate(ToIso(now)), false)]
  }

  function EventLines(e: Event, now: Instant, newDate: NewDate): seq<string> {
    FrontLines(e, now, newDate) + TimeLines(e, newDate) + [Line("SUMMARY", EscapeText(e.summary))]
    + OptionLine("LOCATION", e.location) + OptionLine("DESCRIPTION", e.description)
    + [Line("END", "VEVENT"), Line("END", "VCALENDAR")]
  }

  function Serialize(e: Event, now: Instant, newDate: NewDate): string {
    Print(EventLines(e, now, newDate))
  }

  /** serializeICal */
  method SerializeICal(event: Event, now: Instant, newDate: NewDate) returns (text: string)
    ensures text == Serialize(event, now, newDate)
  {
    hide TimeLines, FrontLines, OptionLine, Line, Print;
    var lines := FrontLines(event, now, newDate);
    lines := lines + TimeLines(event, newDate);
    lines := lines + [Line("SUMMARY", EscapeText(event.summary))];
    lines := lines + OptionLine("LOCATION", event.location);
    lines := lines + OptionLine("DESCRIPTION", event.description);
    lines := lines + [Line("END", "VEVENT"), Line("END", "VCALENDAR")];
    text := PrintLines(lines);
  }
}
