/**
 The vCard codec (apps/api/src/contacts/vcard.ts, RFC 2426).
 */
module VCard {
  import opened Text
  import opened LineCodec

  /** An e-mail address or a telephone number with its optional label. */
  datatype Entry = Entry(value: string, tag: Option<string>)
  datatype Card = Card(uid: string, fullName: string, emails: seq<Entry>, phones: seq<Entry>,
                       organization: Option<string>, note: Option<string>)

  // ----- Reading one property line -----

  datatype Property = Property(name: string, params: map<string, seq<string>>, value: string)

  /** The first colon outside double quotes. */
  function ColonAt(line: string, inQuote: bool): (r: Option<nat>)
    ensures r.Some? ==> r.value < |line|
  {
    if line == "" then None
    else if line[0] == ':' && !inQuote then Some(0)
    else
      var r := ColonAt(line[1..], if line[0] == '"' then !inQuote else inQuote);
      if r.Some? then Some(r.value + 1) else None
  }

  function DropQuotes(s: string): string {
    Subst(s, '"', "")
  }

  function DropAllQuotes(ss: seq<string>): seq<string> {
    seq(|ss|, i requires 0 <= i < |ss| => DropQuotes(ss[i]))
  }

  function Values(params: map<string, seq<string>>, key: string): seq<string> {
    if key in params then params[key] else []
  }

  /** A segment without `=` is a bare TYPE value. */
  function AddParam(params: map<string, seq<string>>, seg: string): map<string, seq<string>> {
    var eq := IndexOf(seg, '=');
    if eq.None? then params["TYPE" := Values(params, "TYPE") + [DropQuotes(seg)]]
    else
      var key := ToUpper(seg[..eq.value]);
      params[key := Values(params, key) + DropAllQuotes(Split(seg[eq.value + 1..], ','))]
  }

  function AddParams(params: map<string, seq<string>>, segs: seq<string>): map<string, seq<string>>
    decreases |segs|
  {
    if segs == [] then params else AddParams(AddParam(params, segs[0]), segs[1..])
  }

  function ParseProperty(line: string): Option<Property> {
    var colon := ColonAt(line, false);
    if colon.None? then None
    else
      var segs := SplitUnescaped(line[..colon.value], ';');
      Some(Property(ToUpper(segs[0]), AddParams(map[], segs[1..]), line[colon.value + 1..]))
  }

  /** parseProperty: the quote-tracking scan and the parameter loop. */
  method ParsePropertyLoop(line: string) returns (p: Option<Property>)
    ensures p == ParseProperty(line)
  {
    var colon := -1;
    var inQuote := false;
    var i := 0;
    assert line[0..] == line;
    while i < |line| && colon == -1
      invariant 0 <= i <= |line|
      invariant if colon == -1 then
          ColonAt(line, false) == Shift(ColonAt(line[i..], inQuote), i)
        else 0 <= colon < |line| && ColonAt(line, false) == Some(colon)
      decreases |line| - i, colon == -1
    {
      var ch := line[i];
      assert line[i..][1..] == line[i + 1..] && line[i..][0] == ch;
      if ch == '"' {
        inQuote := !inQuote;
        i := i + 1;
      } else if ch == ':' && !inQuote {
        colon := i;
      } else {
        i := i + 1;
      }
    }
    if colon == -1 {
      assert line[i..] == "";
      return None;
    }
    var segments := SplitUnescapedLoop(line[..colon], ';');
    var params: map<string, seq<string>> := map[];
    for k := 1 to |segments|
      invariant AddParams(params, segments[k..]) == AddParams(map[], segments[1..])
    {
      assert segments[k..][1..] == segments[k + 1..];
      params := AddParam(params, segments[k]);
    }
    p := Some(Property(ToUpper(segments[0]), params, line[colon + 1..]));
  }

  function Shift(r: Option<nat>, i: nat): Option<nat> {
    if r.Some? then Some(r.value + i) else None
  }

  /** firstType: the first TYPE value other than `pref`, else the first. */
  function FirstType(p: Property): Option<string> {
    var types := Values(p.params, "TYPE");
    if types == [] then None else Some(ToLower(Preferred(types, types[0])))
  }

  function Preferred(types: seq<string>, default: string): string {
    if types == [] then default
    else if ToLower(types[0]) != "pref" then types[0]
    else Preferred(types[1..], default)
  }

  // ----- Reading a card -----

  /** The variables of parseVCard. */
  datatype Reading = Reading(uid: string, fn: string, nFallback: string, emails: seq<Entry>, phones: seq<Entry>,
                             organization: Option<string>, note: Option<string>)

  const START := Reading("", "", "", [], [], None, None)

  /** `value.replace(/^urn:uuid:/i, "")` */
  function StripUrn(uid: string): string {
    if |uid| >= 9 && ToLower(uid[..9]) == "urn:uuid:" then uid[9..] else uid
  }

  function AddEntry(es: seq<Entry>, p: Property): seq<Entry> {
    var v := Trim(Unescape(p.value));
    if v == "" then es else es + [Entry(v, FirstType(p))]
  }

  /** The display fallback built from Family;Given. */
  function NameFallback(value: string): string {
    var parts := SplitUnescaped(value, ';');
    var family := Unescape(parts[0]);
    var given := if |parts| > 1 then Unescape(parts[1]) else "";
    Trim(if given == "" then family else if family == "" then given else given + " " + family)
  }

  function ReadProperty(st: Reading, p: Property): Reading {
    if p.name == "UID" then st.(uid := StripUrn(Unescape(p.value)))
    else if p.name == "FN" then st.(fn := Unescape(p.value))
    else if p.name == "N" then st.(nFallback := NameFallback(p.value))
    else if p.name == "EMAIL" then st.(emails := AddEntry(st.emails, p))
    else if p.name == "TEL" then st.(phones := AddEntry(st.phones, p))
    else if p.name == "ORG" then st.(organization := NonEmpty(Trim(Unescape(SplitUnescaped(p.value, ';')[0]))))
    else if p.name == "NOTE" then st.(note := NonEmpty(Unescape(p.value)))
    else st
  }

  function ReadLine(st: Reading, line: string): Reading {
    var p := ParseProperty(line);
    if line == "" || p.None? then st else ReadProperty(st, p.value)
  }

  function ReadLines(st: Reading, lines: seq<string>): Reading
    decreases |lines|
  {
    if lines == [] then st else ReadLines(ReadLine(st, lines[0]), lines[1..])
  }

  function Finish(st: Reading): Option<Card> {
    if st.uid == "" then None
    else Some(Card(st.uid, if st.fn != "" then st.fn else st.nFallback, st.emails, st.phones, st.organization, st.note))
  }

  function Parse(text: string): Option<Card> {
    Finish(ReadLines(START, Unfold(text)))
  }

  /** parseVCard */
  method ParseVCard(text: string) returns (card: Option<Card>)
    ensures card == Parse(text)
  {
    hide ReadLine, Unfold;
    var lines := UnfoldLines(text);
    var st := START;
    for i := 0 to |lines|
      invariant ReadLines(st, lines[i..]) == ReadLines(START, lines)
    {
      assert lines[i..][1..] == lines[i + 1..];
      st := ReadOne(st, lines[i]);
    }
    card := Finish(st);
  }

  /** One turn of the loop of parseVCard. */
  method ReadOne(st: Reading, line: string) returns (next: Reading)
    ensures next == ReadLine(st, line)
  {
    if line == "" {
      return st;
    }
    var prop := ParsePropertyLoop(line);
    if prop.None? {
      return st;
    }
    next := ReadProperty(st, prop.value);
  }

  // ----- Writing a card -----

  /** escapeParam: a label without the characters a bare parameter cannot hold. */
  function BareLabel(v: string): string {
    Trim(Subst(Subst(Subst(Subst(v, '"', ""), ';', ""), ':', ""), ',', ""))
  }

  function TypeSuffix(tag: Option<string>): string {
    if tag.Some? && tag.value != "" then ";" + ("TYPE=" + BareLabel(tag.value)) else ""
  }

  function EntryLine(name: string, e: Entry): string {
    Line(name + TypeSuffix(e.tag), EscapeValue(e.value))
  }

  function EntryLines(name: string, es: seq<Entry>): seq<string> {
    seq(|es|, i requires 0 <= i < |es| => EntryLine(name, es[i]))
  }

  function OptionLine(name: string, v: Option<string>): seq<string> {
    if v.Some? && v.value != "" then [Line(name, EscapeValue(v.value))] else []
  }

  const PRODID := "-//JustMail//Contacts//EN"

  function HeadLines(): seq<string> {
    [Line("BEGIN", "VCARD"), Line("VERSION", "3.0"), Line("PRODID", PRODID)]
  }

  function FrontLines(c: Card): seq<string> {
    HeadLines() + [Line("UID", EscapeValue(c.uid)), Line("FN", EscapeValue(c.fullName)),
                   Line("N", EscapeValue(c.fullName) + ";" + ";;;")]
  }

  function CardLines(c: Card): seq<string> {
    FrontLines(c) + EntryLines("EMAIL", c.emails) + EntryLines("TEL", c.phones)
    + OptionLine("ORG", c.organization) + OptionLine("NOTE", c.note) + [Line("END", "VCARD")]
  }

  function Serialize(c: Card): string {
    Print(CardLines(c))
  }

  /** serializeVCard */
  method SerializeVCard(card: Card) returns (text: string)
    ensures text == Serialize(card)
  {
    hide EntryLine, FrontLines, OptionLine, Print;
    var lines := FrontLines(card);
    for i := 0 to |card.emails|
      invariant lines == FrontLines(card) + EntryLines("EMAIL", card.emails[..i])
    {
      assert EntryLines("EMAIL", card.emails[..i + 1]) ==
             EntryLines("EMAIL", card.emails[..i]) + [EntryLine("EMAIL", card.emails[i])];
      lines := lines + [EntryLine("EMAIL", card.emails[i])];
    }
    assert card.emails[..|card.emails|] == card.emails;
    ghost var front := lines;
    for i := 0 to |card.phones|
      invariant lines == front + EntryLines("TEL", card.phones[..i])
    {
      assert EntryLines("TEL", card.phones[..i + 1]) ==
             EntryLines("TEL", card.phones[..i]) + [EntryLine("TEL", card.phones[i])];
      lines := lines + [EntryLine("TEL", card.phones[i])];
    }
    assert card.phones[..|card.phones|] == card.phones;
    lines := lines + OptionLine("ORG", card.organization) + OptionLine("NOTE", card.note);
    lines := lines + [Line("END", "VCARD")];
    text := PrintLines(lines);
  }
}
