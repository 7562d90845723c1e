/**
 Record contents as deSEC stores them (apps/api/src/dkim/desec.ts): TXT values as quoted strings of at most
 255 units (RFC 1035 section 3.3), MX as "priority target.".
 */
module Desec {
  import opened Text

  const LIMIT := 255

  // ----- The two replacements -----

  /** The length of the run of white space at the start. */
  function Run(s: string): (n: nat)
    ensures n <= |s| && (forall i :: 0 <= i < n ==> IsSpace(s[i])) && (n < |s| ==> !IsSpace(s[n]))
  {
    if s == "" || !IsSpace(s[0]) then 0 else 1 + Run(s[1..])
  }

  /** The length of a match of /"\s+"/ at the start, or 0. */
  function Gap(s: string): (n: nat)
    ensures n <= |s|
  {
    if s == "" || s[0] != '"' then 0
    else
      var n := Run(s[1..]);
      if n > 0 && n + 1 < |s| && s[n + 1] == '"' then n + 2 else 0
  }

  /** replace(/"\s+"/g, "") */
  function RemoveGaps(s: string): string
    decreases |s|
  {
    if s == "" then ""
    else if Gap(s) > 0 then RemoveGaps(s[Gap(s)..])
    else [s[0]] + RemoveGaps(s[1..])
  }

  /** replace(/^"|"$/g, "") */
  function StripEnds(s: string): string {
    var t := if s != "" && s[0] == '"' then s[1..] else s;
    if t != "" && t[|t| - 1] == '"' then t[..|t| - 1] else t
  }

  // ----- TXT -----

  /** match(/.{1,255}/gs), with [""] for no match */
  function Chunks(s: string): (r: seq<string>)
    ensures |r| >= 1
    decreases |s|
  {
    if |s| <= LIMIT then [s] else [s[..LIMIT]] + Chunks(s[LIMIT..])
  }

  function Quote(c: string): string {
    "\"" + c + "\""
  }

  function QuoteAll(chunks: seq<string>): string
    requires chunks != []
    decreases |chunks|
  {
    if |chunks| == 1 then Quote(chunks[0]) else Quote(chunks[0]) + " " + QuoteAll(chunks[1..])
  }

  function DecodeTxt(record: string): string {
    StripEnds(RemoveGaps(record))
  }

  function EncodeTxt(content: string): string {
    QuoteAll(Chunks(StripEnds(RemoveGaps(content))))
  }

  predicate AllSpace(s: string) {
    forall c :: c in s ==> IsSpace(c)
  }

  function Concat(chunks: seq<string>): string
    decreases |chunks|
  {
    if chunks == [] then "" else chunks[0] + Concat(chunks[1..])
  }

  /** The chunks are the value cut up, none too long, and none empty but for the empty value. */
  lemma {:induction false} ChunksCut(s: string)
    ensures Concat(Chunks(s)) == s
    ensures forall c :: c in Chunks(s) ==> |c| <= 255 && (c == "" ==> s == "") && forall x :: x in c ==> x in s
    ensures forall i :: 0 <= i < |Chunks(s)| - 1 ==> |Chunks(s)[i]| == 255
    decreases |s|
  {
    if |s| <= LIMIT {
      assert Concat([s]) == s + Concat([]);
    } else {
      var head, rest := s[..LIMIT], s[LIMIT..];
      ChunksCut(rest);
      var all := Chunks(s);
      assert all[1..] == Chunks(rest);
      assert Concat(all) == head + Concat(Chunks(rest));
    }
  }

  // ----- Removing the gaps of a quoted value -----

  /** Text without quotes is kept up to the next quote. */
  lemma {:induction false} KeepsPlain(a: string, b: string)
    requires '"' !in a
    ensures RemoveGaps(a + b) == a + RemoveGaps(b)
    decreases |a|
  {
    if a == "" {
      assert a + b == b;
    } else {
      var s := a + b;
      assert s[1..] == a[1..] + b && s[0] == a[0];
      assert RemoveGaps(s) == [a[0]] + RemoveGaps(a[1..] + b);
      hide RemoveGaps, Gap;
      KeepsPlain(a[1..], b);
      Assoc([a[0]], a[1..], RemoveGaps(b));
      assert a == [a[0]] + a[1..];
    }
  }

  lemma RunOf(w: string, rest: string)
    requires AllSpace(w) && (rest == "" || !IsSpace(rest[0]))
    ensures Run(w + rest) == |w|
    decreases |w|
  {
    if w == "" {
      assert w + rest == rest;
    } else {
      assert (w + rest)[1..] == w[1..] + rest;
      RunOf(w[1..], rest);
    }
  }

  /** A quoted run of white space is a gap. */
  lemma RemovesBlank(w: string, rest: string)
    requires w != "" && AllSpace(w)
    ensures RemoveGaps(Quote(w) + rest) == RemoveGaps(rest)
  {
    var s := Quote(w) + rest;
    assert s[1..] == w + ("\"" + rest);
    RunOf(w, "\"" + rest);
    assert s[|w| + 1] == '"';
    assert s[|w| + 2..] == rest;
  }

  /** Any other chunk keeps its opening quote and its text. */
  lemma KeepsOpening(c: string, rest: string)
    requires '"' !in c && (c == "" || !AllSpace(c))
    requires rest == "" || rest[0] == ' '
    ensures RemoveGaps(Quote(c) + rest) == "\"" + c + RemoveGaps("\"" + rest)
  {
    var s := Quote(c) + rest;
    var inner := c + ("\"" + rest);
    assert s[1..] == inner && s[0] == '"';
    NoGap(c, rest);
    assert s == "\"" + inner;
    assert RemoveGaps(s) == ['"'] + RemoveGaps(inner);
    hide RemoveGaps, Gap;
    KeepsPlain(c, "\"" + rest);
    Assoc("\"", c, RemoveGaps("\"" + rest));
  }

  lemma NoGap(c: string, rest: string)
    requires '"' !in c && (c == "" || !AllSpace(c))
    requires rest == "" || rest[0] == ' '
    ensures Gap("\"" + (c + ("\"" + rest))) == 0
  {
    var inner := c + ("\"" + rest);
    var s := "\"" + inner;
    assert s[1..] == inner;
    var n := Run(inner);
    if c != "" {
      var i :| 0 <= i < |c| && !IsSpace(c[i]);
      assert inner[i] == c[i];
      assert n <= i;
      assert inner[n] == c[n];
    } else {
      assert inner[0] == '"';
    }
  }

  predicate Plain(chunks: seq<string>) {
    forall c :: c in chunks ==> c != "" && '"' !in c
  }

  /** From inside a chunk on, every separator goes, whatever the chunks hold. */
  lemma {:induction false} JoinsRest(chunks: seq<string>)
    requires chunks != [] && Plain(chunks)
    ensures RemoveGaps("\" " + QuoteAll(chunks)) == Concat(chunks) + "\""
    decreases |chunks|
  {
    var c, more := chunks[0], chunks[1..];
    var after := if more == [] then "\"" else "\" " + QuoteAll(more);
    assert c in chunks;
    assert Concat(chunks) == c + Concat(more);
    assert "\" " + QuoteAll(chunks) == "\" \"" + (c + after);
    assert Plain(more) by { forall d | d in more ensures d != "" && '"' !in d { assert d in chunks; } }
    hide RemoveGaps, QuoteAll, Plain;
    SkipsSeparator(c + after);
    KeepsPlain(c, after);
    if more == [] {
      assert Concat(more) == "";
      LoneQuote();
    } else {
      hide Concat;
      JoinsRest(more);
      Assoc(c, Concat(more), "\"");
    }
  }

  lemma SkipsSeparator(t: string)
    ensures RemoveGaps("\" \"" + t) == RemoveGaps(t)
  {
    var s := "\" \"" + t;
    assert s[1..] == " " + s[2..];
    RunOf(" ", s[2..]);
    assert s[3..] == t;
  }

  lemma LoneQuote()
    ensures RemoveGaps("\"") == "\""
  {
  }

  /** A first chunk that is not blank: exactly the outer quotes are left around the value. */
  lemma Joins(chunks: seq<string>)
    requires chunks != [] && Plain(chunks) && !AllSpace(chunks[0])
    ensures RemoveGaps(QuoteAll(chunks)) == "\"" + Concat(chunks) + "\""
  {
    var c, more := chunks[0], chunks[1..];
    assert c in chunks;
    if more == [] {
      assert Concat(chunks) == c by { assert Concat(chunks) == c + Concat([]); }
      KeepsOpening(c, "");
      LoneQuote();
      hide RemoveGaps;
      assert Quote(c) + "" == Quote(c);
      assert "\"" + "" == "\"";
    } else {
      var rest := " " + QuoteAll(more);
      assert QuoteAll(chunks) == Quote(c) + rest;
      assert Concat(chunks) == c + Concat(more);
      assert Plain(more) by { forall d | d in more ensures d != "" && '"' !in d { assert d in chunks; } }
      hide RemoveGaps, QuoteAll, Concat, Quote, Plain;
      KeepsOpening(c, rest);
      assert "\"" + rest == "\" " + QuoteAll(more);
      JoinsRest(more);
      Assoc("\"" + c, Concat(more), "\"");
      Assoc("\"", c, Concat(more));
    }
  }

  /** A blank first chunk vanishes: what is left is too short, or still holds a quote before its end. */
  lemma {:induction false} LosesBlank(chunks: seq<string>)
    requires chunks != [] && Plain(chunks) && AllSpace(chunks[0])
    ensures var d := RemoveGaps(QuoteAll(chunks));
            && (d == "" || d[0] == ' ')
            && (|d| < |Concat(chunks)| || exists i :: 0 <= i < |d| - 1 && d[i] == '"')
    decreases |chunks|
  {
    var c, more := chunks[0], chunks[1..];
    assert c in chunks;
    var d := RemoveGaps(QuoteAll(chunks));
    if more == [] {
      RemovesBlank(c, "");
      assert Quote(c) + "" == Quote(c);
      assert Concat(chunks) == c + Concat([]);
    } else {
      var rest := " " + QuoteAll(more);
      assert QuoteAll(chunks) == Quote(c) + rest;
      assert Concat(chunks) == c + Concat(more) && c != "";
      hide RemoveGaps, QuoteAll, Concat, Quote;
      RemovesBlank(c, rest);
      KeepsPlain(" ", QuoteAll(more));
      var e := RemoveGaps(QuoteAll(more));
      assert d == " " + e;
      assert Plain(more) by { forall x | x in more ensures x != "" && '"' !in x { assert x in chunks; } }
      if AllSpace(more[0]) {
        LosesBlank(more);
        if i :| 0 <= i < |e| - 1 && e[i] == '"' { assert d[i + 1] == '"'; }
      } else {
        Joins(more);
        assert d[1] == '"';
      }
    }
  }

  // ----- The round trip -----

  /** Whatever quoting a content comes with: encoding then decoding gives its bare value back, exactly when stated. */
  lemma TxtRoundTripIff(content: string)
    requires '"' !in DecodeTxt(content)
    ensures var v := DecodeTxt(content);
            DecodeTxt(EncodeTxt(content)) == v <==> v == "" || !AllSpace(Chunks(v)[0])
  {
    var v := DecodeTxt(content);
    var chunks := Chunks(v);
    assert EncodeTxt(content) == QuoteAll(chunks);
    ChunksCut(v);
    if v == "" {
      EmptyRoundTrip();
    } else {
      assert Plain(chunks);
      hide DecodeTxt, EncodeTxt, Chunks, Plain;
      if AllSpace(chunks[0]) { BlankIsLost(chunks, v); } else { NonBlankComesBack(chunks, v); }
    }
  }

  lemma EmptyRoundTrip()
    ensures DecodeTxt(QuoteAll(Chunks(""))) == ""
  {
  }

  lemma NonBlankComesBack(chunks: seq<string>, v: string)
    requires chunks != [] && Plain(chunks) && !AllSpace(chunks[0]) && Concat(chunks) == v
    ensures DecodeTxt(QuoteAll(chunks)) == v
  {
    Joins(chunks);
    hide RemoveGaps, QuoteAll, Concat;
    var d := "\"" + v + "\"";
    assert d[1..] == v + "\"" && (v + "\"")[..|v|] == v;
  }

  lemma BlankIsLost(chunks: seq<string>, v: string)
    requires chunks != [] && Plain(chunks) && AllSpace(chunks[0]) && Concat(chunks) == v && '"' !in v
    ensures DecodeTxt(QuoteAll(chunks)) != v
  {
    LosesBlank(chunks);
    hide RemoveGaps, QuoteAll, Concat;
    var d := RemoveGaps(QuoteAll(chunks));
    if i :| 0 <= i < |d| - 1 && d[i] == '"' {
      assert StripEnds(d)[i] == '"';
    }
  }

  /** A value without quotes is its own bare value. */
  lemma BareValue(v: string)
    requires '"' !in v
    ensures DecodeTxt(v) == v
  {
    KeepsPlain(v, "");
    assert v + "" == v;
  }

  /** For a quote-free value: decoding inverts encoding, and encoding twice is encoding once. */
  lemma TxtRoundTrip(v: string)
    requires '"' !in v
    ensures DecodeTxt(EncodeTxt(v)) == v <==> v == "" || !AllSpace(Chunks(v)[0])
    ensures DecodeTxt(EncodeTxt(v)) == v ==> EncodeTxt(EncodeTxt(v)) == EncodeTxt(v)
  {
    BareValue(v);
    TxtRoundTripIff(v);
  }

  /** The shortest value that does not survive. */
  lemma OneSpaceIsLost()
    ensures DecodeTxt(EncodeTxt(" ")) != " "
  {
    assert Chunks(" ") == [" "];
    TxtRoundTrip(" ");
  }

  // ----- MX -----

  /** split(/\s+/) */
  function SplitSpaces(s: string): seq<string>
    decreases |s|
  {
    var i := FirstSpace(s);
    if i == |s| then [s] else [s[..i]] + SplitSpaces(s[i + Run(s[i..])..])
  }

  function FirstSpace(s: string): (i: nat)
    ensures i <= |s| && (forall j :: 0 <= j < i ==> !IsSpace(s[j])) && (i < |s| ==> IsSpace(s[i]))
  {
    if s == "" || IsSpace(s[0]) then 0 else 1 + FirstSpace(s[1..])
  }

  function EncodeMx(content: string, priority: nat): string {
    Decimal(priority) + " " + (if content != "" && content[|content| - 1] == '.' then content else content + ".")
  }

  function DropDot(s: string): string {
    if s != "" && s[|s| - 1] == '.' then s[..|s| - 1] else s
  }

  function DecodeMx(record: string): (string, nat) {
    var parts := SplitSpaces(record);
    (DropDot(Join(parts[1..], " ")), Number(parts[0]))
  }

  /** The priority comes back, and the target without its final dot. */
  lemma MxRoundTrip(content: string, priority: nat)
    requires forall c :: c in content ==> !IsSpace(c)
    ensures DecodeMx(EncodeMx(content, priority)) == (DropDot(content), priority)
  {
    hide Decimal, Number;
    var p := Decimal(priority);
    var target := if content != "" && content[|content| - 1] == '.' then content else content + ".";
    var record := p + " " + target;
    assert record == p + (" " + target);
    FirstSpaceAt(p, " " + target);
    assert record[|p|..] == " " + target;
    RunOf(" ", target);
    assert record[|p| + 1..] == target;
    FirstSpaceAt(target, "");
    assert target + "" == target;
    assert SplitSpaces(target) == [target];
    assert SplitSpaces(record) == [p] + [target];
    NumberOfDecimal(priority);
  }

  lemma FirstSpaceAt(a: string, b: string)
    requires (forall c :: c in a ==> !IsSpace(c)) && (b == "" || IsSpace(b[0]))
    ensures FirstSpace(a + b) == |a|
  {
    if a == "" {
      assert a + b == b;
    } else {
      assert (a + b)[1..] == a[1..] + b;
      FirstSpaceAt(a[1..], b);
    }
  }
}
