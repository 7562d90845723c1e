/**
 Matching expected DNS records against a provider's (apps/api/src/dkim/dns-reconcile.ts).
 */
module DnsReconcile {
  import opened Text

  datatype ProviderRecord = ProviderRecord(id: nat, kind: string, name: string, content: string, ttl: int,
                                           priority: Option<int>)
  datatype Expected = Expected(rowId: nat, kind: string, name: string, content: string, ttl: int,
                               priority: Option<int>)

  /** The record an expected row asks for, under a given provider id. */
  function Payload(r: Expected, id: nat): ProviderRecord {
    ProviderRecord(id, r.kind, r.name, r.content, r.ttl, r.priority)
  }

  /** `s.replace(/^"|"$/g, "").trim()` */
  function Strip(s: string): string {
    var t := if s != "" && s[0] == '"' then s[1..] else s;
    Trim(if t != "" && t[|t| - 1] == '"' then t[..|t| - 1] else t)
  }

  const KINDS := ["v=spf1", "v=dmarc1", "v=stsv1", "v=tlsrptv1", "v=bimi1", "v=dkim1"]

  predicate IsWordChar(c: char) {
    'a' <= c <= 'z' || 'A' <= c <= 'Z' || '0' <= c <= '9' || c == '_'
  }

  /** `token` begins `c` and ends at a word boundary. */
  predicate HasToken(c: string, token: string) {
    token <= c && (|c| == |token| || !IsWordChar(c[|token|]))
  }

  function FirstToken(tokens: seq<string>, c: string): Option<string> {
    if tokens == [] then None
    else if HasToken(c, tokens[0]) then Some(tokens[0])
    else FirstToken(tokens[1..], c)
  }

  /** txtKind: what a TXT record is for; None for one the reconciler does not manage. */
  function TxtKind(content: string): Option<string> {
    var c := ToLower(Strip(content));
    var t := FirstToken(KINDS, c);
    if t.Some? then t else if "justmail-verify=" <= c then Some("justmail-verify") else None
  }

  function FirstWord(s: string): string {
    if s == "" || IsSpace(s[0]) then "" else [s[0]] + FirstWord(s[1..])
  }

  /** mxHost: "10 mail.example.com." gives "mail.example.com" */
  function MxHost(content: string): string {
    var t := Trim(content);
    var first := FirstWord(t);
    var second := FirstWord(TrimStart(if |first| <= |t| then t[|first|..] else ""));
    var host := if second != "" then second else first;
    ToLower(if host != "" && host[|host| - 1] == '.' then host[..|host| - 1] else host)
  }

  lemma {:induction false} FirstTokenIff(tokens: seq<string>, c: string)
    ensures FirstToken(tokens, c).Some? ==> FirstToken(tokens, c).value in tokens && HasToken(c, FirstToken(tokens, c).value)
    ensures FirstToken(tokens, c).None? ==> forall t :: t in tokens ==> !HasToken(c, t)
  {
    hide HasToken;
    if tokens != [] {
      FirstTokenIff(tokens[1..], c);
    }
  }

  /** The recognised purposes, and what a TXT record must begin with, in any case, to be one's. */
  lemma TxtKindIff(content: string, kind: string)
    ensures TxtKind(content) == Some(kind) <==>
            var c := ToLower(Strip(content));
            || (kind in ["v=spf1", "v=dmarc1", "v=stsv1", "v=tlsrptv1", "v=bimi1", "v=dkim1"]
                && kind <= c && (|c| == |kind| || !IsWordChar(c[|kind|])))
            || (kind == "justmail-verify" && "justmail-verify=" <= c)
  {
    hide Strip, ToLower, IsWordChar;
    var c := ToLower(Strip(content));
    FirstTokenIff(KINDS, c);
    var t := FirstToken(KINDS, c);
    if t.Some? {
      OneToken(c, t.value, kind);
      assert t.value[0] == 'v' && c[0] == 'v';
    }
  }

  /** A content begins with at most one of the tokens. */
  lemma OneToken(c: string, s: string, t: string)
    requires s in KINDS && s <= c
    ensures t in KINDS && t <= c ==> s == t
  {
    assert forall k :: k in KINDS ==> |k| >= 4;
    if t in KINDS && t <= c {
      assert s[2] == c[2] == t[2] && s[3] == c[3] == t[3];
    }
  }

  predicate IsWord(s: string) {
    s != "" && forall i :: 0 <= i < |s| ==> !IsSpace(s[i])
  }

  lemma {:induction false} FirstWordReads(w: string, rest: string)
    requires IsWord(w) && (rest == "" || IsSpace(rest[0]))
    ensures FirstWord(w + rest) == w
    decreases |w|
  {
    hide IsSpace;
    assert (w + rest)[1..] == w[1..] + rest;
    if |w| == 1 {
      assert w[1..] + rest == rest;
    } else {
      FirstWordReads(w[1..], rest);
    }
    assert [w[0]] + w[1..] == w;
  }

  function Undotted(host: string): string {
    if host != "" && host[|host| - 1] == '.' then host[..|host| - 1] else host
  }

  /** The host of an MX content is its second word, or its only one, without a final dot and in lower case. */
  lemma MxHostReads(priority: string, space: char, host: string)
    requires IsWord(priority) && IsSpace(space) && IsWord(host)
    ensures MxHost(priority + [space] + host) == ToLower(Undotted(host))
    ensures MxHost(host) == ToLower(Undotted(host))
  {
    hide IsSpace, ToLower;
    var t := priority + [space] + host;
    TrimFacts(t);
    TrimFacts(host);
    hide Trim;
    FirstWordReads(priority, [space] + host);
    assert t == priority + ([space] + host);
    assert t[|priority|..] == [space] + host && ([space] + host)[1..] == host;
    assert TrimStart(host) == host;
    assert host + "" == host;
    FirstWordReads(host, "");
    assert host[|host|..] == "";
    assert TrimStart("") == "" && FirstWord("") == "";
  }

  predicate AllSpace(s: string) {
    forall i :: 0 <= i < |s| ==> IsSpace(s[i])
  }

  /** Neither outer quotes nor white space inside or without them count when contents are compared. */
  lemma StripQuoted(w: string, s: string, v: string)
    requires Trimmed(s) && (s == "" || (s[0] != '"' && s[|s| - 1] != '"')) && AllSpace(w) && AllSpace(v)
    ensures Strip("\"" + (w + s + v) + "\"") == s && Strip(w + s + v) == s
  {
    hide IsSpace;
    var t := w + s + v;
    QuoteIsNoSpace();
    TrimPadded(w, s, v);
    hide Trim;
    var q := "\"" + t + "\"";
    assert q[1..] == t + "\"" && (t + "\"")[..|t|] == t;
    assert t != "" ==> t[0] != '"' && t[|t| - 1] != '"' by {
      if t != "" { assert t[0] == if w != "" then w[0] else if s != "" then s[0] else v[0]; }
    }
  }

  lemma QuoteIsNoSpace()
    ensures !IsSpace('"')
  {
  }

  type Pred = ProviderRecord -> bool

  /** `xs.find(p)` */
  function Find(xs: seq<ProviderRecord>, p: Pred): (r: Option<ProviderRecord>)
    ensures r.Some? ==> r.value in xs && p(r.value)
    ensures r.None? ==> forall x :: x in xs ==> !p(x)
  {
    if xs == [] then None else if p(xs[0]) then Some(xs[0]) else Find(xs[1..], p)
  }

  /** `xs.filter(p)` */
  function Filter(xs: seq<ProviderRecord>, p: Pred): (r: seq<ProviderRecord>)
    ensures forall x :: x in r <==> x in xs && p(x)
  {
    if xs == [] then [] else (if p(xs[0]) then [xs[0]] else []) + Filter(xs[1..], p)
  }

  function SameText(content: string): Pred {
    (e: ProviderRecord) => Strip(e.content) == Strip(content)
  }

  function OfKind(kind: Option<string>): Pred {
    (e: ProviderRecord) => TxtKind(e.content) == kind
  }

  function OfHost(host: string): Pred {
    (e: ProviderRecord) => MxHost(e.content) == host
  }

  function Duplicates(kind: Option<string>, chosen: nat): Pred {
    (e: ProviderRecord) => TxtKind(e.content) == kind && e.id != chosen
  }

  /** chooseExisting */
  function ChooseExisting(r: Expected, existing: seq<ProviderRecord>): Option<ProviderRecord> {
    var exact := Find(existing, SameText(r.content));
    if exact.Some? then exact
    else if r.kind == "TXT" then
      var kind := TxtKind(r.content);
      if kind.None? then None else Find(existing, OfKind(kind))
    else if r.kind == "MX" then Find(existing, OfHost(MxHost(r.content)))
    else if r.kind == "CAA" then None
    else if existing == [] then None else Some(existing[0])
  }

  /** staleDuplicates */
  function StaleDuplicates(r: Expected, existing: seq<ProviderRecord>, chosen: nat): seq<ProviderRecord> {
    var kind := TxtKind(r.content);
    if r.kind != "TXT" || kind.None? then [] else Filter(existing, Duplicates(kind, chosen))
  }

  /** A provider record that an expected row may overwrite or delete. */
  predicate Claims(r: Expected, e: ProviderRecord) {
    && e.kind == r.kind && e.name == r.name
    && (|| Strip(e.content) == Strip(r.content)
        || (r.kind == "TXT" && TxtKind(r.content).Some? && TxtKind(e.content) == TxtKind(r.content))
        || (r.kind == "MX" && MxHost(e.content) == MxHost(r.content))
        || (r.kind != "TXT" && r.kind != "MX" && r.kind != "CAA"))
  }

  /** Only claimed records are ever chosen or stale. */
  lemma ChosenIsClaimed(r: Expected, existing: seq<ProviderRecord>)
    requires forall e :: e in existing ==> e.kind == r.kind && e.name == r.name
    ensures var c := ChooseExisting(r, existing);
            (c.Some? ==> c.value in existing && Claims(r, c.value))
    ensures forall id, e :: e in StaleDuplicates(r, existing, id) ==> e in existing && Claims(r, e) && e.id != id
  {
  }

  /** A row never claims another row's record: at most one row per identity. */
  predicate Compatible(records: seq<Expected>) {
    forall i, j :: 0 <= i < |records| && 0 <= j < |records| && i != j ==> !Claims(records[i], Payload(records[j], 0))
  }
}
