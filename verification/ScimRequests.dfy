/**
 Reading SCIM requests (apps/api/src/scim/scim.service.ts, the pure helpers):
 which member ids and which new name a group PATCH operation carries.
 */
module ScimRequests {
  import opened Text

  /** A JSON value; numbers and booleans by the text `String(v)` gives them. */
  datatype Json =
    | Null
    | Scalar(text: string, truthy: bool)
    | Str(value: string)
    | Arr(items: seq<Json>)
    | Obj(fields: map<string, Json>)

  datatype PatchOp = PatchOp(op: string, path: Option<string>, value: Option<Json>)

  predicate IsHex(c: char) {
    '0' <= c <= '9' || 'a' <= c <= 'f' || 'A' <= c <= 'F'
  }

  /** isUuid */
  predicate IsUuid(v: string) {
    |v| == 36 && forall i :: 0 <= i < 36 ==> if i in [8, 13, 18, 23] then v[i] == '-' else IsHex(v[i])
  }

  /** The row id a UUID text names: the database compares UUIDs without regard to case, and keeps them in lower case. */
  function RowId(v: string): string {
    ToLower(v)
  }

  /** The row ids among request values. */
  function RowIds(ids: seq<string>): set<string> {
    set v | v in ids && IsUuid(v) :: RowId(v)
  }

  predicate Truthy(j: Json) {
    match j
    case Null => false
    case Scalar(_, truthy) => truthy
    case Str(s) => s != ""
    case _ => true
  }

  /** `String(j)`; composite values give text that is never an id. */
  function AsText(j: Json): string {
    match j
    case Null => "null"
    case Scalar(text, _) => text
    case Str(s) => s
    case _ => "[object]"
  }

  function ItemText(j: Json): string {
    match j
    case Obj(fields) => if "value" in fields && fields["value"] != Null then AsText(fields["value"]) else ""
    case Arr(_) => ""
    case _ => AsText(j)
  }

  function ItemTexts(items: seq<Json>): seq<string> {
    if items == [] then []
    else
      var t := ItemText(items[0]);
      (if t == "" then [] else [t]) + ItemTexts(items[1..])
  }

  /** memberValues */
  function MemberValues(value: Option<Json>): seq<string> {
    if value.None? then []
    else
      match value.value
      case Arr(items) => ItemTexts(items)
      case Obj(fields) =>
        if "value" in fields && Truthy(fields["value"]) then [AsText(fields["value"])] else []
      case _ => []
  }

  /** After the case-insensitive literal `lit`. */
  function After(s: string, lit: string): Option<string> {
    if |lit| <= |s| && ToLower(s[..|lit|]) == lit then Some(s[|lit|..]) else None
  }

  /** After one or more white-space characters. */
  function AfterSpaces(s: string): Option<string> {
    if s != "" && IsSpace(s[0]) then Some(TrimStart(s)) else None
  }

  /** `value\s+eq\s+"([^"]+)"\s*\]` after the opening bracket's white space. */
  function FilteredId(s: string): Option<string> {
    var a := After(s, "value");
    var b := if a.Some? then AfterSpaces(a.value) else None;
    var c := if b.Some? then After(b.value, "eq") else None;
    var d := if c.Some? then AfterSpaces(c.value) else None;
    var e := if d.Some? then After(d.value, "\"") else None;
    var close := if e.Some? then IndexOf(e.value, '"') else None;
    if close.None? || close.value == 0 then None
    else
      var rest := TrimStart(e.value[close.value + 1..]);
      if rest != "" && rest[0] == ']' then Some(e.value[..close.value]) else None
  }

  /** memberFromPath: the id in `members[value eq "..."]`, searched from the left. */
  function MemberFromPath(path: string): Option<string> {
    var m := After(path, "members[");
    var id := if m.Some? then FilteredId(TrimStart(m.value)) else None;
    if id.Some? then id
    else if path == "" then None
    else MemberFromPath(path[1..])
  }

  /** valueDisplayName */
  function ValueDisplayName(op: PatchOp): Option<string> {
    if op.path.Some? && op.path.value != "" && ToLower(op.path.value) == "displayname" then
      if op.value.Some? && op.value.value.Str? then Some(op.value.value.value) else None
    else if (op.path.None? || op.path.value == "") && op.value.Some? && op.value.value.Obj?
            && "displayName" in op.value.value.fields && op.value.value.fields["displayName"].Str?
    then Some(op.value.value.fields["displayName"].value)
    else None
  }

  /** What one PATCH operation on a group does. */
  datatype GroupOp =
    | AddMembers(ids: seq<string>)
    | RemoveMembers(ids: seq<string>)
    | ReplaceMembers(ids: seq<string>)
    | Rename(name: string)
    | Nothing

  /** The branches of the loop of patchGroup. */
  function Decode(op: PatchOp): GroupOp {
    var name := ToLower(op.op);
    var raw := if op.path.Some? then op.path.value else "";
    var path := ToLower(raw);
    if "members" <= path then
      var values := MemberValues(op.value);
      if name == "add" then AddMembers(values)
      else if name == "remove" then
        var target := MemberFromPath(raw);
        RemoveMembers(if target.Some? then [target.value] else values)
      else if name == "replace" then ReplaceMembers(values)
      else Nothing
    else if (path == "displayname" || raw == "") && ValueDisplayName(op).Some? then Rename(ValueDisplayName(op).value)
    else Nothing
  }

  predicate AllHex(s: string) {
    forall i :: 0 <= i < |s| ==> IsHex(s[i])
  }

  /** Groups of 8, 4, 4, 4 and 12 hexadecimal digits between dashes. */
  lemma UuidShape(a: string, b: string, c: string, d: string, e: string)
    requires |a| == 8 && |b| == 4 && |c| == 4 && |d| == 4 && |e| == 12
    requires AllHex(a) && AllHex(b) && AllHex(c) && AllHex(d) && AllHex(e)
    ensures IsUuid(a + "-" + b + "-" + c + "-" + d + "-" + e)
  {
    hide IsHex;
  }

  // ----- What a request says -----

  predicate IsText(j: Json, v: string) {
    j == Str(v) || (j.Scalar? && j.text == v)
  }

  /** The value lists this id: as an item or an item's "value" in an array, or as the "value" of a single object. */
  predicate Lists(value: Option<Json>, v: string) {
    value.Some? &&
    match value.value
    case Arr(items) =>
      exists i :: 0 <= i < |items| &&
        (IsText(items[i], v)
         || (items[i].Obj? && "value" in items[i].fields && IsText(items[i].fields["value"], v)))
    case Obj(fields) => "value" in fields && Truthy(fields["value"]) && IsText(fields["value"], v)
    case _ => false
  }

  lemma {:induction false} ItemTextsHold(items: seq<Json>, v: string)
    requires v != ""
    ensures v in ItemTexts(items) <==> exists i :: 0 <= i < |items| && ItemText(items[i]) == v
  {
    hide ItemText;
    if items != [] {
      ItemTextsHold(items[1..], v);
      if i :| 0 <= i < |items| && ItemText(items[i]) == v {
        assert i > 0 ==> items[1..][i - 1] == items[i];
      }
    }
  }

  /** memberValues finds exactly the ids a value lists. */
  lemma MemberValuesAreListed(value: Option<Json>, v: string)
    requires IsUuid(v)
    ensures v in MemberValues(value) <==> Lists(value, v)
  {
    if value.Some? && value.value.Arr? {
      ItemTextsHold(value.value.items, v);
    }
  }

  predicate Spaces(s: string) {
    forall i :: 0 <= i < |s| ==> IsSpace(s[i])
  }

  /** The parts of `members[value eq "id"]`, in any case and spacing. */
  datatype MemberFilter = MemberFilter(open: string, s1: string, attr: string, s2: string, eq: string, s3: string,
                                       id: string, s4: string)

  predicate IsFilter(f: MemberFilter) {
    && ToLower(f.open) == "members[" && Spaces(f.s1) && ToLower(f.attr) == "value"
    && Spaces(f.s2) && f.s2 != "" && ToLower(f.eq) == "eq" && Spaces(f.s3) && f.s3 != ""
    && f.id != "" && '"' !in f.id && Spaces(f.s4)
  }

  function Closing(f: MemberFilter, rest: string): string {
    f.s4 + ("]" + rest)
  }

  function Quoting(f: MemberFilter, rest: string): string {
    "\"" + (f.id + ("\"" + Closing(f, rest)))
  }

  function FilterText(f: MemberFilter, rest: string): string {
    f.open + (f.s1 + (f.attr + (f.s2 + (f.eq + (f.s3 + Quoting(f, rest))))))
  }

  /** A filter for this id stands at the start. */
  ghost predicate FilterAt(s: string, id: string) {
    exists f, rest :: IsFilter(f) && f.id == id && s == FilterText(f, rest)
  }

  function ReadFilter(s: string): Option<string> {
    var m := After(s, "members[");
    if m.Some? then FilteredId(TrimStart(m.value)) else None
  }

  lemma AfterWord(w: string, lit: string, t: string)
    requires ToLower(w) == lit
    ensures After(w + t, lit) == Some(t)
  {
    assert (w + t)[..|w|] == w && (w + t)[|w|..] == t;
  }

  lemma AfterParts(s: string, lit: string)
    requires After(s, lit).Some?
    ensures s == s[..|lit|] + After(s, lit).value && ToLower(s[..|lit|]) == lit
  {
  }

  lemma {:induction false} TrimSpaces(w: string, t: string)
    requires Spaces(w) && t != "" && !IsSpace(t[0])
    ensures TrimStart(w + t) == t
    ensures w != "" ==> AfterSpaces(w + t) == Some(t)
  {
    if w == "" {
      assert w + t == t;
    } else {
      TrimSpaces(w[1..], t);
      assert (w + t)[1..] == w[1..] + t;
    }
  }

  lemma {:induction false} TrimParts(s: string) returns (w: string)
    ensures Spaces(w) && s == w + TrimStart(s)
    ensures AfterSpaces(s).Some? ==> w != ""
  {
    w := "";
    if s != "" && IsSpace(s[0]) {
      var v := TrimParts(s[1..]);
      w := [s[0]] + v;
      assert s == [s[0]] + s[1..];
      Assoc([s[0]], v, TrimStart(s[1..]));
    }
  }

  lemma StartsWith(w: string, c: char, t: string)
    requires w != "" && LowerChar(w[0]) == c && 'a' <= c <= 'z'
    ensures w + t != "" && !IsSpace((w + t)[0])
  {
  }

  /** A filter is read as its id. */
  lemma FilterReads(f: MemberFilter, rest: string)
    requires IsFilter(f)
    ensures ReadFilter(FilterText(f, rest)) == Some(f.id)
  {
    hide After, AfterSpaces, TrimStart, IsSpace, LowerChar;
    var q := Quoting(f, rest);
    var e := f.eq + (f.s3 + q);
    var v := f.attr + (f.s2 + e);
    AfterWord(f.open, "members[", f.s1 + v);
    assert LowerChar(f.attr[0]) == 'v' by { assert ToLower(f.attr)[0] == 'v'; }
    StartsWith(f.attr, 'v', f.s2 + e);
    TrimSpaces(f.s1, v);
    AfterWord(f.attr, "value", f.s2 + e);
    assert LowerChar(f.eq[0]) == 'e' by { assert ToLower(f.eq)[0] == 'e'; }
    StartsWith(f.eq, 'e', f.s3 + q);
    TrimSpaces(f.s2, e);
    AfterWord(f.eq, "eq", f.s3 + q);
    QuotingReads(f, rest);
    TrimSpaces(f.s3, q);
  }

  lemma QuotingReads(f: MemberFilter, rest: string)
    requires IsFilter(f)
    ensures var q := Quoting(f, rest);
            && q != "" && !IsSpace(q[0])
            && After(q, "\"") == Some(f.id + ("\"" + Closing(f, rest)))
    ensures var e := f.id + ("\"" + Closing(f, rest));
            && IndexOf(e, '"') == Some(|f.id|) && e[..|f.id|] == f.id
            && TrimStart(e[|f.id| + 1..]) == "]" + rest
  {
    hide IndexOf, After, TrimStart;
    var e := f.id + ("\"" + Closing(f, rest));
    assert Quoting(f, rest)[0] == '"';
    assert ToLower("\"") == "\"";
    AfterWord("\"", "\"", e);
    IndexOfAt(f.id, '"', Closing(f, rest));
    assert f.id + ['"'] + Closing(f, rest) == e;
    assert e[|f.id| + 1..] == Closing(f, rest);
    TrimSpaces(f.s4, "]" + rest);
  }

  /** A keyword and the white space after it. */
  lemma KeywordFound(s: string, lit: string) returns (w: string, spaces: string)
    requires After(s, lit).Some?
    ensures ToLower(w) == lit && Spaces(spaces) && s == w + (spaces + TrimStart(After(s, lit).value))
    ensures AfterSpaces(After(s, lit).value).Some? ==> spaces != ""
  {
    hide TrimStart, IsSpace, LowerChar;
    AfterParts(s, lit);
    w := s[..|lit|];
    spaces := TrimParts(After(s, lit).value);
  }

  lemma QuotingFound(d: string, e: string, close: nat) returns (s4: string, rest: string)
    requires After(d, "\"") == Some(e) && IndexOf(e, '"') == Some(close)
    requires var t := TrimStart(e[close + 1..]); t != "" && t[0] == ']'
    ensures Spaces(s4) && d == "\"" + (e[..close] + ("\"" + (s4 + ("]" + rest))))
  {
    hide TrimStart, IsSpace, LowerChar, IndexOf;
    AfterParts(d, "\"");
    QuoteHasNoCase(d);
    var tail := e[close + 1..];
    s4 := TrimParts(tail);
    var t := TrimStart(tail);
    rest := t[1..];
    assert t == "]" + rest;
    assert e == e[..close] + ("\"" + tail);
  }

  /** Whatever is read as an id is a filter for it. */
  lemma FilterFound(s: string) returns (f: MemberFilter, rest: string)
    requires ReadFilter(s).Some?
    ensures IsFilter(f) && f.id == ReadFilter(s).value && s == FilterText(f, rest)
  {
    hide After, TrimStart, IsSpace, LowerChar, ToLower, IndexOf, Spaces;
    var open, s1 := KeywordFound(s, "members[");
    var t := TrimStart(After(s, "members[").value);
    var attr, s2 := KeywordFound(t, "value");
    var b := TrimStart(After(t, "value").value);
    var eq, s3 := KeywordFound(b, "eq");
    var d := TrimStart(After(b, "eq").value);
    var e := After(d, "\"").value;
    var close := IndexOf(e, '"').value;
    var s4;
    s4, rest := QuotingFound(d, e, close);
    f := MemberFilter(open, s1, attr, s2, eq, s3, e[..close], s4);
  }

  lemma QuoteHasNoCase(d: string)
    requires d != "" && ToLower(d[..1]) == "\""
    ensures d[..1] == "\""
  {
    assert LowerChar(d[0]) == ToLower(d[..1])[0] == '"';
  }

  /** The id found in a path is that of its leftmost filter, if it has one. */
  lemma {:induction false} MemberFromPathIff(path: string, id: string)
    ensures MemberFromPath(path) == Some(id) <==>
            exists k :: 0 <= k <= |path| && FilterAt(path[k..], id) && forall j, x :: 0 <= j < k ==> !FilterAt(path[j..], x)
    decreases |path|
  {
    hide FilteredId, After, TrimStart, FilterAt;
    assert path[0..] == path;
    if ReadFilter(path).Some? {
      var f, rest := FilterFound(path);
      FilterHere(path, f.id);
      if FilterAt(path, id) { FilterHere(path, id); }
    } else {
      forall x ensures !FilterAt(path, x) {
        if FilterAt(path, x) { FilterHere(path, x); }
      }
      if path != "" {
        MemberFromPathIff(path[1..], id);
        assert forall k :: 1 <= k <= |path| ==> path[k..] == path[1..][k - 1..];
        LeftmostShifts(path, id);
      }
    }
  }

  lemma FilterHere(s: string, id: string)
    ensures FilterAt(s, id) <==> ReadFilter(s) == Some(id)
  {
    hide ReadFilter, IsFilter, FilterText;
    if ReadFilter(s) == Some(id) {
      var f, rest := FilterFound(s);
    }
    if FilterAt(s, id) {
      var f, rest :| IsFilter(f) && f.id == id && s == FilterText(f, rest);
      FilterReads(f, rest);
    }
  }

  /** Without a filter at the start, the leftmost is that of the tail. */
  lemma LeftmostShifts(path: string, id: string)
    requires path != "" && forall x :: !FilterAt(path[0..], x)
    ensures (exists k :: 0 <= k <= |path| && FilterAt(path[k..], id) && forall j, x :: 0 <= j < k ==> !FilterAt(path[j..], x))
            <==>
            var t := path[1..];
            exists k :: 0 <= k <= |t| && FilterAt(t[k..], id) && forall j, x :: 0 <= j < k ==> !FilterAt(t[j..], x)
  {
    hide FilterAt;
    var t := path[1..];
    assert forall k :: 0 <= k <= |t| ==> t[k..] == path[k + 1..];
    if k :| 0 <= k <= |path| && FilterAt(path[k..], id) && forall j, x :: 0 <= j < k ==> !FilterAt(path[j..], x) {
      assert k > 0 && FilterAt(t[k - 1..], id);
      forall j, x | 0 <= j < k - 1 ensures !FilterAt(t[j..], x) { assert !FilterAt(path[j + 1..], x); }
    }
    if k :| 0 <= k <= |t| && FilterAt(t[k..], id) && forall j, x :: 0 <= j < k ==> !FilterAt(t[j..], x) {
      assert FilterAt(path[k + 1..], id);
      forall j, x | 0 <= j < k + 1 ensures !FilterAt(path[j..], x) {
        if j > 0 { assert !FilterAt(t[j - 1..], x); }
      }
    }
  }
}
