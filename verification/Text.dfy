/**
 Strings as the TypeScript sources use them: a `char` is a Unicode character
 (JavaScript counts two units for one beyond the basic plane), and the few
 library operations the models rely on (split, join, single-character
 replacement, trim, case mapping) are defined here once.
 */
module Text {

  datatype Option<+T> = None | Some(value: T)

  /** `parts.join(sep)` */
  function Join(parts: seq<string>, sep: string): string {
    if parts == [] then ""
    else if |parts| == 1 then parts[0]
    else parts[0] + sep + Join(parts[1..], sep)
  }

  /** `s || null` */
  function NonEmpty(s: string): Option<string> {
    if s == "" then None else Some(s)
  }

  predicate OneLine(s: string) {
    '\r' !in s && '\n' !in s
  }

  /** `s.split(d)` for a one-character delimiter: never empty. */
  function Split(s: string, d: char): (r: seq<string>)
    ensures |r| >= 1
    ensures forall i, j :: 0 <= i < |r| && 0 <= j < |r[i]| ==> r[i][j] != d
  {
    if s == "" then [""]
    else
      var r := Split(s[1..], d);
      if s[0] == d then [""] + r else [[s[0]] + r[0]] + r[1..]
  }

  /** Splitting at a delimiter that ends a delimiter-free prefix. */
  lemma {:induction false} SplitAt(a: string, d: char, b: string)
    requires d !in a
    ensures Split(a + [d] + b, d) == [a] + Split(b, d)
  {
    if a == "" {
      assert ([d] + b)[1..] == b;
      assert a + [d] + b == [d] + b;
    } else {
      SplitAt(a[1..], d, b);
      assert (a + [d] + b)[1..] == a[1..] + [d] + b;
      assert [a[0]] + a[1..] == a;
    }
  }

  lemma {:induction false} SplitWhole(a: string, d: char)
    requires d !in a
    ensures Split(a, d) == [a]
  {
    if a != "" {
      SplitWhole(a[1..], d);
      assert [a[0]] + a[1..] == a;
    }
  }

  /** `s.replace(/c/g, sub)` for a single character `c`. */
  function Subst(s: string, c: char, sub: string): string {
    if s == "" then "" else (if s[0] == c then sub else [s[0]]) + Subst(s[1..], c, sub)
  }

  lemma Assoc<T>(a: seq<T>, b: seq<T>, c: seq<T>)
    ensures a + (b + c) == a + b + c
  {
  }

  lemma {:induction false} SubstAppend(a: string, b: string, c: char, sub: string)
    ensures Subst(a + b, c, sub) == Subst(a, c, sub) + Subst(b, c, sub)
  {
    if a == "" {
      assert a + b == b;
    } else {
      SubstAppend(a[1..], b, c, sub);
      var whole := a + b;
      assert whole[1..] == a[1..] + b;
      Assoc(if a[0] == c then sub else [a[0]], Subst(a[1..], c, sub), Subst(b, c, sub));
    }
  }

  /** White space as `trim()` and `\s` define it in ECMAScript. */
  predicate IsSpace(c: char) {
    || '\t' <= c <= '\r' || c == ' ' || c == '\U{A0}' || c == '\U{1680}'
    || '\U{2000}' <= c <= '\U{200A}' || c == '\U{2028}' || c == '\U{2029}'
    || c == '\U{202F}' || c == '\U{205F}' || c == '\U{3000}' || c == '\U{FEFF}'
  }

  function TrimStart(s: string): string {
    if s != "" && IsSpace(s[0]) then TrimStart(s[1..]) else s
  }

  function TrimEnd(s: string): string {
    if s != "" && IsSpace(s[|s| - 1]) then TrimEnd(s[..|s| - 1]) else s
  }

  /** `s.trim()` */
  function Trim(s: string): string {
    TrimEnd(TrimStart(s))
  }

  predicate Trimmed(s: string) {
    s == "" || (!IsSpace(s[0]) && !IsSpace(s[|s| - 1]))
  }

  /** Case mapping on ASCII letters. */
  function LowerChar(c: char): char {
    if 'A' <= c <= 'Z' then c + ('a' - 'A') else c
  }

  function UpperChar(c: char): char {
    if 'a' <= c <= 'z' then c - ('a' - 'A') else c
  }

  function ToLower(s: string): (r: string)
    ensures |r| == |s|
  {
    seq(|s|, i requires 0 <= i < |s| => LowerChar(s[i]))
  }

  function ToUpper(s: string): (r: string)
    ensures |r| == |s|
  {
    seq(|s|, i requires 0 <= i < |s| => UpperChar(s[i]))
  }

  /** `s.indexOf(c)` */
  function IndexOf(s: string, c: char): (r: Option<nat>)
    ensures r.Some? ==> r.value < |s| && s[r.value] == c && c !in s[..r.value]
    ensures r.None? ==> c !in s
  {
    if s == "" then None
    else if s[0] == c then Some(0)
    else
      var t := IndexOf(s[1..], c);
      if t.Some? then
        assert s[..t.value + 1] == [s[0]] + s[1..][..t.value];
        Some(t.value + 1)
      else None
  }

  lemma IndexOfAt(a: string, c: char, b: string)
    requires c !in a
    ensures IndexOf(a + [c] + b, c) == Some(|a|)
  {
    var t := a + [c] + b;
    assert t[|a|] == c && forall i :: 0 <= i < |a| ==> t[i] == a[i];
    assert IndexOf(t, c).Some? ==> forall i :: 0 <= i < IndexOf(t, c).value ==> t[i] in t[..IndexOf(t, c).value];
  }

  lemma {:induction false} TrimStartShape(s: string)
    ensures TrimStart(s) == "" || !IsSpace(TrimStart(s)[0])
    ensures forall c :: c in TrimStart(s) ==> c in s
  {
    if s != "" && IsSpace(s[0]) {
      TrimStartShape(s[1..]);
    }
  }

  lemma {:induction false} TrimEndShape(s: string)
    ensures TrimEnd(s) <= s
    ensures TrimEnd(s) == "" || !IsSpace(TrimEnd(s)[|TrimEnd(s)| - 1])
  {
    if s != "" && IsSpace(s[|s| - 1]) {
      TrimEndShape(s[..|s| - 1]);
    }
  }

  /** Trimming yields a trimmed text made of the same characters, and leaves a trimmed text alone. */
  lemma TrimFacts(s: string)
    ensures Trimmed(Trim(s))
    ensures Trimmed(s) <==> Trim(s) == s
    ensures forall c :: c in Trim(s) ==> c in s
  {
    TrimStartShape(s);
    TrimEndShape(TrimStart(s));
  }

  /** Outer white space is what trimming takes off. */
  lemma {:induction false} TrimPadded(w: string, s: string, v: string)
    requires Trimmed(s) && (forall i :: 0 <= i < |w| ==> IsSpace(w[i])) && (forall i :: 0 <= i < |v| ==> IsSpace(v[i]))
    ensures Trim(w + s + v) == s
    decreases |w| + |v|
  {
    var t := w + s + v;
    if w != "" {
      assert t[1..] == w[1..] + s + v;
      TrimPadded(w[1..], s, v);
    } else if v != "" && s != "" {
      assert t == s + v && TrimStart(t) == t && t[..|t| - 1] == w + s + v[..|v| - 1];
      TrimPadded(w, s, v[..|v| - 1]);
      assert TrimStart(t[..|t| - 1]) == t[..|t| - 1];
    } else if v != "" {
      assert t == v && t[1..] == w + s + v[1..];
      TrimPadded(w, s, v[1..]);
    } else {
      assert t == s;
      TrimFacts(s);
    }
  }

  lemma {:induction false} SubstChars(s: string, c: char, sub: string)
    ensures forall d :: d in Subst(s, c, sub) ==> d in sub || (d in s && d != c)
    ensures c !in s ==> Subst(s, c, sub) == s
  {
    if s != "" {
      SubstChars(s[1..], c, sub);
      assert [s[0]] + s[1..] == s;
    }
  }

  // ----- Decimal numbers -----

  function Digit(n: nat): char
    requires n < 10
  {
    '0' + n as char
  }

  predicate IsDigit(c: char) {
    '0' <= c <= '9'
  }

  /** `String(n)` */
  function Decimal(n: nat): (s: string)
    ensures s != "" && forall i :: 0 <= i < |s| ==> IsDigit(s[i])
  {
    if n < 10 then [Digit(n)] else Decimal(n / 10) + [Digit(n % 10)]
  }

  /** `s.padStart(width, "0")` */
  function PadStart(s: string, width: nat): string
    decreases width - |s|
  {
    if |s| >= width then s else PadStart("0" + s, width)
  }

  /** The number a digit string stands for. */
  function Number(s: string): nat {
    if s == "" then 0
    else
      var c := s[|s| - 1];
      Number(s[..|s| - 1]) * 10 + if IsDigit(c) then (c - '0') as nat else 0
  }

  lemma {:induction false} NumberOfDecimal(n: nat)
    ensures Number(Decimal(n)) == n
  {
    if n >= 10 {
      NumberOfDecimal(n / 10);
      var d := Decimal(n / 10) + [Digit(n % 10)];
      assert d[..|d| - 1] == Decimal(n / 10);
    } else {
      assert [Digit(n)][..0] == "";
    }
  }

  lemma {:induction false} NumberIgnoresZeros(s: string)
    ensures Number("0" + s) == Number(s)
  {
    var t := "0" + s;
    if s == "" {
      assert t[..0] == "";
    } else {
      NumberIgnoresZeros(s[..|s| - 1]);
      assert t[..|t| - 1] == "0" + s[..|s| - 1];
    }
  }

  lemma {:induction false} PadStartFacts(s: string, width: nat)
    ensures Number(PadStart(s, width)) == Number(s)
    ensures |PadStart(s, width)| == if |s| >= width then |s| else width
    ensures (forall i :: 0 <= i < |s| ==> IsDigit(s[i])) ==>
              forall i :: 0 <= i < |PadStart(s, width)| ==> IsDigit(PadStart(s, width)[i])
    decreases width - |s|
  {
    if |s| < width {
      NumberIgnoresZeros(s);
      PadStartFacts("0" + s, width);
    }
  }
}
