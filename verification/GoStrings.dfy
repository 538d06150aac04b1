/** The functions of Go's `strings` package that several modules use, on strings of bytes. */
module GoStrings {
  import opened Common

  /** `strings.Split` at a separator of one byte. */
  function Split(s: string, sep: char): (parts: seq<string>)
    ensures |parts| >= 1
  {
    if s == "" then [""]
    else
      var rest := Split(s[1..], sep);
      if s[0] == sep then [""] + rest else [[s[0]] + rest[0]] + rest[1..]
  }

  // ---------- white space

  predicate IsSpace(c: char) {
    c == ' ' || '\t' <= c <= '\r'
  }

  /** The UTF-8 encodings of U+0085 and U+00A0. */
  predicate IsSpace2(a: char, b: char) {
    a == '\U{C2}' && (b == '\U{85}' || b == '\U{A0}')
  }

  /** The UTF-8 encodings of U+1680, U+2000 to U+200A, U+2028, U+2029, U+202F, U+205F and U+3000. */
  predicate IsSpace3(a: char, b: char, c: char) {
    || (a == '\U{E1}' && b == '\U{9A}' && c == '\U{80}')
    || (a == '\U{E2}' && b == '\U{80}'
        && ('\U{80}' <= c <= '\U{8A}' || c == '\U{A8}' || c == '\U{A9}' || c == '\U{AF}'))
    || (a == '\U{E2}' && b == '\U{81}' && c == '\U{9F}')
    || (a == '\U{E3}' && b == '\U{80}' && c == '\U{80}')
  }

  /** Every byte of a white space is one of these. */
  predicate IsSpaceByte(c: char) {
    IsSpace(c) || c >= '\U{80}'
  }

  /** How many bytes the white space takes that a text starts with; 0 if there is none. */
  function SpaceLength(s: string): (n: nat)
    ensures n <= |s| && forall i :: 0 <= i < n ==> IsSpaceByte(s[i])
  {
    if |s| >= 1 && IsSpace(s[0]) then 1
    else if |s| >= 2 && IsSpace2(s[0], s[1]) then 2
    else if |s| >= 3 && IsSpace3(s[0], s[1], s[2]) then 3
    else 0
  }

  /** The same at the end of a text. */
  function SpaceTail(s: string): (n: nat)
    ensures n <= |s| && forall i :: |s| - n <= i < |s| ==> IsSpaceByte(s[i])
  {
    var k := |s|;
    if k >= 1 && IsSpace(s[k - 1]) then 1
    else if k >= 2 && IsSpace2(s[k - 2], s[k - 1]) then 2
    else if k >= 3 && IsSpace3(s[k - 3], s[k - 2], s[k - 1]) then 3
    else 0
  }

  function TrimLeft(s: string): string {
    if SpaceLength(s) > 0 then TrimLeft(s[SpaceLength(s)..]) else s
  }

  function TrimRight(s: string): string {
    if SpaceTail(s) > 0 then TrimRight(s[..|s| - SpaceTail(s)]) else s
  }

  /** `strings.TrimSpace` */
  function Trim(s: string): string {
    TrimRight(TrimLeft(s))
  }

  /** `strings.Fields` */
  function Fields(s: string): (r: seq<string>)
    ensures forall i :: 0 <= i < |r| ==> r[i] != ""
    decreases |s|
  {
    if s == "" then []
    else if SpaceLength(s) > 0 then Fields(s[SpaceLength(s)..])
    else
      var n := WordLength(s);
      [s[..n]] + Fields(s[n..])
  }

  /** How far the first white space is. */
  function WordLength(s: string): (n: nat)
    ensures n <= |s| && (s != "" && SpaceLength(s) == 0 ==> n > 0)
  {
    if s == "" || SpaceLength(s) > 0 then 0 else 1 + WordLength(s[1..])
  }

  predicate ContainsAt(s: string, part: string, i: nat) {
    i + |part| <= |s| && s[i..i + |part|] == part
  }

  /** `strings.Contains` */
  predicate Contains(s: string, part: string) {
    exists i :: 0 <= i <= |s| && ContainsAt(s, part, i)
  }

  /** `strings.Cut`: what is before the first separator, and what is after it if there is one. */
  datatype Halves = Halves(name: string, value: Option<string>)

  function Cut(s: string, sep: char): Halves {
    if s == "" then Halves("", None)
    else if s[0] == sep then Halves("", Some(s[1..]))
    else
      var rest := Cut(s[1..], sep);
      Halves([s[0]] + rest.name, rest.value)
  }

  /** Cutting splits at the first separator. */
  lemma {:induction false} CutSplits(s: string, sep: char)
    ensures Cut(s, sep).value.Some? ==> s == Cut(s, sep).name + [sep] + Cut(s, sep).value.value
    ensures Cut(s, sep).value == None ==> s == Cut(s, sep).name
    ensures sep !in Cut(s, sep).name
  {
    if s != "" && s[0] != sep {
      CutSplits(s[1..], sep);
      assert s == [s[0]] + s[1..];
    } else if s != "" {
      assert s == "" + [sep] + s[1..];
    }
  }

  lemma {:induction false} CutOf(name: string, sep: char, value: string)
    requires sep !in name
    ensures Cut(name + [sep] + value, sep) == Halves(name, Some(value))
  {
    var s := name + [sep] + value;
    if name == "" {
      assert s[1..] == value;
    } else {
      assert s[1..] == name[1..] + [sep] + value;
      CutOf(name[1..], sep, value);
    }
  }

  lemma {:induction false} CutNone(s: string, sep: char)
    requires sep !in s
    ensures Cut(s, sep) == Halves(s, None)
  {
    if s != "" {
      CutNone(s[1..], sep);
      assert s == [s[0]] + s[1..];
    }
  }

  predicate AllDigits(s: string) {
    forall i :: 0 <= i < |s| ==> IsDigit(s[i])
  }

  predicate NoLeadingZero(s: string) {
    s != "" && (|s| > 1 ==> s[0] != '0')
  }

  predicate HasSuffix(s: string, suffix: string) {
    |suffix| <= |s| && s[|s| - |suffix|..] == suffix
  }

  // ---------- strings in lexicographic order

  predicate Less(a: string, b: string) {
    b != "" && (a == "" || a[0] < b[0] || (a[0] == b[0] && Less(a[1..], b[1..])))
  }

  lemma {:induction false} LessTotal(a: string, b: string)
    ensures a == b || Less(a, b) || Less(b, a)
    ensures !(Less(a, b) && Less(b, a)) && (a == b ==> !Less(a, b))
  {
    if a != "" && b != "" && a[0] == b[0] {
      LessTotal(a[1..], b[1..]);
      assert a == [a[0]] + a[1..] && b == [b[0]] + b[1..];
    }
  }

  lemma {:induction false} LessTransitive(a: string, b: string, c: string)
    requires Less(a, b) && Less(b, c)
    ensures Less(a, c)
  {
    if a != "" && a[0] == b[0] && b[0] == c[0] {
      LessTransitive(a[1..], b[1..], c[1..]);
    }
  }
}
