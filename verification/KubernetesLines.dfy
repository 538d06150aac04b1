/** Which row of the removal table an upgrade selects: by the minor line it crosses into, or by the exact anchor pair. */
module KubernetesLines {
  import opened Common
  import opened GoStrings

  // ---------- decimal numbers

  const LIMIT: nat := 0x1_0000_0000
  const WORD: nat := 0x1_0000_0000_0000_0000

  function Number(s: string): nat
    requires AllDigits(s)
  {
    if s == "" then 0 else 10 * Number(s[..|s| - 1]) + (s[|s| - 1] as nat - '0' as nat)
  }

  /** `strconv.FormatUint` */
  function Format(n: nat): (s: string)
    ensures s != "" && AllDigits(s)
  {
    var last := [('0' as nat + n % 10) as char];
    if n < 10 then last else Format(n / 10) + last
  }

  lemma {:induction false} NumberOfFormat(n: nat)
    ensures Number(Format(n)) == n && NoLeadingZero(Format(n)) && (n > 0 ==> Format(n)[0] != '0')
  {
    if n >= 10 {
      NumberOfFormat(n / 10);
      assert Format(n)[..|Format(n)| - 1] == Format(n / 10);
    }
  }

  lemma {:induction false} FormatOfNumber(s: string)
    requires AllDigits(s) && NoLeadingZero(s)
    ensures Format(Number(s)) == s && (s[0] != '0' ==> Number(s) > 0)
  {
    var head := s[..|s| - 1];
    assert s == head + [s[|s| - 1]];
    if head != "" {
      FormatOfNumber(head);
    }
  }

  // ---------- versions

  datatype Version = Version(major: nat, minor: nat, patch: nat)

  predicate Bounded(v: Version) {
    v.major < LIMIT && v.minor < LIMIT && v.patch < LIMIT
  }

  function Line(major: nat, minor: nat): string {
    Format(major) + ['.'] + Format(minor)
  }

  function Text(v: Version): string {
    Line(v.major, v.minor) + ['.'] + Format(v.patch)
  }

  /** One segment, as `validVersionSyntax` admits it. */
  function Segment(s: string): Option<nat> {
    if NoLeadingZero(s) && AllDigits(s) && Number(s) < LIMIT then Some(Number(s)) else None
  }

  /** `kubernetesVersionParts`: the three parts of a split at the dots. */
  function VersionParts(s: string): Option<Version> {
    var first := Cut(s, '.');
    if first.value == None then None
    else
      var second := Cut(first.value.value, '.');
      if second.value == None || '.' in second.value.value then None
      else
        var major, minor, patch := Segment(first.name), Segment(second.name), Segment(second.value.value);
        if major == None || minor == None || patch == None then None
        else Some(Version(major.value, minor.value, patch.value))
  }

  lemma SegmentIff(s: string, n: nat)
    ensures Segment(s) == Some(n) <==> n < LIMIT && s == Format(n)
  {
    NumberOfFormat(n);
    if Segment(s).Some? {
      FormatOfNumber(s);
    }
  }

  lemma VersionPartsText(s: string)
    requires VersionParts(s).Some?
    ensures Bounded(VersionParts(s).value) && s == Text(VersionParts(s).value)
  {
    hide Segment, Format, Cut;
    var v := VersionParts(s).value;
    var first := Cut(s, '.');
    var second := Cut(first.value.value, '.');
    CutSplits(s, '.');
    CutSplits(first.value.value, '.');
    SegmentIff(first.name, v.major);
    SegmentIff(second.name, v.minor);
    SegmentIff(second.value.value, v.patch);
    assert s == Text(v);
  }

  lemma TextParses(v: Version)
    requires Bounded(v)
    ensures VersionParts(Text(v)) == Some(v)
  {
    hide Segment, Format, Cut;
    var rest := Format(v.minor) + ['.'] + Format(v.patch);
    assert Text(v) == Format(v.major) + ['.'] + rest;
    CutOf(Format(v.major), '.', rest);
    CutOf(Format(v.minor), '.', Format(v.patch));
    SegmentIff(Format(v.major), v.major);
    SegmentIff(Format(v.minor), v.minor);
    SegmentIff(Format(v.patch), v.patch);
  }

  /** A text parses as a version exactly when it is the canonical print of that version. */
  lemma VersionPartsIff(s: string, v: Version)
    ensures VersionParts(s) == Some(v) <==> Bounded(v) && s == Text(v)
  {
    hide VersionParts, Text;
    if VersionParts(s) == Some(v) {
      VersionPartsText(s);
    }
    if Bounded(v) && s == Text(v) {
      TextParses(v);
    }
  }

  // ---------- selection by the crossed minor line

  /** `kubernetesCrossedMinorLine` */
  function CrossedLine(from: string, to: string): Option<string> {
    var a, b := VersionParts(from), VersionParts(to);
    if a == None || b == None || a.value.major != b.value.major || a.value.minor + 1 != b.value.minor then None
    else Some(Line(b.value.major, b.value.minor))
  }

  /** `kubernetesRemovalsForCrossedMinorLine` */
  function ForCrossedLine<T>(table: map<string, T>, from: string, to: string): Option<T> {
    var line := CrossedLine(from, to);
    if line.Some? && line.value in table then Some(table[line.value]) else None
  }

  ghost predicate Crosses(from: string, to: string, a: Version, b: Version) {
    && Bounded(a) && Bounded(b) && from == Text(a) && to == Text(b)
    && a.major == b.major && a.minor + 1 == b.minor
  }

  /**
    A line is crossed exactly from the version before it to a version on it; the patches do not matter.
    */
  lemma CrossedLineIff(from: string, to: string, line: string)
    ensures CrossedLine(from, to) == Some(line) <==>
            exists a, b :: Crosses(from, to, a, b) && line == Line(b.major, b.minor)
  {
    hide VersionParts, Text, Line;
    var a, b := VersionParts(from), VersionParts(to);
    if a.Some? && b.Some? {
      VersionPartsIff(from, a.value);
      VersionPartsIff(to, b.value);
      if CrossedLine(from, to) == Some(line) {
        assert Crosses(from, to, a.value, b.value);
      }
    }
    if c, d :| Crosses(from, to, c, d) && line == Line(d.major, d.minor) {
      VersionPartsIff(from, c);
      VersionPartsIff(to, d);
    }
  }

  /** Other patch numbers select the same rows. */
  lemma PatchesIgnored<T>(table: map<string, T>, a: Version, b: Version, x: nat, y: nat)
    requires Bounded(a) && Bounded(b) && x < LIMIT && y < LIMIT
    ensures ForCrossedLine(table, Text(a), Text(b)) == ForCrossedLine(table, Text(a.(patch := x)), Text(b.(patch := y)))
  {
    VersionPartsIff(Text(a), a);
    VersionPartsIff(Text(b), b);
    VersionPartsIff(Text(a.(patch := x)), a.(patch := x));
    VersionPartsIff(Text(b.(patch := y)), b.(patch := y));
  }

  // ---------- selection by the anchor pair

  /** `strconv.ParseUint(s, 10, 32)` with its error dropped. */
  function Parsed(s: string): nat {
    if s == "" || !AllDigits(s) then 0 else if Number(s) < LIMIT then Number(s) else LIMIT - 1
  }

  /** The anchor pair derived from a line; the subtraction wraps. */
  function AnchorOf(line: string): (string, string) {
    var halves := Cut(line, '.');
    var minor := if halves.value.Some? then Parsed(halves.value.value) else 0;
    (halves.name + ['.'] + Format((minor + WORD - 1) % WORD) + ".0", line + ".0")
  }

  lemma AnchorsDiffer(a: string, b: string)
    requires AnchorOf(a).1 == AnchorOf(b).1
    ensures a == b
  {
    assert a == (a + ".0")[..|a + ".0"| - 2];
    assert b == (b + ".0")[..|b + ".0"| - 2];
  }

  /** The pairs and rows of the view, whatever the order of the table. */
  ghost predicate IsView<T(!new)>(table: map<string, T>, lines: set<string>, view: map<(string, string), T>) {
    && (forall line :: line in lines && line in table ==> AnchorOf(line) in view && view[AnchorOf(line)] == table[line])
    && (forall pair :: pair in view ==> exists line :: line in lines && line in table && pair == AnchorOf(line))
  }

  /** `kubernetesRemovalsByTransition` */
  method AnchorView<T(!new)>(table: map<string, T>) returns (view: map<(string, string), T>)
    ensures IsView(table, table.Keys, view)
  {
    view := map[];
    var rest := table.Keys;
    while rest != {}
      invariant rest <= table.Keys && IsView(table, table.Keys - rest, view)
    {
      hide AnchorOf;
      var line :| line in rest;
      ghost var before := view;
      view := view[AnchorOf(line) := table[line]];
      ghost var done := table.Keys - rest;
      rest := rest - {line};
      forall l | l in table.Keys - rest ensures AnchorOf(l) in view && view[AnchorOf(l)] == table[l] {
        if AnchorOf(l) == AnchorOf(line) {
          AnchorsDiffer(l, line);
        } else {
          assert l in done;
        }
      }
      forall pair | pair in view ensures exists l :: l in table.Keys - rest && l in table && pair == AnchorOf(l) {
        if pair in before {
          var l :| l in done && l in table && pair == AnchorOf(l);
          assert l in table.Keys - rest;
        } else {
          assert line in table.Keys - rest;
        }
      }
    }
    assert table.Keys - rest == table.Keys;
  }

  /** `kubernetesRemovalsForAnchor` */
  function ForAnchor<T>(view: map<(string, string), T>, from: string, to: string): Option<T> {
    if (from, to) in view then Some(view[(from, to)]) else None
  }

  // ---------- the two selections

  /** The lines of a table are printed canonically and have a line before them. */
  ghost predicate Canonical(lines: set<string>) {
    forall line :: line in lines ==> exists major: nat, minor: nat :: IsLine(line, major, minor)
  }

  predicate IsLine(line: string, major: nat, minor: nat) {
    major < LIMIT && 0 < minor < LIMIT && line == Line(major, minor)
  }

  lemma AnchorOfLine(major: nat, minor: nat)
    requires major < LIMIT && 0 < minor < LIMIT
    ensures AnchorOf(Line(major, minor)) == (Text(Version(major, minor - 1, 0)), Text(Version(major, minor, 0)))
  {
    CutOf(Format(major), '.', Format(minor));
    NumberOfFormat(minor);
    assert (minor + WORD - 1) % WORD == minor - 1;
    assert Format(0) == "0";
    assert ".0" == ['.'] + "0";
    assert Line(major, minor) + ".0" == Text(Version(major, minor, 0));
    assert Line(major, minor - 1) + ".0" == Text(Version(major, minor - 1, 0));
    assert Format(major) + ['.'] + Format(minor - 1) + ".0" == Line(major, minor - 1) + ".0";
  }

  ghost predicate AnchorPair(from: string, to: string) {
    exists a, b :: Crosses(from, to, a, b) && a.patch == 0 && b.patch == 0
  }

  /**
    Selecting by anchor is selecting by crossed line, restricted to the pairs whose patches are both zero.
    */
  lemma AnchorSelectsCrossed<T(!new)>(table: map<string, T>, view: map<(string, string), T>, from: string, to: string)
    requires Canonical(table.Keys) && IsView(table, table.Keys, view)
    ensures ForAnchor(view, from, to) == if AnchorPair(from, to) then ForCrossedLine(table, from, to) else None
  {
    hide ForCrossedLine, AnchorOf, Text, Line;
    if (from, to) in view {
      var line :| line in table.Keys && line in table && (from, to) == AnchorOf(line);
      var major: nat, minor: nat :| IsLine(line, major, minor);
      AnchorOfLine(major, minor);
      assert Crosses(from, to, Version(major, minor - 1, 0), Version(major, minor, 0));
    }
    if AnchorPair(from, to) {
      AnchorPairSelects(table, view, from, to);
    }
  }

  lemma AnchorPairSelects<T(!new)>(table: map<string, T>, view: map<(string, string), T>, from: string, to: string)
    requires IsView(table, table.Keys, view) && AnchorPair(from, to)
    ensures ForAnchor(view, from, to) == ForCrossedLine(table, from, to)
  {
    hide AnchorOf, Text, VersionParts;
    var a, b :| Crosses(from, to, a, b) && a.patch == 0 && b.patch == 0;
    var line := Line(b.major, b.minor);
    VersionPartsIff(from, a);
    VersionPartsIff(to, b);
    AnchorOfLine(b.major, b.minor);
    assert a == Version(b.major, b.minor - 1, 0);
    assert AnchorOf(line) == (from, to);
    if (from, to) in view {
      var other :| other in table.Keys && other in table && (from, to) == AnchorOf(other);
      AnchorsDiffer(other, line);
    }
  }

  /** Every crossing selects what the anchor pair of its line selects. */
  lemma CrossingSelectsAnchor<T(!new)>(table: map<string, T>, view: map<(string, string), T>, from: string, to: string, a: Version, b: Version)
    requires IsView(table, table.Keys, view) && Crosses(from, to, a, b)
    ensures ForCrossedLine(table, from, to) == ForAnchor(view, Text(a.(patch := 0)), Text(b.(patch := 0)))
  {
    PatchesIgnored(table, a, b, 0, 0);
    assert Crosses(Text(a.(patch := 0)), Text(b.(patch := 0)), a.(patch := 0), b.(patch := 0));
    AnchorPairSelects(table, view, Text(a.(patch := 0)), Text(b.(patch := 0)));
  }
}
