/** What the functions of `GoStrings` mean: splitting undoes joining, trimming removes exactly the outer white space, and so on. */
module GoStringsProofs {
  import opened Common
  import opened GoStrings

  // ---------- splitting

  ghost function Joined(parts: seq<string>, sep: char): string
    requires parts != []
  {
    if |parts| == 1 then parts[0] else parts[0] + [sep] + Joined(parts[1..], sep)
  }

  ghost predicate NoneHolds(parts: seq<string>, sep: char) {
    forall i :: 0 <= i < |parts| ==> sep !in parts[i]
  }

  lemma {:induction false} JoinSplit(s: string, sep: char)
    ensures Joined(Split(s, sep), sep) == s && NoneHolds(Split(s, sep), sep)
  {
    if s != "" {
      var rest := Split(s[1..], sep);
      JoinSplit(s[1..], sep);
      assert s == [s[0]] + s[1..];
      if s[0] == sep {
        assert ([""] + rest)[1..] == rest;
      } else {
        JoinLonger(s[0], rest, sep);
      }
    }
  }

  /** A character in front of the first part is a character in front of the text. */
  lemma JoinLonger(c: char, parts: seq<string>, sep: char)
    requires parts != []
    ensures Joined([[c] + parts[0]] + parts[1..], sep) == [c] + Joined(parts, sep)
  {
    var longer := [[c] + parts[0]] + parts[1..];
    assert longer[1..] == parts[1..];
    if |parts| > 1 {
      assert [c] + parts[0] + [sep] + Joined(parts[1..], sep) == [c] + (parts[0] + [sep] + Joined(parts[1..], sep));
    }
  }

  lemma {:induction false} SplitJoin(parts: seq<string>, sep: char)
    requires parts != [] && NoneHolds(parts, sep)
    ensures Split(Joined(parts, sep), sep) == parts
    decreases |parts|, |parts[0]|
  {
    var s := Joined(parts, sep);
    if parts[0] == "" {
      if |parts| > 1 {
        assert s[0] == sep && s[1..] == Joined(parts[1..], sep);
        SplitJoin(parts[1..], sep);
        assert parts == [""] + parts[1..];
      }
    } else {
      var c, shorter := parts[0][0], [parts[0][1..]] + parts[1..];
      assert parts[0] == [c] + parts[0][1..];
      assert shorter[1..] == parts[1..] && parts == [[c] + shorter[0]] + shorter[1..];
      JoinLonger(c, shorter, sep);
      assert forall i :: 1 <= i < |shorter| ==> shorter[i] == parts[i];
      SplitJoin(shorter, sep);
      assert s[1..] == Joined(shorter, sep);
    }
  }

  /** The parts of a text are the only ones without the separator that join to it. */
  lemma SplitIff(s: string, sep: char, parts: seq<string>)
    ensures parts == Split(s, sep) <==> parts != [] && NoneHolds(parts, sep) && Joined(parts, sep) == s
  {
    JoinSplit(s, sep);
    if parts != [] && NoneHolds(parts, sep) && Joined(parts, sep) == s {
      SplitJoin(parts, sep);
    }
  }

  // ---------- white space

  /** A sequence of white space. */
  ghost predicate White(s: string) {
    s == "" || (SpaceLength(s) > 0 && White(s[SpaceLength(s)..]))
  }

  /** A byte that continues the encoding of a character. */
  predicate Continues(c: char) {
    '\U{80}' <= c <= '\U{BF}'
  }

  /** White space in front is recognised whatever follows, and never starts with a continuation. */
  lemma SpacePrefix(s: string, rest: string)
    requires SpaceLength(s) > 0
    ensures SpaceLength(s + rest) == SpaceLength(s) && !Continues(s[0])
  {
  }

  lemma SpaceSuffix(rest: string, s: string)
    requires SpaceTail(s) > 0
    ensures SpaceTail(rest + s) == SpaceTail(s)
  {
    var k, n := |s|, |rest + s|;
    assert (rest + s)[n - 1] == s[k - 1];
    assert k >= 2 ==> (rest + s)[n - 2] == s[k - 2];
    assert k >= 3 ==> (rest + s)[n - 3] == s[k - 3];
  }

  /** What follows cannot complete a white space, unless it is a continuation. */
  lemma SpaceBoundary(s: string, rest: string)
    requires s != "" && SpaceLength(s) == 0 && (rest != "" ==> !Continues(rest[0]))
    ensures SpaceLength(s + rest) == 0
  {
    var t := s + rest;
    assert t[0] == s[0];
    assert |s| >= 2 ==> t[1] == s[1];
    assert |s| == 1 && rest != "" ==> t[1] == rest[0];
    assert |s| >= 3 ==> t[2] == s[2];
    assert |s| == 2 && rest != "" ==> t[2] == rest[0];
  }

  lemma WhiteStart(s: string)
    requires White(s) && s != ""
    ensures SpaceLength(s) > 0 && !Continues(s[0])
  {
    SpacePrefix(s, "");
  }

  lemma {:induction false} WhiteAppend(a: string, b: string)
    requires White(a) && White(b)
    ensures White(a + b)
    decreases |a|
  {
    hide SpaceLength;
    if a == "" {
      assert a + b == b;
    } else {
      var n := SpaceLength(a);
      SpacePrefix(a, b);
      WhiteAppend(a[n..], b);
      assert (a + b)[n..] == a[n..] + b;
    }
  }

  /** The bytes of one white space, on their own. */
  lemma OneSpace(s: string)
    requires SpaceLength(s) == |s| > 0 || SpaceTail(s) == |s| > 0
    ensures SpaceLength(s) == |s| && SpaceTail(s) == |s|
  {
    assert s[|s|..] == "";
  }

  lemma OneIsWhite(s: string)
    requires SpaceLength(s) == |s| > 0
    ensures White(s)
  {
    assert s[|s|..] == "";
  }

  lemma FirstSpace(s: string)
    requires SpaceLength(s) > 0
    ensures var n := SpaceLength(s); SpaceLength(s[..n]) == n
  {
  }

  lemma LastSpace(s: string)
    requires SpaceTail(s) > 0
    ensures var n := SpaceTail(s); SpaceTail(s[|s| - n..]) == n
  {
  }

  /** White space can also be taken off at its end. */
  lemma {:induction false} WhiteLast(s: string)
    requires White(s) && s != ""
    ensures SpaceTail(s) > 0 && White(s[..|s| - SpaceTail(s)])
    decreases |s|
  {
    hide SpaceLength, SpaceTail;
    var n := SpaceLength(s);
    var head, rest := s[..n], s[n..];
    assert s == head + rest;
    FirstSpace(s);
    OneSpace(head);
    OneIsWhite(head);
    if rest == "" {
      assert s == head && s[..0] == "";
    } else {
      WhiteLast(rest);
      SpaceSuffix(head, rest);
      var k := |rest| - SpaceTail(rest);
      assert s[..|s| - SpaceTail(s)] == head + rest[..k];
      WhiteAppend(head, rest[..k]);
    }
  }

  lemma {:induction false} TrimLeftOver(a: string, s: string)
    requires White(a)
    ensures TrimLeft(a + s) == TrimLeft(s)
    decreases |a|
  {
    hide SpaceLength;
    if a == "" {
      assert a + s == s;
    } else {
      SpacePrefix(a, s);
      var n := SpaceLength(a);
      TrimLeftOver(a[n..], s);
      assert (a + s)[n..] == a[n..] + s;
    }
  }

  lemma {:induction false} TrimRightOver(s: string, b: string)
    requires White(b)
    ensures TrimRight(s + b) == TrimRight(s)
    decreases |b|
  {
    hide SpaceTail, SpaceLength;
    if b == "" {
      assert s + b == s;
    } else {
      WhiteLast(b);
      SpaceSuffix(s, b);
      var k := |b| - SpaceTail(b);
      TrimRightOver(s, b[..k]);
      assert (s + b)[..|s + b| - SpaceTail(b)] == s + b[..k];
    }
  }

  lemma {:induction false} TrimLeftGives(s: string) returns (a: string)
    ensures White(a) && s == a + TrimLeft(s) && SpaceLength(TrimLeft(s)) == 0
  {
    hide SpaceLength, White;
    NoWhite();
    var n := SpaceLength(s);
    if n == 0 {
      a := "";
    } else {
      var rest := TrimLeftGives(s[n..]);
      FirstSpace(s);
      OneIsWhite(s[..n]);
      WhiteAppend(s[..n], rest);
      a := s[..n] + rest;
      assert s[n..] == rest + TrimLeft(s);
      assert s == s[..n] + s[n..];
    }
  }

  lemma NoWhite()
    ensures White("")
  {
  }

  lemma {:induction false} TrimRightGives(s: string) returns (b: string)
    ensures White(b) && s == TrimRight(s) + b && SpaceTail(TrimRight(s)) == 0
  {
    hide SpaceTail, SpaceLength, White;
    NoWhite();
    var n := |s| - SpaceTail(s);
    if n == |s| {
      b := "";
    } else {
      var rest := TrimRightGives(s[..n]);
      LastSpace(s);
      OneSpace(s[n..]);
      OneIsWhite(s[n..]);
      WhiteAppend(rest, s[n..]);
      b := rest + s[n..];
      assert s[..n] == TrimRight(s) + rest;
      assert s == s[..n] + s[n..];
    }
  }

  ghost predicate Bare(s: string) {
    SpaceLength(s) == 0 && SpaceTail(s) == 0
  }

  ghost predicate Surrounds(s: string, t: string, a: string, b: string) {
    White(a) && White(b) && s == a + t + b
  }

  /** Trimming removes white space at both ends, and all of it. */
  lemma TrimIff(s: string, t: string)
    ensures Trim(s) == t <==> Bare(t) && exists a, b :: Surrounds(s, t, a, b)
  {
    hide SpaceLength, SpaceTail, White;
    if Trim(s) == t {
      var a := TrimLeftGives(s);
      var left := TrimLeft(s);
      var b := TrimRightGives(left);
      assert s == a + t + b;
      assert Surrounds(s, t, a, b);
      if SpaceLength(t) > 0 {
        SpacePrefix(t, b);
        assert false;
      }
    }
    if a, b :| Bare(t) && Surrounds(s, t, a, b) {
      assert s == a + (t + b);
      TrimLeftOver(a, t + b);
      TrimBare(t, b);
    }
  }

  lemma TrimBare(t: string, b: string)
    requires Bare(t) && White(b)
    ensures TrimRight(TrimLeft(t + b)) == t
  {
    hide SpaceLength, SpaceTail;
    TrimRightOver(t, b);
    if t == "" {
      assert t + b == b + "";
      TrimLeftOver(b, "");
      EmptyBare();
    } else {
      if b != "" {
        WhiteStart(b);
      }
      SpaceBoundary(t, b);
    }
  }

  lemma EmptyBare()
    ensures SpaceLength("") == 0 && SpaceTail("") == 0
  {
  }

  // ---------- fields

  /** No white space starts anywhere in the word. */
  ghost predicate IsField(s: string) {
    s != "" && forall i :: 0 <= i < |s| ==> SpaceLength(s[i..]) == 0
  }

  lemma {:induction false} FieldsGap(g: string, s: string)
    requires White(g)
    ensures Fields(g + s) == Fields(s)
    decreases |g|
  {
    hide SpaceLength;
    if g == "" {
      assert g + s == s;
    } else {
      SpacePrefix(g, s);
      var n := SpaceLength(g);
      FieldsGap(g[n..], s);
      assert (g + s)[n..] == g[n..] + s;
    }
  }

  lemma {:induction false} WordLengthIs(t: string, s: string)
    requires (forall i :: 0 <= i < |t| ==> SpaceLength(t[i..]) == 0) && (s == "" || SpaceLength(s) > 0)
    ensures WordLength(t + s) == |t|
    decreases |t|
  {
    hide SpaceLength;
    if t == "" {
      assert t + s == s;
    } else {
      if s != "" {
        SpacePrefix(s, "");
      }
      assert t[0..] == t;
      SpaceBoundary(t, s);
      assert (t + s)[1..] == t[1..] + s;
      forall i | 0 <= i < |t[1..]| ensures SpaceLength(t[1..][i..]) == 0 {
        assert t[1..][i..] == t[i + 1..];
      }
      WordLengthIs(t[1..], s);
    }
  }

  lemma FieldsWord(t: string, s: string)
    requires IsField(t) && (s == "" || SpaceLength(s) > 0)
    ensures Fields(t + s) == [t] + Fields(s)
  {
    hide SpaceLength;
    WordLengthIs(t, s);
    if s != "" {
      SpacePrefix(s, "");
    }
    assert t[0..] == t;
    SpaceBoundary(t, s);
    assert (t + s)[..|t|] == t && (t + s)[|t|..] == s;
  }

  // ---------- order

  ghost predicate DiffersAt(a: string, b: string, k: nat) {
    k <= |a| && k < |b| && a[..k] == b[..k] && (k == |a| || a[k] < b[k])
  }

  lemma SameHead(a: string, b: string, k: nat)
    requires DiffersAt(a, b, k)
    ensures k > 0 ==> a[0] == b[0]
  {
    if k > 0 {
      assert a[..k][0] == b[..k][0];
    }
  }

  /** Less exactly when, after a common part, the one ends or has the smaller byte. */
  lemma {:induction false} LessIff(a: string, b: string)
    ensures Less(a, b) <==> exists k :: DiffersAt(a, b, k)
  {
    if a != "" && b != "" && a[0] == b[0] {
      LessIff(a[1..], b[1..]);
      if k: nat :| DiffersAt(a[1..], b[1..], k) {
        assert a[..k + 1] == [a[0]] + a[1..][..k] && b[..k + 1] == [b[0]] + b[1..][..k];
        assert DiffersAt(a, b, k + 1);
      }
      if k: nat :| DiffersAt(a, b, k) {
        assert k > 0;
        assert a[1..][..k - 1] == a[..k][1..] && b[1..][..k - 1] == b[..k][1..];
        assert DiffersAt(a[1..], b[1..], k - 1);
      }
    } else {
      if Less(a, b) {
        assert DiffersAt(a, b, 0);
      }
      if k: nat :| DiffersAt(a, b, k) {
        SameHead(a, b, k);
      }
    }
  }
}
