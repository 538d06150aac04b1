/** The Corefile scanner from the text on: how a line is laid out, and which texts are supported. */
module CoreDnsText {
  import opened Common
  import opened GoStrings
  import opened GoStringsProofs
  import opened CoreDns
  import opened CoreDnsProofs

  // ---------- the layout of the code of a line

  /** Tokens with the white space before each of them and after the last one. */
  datatype Layout = Blank(gap: string) | Item(gap: string, token: string, rest: Layout)

  ghost function Print(l: Layout): string {
    match l
    case Blank(gap) => gap
    case Item(gap, token, rest) => gap + (token + Print(rest))
  }

  ghost function Tokens(l: Layout): Row {
    match l
    case Blank(_) => []
    case Item(_, token, rest) => [token] + Tokens(rest)
  }

  /** A token that is no brace: no white space and no brace in it. */
  ghost predicate IsName(token: string) {
    IsField(token) && '{' !in token && '}' !in token
  }

  /** Two names need white space between them; braces stand apart anyway. */
  ghost predicate LayoutOk(l: Layout) {
    && White(l.gap)
    && (l.Item? ==>
          && (IsBrace(l.token) || IsName(l.token))
          && (IsName(l.token) && l.rest.Item? && IsName(l.rest.token) ==> l.rest.gap != "")
          && LayoutOk(l.rest))
  }

  // ---------- the tokens of a layout

  lemma SpacedCons(s: string)
    requires s != ""
    ensures SpacedBraces(s) == SpacedByte(s[0]) + SpacedBraces(s[1..])
  {
  }

  lemma Associates(a: string, b: string, c: string)
    ensures a + (b + c) == (a + b) + c
  {
  }

  lemma {:induction false} SpacedAppend(a: string, b: string)
    ensures SpacedBraces(a + b) == SpacedBraces(a) + SpacedBraces(b)
  {
    if a == "" {
      assert a + b == b;
    } else {
      hide SpacedBraces;
      SpacedCons(a + b);
      SpacedCons(a);
      SpacedAppend(a[1..], b);
      assert (a + b)[1..] == a[1..] + b;
      Associates(SpacedByte(a[0]), SpacedBraces(a[1..]), SpacedBraces(b));
    }
  }

  lemma {:induction false} SpacedPlain(s: string)
    requires '{' !in s && '}' !in s
    ensures SpacedBraces(s) == s
  {
    if s != "" {
      SpacedPlain(s[1..]);
      assert s == [s[0]] + s[1..];
    }
  }

  lemma {:induction false} WhiteHasNoBrace(s: string)
    requires White(s)
    ensures '{' !in s && '}' !in s
  {
    hide SpaceLength;
    if s != "" {
      var n := SpaceLength(s);
      WhiteHasNoBrace(s[n..]);
      assert s == s[..n] + s[n..];
    }
  }

  lemma GapRow(g: string, s: string)
    requires White(g)
    ensures TokenRow(g + s) == TokenRow(s)
  {
    WhiteHasNoBrace(g);
    SpacedPlain(g);
    SpacedAppend(g, s);
    FieldsGap(g, SpacedBraces(s));
  }

  lemma BraceRow(token: string, s: string)
    requires IsBrace(token)
    ensures TokenRow(token + s) == [token] + TokenRow(s)
  {
    var rest := SpacedBraces(s);
    SpacedAppend(token, s);
    assert token[1..] == "";
    assert SpacedBraces(token) == " " + token + " ";
    assert SpacedBraces(token + s) == " " + (token + (" " + rest));
    OneIsWhite(" ");
    FieldsGap(" ", token + (" " + rest));
    assert token[0..] == token;
    FieldsWord(token, " " + rest);
    FieldsGap(" ", rest);
  }

  lemma NameRow(token: string, s: string)
    requires IsName(token) && (s == "" || SpaceLength(s) > 0 || s[0] == '{' || s[0] == '}')
    ensures TokenRow(token + s) == [token] + TokenRow(s)
  {
    SpacedPlain(token);
    SpacedAppend(token, s);
    SpacedStart(s);
    FieldsWord(token, SpacedBraces(s));
  }

  lemma SpaceStart(s: string)
    requires s != "" && s[0] == ' '
    ensures SpaceLength(s) == 1
  {
  }

  /** White space or a brace at the start gives white space at the start. */
  lemma SpacedStart(s: string)
    requires s == "" || SpaceLength(s) > 0 || s[0] == '{' || s[0] == '}'
    ensures SpacedBraces(s) == "" || SpaceLength(SpacedBraces(s)) > 0
  {
    hide SpaceLength, White, SpacedBraces;
    if s != "" && SpaceLength(s) > 0 {
      var n := SpaceLength(s);
      var head, rest := s[..n], s[n..];
      FirstSpace(s);
      OneIsWhite(head);
      WhiteHasNoBrace(head);
      SpacedPlain(head);
      SpacedAppend(head, rest);
      assert s == head + rest;
      SpacePrefix(head, SpacedBraces(rest));
    } else if s != "" {
      SpacedCons(s);
      SpaceStart(SpacedBraces(s));
    } else {
      assert SpacedBraces("") == "" by { SpacedPlain(""); }
    }
  }

  lemma PrintStart(l: Layout)
    requires LayoutOk(l) && !(l.Item? && l.gap == "" && IsName(l.token))
    ensures var s := Print(l); s == "" || SpaceLength(s) > 0 || s[0] == '{' || s[0] == '}'
  {
    hide SpaceLength;
    if l.gap != "" {
      WhiteStart(l.gap);
      match l
      case Blank(gap) => assert gap + "" == gap;
      case Item(gap, token, rest) => SpacePrefix(gap, token + Print(rest));
    }
  }

  /** Splitting a layout at white space and around braces gives its tokens. */
  lemma {:induction false} LayoutRow(l: Layout)
    requires LayoutOk(l)
    ensures TokenRow(Print(l)) == Tokens(l)
  {
    hide TokenRow, SpaceLength, White;
    match l
    case Blank(gap) =>
      GapRow(gap, "");
      assert gap + "" == gap;
      NoRow();
    case Item(gap, token, rest) =>
      LayoutRow(rest);
      GapRow(gap, token + Print(rest));
      if IsBrace(token) {
        BraceRow(token, Print(rest));
      } else {
        PrintStart(rest);
        NameRow(token, Print(rest));
      }
  }

  lemma NoRow()
    ensures TokenRow("") == []
  {
  }

  // ---------- every text is the print of a layout

  function NameLength(s: string): (n: nat)
    ensures n <= |s|
  {
    if s == "" || SpaceLength(s) > 0 || s[0] == '{' || s[0] == '}' then 0 else 1 + NameLength(s[1..])
  }

  lemma {:induction false} NameLengthIs(s: string)
    ensures var n := NameLength(s);
            && (forall i :: 0 <= i < n ==> SpaceLength(s[i..]) == 0 && s[i] != '{' && s[i] != '}')
            && (n < |s| ==> SpaceLength(s[n..]) > 0 || s[n] == '{' || s[n] == '}')
  {
    hide SpaceLength;
    var n := NameLength(s);
    assert s[0..] == s;
    if n > 0 {
      NameLengthIs(s[1..]);
      forall i | 0 < i < n ensures SpaceLength(s[i..]) == 0 && s[i] != '{' && s[i] != '}' {
        assert s[1..][i - 1..] == s[i..] && s[1..][i - 1] == s[i];
      }
      assert s[1..][n - 1..] == s[n..];
    }
  }

  lemma NameAt(s: string)
    requires NameLength(s) > 0
    ensures IsName(s[..NameLength(s)])
  {
    hide SpaceLength;
    NameLengthIs(s);
    var n := NameLength(s);
    var t := s[..n];
    forall i | 0 <= i < |t| ensures SpaceLength(t[i..]) == 0 {
      assert s[i..] == t[i..] + s[n..];
      if SpaceLength(t[i..]) > 0 {
        SpacePrefix(t[i..], s[n..]);
      }
    }
  }

  /** More white space in front. */
  ghost function Before(gap: string, l: Layout): Layout {
    match l
    case Blank(g) => Blank(gap + g)
    case Item(g, token, rest) => Item(gap + g, token, rest)
  }

  lemma BeforeOk(gap: string, l: Layout)
    requires White(gap) && LayoutOk(l)
    ensures LayoutOk(Before(gap, l)) && Print(Before(gap, l)) == gap + Print(l) && Tokens(Before(gap, l)) == Tokens(l)
  {
    hide White, IsName;
    WhiteAppend(gap, l.gap);
    assert l.Item? ==> gap + l.gap + (l.token + Print(l.rest)) == gap + (l.gap + (l.token + Print(l.rest)));
  }

  lemma {:induction false} LayoutFor(s: string) returns (l: Layout)
    ensures LayoutOk(l) && Print(l) == s
    ensures SpaceLength(s) > 0 ==> l.gap != ""
    ensures s != "" && (s[0] == '{' || s[0] == '}') ==> l.Item? && IsBrace(l.token)
    ensures s == "" ==> l.Blank?
    decreases |s|
  {
    hide SpaceLength, White, IsName;
    NoWhite();
    EmptyBare();
    var n := SpaceLength(s);
    if s == "" {
      l := Blank("");
    } else if n > 0 {
      var rest := LayoutFor(s[n..]);
      FirstSpace(s);
      OneIsWhite(s[..n]);
      BeforeOk(s[..n], rest);
      assert s == s[..n] + s[n..];
      l := Before(s[..n], rest);
      NoBraceStart(s);
    } else if s[0] == '{' || s[0] == '}' {
      var rest := LayoutFor(s[1..]);
      BraceIsNoName([s[0]]);
      l := Item("", [s[0]], rest);
      assert s == "" + ([s[0]] + s[1..]);
    } else {
      var k := NameLength(s);
      NameAt(s);
      NameLengthIs(s);
      var rest := LayoutFor(s[k..]);
      l := Item("", s[..k], rest);
      assert k < |s| ==> s[k..][0] == s[k];
      if rest.Item? && IsBrace(rest.token) {
        BraceIsNoName(rest.token);
      }
      assert s == "" + (s[..k] + s[k..]);
    }
  }

  lemma NoBraceStart(s: string)
    requires SpaceLength(s) > 0
    ensures s[0] != '{' && s[0] != '}'
  {
  }

  lemma BraceIsNoName(token: string)
    requires IsBrace(token)
    ensures !IsName(token)
  {
    assert token[0] in token;
  }

  /** More white space at the end. */
  ghost function After(l: Layout, gap: string): Layout {
    match l
    case Blank(g) => Blank(g + gap)
    case Item(g, token, rest) => Item(g, token, After(rest, gap))
  }

  lemma {:induction false} AfterOk(l: Layout, gap: string)
    requires White(gap) && LayoutOk(l)
    ensures LayoutOk(After(l, gap)) && Print(After(l, gap)) == Print(l) + gap && Tokens(After(l, gap)) == Tokens(l)
  {
    hide White, IsName;
    match l
    case Blank(g) => WhiteAppend(g, gap);
    case Item(g, token, rest) =>
      AfterOk(rest, gap);
      assert g + (token + (Print(rest) + gap)) == g + (token + Print(rest)) + gap;
  }

  /** Trimming a line changes none of its tokens. */
  lemma TrimRow(s: string)
    ensures TokenRow(Trim(s)) == TokenRow(s)
  {
    hide TokenRow, Trim, White;
    var t := Trim(s);
    TrimIff(s, t);
    var a, b :| Surrounds(s, t, a, b);
    var l := LayoutFor(t);
    AfterOk(l, b);
    BeforeOk(a, After(l, b));
    LayoutRow(l);
    LayoutRow(Before(a, After(l, b)));
    assert a + (t + b) == a + t + b;
  }

  /** A line is blank exactly when it has no tokens. */
  lemma BlankIff(l: Layout)
    requires LayoutOk(l)
    ensures Trim(Print(l)) == "" <==> Tokens(l) == []
  {
    hide TokenRow, Trim, White;
    LayoutRow(l);
    TrimRow(Print(l));
    NoRow();
    if l.Blank? {
      EmptyBare();
      NoWhite();
      TrimIff(l.gap, "");
      assert Surrounds(l.gap, "", l.gap, "");
    }
  }

  // ---------- lines

  /** The code of a line and the comment after it. */
  datatype LineForm = LineForm(code: Layout, comment: string)

  /** No comment sign, no escape, no quote, and no brace that opens a substitution. */
  ghost predicate IsPlainCode(s: string) {
    forall i :: 0 <= i < |s| ==>
      && s[i] != '#' && s[i] != '\\' && s[i] != '"' && s[i] != '\''
      && (s[i] == '{' && i + 1 < |s| ==> s[i + 1] != '$' && s[i + 1] != '%')
  }

  ghost predicate IsLine(f: LineForm, line: string) {
    && LayoutOk(f.code) && IsPlainCode(Print(f.code))
    && (f.comment != "" ==> f.comment[0] == '#')
    && line == Print(f.code) + f.comment
  }

  lemma CodeBeforeComment(code: string, comment: string)
    requires '#' !in code && (comment != "" ==> comment[0] == '#')
    ensures Cut(code + comment, '#').name == code
  {
    if comment == "" {
      assert code + comment == code;
      CutNone(code, '#');
    } else {
      assert code + comment == code + ['#'] + comment[1..];
      CutOf(code, '#', comment[1..]);
    }
  }

  lemma SubstitutionIff(s: string, c: char)
    ensures Contains(s, ['{', c]) <==> exists i :: 0 <= i < |s| - 1 && s[i] == '{' && s[i + 1] == c
  {
    var part := ['{', c];
    if Contains(s, part) {
      var i :| 0 <= i <= |s| && ContainsAt(s, part, i);
      assert s[i] == s[i..i + 2][0] && s[i + 1] == s[i..i + 2][1];
    }
    if i :| 0 <= i < |s| - 1 && s[i] == '{' && s[i + 1] == c {
      assert s[i..i + 2] == part;
      assert ContainsAt(s, part, i);
    }
  }

  lemma PlainIff(s: string)
    requires '#' !in s
    ensures IsPlainCode(s) <==>
            !((exists i :: 0 <= i < |s| && (s[i] == '\\' || s[i] == '"' || s[i] == '\'')) || Contains(s, "{$") || Contains(s, "{%"))
  {
    hide Contains;
    SubstitutionIff(s, '$');
    SubstitutionIff(s, '%');
    assert "{$" == ['{', '$'] && "{%" == ['{', '%'];
    if i :| 0 <= i < |s| - 1 && s[i] == '{' && s[i + 1] == '$' {
      assert !IsPlainCode(s);
    }
    if i :| 0 <= i < |s| - 1 && s[i] == '{' && s[i + 1] == '%' {
      assert !IsPlainCode(s);
    }
  }

  /** A line is admitted exactly when it has a form, and its row is then that of the form. */
  lemma FormOfLine(f: LineForm, line: string)
    requires IsLine(f, line)
    ensures CodeLine(line) == Some(Trim(Print(f.code)))
    ensures TokenRow(Trim(Print(f.code))) == Tokens(f.code)
    ensures Trim(Print(f.code)) == "" <==> Tokens(f.code) == []
  {
    hide Trim, TokenRow, LayoutOk;
    CodeBeforeComment(Print(f.code), f.comment);
    PlainIff(Print(f.code));
    LayoutRow(f.code);
    TrimRow(Print(f.code));
    BlankIff(f.code);
  }

  lemma LineHasForm(line: string) returns (f: LineForm)
    requires CodeLine(line).Some?
    ensures IsLine(f, line)
  {
    hide Trim;
    CutSplits(line, '#');
    var halves := Cut(line, '#');
    PlainIff(halves.name);
    var l := LayoutFor(halves.name);
    f := LineForm(l, if halves.value.Some? then ['#'] + halves.value.value else "");
    assert line == halves.name + f.comment;
  }

  // ---------- texts

  ghost predicate AreLines(forms: seq<LineForm>, lines: seq<string>) {
    |forms| == |lines| && forall i :: 0 <= i < |lines| ==> IsLine(forms[i], lines[i])
  }

  /** The tokens of the lines that have any. */
  ghost function RowsOf(forms: seq<LineForm>): seq<Row> {
    if forms == [] then []
    else (if Tokens(forms[0].code) == [] then [] else [Tokens(forms[0].code)]) + RowsOf(forms[1..])
  }

  lemma {:induction false} RowsAre(forms: seq<LineForm>, lines: seq<string>)
    requires AreLines(forms, lines)
    ensures Rows(lines) == Some(RowsOf(forms))
  {
    hide IsLine, CodeLine, Trim, TokenRow;
    if lines != [] {
      FormOfLine(forms[0], lines[0]);
      assert forall i :: 0 <= i < |lines[1..]| ==> forms[1..][i] == forms[i + 1] && lines[1..][i] == lines[i + 1];
      RowsAre(forms[1..], lines[1..]);
      assert [] + RowsOf(forms[1..]) == RowsOf(forms[1..]);
    }
  }

  lemma {:induction false} LinesHaveForms(lines: seq<string>) returns (forms: seq<LineForm>)
    requires Rows(lines).Some?
    ensures AreLines(forms, lines)
  {
    hide IsLine, CodeLine, Trim, TokenRow;
    forms := [];
    if lines != [] {
      var first := LineHasForm(lines[0]);
      var rest := LinesHaveForms(lines[1..]);
      forms := [first] + rest;
      forall i | 0 <= i < |lines| ensures IsLine(forms[i], lines[i]) {
        assert i > 0 ==> forms[i] == rest[i - 1] && lines[i] == lines[1..][i - 1];
      }
    }
  }

  /** The text of these server blocks, laid out in these lines. */
  ghost predicate IsCorefile(raw: string, forms: seq<LineForm>, servers: seq<Server>) {
    && AreLines(forms, Split(raw, '\n'))
    && servers != [] && ServersOk(servers) && PrintServers(servers) == RowsOf(forms)
  }

  /**
    A text is supported exactly when it lays out a nonempty list of admitted
    server blocks in lines without quoting, escapes and substitutions; the answer
    is then whether some block has a direct federation directive.
    */
  lemma TextAcceptsIffBlocks(raw: string, present: bool)
    ensures Verdict(ScanLines(Split(raw, '\n'), START)) == Some(present) <==>
            exists forms, servers :: IsCorefile(raw, forms, servers) && present == SomeFederation(servers)
  {
    hide ScanLines, Run, Rows, ServersOk, SomeFederation, AreLines, RowsOf;
    var lines := Split(raw, '\n');
    ScanIsRun(lines, START);
    if Verdict(ScanLines(lines, START)) == Some(present) {
      var forms := LinesHaveForms(lines);
      RowsAre(forms, lines);
      AcceptsIffBlocks(Rows(lines).value, present);
      var servers :| servers != [] && ServersOk(servers) && PrintServers(servers) == Rows(lines).value
                     && present == SomeFederation(servers);
      assert IsCorefile(raw, forms, servers);
    }
    if forms, servers :| IsCorefile(raw, forms, servers) && present == SomeFederation(servers) {
      RowsAre(forms, lines);
      AcceptsIffBlocks(Rows(lines).value, present);
    }
  }

  /** Nothing but plain code stands before the first comment sign. */
  ghost predicate IsPlainLine(line: string) {
    exists n :: 0 <= n <= |line| && IsPlainCode(line[..n]) && (n < |line| ==> line[n] == '#')
  }

  /** A supported text has no quote, escape or substitution before the first comment sign of any line. */
  lemma RefusesQuoting(raw: string)
    ensures Verdict(ScanLines(Split(raw, '\n'), START)).Some? ==>
              forall i :: 0 <= i < |Split(raw, '\n')| ==> IsPlainLine(Split(raw, '\n')[i])
  {
    hide IsPlainCode, Print, LayoutOk, RowsOf, ScanLines;
    var lines := Split(raw, '\n');
    ScanIsRun(lines, START);
    if Verdict(ScanLines(lines, START)).Some? {
      var forms := LinesHaveForms(lines);
      forall i | 0 <= i < |lines| ensures IsPlainLine(lines[i]) {
        assert IsLine(forms[i], lines[i]);
        var code := Print(forms[i].code);
        assert lines[i][..|code|] == code;
      }
    }
  }
}
