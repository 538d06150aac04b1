/** Every line has a form, and a source is accepted exactly by the brackets of its own code bytes. */
module PythonSources {
  import opened Common
  import opened GoStrings
  import opened Nesting
  import opened PythonLexer
  import opened PythonLexerProofs
  import opened PythonForms

  // ---------- every line has a form

  /** The first closing quote from `i` on, or the end. */
  ghost function FirstClose(line: string, i: nat, quote: char): (k: nat)
    requires 0 < i <= |line|
    ensures i <= k <= |line| && (k < |line| ==> line[k] == quote && line[k - 1] != '\\')
    ensures forall j :: i <= j < k && line[j] == quote ==> line[j - 1] == '\\'
    decreases |line| - i
  {
    if i == |line| || (line[i] == quote && line[i - 1] != '\\') then i else FirstClose(line, i + 1, quote)
  }

  /** The first three quotes in a row from `i` on, or the end. */
  ghost function FirstThree(line: string, i: nat, quote: char): (k: nat)
    requires i <= |line|
    ensures i <= k <= |line| && (k < |line| ==> ThreeAt(line, k, quote))
    ensures forall j :: i <= j < k ==> !ThreeAt(line, j, quote)
    decreases |line| - i
  {
    if i == |line| || ThreeAt(line, i, quote) then i else FirstThree(line, i + 1, quote)
  }

  lemma InsideOf(line: string, i: nat, k: nat, quote: char)
    requires 0 < i <= k <= |line| && line[i - 1] == quote && IsQuote(quote)
    requires forall j :: i <= j < k && line[j] == quote ==> line[j - 1] == '\\'
    ensures IsInside(quote, line[i..k])
  {
    var body := line[i..k];
    forall n | 0 <= n < |body| && body[n] == quote ensures n > 0 && body[n - 1] == '\\' {
      assert line[i + n] == quote;
      assert n > 0 ==> body[n - 1] == line[i + n - 1];
    }
  }

  lemma EndsAtThreeOf(line: string, i: nat, k: nat, quote: char)
    requires i <= k < |line| && ThreeAt(line, k, quote) && forall j :: i <= j < k ==> !ThreeAt(line, j, quote)
    ensures EndsAtThree(quote, line[i..k]) && line[k..k + 3] == Three(quote)
  {
    var body, three := line[i..k], Three(quote);
    assert line[k..k + 3] == three;
    assert line[i..k + 3] == body + three;
    forall n | 0 <= n < |body| ensures !ThreeAt(body + three, n, quote) {
      assert !ThreeAt(line, i + n, quote);
      assert (body + three)[n] == line[i + n] && (body + three)[n + 1] == line[i + n + 1] && (body + three)[n + 2] == line[i + n + 2];
    }
  }

  lemma NoThreeOf(line: string, i: nat, quote: char)
    requires i <= |line| && forall j :: i <= j < |line| ==> !ThreeAt(line, j, quote)
    ensures NoThree(quote, line[i..])
  {
    forall n | 0 <= n < |line| - i ensures !ThreeAt(line[i..], n, quote) {
      assert !ThreeAt(line, i + n, quote);
    }
  }

  lemma {:induction false} FormFor(line: string, i: nat) returns (f: Form)
    requires i <= |line|
    ensures FormOk(f) && Print(f) == line[i..]
    decreases |line| - i
  {
    hide IsInside, EndsAtThree, NoThree, FirstClose, FirstThree;
    if i == |line| {
      f := End;
    } else if line[i] == '#' {
      f := Remark(line[i + 1..]);
    } else if !IsQuote(line[i]) {
      var rest := FormFor(line, i + 1);
      f := Byte(line[i], rest);
    } else if ThreeAt(line, i, line[i]) {
      f := BlockFor(line, i);
    } else {
      f := LiteralFor(line, i);
    }
  }

  lemma {:induction false} BlockFor(line: string, i: nat) returns (f: Form)
    requires i < |line| && IsQuote(line[i]) && ThreeAt(line, i, line[i])
    ensures FormOk(f) && Print(f) == line[i..]
    decreases |line| - i, 0
  {
    hide EndsAtThree, NoThree, FirstThree;
    var quote := line[i];
    var k := FirstThree(line, i + 3, quote);
    assert line[i..i + 3] == Three(quote);
    if k < |line| {
      EndsAtThreeOf(line, i + 3, k, quote);
      var rest := FormFor(line, k + 3);
      f := Block(quote, line[i + 3..k], rest);
      assert line[i..] == line[i..i + 3] + line[i + 3..k] + line[k..k + 3] + line[k + 3..];
    } else {
      NoThreeOf(line, i + 3, quote);
      f := Opening(quote, line[i + 3..]);
      assert line[i..] == line[i..i + 3] + line[i + 3..];
    }
  }

  lemma {:induction false} LiteralFor(line: string, i: nat) returns (f: Form)
    requires i < |line| && IsQuote(line[i]) && !ThreeAt(line, i, line[i])
    ensures FormOk(f) && Print(f) == line[i..]
    decreases |line| - i, 0
  {
    hide IsInside, FirstClose;
    var quote := line[i];
    var k := FirstClose(line, i + 1, quote);
    InsideOf(line, i + 1, k, quote);
    if k < |line| {
      var rest := FormFor(line, k + 1);
      var body := line[i + 1..k];
      assert body != "" ==> body[|body| - 1] == line[k - 1];
      assert k + 1 < |line| ==> line[k + 1..][0] == line[k + 1];
      f := Literal(quote, body, rest);
      assert line[i..] == [line[i]] + body + [line[k]] + line[k + 1..];
    } else {
      f := Dangling(quote, line[i + 1..]);
      assert line[i + 1..k] == line[i + 1..];
    }
  }

  // ---------- whole lines

  /** A line that starts in code, and two that start inside a literal in triple quotes. */
  datatype LineForm = InCode(form: Form) | Within(body: string) | Leaves(body: string, form: Form)

  ghost predicate IsForm(lf: LineForm, line: string, mode: Mode) {
    match lf
    case InCode(f) => mode == Code && FormOk(f) && line == Print(f)
    case Within(body) => mode.Quoted? && mode.triple && NoThree(mode.quote, body) && line == body
    case Leaves(body, f) =>
      && mode.Quoted? && mode.triple && IsQuote(mode.quote) && EndsAtThree(mode.quote, body) && FormOk(f)
      && line == body + (Three(mode.quote) + Print(f))
  }

  /** What the form of a line says about its mask. */
  ghost function Says(lf: LineForm, mode: Mode): Masked {
    match lf
    case InCode(f) => Told(f, false)
    case Within(body) => Masked(Spaces(|body|), mode, '\\' in body)
    case Leaves(body, f) => Told(f, false).After(Spaces(|body|) + MARKED, '\\' in body)
  }

  ghost function CodeOf(lf: LineForm): string {
    match lf
    case InCode(f) => CodeBytes(f)
    case Within(_) => ""
    case Leaves(_, f) => CodeBytes(f)
  }

  lemma LineMask(lf: LineForm, line: string, mode: Mode)
    requires IsForm(lf, line, mode)
    ensures MaskFrom(line, 0, mode) == Says(lf, mode)
  {
    hide MaskFrom, FormOk, NoThree, EndsAtThree;
    assert line[0..] == line;
    match lf
    case InCode(f) => MaskPrinted(line, 0, f);
    case Within(body) => BlockRuns(line, 0, mode.quote);
    case Leaves(body, f) =>
      BlockTail(line, 0, mode.quote, body, Print(f));
      MaskPrinted(line, |body| + 3, f);
      assert !Prefixed(line, |body| + 3);
  }

  lemma LineFormFor(line: string, mode: Mode) returns (lf: LineForm)
    requires !Unclosed(mode) && (mode.Quoted? ==> IsQuote(mode.quote))
    ensures IsForm(lf, line, mode)
  {
    hide FormOk, NoThree, EndsAtThree, FirstThree;
    assert line[0..] == line;
    if mode == Code {
      var f := FormFor(line, 0);
      lf := InCode(f);
    } else {
      var k := FirstThree(line, 0, mode.quote);
      if k < |line| {
        EndsAtThreeOf(line, 0, k, mode.quote);
        var f := FormFor(line, k + 3);
        lf := Leaves(line[..k], f);
        assert line[0..k] == line[..k] && line == line[..k] + (line[k..k + 3] + line[k + 3..]);
      } else {
        NoThreeOf(line, 0, mode.quote);
        lf := Within(line);
      }
    }
  }

  // ---------- brackets

  lemma BlankSpaces(n: nat)
    ensures Brackets(Spaces(n)) == "" && Brackets([MARK]) == "" && Brackets(MARKED) == ""
  {
    Blank(Spaces(n));
    Blank([MARK]);
    Blank(MARKED);
  }

  lemma Hidden(front: string, hidden: string, rest: string)
    requires Brackets(front) == "" && Brackets(hidden) == ""
    ensures Brackets(front + (hidden + rest)) == Brackets(rest)
  {
    BracketsOf(front, hidden + rest);
    BracketsOf(hidden, rest);
  }

  /** The brackets of the mask are those of the code bytes. */
  lemma {:induction false} FormBrackets(f: Form)
    ensures Brackets(Rendered(f)) == Brackets(CodeBytes(f))
  {
    hide Brackets;
    match f
    case End =>
    case Remark(text) =>
      BlankSpaces(1 + |text|);
      NoBrackets();
    case Byte(c, rest) =>
      FormBrackets(rest);
      BracketsOf([c], Rendered(rest));
      BracketsOf([c], CodeBytes(rest));
    case Literal(_, body, rest) =>
      FormBrackets(rest);
      BlankSpaces(|body| + 1);
      Hidden([MARK], Spaces(|body| + 1), Rendered(rest));
    case Block(_, body, rest) =>
      FormBrackets(rest);
      BlankSpaces(|body|);
      BracketsOf(Spaces(|body|), MARKED);
      assert "" + "" == "";
      Hidden(MARKED, Spaces(|body|) + MARKED, Rendered(rest));
    case Dangling(_, body) =>
      BlankSpaces(|body|);
      NoBrackets();
      BracketsOf([MARK], Spaces(|body|));
    case Opening(_, body) =>
      BlankSpaces(|body|);
      NoBrackets();
      BracketsOf(MARKED, Spaces(|body|));
  }

  lemma NoBrackets()
    ensures Brackets("") == ""
  {
  }

  lemma LineBrackets(lf: LineForm, mode: Mode)
    ensures Brackets(Says(lf, mode).text) == Brackets(CodeOf(lf))
  {
    hide Brackets;
    NoBrackets();
    match lf
    case InCode(f) => FormBrackets(f);
    case Within(body) => BlankSpaces(|body|);
    case Leaves(body, f) =>
      FormBrackets(f);
      BlankSpaces(|body|);
      Hidden(Spaces(|body|), MARKED, Rendered(f));
      assert Spaces(|body|) + (MARKED + Rendered(f)) == Spaces(|body|) + MARKED + Rendered(f);
  }

  // ---------- sources

  /** The forms of the lines; every literal ends on its line or is in triple quotes, and none is open at the end. */
  ghost predicate AreForms(forms: seq<LineForm>, lines: seq<string>, mode: Mode) {
    |forms| == |lines| &&
    if lines == [] then mode == Code
    else
      && IsForm(forms[0], lines[0], mode) && !Unclosed(Says(forms[0], mode).mode)
      && AreForms(forms[1..], lines[1..], Says(forms[0], mode).mode)
  }

  ghost function CodeOfAll(forms: seq<LineForm>): string {
    if forms == [] then "" else CodeOf(forms[0]) + CodeOfAll(forms[1..])
  }

  /** What the forms say about the result. */
  ghost function LexedBy(forms: seq<LineForm>, lines: seq<string>, mode: Mode): Lexed
    requires |forms| == |lines|
  {
    if lines == [] then Lexed([], false)
    else
      var m := Says(forms[0], mode);
      var rest := LexedBy(forms[1..], lines[1..], m.mode);
      Lexed([Line(Indent(lines[0]), Trim(m.text))] + rest.lines, m.dynamic || rest.dynamic)
  }

  lemma {:induction false} FormsTell(forms: seq<LineForm>, lines: seq<string>, mode: Mode)
    requires AreForms(forms, lines, mode)
    ensures LiteralsClosed(lines, mode)
    ensures Brackets(MaskedCode(lines, mode)) == Brackets(CodeOfAll(forms))
    decreases |lines|
  {
    hide MaskFrom, Brackets, IsForm, Says, CodeOf;
    if lines != [] {
      var m := Says(forms[0], mode);
      LineMask(forms[0], lines[0], mode);
      LineBrackets(forms[0], mode);
      FormsTell(forms[1..], lines[1..], m.mode);
      BracketsOf(m.text, MaskedCode(lines[1..], m.mode));
      BracketsOf(CodeOf(forms[0]), CodeOfAll(forms[1..]));
    }
  }

  lemma {:induction false} FormsLexed(forms: seq<LineForm>, lines: seq<string>, mode: Mode, stack: string)
    requires AreForms(forms, lines, mode) && LexLines(lines, mode, stack).Some?
    ensures LexLines(lines, mode, stack).value == LexedBy(forms, lines, mode)
    decreases |lines|
  {
    hide MaskFrom, Brackets, IsForm, Says, Push, Trim;
    if lines != [] {
      LineMask(forms[0], lines[0], mode);
      var m := MaskFrom(lines[0], 0, mode);
      FormsLexed(forms[1..], lines[1..], m.mode, Push(stack, Brackets(m.text)).value);
    }
  }

  lemma {:induction false} LinesHaveForms(lines: seq<string>, mode: Mode) returns (forms: seq<LineForm>)
    requires LiteralsClosed(lines, mode) && !Unclosed(mode) && (mode.Quoted? ==> IsQuote(mode.quote))
    ensures AreForms(forms, lines, mode)
    decreases |lines|
  {
    hide MaskFrom, IsForm, Says;
    forms := [];
    if lines != [] {
      var first := LineFormFor(lines[0], mode);
      LineMask(first, lines[0], mode);
      ModeQuote(lines[0], 0, mode);
      var rest := LinesHaveForms(lines[1..], MaskFrom(lines[0], 0, mode).mode);
      forms := [first] + rest;
      assert forms[1..] == rest;
    }
  }

  /** No control byte but line feeds, carriage returns and tabs. */
  ghost predicate IsClean(source: string) {
    forall k :: 0 <= k < |source| ==> source[k] >= ' ' || source[k] in "\n\r\t"
  }

  /** A tab right after the leading spaces. */
  ghost predicate TabAfterSpaces(line: string) {
    exists n :: 0 <= n < |line| && line[n] == '\t' && forall j :: 0 <= j < n ==> line[j] == ' '
  }

  ghost predicate NoTabAfterSpaces(lines: seq<string>) {
    forall k :: 0 <= k < |lines| ==> !TabAfterSpaces(lines[k])
  }

  lemma TabIff(line: string)
    ensures TabIndented(line) <==> TabAfterSpaces(line)
  {
    if n :| 0 <= n < |line| && line[n] == '\t' && forall j :: 0 <= j < n ==> line[j] == ' ' {
      IndentIs(line, n);
    }
  }

  lemma NoTabsIff(lines: seq<string>)
    ensures NoTabs(lines) <==> NoTabAfterSpaces(lines)
  {
    hide TabIndented, TabAfterSpaces;
    forall k | 0 <= k < |lines| ensures TabIndented(lines[k]) <==> TabAfterSpaces(lines[k]) {
      TabIff(lines[k]);
    }
  }

  /** The brackets of a text, in order. */
  ghost function Nesters(s: string): string {
    if s == "" then "" else (if s[0] in "()[]{}" then [s[0]] else "") + Nesters(s[1..])
  }

  lemma {:induction false} NestersAre(s: string)
    ensures Nesters(s) == Brackets(s)
  {
    if s != "" {
      NestersAre(s[1..]);
      MatchesIff(s[0], s[0]);
    }
  }

  /** The source is written in these forms, and the brackets of its code bytes are well nested. */
  ghost predicate IsSource(source: string, forms: seq<LineForm>) {
    && IsClean(source) && NoTabAfterSpaces(Split(source, '\n'))
    && AreForms(forms, Split(source, '\n'), Code)
    && WellNested(Nesters(CodeOfAll(forms)))
  }

  lemma AreFormsLength(forms: seq<LineForm>, lines: seq<string>, mode: Mode)
    requires AreForms(forms, lines, mode)
    ensures |forms| == |lines|
  {
  }

  ghost function Reading(source: string, forms: seq<LineForm>): Lexed
    requires |forms| == |Split(source, '\n')|
  {
    LexedBy(forms, Split(source, '\n'), Code)
  }

  /**
    A source is accepted exactly when it can be written in forms whose code bytes
    have well-nested brackets; the lines, indents and the dynamic flag are then
    those that the forms say.
    */
  lemma SourceAcceptedIff(source: string, lexed: Lexed)
    ensures Lex(source) == Some(lexed) <==>
            exists forms :: IsSource(source, forms) && |forms| == |Split(source, '\n')| && lexed == Reading(source, forms)
  {
    hide LexLines, WellNested, LiteralsClosed, MaskedCode, AreForms, CodeOfAll, LexedBy, NoTabs, NoTabAfterSpaces, Brackets, Nesters;
    var lines := Split(source, '\n');
    LexIff(source);
    NoTabsIff(lines);
    forall s ensures Nesters(s) == Brackets(s) {
      NestersAre(s);
    }
    if Lex(source) == Some(lexed) {
      var forms := LinesHaveForms(lines, Code);
      FormsTell(forms, lines, Code);
      AreFormsLength(forms, lines, Code);
      FormsLexed(forms, lines, Code, "");
      assert IsSource(source, forms) && lexed == Reading(source, forms);
    }
    if forms :| IsSource(source, forms) && |forms| == |Split(source, '\n')| && lexed == Reading(source, forms) {
      FormsTell(forms, lines, Code);
      FormsLexed(forms, lines, Code, "");
    }
  }
}
