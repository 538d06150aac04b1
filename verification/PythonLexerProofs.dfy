/** The masker accepts exactly the well-nested sources, and hides what it masks. */
module PythonLexerProofs {
  import opened Common
  import opened GoStrings
  import opened Nesting
  import opened PythonLexer

  // ---------- acceptance

  ghost predicate NoTabs(lines: seq<string>) {
    forall k :: 0 <= k < |lines| ==> !TabIndented(lines[k])
  }

  /** Every single-line literal ends on its line, and no literal is open at the end. */
  ghost predicate LiteralsClosed(lines: seq<string>, mode: Mode) {
    if lines == [] then mode == Code
    else
      var m := MaskFrom(lines[0], 0, mode);
      !Unclosed(m.mode) && LiteralsClosed(lines[1..], m.mode)
  }

  /** The masked code of all lines, one after the other. */
  ghost function MaskedCode(lines: seq<string>, mode: Mode): string {
    if lines == [] then ""
    else
      var m := MaskFrom(lines[0], 0, mode);
      m.text + MaskedCode(lines[1..], m.mode)
  }

  lemma {:induction false} LexLinesIff(lines: seq<string>, mode: Mode, stack: string)
    ensures LexLines(lines, mode, stack).Some? <==>
            NoTabs(lines) && LiteralsClosed(lines, mode) && Push(stack, Brackets(MaskedCode(lines, mode))) == Some("")
    decreases |lines|
  {
    if lines == [] {
      return;
    }
    hide MaskFrom, Push, Brackets, TabIndented;
    var m := MaskFrom(lines[0], 0, mode);
    var rest := MaskedCode(lines[1..], m.mode);
    var pushed := Push(stack, Brackets(m.text));
    BracketsOf(m.text, rest);
    PushOf(stack, Brackets(m.text), Brackets(rest));
    assert lines == [lines[0]] + lines[1..];
    if pushed.Some? {
      LexLinesIff(lines[1..], m.mode, pushed.value);
    }
  }

  /**
    Acceptance, exactly: no forbidden control byte, no tab after the
    indentation, every literal closed, and the brackets left in the masked code,
    read across all lines, well nested.
    */
  lemma LexIff(source: string)
    ensures Lex(source).Some? <==>
            && (forall k :: 0 <= k < |source| ==> !IsBadControl(source[k]))
            && NoTabs(Split(source, '\n')) && LiteralsClosed(Split(source, '\n'), Code)
            && WellNested(Brackets(MaskedCode(Split(source, '\n'), Code)))
  {
    LexLinesIff(Split(source, '\n'), Code, "");
    AcceptsIffWellNested(Brackets(MaskedCode(Split(source, '\n'), Code)));
  }

  // ---------- what the result holds

  lemma {:induction false} TrimLeftKeeps(s: string)
    ensures Brackets(TrimLeft(s)) == Brackets(s)
    ensures IsMaskedText(s) ==> IsMaskedText(TrimLeft(s))
  {
    hide SpaceLength, Brackets;
    var n := SpaceLength(s);
    if n > 0 {
      TrimLeftKeeps(s[n..]);
      assert s == s[..n] + s[n..];
      BracketsOf(s[..n], s[n..]);
      Blank(s[..n]);
    }
  }

  lemma {:induction false} TrimRightKeeps(s: string)
    ensures Brackets(TrimRight(s)) == Brackets(s)
    ensures IsMaskedText(s) ==> IsMaskedText(TrimRight(s))
  {
    hide SpaceTail, Brackets;
    var n := |s| - SpaceTail(s);
    if n < |s| {
      TrimRightKeeps(s[..n]);
      assert s == s[..n] + s[n..];
      BracketsOf(s[..n], s[n..]);
      Blank(s[n..]);
    }
  }

  ghost function Texts(lines: seq<Line>): string {
    if lines == [] then "" else lines[0].text + Texts(lines[1..])
  }

  /** The admitted lines carry no quote or comment sign, and their brackets are those of the masked code. */
  lemma {:induction false} LexedLines(lines: seq<string>, mode: Mode, stack: string)
    requires LexLines(lines, mode, stack).Some?
    ensures var lexed := LexLines(lines, mode, stack).value.lines;
            && |lexed| == |lines|
            && (forall k :: 0 <= k < |lexed| ==> IsMaskedText(lexed[k].text) && lexed[k].indent == Indent(lines[k]))
            && Brackets(Texts(lexed)) == Brackets(MaskedCode(lines, mode))
    decreases |lines|
  {
    if lines != [] {
      var m := MaskFrom(lines[0], 0, mode);
      var pushed := Push(stack, Brackets(m.text)).value;
      LexedLines(lines[1..], m.mode, pushed);
      TrimLeftKeeps(m.text);
      TrimRightKeeps(TrimLeft(m.text));
      var lexed := LexLines(lines, mode, stack).value.lines;
      var rest := LexLines(lines[1..], m.mode, pushed).value.lines;
      assert lexed[1..] == rest;
      BracketsOf(Trim(m.text), Texts(rest));
      BracketsOf(m.text, MaskedCode(lines[1..], m.mode));
    }
  }

  // ---------- zones

  /** Where a byte of a line stands. Quotes and backslashes in literals are visible to the masker. */
  datatype Zone = Visible | InLiteral(quote: char) | InComment

  ghost function Comment(n: nat): (z: seq<Zone>)
    ensures |z| == n && forall k :: 0 <= k < n ==> z[k] == InComment
  {
    seq(n, _ => InComment)
  }

  ghost function ZonesFrom(line: string, i: nat, mode: Mode): (z: seq<Zone>)
    requires i <= |line|
    ensures |z| == |line| - i
    decreases |line| - i
  {
    if i == |line| then []
    else
      var c := line[i];
      match mode
      case Quoted(quote, triple) =>
        if triple && ThreeAt(line, i, quote) then [Visible, Visible, Visible] + ZonesFrom(line, i + 3, Code)
        else
          var closes := !triple && c == quote && (i == 0 || line[i - 1] != '\\');
          [if c == quote || c == '\\' then Visible else InLiteral(quote)]
          + ZonesFrom(line, i + 1, if closes then Code else mode)
      case Code =>
        if c == '#' then [Visible] + Comment(|line| - i - 1)
        else if IsQuote(c) then
          if ThreeAt(line, i, c) then [Visible, Visible, Visible] + ZonesFrom(line, i + 3, Quoted(c, true))
          else [Visible] + ZonesFrom(line, i + 1, Quoted(c, false))
        else [Visible] + ZonesFrom(line, i + 1, Code)
  }

  /** A visible byte is the same; a byte of a literal may become any other that is neither its quote nor a backslash. */
  ghost predicate AgreesAt(zone: Zone, a: char, b: char) {
    match zone
    case Visible => a == b
    case InLiteral(quote) => b != quote && b != '\\'
    case InComment => true
  }

  ghost predicate AgreesFrom(a: string, b: string, i: nat, mode: Mode)
    requires i <= |a| == |b|
  {
    var z := ZonesFrom(a, i, mode);
    forall k :: 0 <= k < |z| ==> AgreesAt(z[k], a[i + k], b[i + k])
  }

  lemma AgreesTail(a: string, b: string, i: nat, mode: Mode, step: nat, next: Mode)
    requires i + step <= |a| == |b|
    requires AgreesFrom(a, b, i, mode)
    requires ZonesFrom(a, i, mode)[step..] == ZonesFrom(a, i + step, next)
    ensures AgreesFrom(a, b, i + step, next)
  {
    var z, t := ZonesFrom(a, i, mode), ZonesFrom(a, i + step, next);
    forall k | 0 <= k < |t| ensures AgreesAt(t[k], a[i + step + k], b[i + step + k]) {
      assert t[k] == z[step + k];
    }
  }

  /** Three equal bytes that the masker sees as one delimiter are visible. */
  lemma DelimiterVisible(a: string, b: string, i: nat, mode: Mode)
    requires i < |a| == |b| && AgreesFrom(a, b, i, mode)
    requires if mode == Code then IsQuote(a[i]) && ThreeAt(a, i, a[i]) else mode.triple && ThreeAt(a, i, mode.quote)
    ensures b[i] == a[i] && b[i + 1] == a[i + 1] && b[i + 2] == a[i + 2]
  {
    var z := ZonesFrom(a, i, mode);
    assert AgreesAt(z[0], a[i + 0], b[i + 0]) && AgreesAt(z[1], a[i + 1], b[i + 1]) && AgreesAt(z[2], a[i + 2], b[i + 2]);
  }

  /** Inside a literal, its quote appears in one line exactly where it appears in the other. */
  lemma QuoteVisible(a: string, b: string, i: nat, quote: char, triple: bool)
    requires i < |a| == |b| && AgreesFrom(a, b, i, Quoted(quote, triple))
    ensures (a[i] == quote <==> b[i] == quote) && (a[i] == '\\' <==> b[i] == '\\')
  {
    var z := ZonesFrom(a, i, Quoted(quote, triple));
    assert AgreesAt(z[0], a[i + 0], b[i + 0]);
  }

  lemma InsideTail(a: string, b: string, i: nat, quote: char)
    requires i < |a| == |b| && AgreesFrom(a, b, i, Quoted(quote, true)) && !ThreeAt(a, i, quote)
    ensures AgreesFrom(a, b, i + 1, Quoted(quote, true))
  {
    AgreesTail(a, b, i, Quoted(quote, true), 1, Quoted(quote, true));
  }

  /** Inside a triple-quoted literal, agreeing lines close it at the same places. */
  lemma SameThree(a: string, b: string, i: nat, quote: char)
    requires i < |a| == |b| && AgreesFrom(a, b, i, Quoted(quote, true))
    ensures ThreeAt(a, i, quote) <==> ThreeAt(b, i, quote)
  {
    hide AgreesFrom;
    if ThreeAt(a, i, quote) {
      DelimiterVisible(a, b, i, Quoted(quote, true));
    } else if i + 2 < |a| {
      QuoteVisible(a, b, i, quote, true);
      InsideTail(a, b, i, quote);
      QuoteVisible(a, b, i + 1, quote, true);
      if !ThreeAt(a, i + 1, quote) {
        InsideTail(a, b, i + 1, quote);
        QuoteVisible(a, b, i + 2, quote, true);
      }
    }
  }

  lemma CodeVisible(a: string, b: string, i: nat)
    requires i < |a| == |b| && AgreesFrom(a, b, i, Code)
    ensures a[i] == b[i]
  {
    var z := ZonesFrom(a, i, Code);
    assert AgreesAt(z[0], a[i + 0], b[i + 0]);
  }

  /** At an opening quote in code, agreeing lines open the same kind of literal. */
  lemma SameOpening(a: string, b: string, i: nat)
    requires i < |a| == |b| && IsQuote(a[i]) && AgreesFrom(a, b, i, Code)
    ensures a[i] == b[i] && (ThreeAt(a, i, a[i]) <==> ThreeAt(b, i, b[i]))
  {
    hide AgreesFrom;
    var c := a[i];
    CodeVisible(a, b, i);
    if ThreeAt(a, i, c) {
      DelimiterVisible(a, b, i, Code);
    } else if i + 2 < |a| {
      AgreesTail(a, b, i, Code, 1, Quoted(c, false));
      QuoteVisible(a, b, i + 1, c, false);
      if a[i + 1] == c {
        AgreesTail(a, b, i + 1, Quoted(c, false), 1, Code);
        CodeVisible(a, b, i + 2);
      }
    }
  }

  /** Two agreeing lines are masked alike, whatever their hidden bytes are. */
  lemma {:induction false} MaskAgrees(a: string, b: string, i: nat, mode: Mode)
    requires i <= |a| == |b| && (mode.Quoted? ==> IsQuote(mode.quote))
    requires AgreesFrom(a, b, i, mode)
    requires i > 0 ==> (a[i - 1] == '\\' <==> b[i - 1] == '\\') && (mode == Code ==> a[i - 1] == b[i - 1])
    ensures MaskFrom(a, i, mode) == MaskFrom(b, i, mode)
    decreases |a| - i, 1
  {
    hide AgreesFrom;
    if i < |a| {
      match mode
      case Quoted(quote, triple) => MaskAgreesInside(a, b, i, quote, triple);
      case Code => MaskAgreesInCode(a, b, i);
    } else {
      assert i == |a| == |b|;
    }
  }

  lemma {:induction false} MaskAgreesInCode(a: string, b: string, i: nat)
    requires i < |a| == |b| && AgreesFrom(a, b, i, Code)
    requires i > 0 ==> a[i - 1] == b[i - 1]
    ensures MaskFrom(a, i, Code) == MaskFrom(b, i, Code)
    decreases |a| - i, 0
  {
    hide AgreesFrom, ZonesFrom;
    CodeVisible(a, b, i);
    if IsQuote(a[i]) {
      SameOpening(a, b, i);
      var triple := ThreeAt(a, i, a[i]);
      var step := if triple then 3 else 1;
      OpeningTail(a, b, i);
      if triple {
        DelimiterVisible(a, b, i, Code);
      }
      MaskAgrees(a, b, i + step, Quoted(a[i], triple));
    } else if a[i] != '#' {
      PlainTail(a, b, i);
      MaskAgrees(a, b, i + 1, Code);
    }
  }

  lemma OpeningTail(a: string, b: string, i: nat)
    requires i < |a| == |b| && IsQuote(a[i]) && AgreesFrom(a, b, i, Code)
    ensures var triple := ThreeAt(a, i, a[i]);
            AgreesFrom(a, b, i + (if triple then 3 else 1), Quoted(a[i], triple))
  {
    hide AgreesFrom;
    var triple := ThreeAt(a, i, a[i]);
    AgreesTail(a, b, i, Code, if triple then 3 else 1, Quoted(a[i], triple));
  }

  lemma PlainTail(a: string, b: string, i: nat)
    requires i < |a| == |b| && !IsQuote(a[i]) && a[i] != '#' && AgreesFrom(a, b, i, Code)
    ensures AgreesFrom(a, b, i + 1, Code)
  {
    hide AgreesFrom;
    AgreesTail(a, b, i, Code, 1, Code);
  }

  lemma {:induction false} MaskAgreesInside(a: string, b: string, i: nat, quote: char, triple: bool)
    requires i < |a| == |b| && IsQuote(quote)
    requires AgreesFrom(a, b, i, Quoted(quote, triple))
    requires i > 0 ==> (a[i - 1] == '\\' <==> b[i - 1] == '\\')
    ensures MaskFrom(a, i, Quoted(quote, triple)) == MaskFrom(b, i, Quoted(quote, triple))
    decreases |a| - i, 0
  {
    hide AgreesFrom;
    var mode := Quoted(quote, triple);
    QuoteVisible(a, b, i, quote, triple);
    if triple {
      SameThree(a, b, i, quote);
    }
    if triple && ThreeAt(a, i, quote) {
      AgreesTail(a, b, i, mode, 3, Code);
      DelimiterVisible(a, b, i, mode);
      MaskAgrees(a, b, i + 3, Code);
    } else {
      var closes := !triple && a[i] == quote && (i == 0 || a[i - 1] != '\\');
      var next := if closes then Code else mode;
      AgreesTail(a, b, i, mode, 1, next);
      MaskAgrees(a, b, i + 1, next);
    }
  }

  // ---------- whole sources

  /** Lines that agree in their visible bytes; a line that starts inside a literal also keeps its indentation. */
  ghost predicate LinesAgree(a: seq<string>, b: seq<string>, mode: Mode)
    decreases |a|
  {
    && |a| == |b|
    && (a != [] ==>
          && |a[0]| == |b[0]| && AgreesFrom(a[0], b[0], 0, mode)
          && (mode != Code ==> forall k :: 0 <= k <= Indent(a[0]) && k < |a[0]| ==> a[0][k] == b[0][k])
          && LinesAgree(a[1..], b[1..], MaskFrom(a[0], 0, mode).mode))
  }

  lemma {:induction false} IndentIs(line: string, n: nat)
    requires n <= |line| && (forall k :: 0 <= k < n ==> line[k] == ' ') && (n < |line| ==> line[n] != ' ')
    ensures Indent(line) == n
  {
    if n > 0 {
      IndentIs(line[1..], n - 1);
    }
  }

  /** In code, the indentation and the byte after it are visible. */
  lemma {:induction false} IndentVisible(line: string, i: nat, k: nat)
    requires i <= k <= Indent(line) && k < |line|
    ensures ZonesFrom(line, i, Code)[k - i] == Visible
    decreases |line| - i
  {
    var z := ZonesFrom(line, i, Code);
    if i < k {
      IndentVisible(line, i + 1, k);
      assert line[i] == ' ';
      assert z[k - i] == ZonesFrom(line, i + 1, Code)[k - (i + 1)];
    }
  }

  lemma SameIndent(a: string, b: string, mode: Mode)
    requires |a| == |b| && AgreesFrom(a, b, 0, mode)
    requires mode != Code ==> forall k :: 0 <= k <= Indent(a) && k < |a| ==> a[k] == b[k]
    ensures Indent(a) == Indent(b) && TabIndented(a) == TabIndented(b)
  {
    if mode == Code {
      var z := ZonesFrom(a, 0, Code);
      forall k | 0 <= k <= Indent(a) && k < |a| ensures a[k] == b[k] {
        IndentVisible(a, 0, k);
        assert AgreesAt(z[k], a[0 + k], b[0 + k]);
      }
    }
    IndentIs(b, Indent(a));
  }

  lemma {:induction false} LinesLexAlike(a: seq<string>, b: seq<string>, mode: Mode, stack: string)
    requires mode.Quoted? ==> IsQuote(mode.quote)
    requires LinesAgree(a, b, mode)
    ensures LexLines(a, mode, stack) == LexLines(b, mode, stack)
    decreases |a|
  {
    if a != [] {
      SameIndent(a[0], b[0], mode);
      MaskAgrees(a[0], b[0], 0, mode);
      var m := MaskFrom(a[0], 0, mode);
      ModeQuote(a[0], 0, mode);
      var pushed := Push(stack, Brackets(m.text));
      if pushed.Some? {
        LinesLexAlike(a[1..], b[1..], m.mode, pushed.value);
      }
    }
  }

  lemma {:induction false} ModeQuote(line: string, i: nat, mode: Mode)
    requires i <= |line| && (mode.Quoted? ==> IsQuote(mode.quote))
    ensures var m := MaskFrom(line, i, mode).mode; m.Quoted? ==> IsQuote(m.quote)
    decreases |line| - i
  {
    if i < |line| {
      match mode
      case Quoted(quote, triple) =>
        if triple && ThreeAt(line, i, quote) {
          ModeQuote(line, i + 3, Code);
        } else {
          ModeQuote(line, i + 1, Code);
          ModeQuote(line, i + 1, mode);
        }
      case Code =>
        if IsQuote(line[i]) {
          if ThreeAt(line, i, line[i]) {
            ModeQuote(line, i + 3, Quoted(line[i], true));
          }
          ModeQuote(line, i + 1, Quoted(line[i], false));
        }
        ModeQuote(line, i + 1, Code);
    }
  }

  /**
    Noninterference: sources that differ only inside comments and string
    literals are lexed alike, so every observation made on the masked lines,
    their indentation and the dynamic flag is the same for both.
    */
  lemma Noninterference(a: string, b: string)
    requires forall k :: 0 <= k < |a| ==> !IsBadControl(a[k])
    requires forall k :: 0 <= k < |b| ==> !IsBadControl(b[k])
    requires LinesAgree(Split(a, '\n'), Split(b, '\n'), Code)
    ensures Lex(a) == Lex(b)
  {
    LinesLexAlike(Split(a, '\n'), Split(b, '\n'), Code, "");
  }
}
