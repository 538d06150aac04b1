/**
  The lexical masker for Python source: comments and string contents are blanked
  out, indentation is kept, and the brackets of what remains must nest. Each
  `char` of a source stands for one byte.
  */
module PythonLexer {
  import opened Common
  import opened GoStrings
  import opened Nesting

  /** Stands for a masked literal; it cannot occur in admitted input. */
  const MARK: char := '\U{0001}'

  datatype Mode = Code | Quoted(quote: char, triple: bool)

  predicate IsQuote(c: char) {
    c == '\'' || c == '"'
  }

  predicate IsIdentifierByte(c: char) {
    c == '_' || 'a' <= c <= 'z' || 'A' <= c <= 'Z' || '0' <= c <= '9'
  }

  predicate IsBadControl(c: char) {
    c < ' ' && c != '\n' && c != '\r' && c != '\t'
  }

  predicate ThreeAt(line: string, i: nat, c: char) {
    i + 2 < |line| && line[i] == c && line[i + 1] == c && line[i + 2] == c
  }

  function Spaces(n: nat): (s: string)
    ensures |s| == n && forall k :: 0 <= k < n ==> s[k] == ' '
  {
    seq(n, _ => ' ')
  }

  // ---------- one line

  datatype Masked = Masked(text: string, mode: Mode, dynamic: bool) {
    function After(prefix: string, flag: bool): Masked {
      Masked(prefix + text, mode, flag || dynamic)
    }
  }

  predicate IsMaskedText(s: string) {
    forall k :: 0 <= k < |s| ==> !IsQuote(s[k]) && s[k] != '#'
  }

  /** The mask of a line from `i` on: as long as the line, and without quotes or comment signs. */
  function MaskFrom(line: string, i: nat, mode: Mode): (m: Masked)
    requires i <= |line|
    ensures |m.text| == |line| - i
    ensures IsMaskedText(m.text)
    decreases |line| - i
  {
    if i == |line| then Masked("", mode, false)
    else
      var c := line[i];
      match mode
      case Quoted(quote, triple) =>
        if triple && ThreeAt(line, i, quote) then
          MaskFrom(line, i + 3, Code).After([MARK, ' ', ' '], c == '\\')
        else
          var closes := !triple && c == quote && (i == 0 || line[i - 1] != '\\');
          MaskFrom(line, i + 1, if closes then Code else mode).After(" ", c == '\\')
      case Code =>
        if c == '#' then Masked(Spaces(|line| - i), Code, false)
        else if IsQuote(c) then
          var prefixed := i > 0 && IsIdentifierByte(line[i - 1]);
          if ThreeAt(line, i, c) then MaskFrom(line, i + 3, Quoted(c, true)).After([MARK, ' ', ' '], prefixed)
          else MaskFrom(line, i + 1, Quoted(c, false)).After([MARK], prefixed)
        else MaskFrom(line, i + 1, Code).After([c], false)
  }

  /** How many spaces a line starts with. */
  function Indent(line: string): (n: nat)
    ensures n <= |line|
    ensures forall k :: 0 <= k < n ==> line[k] == ' '
    ensures n < |line| ==> line[n] != ' '
  {
    if line != "" && line[0] == ' ' then 1 + Indent(line[1..]) else 0
  }

  predicate TabIndented(line: string) {
    Indent(line) < |line| && line[Indent(line)] == '\t'
  }

  predicate Unclosed(mode: Mode) {
    mode.Quoted? && !mode.triple
  }

  // ---------- whole sources

  datatype Line = Line(indent: nat, text: string)

  datatype Lexed = Lexed(lines: seq<Line>, dynamic: bool)

  function LexLines(lines: seq<string>, mode: Mode, stack: string): Option<Lexed> {
    if lines == [] then if mode == Code && stack == "" then Some(Lexed([], false)) else None
    else if TabIndented(lines[0]) then None
    else
      var m := MaskFrom(lines[0], 0, mode);
      var pushed := Push(stack, Brackets(m.text));
      if pushed == None || Unclosed(m.mode) then None
      else
        var rest := LexLines(lines[1..], m.mode, pushed.value);
        if rest == None then None
        else Some(Lexed([Line(Indent(lines[0]), Trim(m.text))] + rest.value.lines, m.dynamic || rest.value.dynamic))
  }

  function Lex(source: string): Option<Lexed> {
    if exists k :: 0 <= k < |source| && IsBadControl(source[k]) then None
    else LexLines(Split(source, '\n'), Code, "")
  }

  // ---------- the masker itself

  method LeadingSpaces(line: string) returns (indent: nat)
    ensures indent == Indent(line)
  {
    indent := 0;
    while indent < |line| && line[indent] == ' '
      invariant indent <= |line|
      invariant Indent(line) == indent + Indent(line[indent..])
    {
      assert line[indent..][1..] == line[indent + 1..];
      indent := indent + 1;
    }
  }

  /** The bracket that was just written: pushed, popped, or a mismatch. */
  method Nest(stack: string, c: char) returns (ok: bool, next: string)
    ensures ok == Push(stack, Brackets([c])).Some?
    ensures ok ==> Push(stack, Brackets([c])) == Some(next)
  {
    assert [c][1..] == "";
    next := stack;
    if IsOpen(c) {
      next := stack + [c];
    } else if IsClose(c) {
      if |stack| == 0 || !Matches(stack[|stack| - 1], c) {
        return false, stack;
      }
      next := stack[..|stack| - 1];
    }
    return true, next;
  }

  /** One byte of a line; `written` is what it adds to the masked text. */
  method MaskByte(line: string, cursor: nat, mode: Mode)
    returns (written: string, next: nat, mode': Mode, flag: bool)
    requires cursor < |line|
    ensures cursor < next <= |line| && |written| == next - cursor
    ensures MaskFrom(line, cursor, mode) == MaskFrom(line, next, mode').After(written, flag)
    ensures !(mode == Code && mode' == Code && next == cursor + 1) ==> Brackets(written) == ""
  {
    var value := line[cursor];
    flag := false;
    if mode.Quoted? {
      flag := value == '\\';
      if mode.triple && ThreeAt(line, cursor, mode.quote) {
        Blank([MARK, ' ', ' ']);
        return [MARK, ' ', ' '], cursor + 3, Code, flag;
      }
      Blank(" ");
      written, next, mode' := " ", cursor + 1, mode;
      if !mode.triple && value == mode.quote && (cursor == 0 || line[cursor - 1] != '\\') {
        mode' := Code;
      }
      return;
    }
    if value == '#' {
      Blank(Spaces(|line| - cursor));
      assert MaskFrom(line, |line|, Code) == Masked("", Code, false);
      assert Spaces(|line| - cursor) + "" == Spaces(|line| - cursor);
      return Spaces(|line| - cursor), |line|, Code, false;
    }
    if IsQuote(value) {
      var prefixStart := cursor;
      while prefixStart > 0 && IsIdentifierByte(line[prefixStart - 1])
        invariant prefixStart <= cursor
        invariant prefixStart == cursor || (cursor > 0 && IsIdentifierByte(line[cursor - 1]))
      {
        prefixStart := prefixStart - 1;
      }
      flag := prefixStart != cursor;
      if ThreeAt(line, cursor, value) {
        Blank([MARK, ' ', ' ']);
        return [MARK, ' ', ' '], cursor + 3, Quoted(value, true), flag;
      }
      Blank([MARK]);
      return [MARK], cursor + 1, Quoted(value, false), flag;
    }
    return [value], cursor + 1, Code, false;
  }

  /** A text without brackets. */
  lemma {:induction false} Blank(s: string)
    requires forall k :: 0 <= k < |s| ==> !IsOpen(s[k]) && !IsClose(s[k])
    ensures Brackets(s) == ""
  {
    if s != "" {
      Blank(s[1..]);
    }
  }

  lemma NothingMasked(line: string, stack: string)
    ensures Brackets("") == "" && Push(stack, "") == Some(stack)
    ensures forall mode :: MaskFrom(line, |line|, mode) == Masked("", mode, false)
  {
  }

  /** One physical line; `ok` is false at a bracket mismatch. */
  method MaskLine(line: string, start: Mode, stack: string)
    returns (ok: bool, out: string, mode: Mode, stack': string, dynamic: bool)
    ensures ok == Push(stack, Brackets(MaskFrom(line, 0, start).text)).Some?
    ensures ok ==> MaskFrom(line, 0, start) == Masked(out, mode, dynamic)
    ensures ok ==> Push(stack, Brackets(out)) == Some(stack')
  {
    hide MaskFrom, Push, Brackets;
    ghost var goal := MaskFrom(line, 0, start);
    NothingMasked(line, stack);
    var cursor := 0;
    out, mode, stack', dynamic := "", start, stack, false;
    assert goal == goal.After("", false) by { assert "" + goal.text == goal.text; }
    while cursor < |line|
      invariant cursor <= |line|
      invariant goal == MaskFrom(line, cursor, mode).After(out, dynamic)
      invariant Push(stack, Brackets(out)) == Some(stack')
    {
      var written, next, mode', flag := MaskByte(line, cursor, mode);
      ghost var rest := MaskFrom(line, next, mode').text;
      assert out + (written + rest) == (out + written) + rest;
      BracketsOf(out, written);
      PushOf(stack, Brackets(out), Brackets(written));
      NothingMasked(line, stack');
      if mode == Code && mode' == Code && next == cursor + 1 {
        assert written == [written[0]];
        ok, stack' := Nest(stack', written[0]);
        if !ok {
          BracketsOf(out + written, rest);
          PushOf(stack, Brackets(out + written), Brackets(rest));
          return;
        }
      }
      out := out + written;
      dynamic := dynamic || flag;
      cursor, mode := next, mode';
    }
    assert out + "" == out;
    ok := true;
  }

  /** `lexicalPythonLines`, with `None` for its error. */
  method LexicalPythonLines(source: string) returns (result: Option<Lexed>)
    ensures result == Lex(source)
  {
    for index := 0 to |source|
      invariant forall k :: 0 <= k < index ==> !IsBadControl(source[k])
    {
      if IsBadControl(source[index]) {
        return None;
      }
    }
    var physical := Split(source, '\n');
    var mode: Mode, stack: string, dynamic: bool, lines: seq<Line> := Code, "", false, [];
    ghost var goal := LexLines(physical, Code, "");
    assert physical[0..] == physical;
    JoinNothing(goal);
    for index := 0 to |physical|
      invariant goal == Join(lines, dynamic, LexLines(physical[index..], mode, stack))
    {
      var line := physical[index];
      assert physical[index..][1..] == physical[index + 1..];
      var indent := LeadingSpaces(line);
      if indent < |line| && line[indent] == '\t' {
        return None;
      }
      var ok, out, mode', stack', flag := MaskLine(line, mode, stack);
      if !ok || Unclosed(mode') {
        return None;
      }
      JoinOne(lines, dynamic, Line(indent, Trim(out)), flag, LexLines(physical[index + 1..], mode', stack'));
      lines := lines + [Line(indent, Trim(out))];
      mode, stack, dynamic := mode', stack', dynamic || flag;
    }
    assert physical[|physical|..] == [];
    if mode != Code || stack != "" {
      return None;
    }
    assert lines + [] == lines;
    return Some(Lexed(lines, dynamic));
  }

  /** Lines already done, in front of what is still to come. */
  ghost function Join(done: seq<Line>, dynamic: bool, rest: Option<Lexed>): Option<Lexed> {
    if rest == None then None else Some(Lexed(done + rest.value.lines, dynamic || rest.value.dynamic))
  }

  lemma JoinNothing(rest: Option<Lexed>)
    ensures Join([], false, rest) == rest
  {
    if rest.Some? {
      assert [] + rest.value.lines == rest.value.lines;
    }
  }

  lemma JoinOne(done: seq<Line>, dynamic: bool, line: Line, flag: bool, rest: Option<Lexed>)
    ensures Join(done, dynamic, Join([line], flag, rest)) == Join(done + [line], dynamic || flag, rest)
  {
    if rest.Some? {
      assert done + ([line] + rest.value.lines) == (done + [line]) + rest.value.lines;
    }
  }
}
