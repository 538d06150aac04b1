/**
  Python lines as they are written: code bytes, literals and a comment. The mask
  of a line is what its form says, and a source is accepted by its own code bytes.
  */
module PythonForms {
  import opened Common
  import opened GoStrings
  import opened Nesting
  import opened PythonLexer
  import opened PythonLexerProofs

  // ---------- forms

  /** The code of a line from some byte on; the last two are literals that do not end on the line. */
  datatype Form =
    | End
    | Remark(text: string)
    | Byte(c: char, rest: Form)
    | Literal(quote: char, body: string, rest: Form)
    | Block(quote: char, body: string, rest: Form)
    | Dangling(quote: char, body: string)
    | Opening(quote: char, body: string)

  ghost function Three(quote: char): string {
    [quote, quote, quote]
  }

  ghost function Print(f: Form): string {
    match f
    case End => ""
    case Remark(text) => ['#'] + text
    case Byte(c, rest) => [c] + Print(rest)
    case Literal(quote, body, rest) => [quote] + body + [quote] + Print(rest)
    case Block(quote, body, rest) => Three(quote) + body + Three(quote) + Print(rest)
    case Dangling(quote, body) => [quote] + body
    case Opening(quote, body) => Three(quote) + body
  }

  /** Every quote in the body of a single-line literal follows a backslash. */
  ghost predicate IsInside(quote: char, body: string) {
    forall k :: 0 <= k < |body| && body[k] == quote ==> k > 0 && body[k - 1] == '\\'
  }

  /** The body of a literal in triple quotes, up to the first three quotes in a row. */
  ghost predicate EndsAtThree(quote: char, body: string) {
    forall k :: 0 <= k < |body| ==> !ThreeAt(body + Three(quote), k, quote)
  }

  ghost predicate NoThree(quote: char, body: string) {
    forall k :: 0 <= k < |body| ==> !ThreeAt(body, k, quote)
  }

  ghost predicate IsMark(c: char) {
    c == '\'' || c == '"'
  }

  /** A letter, a digit or an underscore. */
  ghost predicate IsNameByte(c: char) {
    'a' <= c <= 'z' || 'A' <= c <= 'Z' || IsDigit(c) || c == '_'
  }

  ghost predicate FormOk(f: Form) {
    match f
    case End => true
    case Remark(_) => true
    case Byte(c, rest) => !IsMark(c) && c != '#' && FormOk(rest)
    case Literal(quote, body, rest) =>
      && IsMark(quote) && IsInside(quote, body) && FormOk(rest)
      && (if body == "" then Print(rest) == "" || Print(rest)[0] != quote else body[|body| - 1] != '\\')
    case Block(quote, body, rest) => IsMark(quote) && EndsAtThree(quote, body) && FormOk(rest)
    case Dangling(quote, body) => IsMark(quote) && IsInside(quote, body)
    case Opening(quote, body) => IsMark(quote) && NoThree(quote, body)
  }

  // ---------- what a form says

  const MARKED: string := [MARK, ' ', ' ']

  /** The code bytes as they are, a mark for each delimiter, and blanks for what is hidden. */
  ghost function Rendered(f: Form): string {
    match f
    case End => ""
    case Remark(text) => Spaces(1 + |text|)
    case Byte(c, rest) => [c] + Rendered(rest)
    case Literal(_, body, rest) => [MARK] + (Spaces(|body| + 1) + Rendered(rest))
    case Block(_, body, rest) => MARKED + (Spaces(|body|) + MARKED + Rendered(rest))
    case Dangling(_, body) => [MARK] + Spaces(|body|)
    case Opening(_, body) => MARKED + Spaces(|body|)
  }

  ghost function EndsIn(f: Form): Mode {
    match f
    case End => Code
    case Remark(_) => Code
    case Byte(_, rest) => EndsIn(rest)
    case Literal(_, _, rest) => EndsIn(rest)
    case Block(_, _, rest) => EndsIn(rest)
    case Dangling(quote, _) => Quoted(quote, false)
    case Opening(quote, _) => Quoted(quote, true)
  }

  /** Some literal has a letter, a digit or an underscore right before it, or a backslash in it. */
  ghost predicate IsDynamic(f: Form, afterName: bool) {
    match f
    case End => false
    case Remark(_) => false
    case Byte(c, rest) => IsDynamic(rest, IsNameByte(c))
    case Literal(_, body, rest) => afterName || '\\' in body || IsDynamic(rest, false)
    case Block(_, body, rest) => afterName || '\\' in body || IsDynamic(rest, false)
    case Dangling(_, body) => afterName || '\\' in body
    case Opening(_, body) => afterName || '\\' in body
  }

  ghost function CodeBytes(f: Form): string {
    match f
    case End => ""
    case Remark(_) => ""
    case Byte(c, rest) => [c] + CodeBytes(rest)
    case Literal(_, _, rest) => CodeBytes(rest)
    case Block(_, _, rest) => CodeBytes(rest)
    case Dangling(_, _) => ""
    case Opening(_, _) => ""
  }

  // ---------- inside literals

  lemma AfterAfter(m: Masked, a: string, f: bool, b: string, g: bool)
    ensures m.After(a, f).After(b, g) == m.After(b + a, g || f)
  {
    assert b + (a + m.text) == b + a + m.text;
  }

  lemma SpacesMore(n: nat)
    ensures " " + Spaces(n) == Spaces(n + 1)
  {
  }

  lemma InTail(body: string, j: nat)
    requires j < |body|
    ensures '\\' in body[j..] <==> body[j] == '\\' || '\\' in body[j + 1..]
  {
    assert body[j..] == [body[j]] + body[j + 1..];
  }

  /** The byte at `i` neither closes the literal nor starts its closing delimiter. */
  ghost predicate StaysHidden(line: string, i: nat, quote: char, triple: bool)
    requires i < |line|
  {
    if triple then !ThreeAt(line, i, quote) else line[i] == quote ==> i > 0 && line[i - 1] == '\\'
  }

  lemma HiddenStep(line: string, i: nat, quote: char, triple: bool)
    requires i < |line| && StaysHidden(line, i, quote, triple)
    ensures MaskFrom(line, i, Quoted(quote, triple)) == MaskFrom(line, i + 1, Quoted(quote, triple)).After(" ", line[i] == '\\')
  {
  }

  /** The bytes from `i` to `k` are hidden. */
  lemma {:induction false} HiddenRun(line: string, i: nat, k: nat, quote: char, triple: bool)
    requires i <= k <= |line| && forall j :: i <= j < k ==> StaysHidden(line, j, quote, triple)
    ensures MaskFrom(line, i, Quoted(quote, triple))
         == MaskFrom(line, k, Quoted(quote, triple)).After(Spaces(k - i), '\\' in line[i..k])
    decreases k - i
  {
    hide MaskFrom, StaysHidden;
    var mode := Quoted(quote, triple);
    var m := MaskFrom(line, k, mode);
    if i == k {
      assert Spaces(0) + m.text == m.text;
    } else {
      HiddenStep(line, i, quote, triple);
      HiddenRun(line, i + 1, k, quote, triple);
      AfterAfter(m, Spaces(k - i - 1), '\\' in line[i + 1..k], " ", line[i] == '\\');
      SpacesMore(k - i - 1);
      assert line[i..k] == [line[i]] + line[i + 1..k];
    }
  }

  lemma HiddenToEnd(line: string, i: nat, quote: char, triple: bool)
    requires i <= |line| && forall j :: i <= j < |line| ==> StaysHidden(line, j, quote, triple)
    ensures MaskFrom(line, i, Quoted(quote, triple)) == Masked(Spaces(|line| - i), Quoted(quote, triple), '\\' in line[i..])
  {
    HiddenRun(line, i, |line|, quote, triple);
    assert line[i..|line|] == line[i..];
    assert Spaces(|line| - i) + "" == Spaces(|line| - i);
  }

  // ---------- the mask of a printed form

  ghost predicate Prefixed(line: string, i: nat)
    requires i <= |line|
  {
    i > 0 && IsIdentifierByte(line[i - 1])
  }

  ghost function Told(f: Form, prefixed: bool): Masked {
    Masked(Rendered(f), EndsIn(f), IsDynamic(f, prefixed))
  }

  lemma At(line: string, i: nat, part: string, rest: string)
    requires i <= |line| && line[i..] == part + rest
    ensures i + |part| <= |line| && line[i..i + |part|] == part && line[i + |part|..] == rest
    ensures forall j :: 0 <= j < |part| ==> line[i + j] == part[j]
  {
    assert forall j :: 0 <= j < |part| ==> line[i + j] == line[i..][j];
    assert line[i..][..|part|] == part;
    assert line[i..][|part|..] == rest;
  }

  /** The body of a single-line literal that starts after its quote at `i`. */
  lemma SingleBody(line: string, i: nat, quote: char, body: string)
    requires i + 1 + |body| <= |line| && line[i] == quote && line[i + 1..i + 1 + |body|] == body
    requires IsQuote(quote) && IsInside(quote, body)
    ensures forall j :: i + 1 <= j < i + 1 + |body| ==> StaysHidden(line, j, quote, false)
  {
    forall j | i + 1 <= j < i + 1 + |body| ensures StaysHidden(line, j, quote, false) {
      var k := j - (i + 1);
      assert body[k] == line[i + 1..i + 1 + |body|][k] == line[j];
      if line[j] == quote {
        assert body[k - 1] == line[i + 1..i + 1 + |body|][k - 1] == line[j - 1];
      }
    }
  }

  lemma LiteralMask(line: string, i: nat, quote: char, body: string, rest: Form)
    requires i <= |line| && line[i..] == Print(Literal(quote, body, rest)) && FormOk(Literal(quote, body, rest))
    ensures i + |body| + 2 <= |line| && line[i + |body| + 2..] == Print(rest) && line[i + |body| + 1] == quote
    ensures MaskFrom(line, i, Code)
         == MaskFrom(line, i + |body| + 2, Code).After([MARK] + Spaces(|body| + 1), Prefixed(line, i) || '\\' in body)
  {
    hide MaskFrom, Print, FormOk;
    var k := i + 1 + |body|;
    LiteralPlaces(line, i, quote, body, rest);
    var m := MaskFrom(line, k + 1, Code);
    OpensSingle(line, i);
    SingleBody(line, i, quote, body);
    HiddenRun(line, i + 1, k, quote, false);
    ClosesSingle(line, k, quote);
    AfterAfter(m, " ", false, Spaces(|body|), '\\' in body);
    AfterAfter(m, Spaces(|body|) + " ", '\\' in body, [MARK], Prefixed(line, i));
    assert Spaces(|body|) + " " == Spaces(|body| + 1);
  }

  lemma OpensSingle(line: string, i: nat)
    requires i < |line| && IsQuote(line[i]) && !ThreeAt(line, i, line[i])
    ensures MaskFrom(line, i, Code) == MaskFrom(line, i + 1, Quoted(line[i], false)).After([MARK], Prefixed(line, i))
  {
  }

  lemma ClosesSingle(line: string, k: nat, quote: char)
    requires 0 < k < |line| && line[k] == quote && line[k - 1] != '\\' && IsQuote(quote)
    ensures MaskFrom(line, k, Quoted(quote, false)) == MaskFrom(line, k + 1, Code).After(" ", false)
  {
  }

  lemma LiteralPlaces(line: string, i: nat, quote: char, body: string, rest: Form)
    requires i <= |line| && line[i..] == Print(Literal(quote, body, rest)) && FormOk(Literal(quote, body, rest))
    ensures var k := i + 1 + |body|;
            && k < |line| && line[i] == quote && line[i + 1..k] == body && line[k] == quote && line[k + 1..] == Print(rest)
            && line[k - 1] != '\\' && !ThreeAt(line, i, quote) && IsQuote(quote) && IsInside(quote, body)
  {
    var tail := Print(rest);
    assert [quote] + body + [quote] + tail == [quote] + (body + ([quote] + tail));
    QuotedPlaces(line, i, quote, body, tail);
  }

  /** Where the parts of a quoted body stand. */
  lemma QuotedPlaces(line: string, i: nat, quote: char, body: string, tail: string)
    requires i <= |line| && line[i..] == [quote] + (body + ([quote] + tail))
    ensures var k := i + 1 + |body|;
            && k < |line| && line[i] == quote && line[i + 1..k] == body && line[k] == quote && line[k + 1..] == tail
            && (body != "" ==> line[i + 1] == body[0] && line[k - 1] == body[|body| - 1])
            && (k + 1 < |line| ==> tail != "" && line[k + 1] == tail[0])
  {
    var k := i + 1 + |body|;
    At(line, i, [quote], body + ([quote] + tail));
    At(line, i + 1, body, [quote] + tail);
    At(line, k, [quote], tail);
    assert body != "" ==> line[i + 1 + 0] == body[0] && line[i + 1 + (|body| - 1)] == body[|body| - 1];
  }

  lemma DanglingMask(line: string, i: nat, quote: char, body: string)
    requires i <= |line| && line[i..] == Print(Dangling(quote, body)) && FormOk(Dangling(quote, body))
    ensures MaskFrom(line, i, Code) == Told(Dangling(quote, body), Prefixed(line, i))
  {
    hide MaskFrom;
    assert body + "" == body && [quote] + body + "" == [quote] + body;
    At(line, i, [quote], body);
    assert line[i + 1..i + 1 + |body|] == body;
    assert body != "" ==> line[i + 1] == body[0];
    OpensSingle(line, i);
    SingleBody(line, i, quote, body);
    HiddenToEnd(line, i + 1, quote, false);
  }

  lemma OpensBlock(line: string, i: nat)
    requires i < |line| && IsQuote(line[i]) && ThreeAt(line, i, line[i])
    ensures MaskFrom(line, i, Code) == MaskFrom(line, i + 3, Quoted(line[i], true)).After(MARKED, Prefixed(line, i))
  {
  }

  lemma ClosesBlock(line: string, k: nat, quote: char)
    requires k < |line| && ThreeAt(line, k, quote) && IsQuote(quote)
    ensures MaskFrom(line, k, Quoted(quote, true)) == MaskFrom(line, k + 3, Code).After(MARKED, false)
  {
  }

  /** The rest of a block from `i` on, when it ends on the line. */
  lemma BlockTail(line: string, i: nat, quote: char, body: string, rest: string)
    requires i <= |line| && line[i..] == body + (Three(quote) + rest) && IsQuote(quote) && EndsAtThree(quote, body)
    ensures i + |body| + 3 <= |line| && line[i + |body| + 3..] == rest && line[i + |body| + 2] == quote
    ensures MaskFrom(line, i, Quoted(quote, true))
         == MaskFrom(line, i + |body| + 3, Code).After(Spaces(|body|) + MARKED, '\\' in body)
  {
    hide MaskFrom;
    var k := i + |body|;
    var three := Three(quote);
    At(line, i, body, three + rest);
    At(line, k, three, rest);
    At(line, i, body + three, rest);
    forall j | i <= j < k ensures StaysHidden(line, j, quote, true) {
      assert !ThreeAt(body + three, j - i, quote);
      assert line[i + (j - i)] == (body + three)[j - i] && line[i + (j - i + 1)] == (body + three)[j - i + 1]
          && line[i + (j - i + 2)] == (body + three)[j - i + 2];
    }
    HiddenRun(line, i, k, quote, true);
    assert line[k + 0] == quote && line[k + 1] == quote && line[k + 2] == quote;
    ClosesBlock(line, k, quote);
    AfterAfter(MaskFrom(line, k + 3, Code), MARKED, false, Spaces(|body|), '\\' in body);
  }

  /** The rest of a block from `i` on, when it does not end on the line. */
  lemma BlockRuns(line: string, i: nat, quote: char)
    requires i <= |line| && NoThree(quote, line[i..])
    ensures MaskFrom(line, i, Quoted(quote, true)) == Masked(Spaces(|line| - i), Quoted(quote, true), '\\' in line[i..])
  {
    hide MaskFrom;
    forall j | i <= j < |line| ensures StaysHidden(line, j, quote, true) {
      assert !ThreeAt(line[i..], j - i, quote);
    }
    HiddenToEnd(line, i, quote, true);
  }

  lemma BlockMask(line: string, i: nat, quote: char, body: string, rest: Form)
    requires i <= |line| && line[i..] == Print(Block(quote, body, rest)) && FormOk(Block(quote, body, rest))
    ensures i + |body| + 6 <= |line| && line[i + |body| + 6..] == Print(rest) && line[i + |body| + 5] == quote
    ensures MaskFrom(line, i, Code)
         == MaskFrom(line, i + |body| + 6, Code).After(MARKED + (Spaces(|body|) + MARKED), Prefixed(line, i) || '\\' in body)
  {
    hide MaskFrom;
    var three := Three(quote);
    assert line[i..] == three + (body + (three + Print(rest)));
    At(line, i, three, body + (three + Print(rest)));
    assert line[i + 0] == quote && line[i + 1] == quote && line[i + 2] == quote;
    OpensBlock(line, i);
    BlockTail(line, i + 3, quote, body, Print(rest));
    AfterAfter(MaskFrom(line, i + |body| + 6, Code), Spaces(|body|) + MARKED, '\\' in body, MARKED, Prefixed(line, i));
  }

  lemma OpeningMask(line: string, i: nat, quote: char, body: string)
    requires i <= |line| && line[i..] == Print(Opening(quote, body)) && FormOk(Opening(quote, body))
    ensures MaskFrom(line, i, Code) == Told(Opening(quote, body), Prefixed(line, i))
  {
    hide MaskFrom;
    At(line, i, Three(quote), body);
    assert line[i + 0] == quote && line[i + 1] == quote && line[i + 2] == quote;
    OpensBlock(line, i);
    BlockRuns(line, i + 3, quote);
  }

  lemma PrintedByte(line: string, i: nat, c: char, rest: Form)
    requires i < |line| && line[i] == c && !IsQuote(c) && c != '#'
    requires MaskFrom(line, i + 1, Code) == Told(rest, IsIdentifierByte(c))
    ensures MaskFrom(line, i, Code) == Told(Byte(c, rest), Prefixed(line, i))
  {
  }

  lemma PrintedEnd(line: string, i: nat, text: string)
    ensures MaskFrom(line, |line|, Code) == Told(End, Prefixed(line, |line|))
    ensures i <= |line| && line[i..] == ['#'] + text ==> MaskFrom(line, i, Code) == Told(Remark(text), Prefixed(line, i))
  {
    if i <= |line| && line[i..] == ['#'] + text {
      assert line[i] == line[i..][0] && |line| - i == 1 + |text|;
    }
  }

  lemma PrintedLiteral(line: string, i: nat, quote: char, body: string, rest: Form, m: Masked)
    requires i <= |line| && m == Told(rest, false)
    ensures m.After([MARK] + Spaces(|body| + 1), Prefixed(line, i) || '\\' in body)
         == Told(Literal(quote, body, rest), Prefixed(line, i))
  {
    assert [MARK] + (Spaces(|body| + 1) + m.text) == [MARK] + Spaces(|body| + 1) + m.text;
  }

  lemma PrintedBlock(line: string, i: nat, quote: char, body: string, rest: Form, m: Masked)
    requires i <= |line| && m == Told(rest, false)
    ensures m.After(MARKED + (Spaces(|body|) + MARKED), Prefixed(line, i) || '\\' in body)
         == Told(Block(quote, body, rest), Prefixed(line, i))
  {
    assert MARKED + (Spaces(|body|) + MARKED + m.text) == MARKED + (Spaces(|body|) + MARKED) + m.text;
  }

  /** The mask of a printed form is what the form says. */
  lemma {:induction false} MaskPrinted(line: string, i: nat, f: Form)
    requires i <= |line| && line[i..] == Print(f) && FormOk(f)
    ensures MaskFrom(line, i, Code) == Told(f, Prefixed(line, i))
    decreases f
  {
    hide MaskFrom, Told;
    match f
    case End =>
      PrintedEnd(line, i, "");
      assert i == |line|;
    case Remark(text) => PrintedEnd(line, i, text);
    case Byte(c, rest) =>
      At(line, i, [c], Print(rest));
      assert line[i + 0] == c;
      MaskPrinted(line, i + 1, rest);
      PrintedByte(line, i, c, rest);
    case Literal(quote, body, rest) =>
      LiteralMask(line, i, quote, body, rest);
      MaskPrinted(line, i + |body| + 2, rest);
      PrintedLiteral(line, i, quote, body, rest, MaskFrom(line, i + |body| + 2, Code));
    case Block(quote, body, rest) =>
      BlockMask(line, i, quote, body, rest);
      MaskPrinted(line, i + |body| + 6, rest);
      PrintedBlock(line, i, quote, body, rest, MaskFrom(line, i + |body| + 6, Code));
    case Dangling(quote, body) => DanglingMask(line, i, quote, body);
    case Opening(quote, body) => OpeningMask(line, i, quote, body);
  }
}
