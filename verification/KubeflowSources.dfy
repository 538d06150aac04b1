/** The KFP observation from the source on, and the modules that anyone would write. */
module KubeflowSources {
  import opened Common
  import opened GoStrings
  import opened GoStringsProofs
  import opened Nesting
  import opened PythonLexer
  import opened PythonLexerProofs
  import opened PythonForms
  import opened PythonSources
  import opened Kubeflow
  import opened KubeflowProofs

  /**
    A source declares an API exactly when it can be written in forms without a
    dynamic literal whose rendered code lines are a module of that API.
    */
  lemma SourceDeclaresIff(source: string, api: Api)
    ensures Observe(source) == Declared(api) <==>
            exists forms ::
              && IsSource(source, forms) && |forms| == |Split(source, '\n')|
              && !Reading(source, forms).dynamic && IsModule(CodeLines(Reading(source, forms).lines), api)
  {
    hide Lex, Judge, IsModule, IsSource, Reading, CodeLines;
    var lexed := Lex(source);
    if lexed.Some? {
      SourceAcceptedIff(source, lexed.value);
      DeclaredIff(CodeLines(lexed.value.lines), api);
    }
    forall forms | IsSource(source, forms) && |forms| == |Split(source, '\n')| ensures lexed == Some(Reading(source, forms)) {
      SourceAcceptedIff(source, Reading(source, forms));
    }
  }

  // ---------- returned values and parameters

  /** The text is the value with white space around it, and the value has none at its ends. */
  ghost predicate IsPadded(text: string, value: string) {
    Bare(value) && exists a, b :: Surrounds(text, value, a, b)
  }

  /** What a line of the body returns. */
  lemma ReturnedIff(text: string, value: string)
    ensures Returned(text) == Some(value) <==> exists rest :: text == "return " + rest && IsPadded(rest, value)
  {
    hide Trim, Bare, Surrounds;
    if HasPrefix(text, "return ") {
      var rest := text[7..];
      assert text == "return " + rest;
      TrimIff(rest, value);
    }
    forall rest | text == "return " + rest && IsPadded(rest, value) ensures Returned(text) == Some(value) {
      assert text[..7] == "return " && text[7..] == rest;
      TrimIff(rest, value);
    }
  }

  /** Distinct simple identifiers with commas between them and white space around them. */
  ghost predicate AreParameters(text: string, parts: seq<string>, names: seq<string>) {
    && parts != [] && NoneHolds(parts, ',') && Joined(parts, ',') == text
    && |names| == |parts| && Distinct(names)
    && forall i :: 0 <= i < |parts| ==> IsPadded(parts[i], names[i]) && IsSimpleIdentifier(names[i])
  }

  lemma ListIff(text: string)
    ensures AdmittedList(Split(text, ',')) <==> exists parts, names :: AreParameters(text, parts, names)
  {
    hide Trim, IsPadded, IsSimpleIdentifier, Split, Joined;
    var own := Split(text, ',');
    JoinSplit(text, ',');
    if AdmittedList(own) {
      var names := seq(|own|, i requires 0 <= i < |own| => Trim(own[i]));
      forall i | 0 <= i < |own| ensures IsPadded(own[i], names[i]) {
        PaddedIff(own[i], names[i]);
      }
      assert AreParameters(text, own, names);
    }
    forall parts, names | AreParameters(text, parts, names) ensures AdmittedList(own) {
      SplitIff(text, ',', parts);
      forall i | 0 <= i < |own| ensures Trim(own[i]) == names[i] {
        PaddedIff(own[i], names[i]);
      }
    }
  }

  lemma PaddedIff(text: string, value: string)
    ensures IsPadded(text, value) <==> Trim(text) == value
  {
    hide Trim, Bare, Surrounds;
    TrimIff(text, value);
  }

  lemma ParametersIff(parameters: string)
    ensures AdmittedParameters(parameters) <==>
            exists text :: IsPadded(parameters, text) && (text == "" || exists parts, names :: AreParameters(text, parts, names))
  {
    hide Trim, IsPadded, AdmittedList, AreParameters;
    var own := Trim(parameters);
    PaddedIff(parameters, own);
    ListIff(own);
    forall text | IsPadded(parameters, text) ensures text == own {
      PaddedIff(parameters, text);
    }
  }

  // ---------- lines without literals and comments

  ghost predicate IsPlainLine(line: string) {
    forall i :: 0 <= i < |line| ==> !IsQuote(line[i]) && line[i] != '#' && line[i] != '\t' && line[i] != '\n' && !IsBadControl(line[i])
  }

  ghost function Bytes(line: string): Form {
    if line == "" then End else Byte(line[0], Bytes(line[1..]))
  }

  lemma {:induction false} BytesTell(line: string, after: bool)
    requires IsPlainLine(line)
    ensures FormOk(Bytes(line)) && Print(Bytes(line)) == line && CodeBytes(Bytes(line)) == line
    ensures Told(Bytes(line), after) == Masked(line, Code, false)
  {
    if line != "" {
      BytesTell(line[1..], IsIdentifierByte(line[0]));
      assert line == [line[0]] + line[1..];
    }
  }

  lemma PlainLineForm(line: string)
    requires IsPlainLine(line)
    ensures IsForm(InCode(Bytes(line)), line, Code) && Says(InCode(Bytes(line)), Code) == Masked(line, Code, false)
    ensures CodeOf(InCode(Bytes(line))) == line && !TabIndented(line)
  {
    BytesTell(line, false);
  }

  // ---------- sources without literals and comments

  ghost predicate ArePlain(lines: seq<string>) {
    forall i :: 0 <= i < |lines| ==> IsPlainLine(lines[i])
  }

  ghost function FormsOf(lines: seq<string>): (forms: seq<LineForm>)
    ensures |forms| == |lines| && forall i :: 0 <= i < |lines| ==> forms[i] == InCode(Bytes(lines[i]))
  {
    seq(|lines|, i requires 0 <= i < |lines| => InCode(Bytes(lines[i])))
  }

  /** The lines as they are, with their indentation counted and trimmed. */
  ghost function Verbatim(lines: seq<string>): (r: seq<Line>)
    ensures |r| == |lines| && forall i :: 0 <= i < |lines| ==> r[i] == Line(Indent(lines[i]), Trim(lines[i]))
  {
    seq(|lines|, i requires 0 <= i < |lines| => Line(Indent(lines[i]), Trim(lines[i])))
  }

  ghost function Concat(lines: seq<string>): string {
    if lines == [] then "" else lines[0] + Concat(lines[1..])
  }

  lemma {:induction false} PlainForms(lines: seq<string>, forms: seq<LineForm>)
    requires ArePlain(lines) && |forms| == |lines| && forall i :: 0 <= i < |lines| ==> forms[i] == InCode(Bytes(lines[i]))
    ensures AreForms(forms, lines, Code) && CodeOfAll(forms) == Concat(lines)
    ensures var lexed := LexedBy(forms, lines, Code);
            && !lexed.dynamic && |lexed.lines| == |lines|
            && forall i :: 0 <= i < |lines| ==> lexed.lines[i] == Line(Indent(lines[i]), Trim(lines[i]))
    decreases |lines|
  {
    hide IsForm, Says, Trim, IsPlainLine, CodeOf;
    if lines != [] {
      PlainLineForm(lines[0]);
      PlainForms(lines[1..], forms[1..]);
    }
  }

  lemma {:induction false} JoinedClean(lines: seq<string>)
    requires lines != [] && ArePlain(lines)
    ensures IsClean(Joined(lines, '\n'))
  {
    if |lines| > 1 {
      JoinedClean(lines[1..]);
    }
  }

  /**
    A source without quotes, comment signs and tabs is observed on its own lines,
    byte for byte, provided that its brackets are well nested; otherwise it is an
    error.
    */
  lemma PlainSourceObserved(lines: seq<string>)
    requires lines != [] && ArePlain(lines)
    ensures Observe(Joined(lines, '\n'))
         == if WellNested(Brackets(Concat(lines))) then Judge(CodeLines(Verbatim(lines))) else ParseError
  {
    hide IsPlainLine, Judge, CodeLines, AreForms, LexedBy, CodeOfAll, WellNested, Lex, TabIndented;
    var source, forms := Joined(lines, '\n'), FormsOf(lines);
    forall i | 0 <= i < |lines| ensures '\n' !in lines[i] && !TabIndented(lines[i]) {
      PlainLineForm(lines[i]);
      NoLineFeed(lines[i]);
    }
    SplitJoin(lines, '\n');
    JoinedClean(lines);
    PlainForms(lines, forms);
    NoTabsIff(lines);
    NestersAre(Concat(lines));
    if WellNested(Brackets(Concat(lines))) {
      SourceAcceptedIff(source, Reading(source, forms));
      assert IsSource(source, forms);
      assert Reading(source, forms).lines == Verbatim(lines);
    } else {
      PlainRefused(lines, forms);
    }
  }

  lemma NoLineFeed(line: string)
    requires IsPlainLine(line)
    ensures '\n' !in line
  {
  }

  lemma PlainRefused(lines: seq<string>, forms: seq<LineForm>)
    requires lines != [] && Split(Joined(lines, '\n'), '\n') == lines
    requires AreForms(forms, lines, Code) && CodeOfAll(forms) == Concat(lines) && !WellNested(Brackets(Concat(lines)))
    ensures Lex(Joined(lines, '\n')) == None
  {
    hide AreForms, CodeOfAll, WellNested, Lex, NoTabs, LiteralsClosed, MaskedCode;
    FormsTell(forms, lines, Code);
    LexIff(Joined(lines, '\n'));
  }
}
