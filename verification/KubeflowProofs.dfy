/** Exactly which modules declare an authoring API, and what cannot change the observation. */
module KubeflowProofs {
  import opened Common
  import opened GoStrings
  import opened PythonLexer
  import opened PythonLexerProofs
  import opened Kubeflow

  // ---------- the patterns of the import and of the definition

  lemma {:induction false} SkipBlanksOf(gap: string, rest: string)
    requires Blanks(gap) && (rest != "" ==> !IsBlank(rest[0]))
    ensures SkipBlanks(gap + rest) == rest
  {
    if gap == "" {
      assert gap + rest == rest;
    } else {
      SkipBlanksOf(gap[1..], rest);
      assert (gap + rest)[1..] == gap[1..] + rest;
    }
  }

  lemma {:induction false} SkipBlanksSplits(s: string)
    ensures |SkipBlanks(s)| <= |s|
    ensures s == s[..|s| - |SkipBlanks(s)|] + SkipBlanks(s) && Blanks(s[..|s| - |SkipBlanks(s)|])
    ensures SkipBlanks(s) != "" ==> !IsBlank(SkipBlanks(s)[0])
  {
    if s != "" && IsBlank(s[0]) {
      SkipBlanksSplits(s[1..]);
      var n := |s| - |SkipBlanks(s)|;
      assert s[..n] == [s[0]] + s[1..][..n - 1];
    }
  }

  /** A text is its leading blanks and the rest. */
  lemma LeadingGap(s: string) returns (gap: string)
    ensures Blanks(gap) && s == gap + SkipBlanks(s) && (s != "" && IsBlank(s[0]) ==> gap != "")
  {
    SkipBlanksSplits(s);
    gap := s[..|s| - |SkipBlanks(s)|];
    assert gap == "" ==> s == SkipBlanks(s);
  }

  lemma {:induction false} DropBlanksOf(rest: string, gap: string)
    requires Blanks(gap) && (rest != "" ==> !IsBlank(rest[|rest| - 1]))
    ensures DropBlanks(rest + gap) == rest
  {
    if gap == "" {
      assert rest + gap == rest;
    } else {
      DropBlanksOf(rest, gap[..|gap| - 1]);
      assert (rest + gap)[..|rest + gap| - 1] == rest + gap[..|gap| - 1];
    }
  }

  lemma {:induction false} DropBlanksSplits(s: string)
    ensures |DropBlanks(s)| <= |s| && s == DropBlanks(s) + s[|DropBlanks(s)|..] && Blanks(s[|DropBlanks(s)|..])
  {
    if s != "" && IsBlank(s[|s| - 1]) {
      var init := s[..|s| - 1];
      DropBlanksSplits(init);
      var n := |DropBlanks(s)|;
      assert s[n..] == init[n..] + [s[|s| - 1]];
    }
  }

  /** The gaps after each word: blanks, and at least one between two words. */
  ghost predicate AreGaps(words: seq<string>, gaps: seq<string>) {
    && |gaps| == |words| && (forall i :: 0 <= i < |gaps| ==> Blanks(gaps[i]))
    && forall i :: 0 <= i < |gaps| - 1 ==> gaps[i] != ""
  }

  ghost function Spaced(words: seq<string>, gaps: seq<string>): string
    requires |gaps| == |words|
  {
    if words == [] then "" else words[0] + gaps[0] + Spaced(words[1..], gaps[1..])
  }

  ghost predicate PlainWords(words: seq<string>) {
    words != [] && forall i :: 0 <= i < |words| ==> words[i] != "" && !IsBlank(words[i][0])
  }

  ghost predicate SpellsWords(s: string, words: seq<string>, gaps: seq<string>) {
    AreGaps(words, gaps) && s == Spaced(words, gaps)
  }

  /** An import matches exactly when it is its words with blanks between them. */
  lemma MatchWordsIff(s: string, words: seq<string>)
    requires PlainWords(words)
    ensures MatchWords(s, words) <==> exists gaps :: SpellsWords(s, words, gaps)
  {
    hide SpellsWords;
    if MatchWords(s, words) {
      MatchedHasGaps(s, words);
    }
    if gaps :| SpellsWords(s, words, gaps) {
      SpacedMatches(s, words, gaps);
    }
  }

  lemma {:induction false} MatchedHasGaps(s: string, words: seq<string>)
    requires PlainWords(words) && MatchWords(s, words)
    ensures exists gaps :: SpellsWords(s, words, gaps)
    decreases |words|
  {
    hide SkipBlanks, SpellsWords, Blanks;
    var rest := s[|words[0]|..];
    var after := SkipBlanks(rest);
    var gap := LeadingGap(rest);
    assert s == words[0] + rest;
    assert s == words[0] + gap + after;
    if |words| == 1 {
      OneGap(s, words, gap);
    } else {
      MatchedHasGaps(after, words[1..]);
      var gaps :| SpellsWords(after, words[1..], gaps);
      MoreGaps(s, words, gap, after, gaps);
    }
  }

  lemma OneGap(s: string, words: seq<string>, gap: string)
    requires |words| == 1 && Blanks(gap) && s == words[0] + gap + ""
    ensures SpellsWords(s, words, [gap])
  {
    assert words[1..] == [] && [gap][1..] == [];
  }

  lemma MoreGaps(s: string, words: seq<string>, gap: string, after: string, gaps: seq<string>)
    requires |words| > 1 && Blanks(gap) && gap != "" && SpellsWords(after, words[1..], gaps)
    requires s == words[0] + gap + after
    ensures SpellsWords(s, words, [gap] + gaps)
  {
    assert ([gap] + gaps)[1..] == gaps;
  }

  lemma {:induction false} SpacedMatches(s: string, words: seq<string>, gaps: seq<string>)
    requires PlainWords(words) && SpellsWords(s, words, gaps)
    ensures MatchWords(s, words)
    decreases |words|
  {
    var tail := Spaced(words[1..], gaps[1..]);
    assert s == words[0] + (gaps[0] + tail);
    assert s[|words[0]|..] == gaps[0] + tail;
    if |words| > 1 {
      SpacedMatches(tail, words[1..], gaps[1..]);
      assert tail[0] == words[1][0];
    }
    SkipBlanksOf(gaps[0], tail);
  }

  /** The definition line with its three gaps. */
  ghost predicate Spells(text: string, d: Definition, a: string, b: string, c: string) {
    Blanks(c) && '\n' !in d.parameters && SpellsHead(text, Head(d.name, d.parameters + ")" + c + ":"), a, b)
  }

  ghost predicate SpellsHead(text: string, head: Head, a: string, b: string) {
    && a != "" && Blanks(a) && Blanks(b) && IsIdentifier(head.name)
    && text == "def" + (a + (head.name + (b + ("(" + head.rest))))
  }

  lemma ParametersOfIff(s: string, parameters: string)
    ensures ParametersOf(s) == Some(parameters) <==>
            '\n' !in parameters && exists c :: Blanks(c) && s == parameters + ")" + c + ":"
  {
    if ParametersOf(s) == Some(parameters) {
      var init := s[..|s| - 1];
      DropBlanksSplits(init);
      var closed := DropBlanks(init);
      var c := init[|closed|..];
      assert closed == parameters + ")";
      assert s == init + ":";
    }
    if c :| '\n' !in parameters && Blanks(c) && s == parameters + ")" + c + ":" {
      assert s[..|s| - 1] == (parameters + ")") + c;
      DropBlanksOf(parameters + ")", c);
      assert (parameters + ")")[..|parameters|] == parameters;
    }
  }

  lemma {:induction false} WordRunOf(word: string, rest: string)
    requires (forall i :: 0 <= i < |word| ==> IsIdentifierByte(word[i])) && (rest != "" ==> !IsIdentifierByte(rest[0]))
    ensures WordRun(word + rest) == |word|
  {
    if word != "" {
      assert (word + rest)[1..] == word[1..] + rest;
      WordRunOf(word[1..], rest);
    } else {
      assert word + rest == rest;
    }
  }

  lemma HeadOfSpelled(text: string, head: Head)
    requires HeadOf(text) == Some(head)
    ensures exists a, b :: SpellsHead(text, head, a, b)
  {
    hide SkipBlanks, Blanks;
    var gapped := text[3..];
    var a := LeadingGap(gapped);
    var named := SkipBlanks(gapped);
    var after := named[WordRun(named)..];
    var b := LeadingGap(after);
    assert SkipBlanks(after) == "(" + head.rest;
    assert named == head.name + after;
    assert text == "def" + gapped;
    assert SpellsHead(text, head, a, b);
  }

  lemma SpelledHead(text: string, head: Head, a: string, b: string)
    requires SpellsHead(text, head, a, b)
    ensures HeadOf(text) == Some(head)
  {
    hide WordRun, SkipBlanks;
    var opening := "(" + head.rest;
    var after := b + opening;
    var named := head.name + after;
    assert text[3..] == a + named;
    assert text[3] == a[0];
    SkipBlanksOf(a, named);
    assert !IsIdentifierByte(after[0]) by { assert after[0] == if b == "" then '(' else b[0]; }
    WordRunOf(head.name, after);
    assert named[|head.name|..] == after && named[..|head.name|] == head.name;
    SkipBlanksOf(b, opening);
    assert opening[1..] == head.rest;
  }

  /** A definition is read off a line exactly when the line spells it; name and parameters are then unique. */
  lemma DefinitionOfIff(text: string, d: Definition)
    ensures DefinitionOf(text) == Some(d) <==> exists a, b, c :: Spells(text, d, a, b, c)
  {
    hide HeadOf, ParametersOf, SpellsHead;
    if DefinitionOf(text) == Some(d) {
      var head := HeadOf(text).value;
      HeadOfSpelled(text, head);
      ParametersOfIff(head.rest, d.parameters);
      var a, b :| SpellsHead(text, head, a, b);
      var c :| Blanks(c) && head.rest == d.parameters + ")" + c + ":";
      assert Spells(text, d, a, b, c);
    }
    if a, b, c :| Spells(text, d, a, b, c) {
      var head := Head(d.name, d.parameters + ")" + c + ":");
      SpelledHead(text, head, a, b);
      ParametersOfIff(head.rest, d.parameters);
    }
  }

  // ---------- the body

  lemma WordInWord(s: string, word: string)
    requires IsWord(s) && IsWord(word)
    ensures HasWord(s, word) <==> s == word
  {
    if HasWord(s, word) {
      var i :| 0 <= i <= |s| && WholeWordAt(s, word, i);
      assert i == 0 && |word| == |s|;
      assert s[0..|s|] == s;
    }
    if s == word {
      assert s[0..|s|] == s;
      assert WholeWordAt(s, word, 0);
    }
  }

  /** A simple expression uses the binding exactly when it is the binding. */
  lemma UsesIff(s: string, api: Api)
    requires IsSimpleExpression(s)
    ensures HasWord(s, Binding(api)) <==> s == Binding(api)
  {
    var word := Binding(api);
    if IsWord(s) {
      WordInWord(s, word);
    } else if HasWord(s, word) {
      var i :| 0 <= i <= |s| && WholeWordAt(s, word, i);
      assert s[i] == word[0];
      if s != [MARK] {
        DecimalChars(s, i);
      }
      assert false;
    }
  }

  lemma DecimalChars(s: string, i: nat)
    requires IsDecimal(s) && i < |s|
    ensures IsDigit(s[i]) || s[i] == '.'
  {
    CutSplits(s, '.');
    var halves := Cut(s, '.');
    if i > |halves.name| {
      assert s[i] == halves.value.value[i - |halves.name| - 1];
    }
  }

  lemma {:induction false} TrimLeftSplits(s: string)
    ensures |TrimLeft(s)| <= |s| && s[|s| - |TrimLeft(s)|..] == TrimLeft(s)
    ensures forall i :: 0 <= i < |s| - |TrimLeft(s)| ==> IsSpaceByte(s[i])
  {
    hide SpaceLength, IsSpaceByte;
    var m := SpaceLength(s);
    if m > 0 {
      TrimLeftSplits(s[m..]);
      var n := |s| - |TrimLeft(s)|;
      assert s[n..] == s[m..][n - m..];
      forall i | 0 <= i < n ensures IsSpaceByte(s[i]) {
        assert i >= m ==> s[i] == s[m..][i - m];
      }
    }
  }

  lemma {:induction false} TrimRightSplits(s: string)
    ensures |TrimRight(s)| <= |s| && s[..|TrimRight(s)|] == TrimRight(s)
    ensures forall i :: |TrimRight(s)| <= i < |s| ==> IsSpaceByte(s[i])
  {
    hide SpaceTail, IsSpaceByte;
    if SpaceTail(s) > 0 {
      TrimRightSplits(s[..|s| - SpaceTail(s)]);
    }
  }

  /** A text whose trimmed form is the word: spaces, the word, spaces. */
  lemma TrimmedShape(s: string, word: string) returns (from: nat)
    requires Trim(s) == word
    ensures from + |word| <= |s| && s[from..from + |word|] == word
    ensures forall i :: 0 <= i < from || from + |word| <= i < |s| ==> IsSpaceByte(s[i])
  {
    hide TrimLeft, TrimRight, IsSpaceByte;
    var left := TrimLeft(s);
    TrimLeftSplits(s);
    TrimRightSplits(left);
    from := |s| - |left|;
    assert forall i :: 0 <= i < |left| ==> s[from + i] == left[i];
    assert s[from..from + |word|] == left[..|word|];
    forall i | from + |word| <= i < |s| ensures IsSpaceByte(s[i]) {
      assert s[i] == left[i - from];
    }
  }

  /** In `return` of the binding, a space is followed by a space or by the first letter of the binding. */
  lemma ReturnShape(text: string, api: Api, i: nat)
    requires Returned(text) == Some(Binding(api)) && i < |text|
    ensures text[i] != '='
    ensures i > 0 && text[i - 1] == ' ' ==> text[i] != 'a'
  {
    hide Trim;
    var word, s := Binding(api), text[7..];
    var from := TrimmedShape(s, word);
    if i < 7 {
      assert text[i] == text[..7][i];
    } else {
      assert text[i] == s[i - 7];
      if from <= i - 7 < from + |word| {
        assert s[i - 7] == s[from..from + |word|][i - 7 - from];
        if i - 7 > from {
          assert text[i - 1] == s[from..from + |word|][i - 8 - from];
        }
      }
    }
  }

  /** So a line of the body never counts as rebinding: that category is left to the parameters. */
  lemma NeverReboundInBody(line: Line, indent: nat, api: Api)
    ensures BodyLine(line, indent, Binding(api)) != Some(BindingRebound)
  {
    var text, word := line.text, Binding(api);
    var value := Returned(text);
    if value.Some? && IsSimpleExpression(value.value) && HasWord(value.value, word) {
      UsesIff(value.value, api);
      ReturnNotRebound(text, api);
    }
  }

  lemma ReturnNotRebound(text: string, api: Api)
    requires Returned(text) == Some(Binding(api))
    ensures !Rebound(text, Binding(api))
  {
    hide Returned, Contains, HasPrefix, IndexFrom, HasWord;
    StartsWithReturn(text);
    OtherStarts(text, Binding(api));
    NoAs(text, api);
    NoEquals(text, api);
  }

  lemma StartsWithReturn(text: string)
    requires Returned(text).Some?
    ensures text != "" && text[0] == 'r'
  {
    assert text[0] == text[..7][0];
  }

  lemma NoAs(text: string, api: Api)
    requires Returned(text) == Some(Binding(api))
    ensures !Contains(text, " as " + Binding(api))
  {
    hide Returned;
    var sought := " as " + Binding(api);
    if Contains(text, sought) {
      var i :| 0 <= i <= |text| && ContainsAt(text, sought, i);
      assert text[i] == text[i..i + |sought|][0] == ' ' && text[i + 1] == text[i..i + |sought|][1] == 'a';
      ReturnShape(text, api, i + 1);
      assert false;
    }
  }

  lemma NoEquals(text: string, api: Api)
    requires Returned(text) == Some(Binding(api))
    ensures IndexFrom(text, "=", 0) == -1
  {
    hide Returned;
    var index := IndexFrom(text, "=", 0);
    if index >= 0 {
      assert text[index] == text[index..index + 1][0];
      ReturnShape(text, api, index);
      assert false;
    }
  }

  lemma OtherStarts(text: string, word: string)
    requires text != "" && text[0] == 'r'
    ensures !HasPrefix(text, "global ") && !HasPrefix(text, "nonlocal ") && !HasPrefix(text, "del ")
    ensures !HasPrefix(text, "for " + word + " ") && !HasPrefix(text, "case " + word)
  {
    Starts(text, "global ");
    Starts(text, "nonlocal ");
    Starts(text, "del ");
    Starts(text, "for " + word + " ");
    Starts(text, "case " + word);
  }

  lemma Starts(text: string, prefix: string)
    requires text != "" && prefix != "" && text[0] != prefix[0]
    ensures !HasPrefix(text, prefix)
  {
    assert |prefix| <= |text| ==> text[..|prefix|][0] == text[0];
  }

  // ---------- the whole observation

  /** A line of the body: `pass`, or the return of a simple expression other than the binding. */
  ghost predicate PlainBodyLine(line: Line, indent: nat, api: Api) {
    && line.indent == indent
    && (line.text == "pass"
        || (Returned(line.text).Some? && IsSimpleExpression(Returned(line.text).value)
            && Returned(line.text).value != Binding(api)))
  }

  ghost predicate PlainBody(body: seq<Line>, indent: nat, api: Api) {
    forall i :: 0 <= i < |body| ==> PlainBodyLine(body[i], indent, api)
  }

  lemma BodyLineIff(line: Line, indent: nat, api: Api)
    ensures BodyLine(line, indent, Binding(api)) == None <==> PlainBodyLine(line, indent, api)
  {
    hide Rebound, IsSimpleExpression, HasWord, Trim;
    if line.indent == indent && line.text != "pass" {
      var value := Returned(line.text);
      if value.Some? && IsSimpleExpression(value.value) {
        UsesIff(value.value, api);
      }
    }
  }

  lemma {:induction false} JudgeBodyIff(body: seq<Line>, indent: nat, api: Api)
    ensures JudgeBody(body, indent, api) == Declared(api) <==> PlainBody(body, indent, api)
    ensures JudgeBody(body, indent, api) != ParseError && JudgeBody(body, indent, api) != Unsupported(BindingRebound)
    ensures forall other :: other != api ==> JudgeBody(body, indent, api) != Declared(other)
  {
    hide BodyLine, PlainBodyLine;
    if body != [] {
      BodyLineIff(body[0], indent, api);
      NeverReboundInBody(body[0], indent, api);
      JudgeBodyIff(body[1..], indent, api);
      assert body == [body[0]] + body[1..];
    }
  }

  /** The definition line of an admitted module. */
  ghost predicate PlainDefinition(text: string, api: Api) {
    exists d, a, b, c ::
      && Spells(text, d, a, b, c) && IsSimpleIdentifier(d.name) && d.name != Binding(api)
      && AdmittedParameters(d.parameters) && !HasWord(d.parameters, Binding(api))
  }

  lemma DefinitionLineIff(text: string, api: Api)
    ensures DefinitionLine(text, Binding(api)) == None <==> PlainDefinition(text, api)
  {
    hide Spells, DefinitionOf, AdmittedParameters, HasWord, IsSimpleIdentifier;
    var word := Binding(api);
    if DefinitionLine(text, word) == None {
      var d := DefinitionOf(text).value;
      DefinitionOfIff(text, d);
      var a, b, c :| Spells(text, d, a, b, c);
    }
    if d, a, b, c :| Spells(text, d, a, b, c) && IsSimpleIdentifier(d.name) && d.name != word
                     && AdmittedParameters(d.parameters) && !HasWord(d.parameters, word) {
      DefinitionOfIff(text, d);
      NotAsync(text, d, a, b, c);
    }
  }

  lemma NotAsync(text: string, d: Definition, a: string, b: string, c: string)
    requires Spells(text, d, a, b, c)
    ensures !HasPrefix(text, "async def ")
  {
    Starts(text, "async def ");
  }

  /** The code of a module that declares the API: import, decorator, definition and an indented body. */
  ghost predicate IsModule(code: seq<Line>, api: Api) {
    && |code| >= 4 && code[0].indent == 0 && code[1].indent == 0 && code[2].indent == 0 && code[3].indent > 0
    && (exists gaps :: SpellsWords(code[0].text, ImportWords(api), gaps))
    && code[1].text == Decorator(api)
    && PlainDefinition(code[2].text, api)
    && PlainBody(code[3..], code[3].indent, api)
  }

  lemma ImportOfIff(text: string, api: Api)
    ensures ImportOf(text) == Some(api) <==>
            exists gaps :: SpellsWords(text, ImportWords(api), gaps)
  {
    hide MatchWords, SpellsWords;
    MatchWordsIff(text, ImportWords(api));
    OneImport(text);
  }

  /** What follows `kfp` in either import. */
  lemma AfterKfp(text: string, api: Api)
    requires MatchWords(text, ImportWords(api))
    ensures |text| > 4 && |SkipBlanks(text[4..])| > 3
    ensures var c := SkipBlanks(text[4..])[3]; if api == Legacy then c == '.' else IsBlank(c)
  {
    var after := SkipBlanks(text[4..]);
    var words := ImportWords(api)[1..];
    assert words[0] == if api == Legacy then "kfp.components" else "kfp";
    assert MatchWords(after, words);
    if api == Legacy {
      assert after[3] == after[..14][3];
    } else {
      assert after[3] == after[3..][0];
    }
  }

  lemma OneImport(text: string)
    ensures !(MatchWords(text, ImportWords(Legacy)) && MatchWords(text, ImportWords(V2)))
  {
    hide MatchWords, SkipBlanks;
    if MatchWords(text, ImportWords(Legacy)) && MatchWords(text, ImportWords(V2)) {
      AfterKfp(text, Legacy);
      AfterKfp(text, V2);
    }
  }

  /** A source declares an API exactly when its code lines, masked, are such a module. */
  lemma DeclaredIff(code: seq<Line>, api: Api)
    ensures Judge(code) == Declared(api) <==> IsModule(code, api)
  {
    hide ImportOf, DefinitionLine, PlainDefinition, JudgeBody, PlainBody, Decorator, SpellsWords;
    if code != [] && code[0].indent == 0 {
      ImportOfIff(code[0].text, api);
      var found := ImportOf(code[0].text);
      if found.Some? {
        DecoratedIff(code[1..], found.value, api);
      }
      if |code| >= 4 {
        assert code[1..][2..] == code[3..];
      }
    }
  }

  lemma DecoratedIff(code: seq<Line>, found: Api, api: Api)
    ensures JudgeDecorated(code, found) == Declared(api) <==>
            && found == api && |code| >= 3 && code[0].indent == 0 && code[1].indent == 0 && code[2].indent > 0
            && code[0].text == Decorator(api) && PlainDefinition(code[1].text, api)
            && PlainBody(code[2..], code[2].indent, api)
  {
    hide DefinitionLine, PlainDefinition, JudgeBody, PlainBody, Decorator;
    if |code| >= 2 {
      DefinitionLineIff(code[1].text, found);
      if |code| >= 3 {
        assert code[1..][1..] == code[2..];
        JudgeBodyIff(code[2..], code[2].indent, found);
      }
    }
  }

  // ---------- the categories of what is not supported

  lemma BodyCategories(body: seq<Line>, indent: nat, api: Api)
    ensures JudgeBody(body, indent, api) != Unsupported(BindingMissing) && JudgeBody(body, indent, api) != Unsupported(DefinitionShape)
    decreases |body|
  {
    hide Rebound, IsSimpleExpression, HasWord, Trim;
    if body != [] {
      BodyCategories(body[1..], indent, api);
    }
  }

  /** The binding is missing exactly when there is no code, or its first line is not indented and no import of either API. */
  lemma MissingIff(code: seq<Line>)
    ensures Judge(code) == Unsupported(BindingMissing) <==>
            code == [] || (code[0].indent == 0 && forall api, gaps :: !SpellsWords(code[0].text, ImportWords(api), gaps))
  {
    hide ImportOf, DefinitionLine, JudgeBody, Decorator, SpellsWords;
    if code != [] {
      forall api, gaps | ImportOf(code[0].text) == None ensures !SpellsWords(code[0].text, ImportWords(api), gaps) {
        ImportOfIff(code[0].text, api);
      }
      if ImportOf(code[0].text).Some? {
        var api := ImportOf(code[0].text).value;
        ImportOfIff(code[0].text, api);
        var gaps :| SpellsWords(code[0].text, ImportWords(api), gaps);
        DecoratedCategories(code[1..], api);
      }
    }
  }

  lemma DecoratedCategories(code: seq<Line>, api: Api)
    ensures JudgeDecorated(code, api) != Unsupported(BindingMissing)
    ensures JudgeDecorated(code, api) == Unsupported(BindingRebound) <==>
            && |code| >= 2 && code[0].indent == 0 && code[0].text == Decorator(api)
            && code[1].indent == 0 && DefinitionLine(code[1].text, Binding(api)) == Some(BindingRebound)
  {
    hide JudgeBody, Decorator, DefinitionOf, AdmittedParameters, HasWord, IsSimpleIdentifier;
    if |code| >= 3 {
      var body := code[1..][1..];
      BodyCategories(body, body[0].indent, api);
      JudgeBodyIff(body, body[0].indent, api);
    }
  }

  /** A definition line whose name and parameters are admitted, but whose parameters take the name of the binding. */
  ghost predicate RebindingDefinition(text: string, api: Api) {
    exists d, a, b, c ::
      && Spells(text, d, a, b, c) && IsSimpleIdentifier(d.name) && d.name != Binding(api)
      && AdmittedParameters(d.parameters) && HasWord(d.parameters, Binding(api))
  }

  lemma RebindingIff(text: string, api: Api)
    ensures DefinitionLine(text, Binding(api)) == Some(BindingRebound) <==> RebindingDefinition(text, api)
  {
    hide Spells, DefinitionOf, AdmittedParameters, HasWord, IsSimpleIdentifier;
    var word := Binding(api);
    if DefinitionLine(text, word) == Some(BindingRebound) {
      var d := DefinitionOf(text).value;
      DefinitionOfIff(text, d);
      var a, b, c :| Spells(text, d, a, b, c);
    }
    if d, a, b, c :| Spells(text, d, a, b, c) && IsSimpleIdentifier(d.name) && d.name != word
                     && AdmittedParameters(d.parameters) && HasWord(d.parameters, word) {
      DefinitionOfIff(text, d);
      NotAsync(text, d, a, b, c);
    }
  }

  /** The binding is rebound exactly by a parameter of its name. */
  lemma ReboundIff(code: seq<Line>)
    ensures Judge(code) == Unsupported(BindingRebound) <==>
            && |code| >= 3 && code[0].indent == 0 && code[1].indent == 0 && code[2].indent == 0
            && exists api, gaps ::
                 && SpellsWords(code[0].text, ImportWords(api), gaps) && code[1].text == Decorator(api)
                 && RebindingDefinition(code[2].text, api)
  {
    hide ImportOf, DefinitionLine, JudgeDecorated, Decorator, SpellsWords, RebindingDefinition;
    if code != [] && code[0].indent == 0 {
      ImportOfIff(code[0].text, Legacy);
      ImportOfIff(code[0].text, V2);
      var found := ImportOf(code[0].text);
      if found.Some? {
        DecoratedCategories(code[1..], found.value);
        if |code| >= 3 {
          RebindingIff(code[2].text, found.value);
        }
      }
    }
  }

  // ---------- the first line that is not admitted

  /** Import, decorator and definition of an admitted module. */
  ghost predicate HasHead(code: seq<Line>, api: Api) {
    && HasImport(code, api) && |code| >= 3 && code[1].indent == 0 && code[2].indent == 0
    && code[1].text == Decorator(api) && PlainDefinition(code[2].text, api)
  }

  ghost predicate HasImport(code: seq<Line>, api: Api) {
    code != [] && code[0].indent == 0 && exists gaps :: SpellsWords(code[0].text, ImportWords(api), gaps)
  }

  /** The first line of a body that is not admitted. */
  ghost predicate FirstBad(body: seq<Line>, indent: nat, api: Api, k: nat) {
    k < |body| && !PlainBodyLine(body[k], indent, api) && forall j :: 0 <= j < k ==> PlainBodyLine(body[j], indent, api)
  }

  /** What is wrong with it; the only simple expression that is not admitted is the binding. */
  ghost function Complaint(line: Line, indent: nat): Category {
    var value := Returned(line.text);
    if line.indent != indent then LexicalForm
    else if value.Some? && IsSimpleExpression(value.value) then BindingDynamicUse
    else DefinitionBody
  }

  lemma ComplaintIs(line: Line, indent: nat, api: Api)
    requires !PlainBodyLine(line, indent, api)
    ensures BodyLine(line, indent, Binding(api)) == Some(Complaint(line, indent))
  {
    hide Rebound, HasWord, Trim, IsSimpleExpression;
    BodyLineIff(line, indent, api);
    NeverReboundInBody(line, indent, api);
    var value := Returned(line.text);
    if value.Some? && IsSimpleExpression(value.value) {
      UsesIff(value.value, api);
    }
  }

  lemma {:induction false} BodyComplains(body: seq<Line>, indent: nat, api: Api, k: nat)
    requires FirstBad(body, indent, api, k)
    ensures JudgeBody(body, indent, api) == Unsupported(Complaint(body[k], indent))
  {
    hide PlainBodyLine, BodyLine, Complaint;
    BodyLineIff(body[0], indent, api);
    if k == 0 {
      ComplaintIs(body[0], indent, api);
    } else {
      assert forall j :: 0 <= j < |body[1..]| ==> body[1..][j] == body[j + 1];
      BodyComplains(body[1..], indent, api, k - 1);
    }
  }

  lemma {:induction false} FirstBadOf(body: seq<Line>, indent: nat, api: Api) returns (k: nat)
    requires !PlainBody(body, indent, api)
    ensures FirstBad(body, indent, api, k)
  {
    hide PlainBodyLine;
    if !PlainBodyLine(body[0], indent, api) {
      return 0;
    }
    assert forall j :: 0 <= j < |body[1..]| ==> body[1..][j] == body[j + 1];
    var rest := FirstBadOf(body[1..], indent, api);
    forall j | 0 <= j < rest + 1 ensures PlainBodyLine(body[j], indent, api) {
      assert j > 0 ==> body[j] == body[1..][j - 1];
    }
    return rest + 1;
  }

  /** What is reported when the decorator, the definition or the start of the body is not admitted. */
  lemma JudgeStages(code: seq<Line>, api: Api)
    requires HasImport(code, api)
    ensures |code| < 3 || code[1].indent != 0 || code[1].text != Decorator(api) || code[2].indent != 0 ==>
              Judge(code) == Unsupported(LexicalForm)
    ensures |code| >= 3 && code[1].indent == 0 && code[1].text == Decorator(api) && code[2].indent == 0
            && !PlainDefinition(code[2].text, api) ==>
              Judge(code) == Unsupported(if RebindingDefinition(code[2].text, api) then BindingRebound else DefinitionShape)
    ensures HasHead(code, api) && (|code| == 3 || code[3].indent == 0) ==> Judge(code) == Unsupported(DefinitionBody)
    ensures HasHead(code, api) && |code| > 3 && code[3].indent > 0 ==> Judge(code) == JudgeBody(code[3..], code[3].indent, api)
  {
    hide ImportOf, JudgeBody, Decorator, SpellsWords, RebindingDefinition, PlainDefinition, DefinitionLine;
    ImportOfIff(code[0].text, api);
    if |code| >= 3 {
      assert code[1..][1..] == code[2..] && code[2..][1..] == code[3..];
      DefinitionLineIff(code[2].text, api);
      RebindingIff(code[2].text, api);
      DefinitionCategories(code[2].text, api);
    }
  }

  /** After an admitted head, the first line of the body that is not admitted decides. */
  lemma JudgeFirstBad(code: seq<Line>, api: Api, k: nat)
    requires HasHead(code, api) && |code| > 3 && code[3].indent > 0 && FirstBad(code[3..], code[3].indent, api, k)
    ensures Judge(code) == Unsupported(Complaint(code[3 + k], code[3].indent))
  {
    hide Judge, JudgeBody, Complaint, PlainBodyLine;
    JudgeStages(code, api);
    BodyComplains(code[3..], code[3].indent, api, k);
  }

  lemma DefinitionCategories(text: string, api: Api)
    ensures var wrong := DefinitionLine(text, Binding(api)); wrong in {None, Some(DefinitionShape), Some(BindingRebound)}
  {
    hide DefinitionOf, AdmittedParameters, HasWord, IsSimpleIdentifier;
  }

  /** A decimal is a number without a leading zero, possibly with a full stop and digits after it. */
  lemma DecimalIff(s: string)
    ensures IsDecimal(s) <==>
            exists whole, fraction ::
              && AllDigits(whole) && NoLeadingZero(whole) && AllDigits(fraction)
              && (s == whole || (fraction != "" && s == whole + ['.'] + fraction))
  {
    var halves := Cut(s, '.');
    CutSplits(s, '.');
    if IsDecimal(s) {
      if halves.value.Some? {
        assert s == halves.name + ['.'] + halves.value.value;
      } else {
        assert AllDigits("");
      }
    }
    if whole, fraction :| AllDigits(whole) && NoLeadingZero(whole) && AllDigits(fraction)
                          && (s == whole || (fraction != "" && s == whole + ['.'] + fraction)) {
      NoDot(whole);
      if s == whole {
        CutNone(s, '.');
      } else {
        CutOf(whole, '.', fraction);
      }
    }
  }

  lemma NoDot(s: string)
    requires AllDigits(s)
    ensures '.' !in s
  {
  }

  /** Sources that differ only inside comments and literals give the same observation. */
  lemma ObservationNoninterference(a: string, b: string)
    requires forall k :: 0 <= k < |a| ==> !IsBadControl(a[k])
    requires forall k :: 0 <= k < |b| ==> !IsBadControl(b[k])
    requires LinesAgree(Split(a, '\n'), Split(b, '\n'), Code)
    ensures Observe(a) == Observe(b)
  {
    Noninterference(a, b);
  }
}
