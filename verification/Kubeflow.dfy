/** The closed module grammar that is read off masked Python lines: which KFP authoring API a source declares. */
module Kubeflow {
  import opened Common
  import opened GoStrings
  import opened PythonLexer

  datatype Api = Legacy | V2

  datatype Category = BindingMissing | LexicalForm | DefinitionShape | DefinitionBody | BindingRebound | BindingDynamicUse

  datatype Observation = ParseError | Unsupported(category: Category) | Declared(api: Api)

  function Binding(api: Api): (s: string)
    ensures IsWord(s)
  {
    match api
    case Legacy => "create_component_from_func"
    case V2 => "dsl"
  }

  function Decorator(api: Api): string {
    match api
    case Legacy => "@" + Binding(api)
    case V2 => "@" + Binding(api) + ".component"
  }

  // ---------- blanks and fixed words

  predicate IsBlank(c: char) {
    c == ' ' || c == '\t'
  }

  predicate Blanks(s: string) {
    forall i :: 0 <= i < |s| ==> IsBlank(s[i])
  }

  function SkipBlanks(s: string): string {
    if s != "" && IsBlank(s[0]) then SkipBlanks(s[1..]) else s
  }

  function DropBlanks(s: string): string {
    if s != "" && IsBlank(s[|s| - 1]) then DropBlanks(s[..|s| - 1]) else s
  }

  /** The words of an import in turn, with blanks between them and possibly at the end. */
  predicate MatchWords(s: string, words: seq<string>)
    requires words != []
    decreases |words|
  {
    var w := words[0];
    HasPrefix(s, w)
    && (var rest := s[|w|..];
        if |words| == 1 then SkipBlanks(rest) == ""
        else rest != "" && IsBlank(rest[0]) && MatchWords(SkipBlanks(rest), words[1..]))
  }

  function ImportWords(api: Api): (words: seq<string>)
    ensures words != []
  {
    match api
    case Legacy => ["from", "kfp.components", "import", Binding(Legacy)]
    case V2 => ["from", "kfp", "import", Binding(V2)]
  }

  function ImportOf(text: string): Option<Api> {
    if MatchWords(text, ImportWords(Legacy)) then Some(Legacy)
    else if MatchWords(text, ImportWords(V2)) then Some(V2) else None
  }

  // ---------- identifiers

  predicate IsWord(s: string) {
    s != "" && forall i :: 0 <= i < |s| ==> IsIdentifierByte(s[i])
  }

  predicate IsIdentifier(s: string) {
    IsWord(s) && !IsDigit(s[0])
  }

  const RESERVED: set<string> := {
    "False", "None", "True", "and", "as", "assert", "async", "await", "break", "class", "continue", "def", "del", "elif",
    "else", "except", "finally", "for", "from", "global", "if", "import", "in", "is", "lambda", "nonlocal", "not", "or",
    "pass", "raise", "return", "try", "while", "with", "yield"
  }

  predicate IsSimpleIdentifier(s: string) {
    IsIdentifier(s) && s !in RESERVED && s != "__debug__"
  }

  predicate IsDecimal(s: string) {
    var halves := Cut(s, '.');
    && AllDigits(halves.name) && NoLeadingZero(halves.name)
    && (halves.value.Some? ==> halves.value.value != "" && AllDigits(halves.value.value))
  }

  predicate IsSimpleExpression(s: string) {
    s == [MARK] || s == "None" || s == "True" || s == "False" || IsSimpleIdentifier(s) || IsDecimal(s)
  }

  /** The word stands at `i`, and no identifier byte stands on either side of it. */
  predicate WholeWordAt(line: string, word: string, i: nat) {
    && ContainsAt(line, word, i)
    && (i == 0 || !IsIdentifierByte(line[i - 1]))
    && (i + |word| == |line| || !IsIdentifierByte(line[i + |word|]))
  }

  predicate HasWord(line: string, word: string) {
    exists i :: 0 <= i <= |line| && WholeWordAt(line, word, i)
  }

  /** `strings.Index` from `start` on: the first occurrence, or -1. */
  function IndexFrom(s: string, part: string, start: nat): (r: int)
    requires start <= |s|
    ensures r == -1 || (start <= r <= |s| && ContainsAt(s, part, r))
    ensures forall i :: start <= i <= |s| && (r == -1 || i < r) ==> !ContainsAt(s, part, i)
    decreases |s| - start
  {
    if ContainsAt(s, part, start) then start else if start == |s| then -1 else IndexFrom(s, part, start + 1)
  }

  /**
    The scan jumps over every occurrence it rejects, yet it misses no whole word:
    one that overlaps a rejected occurrence would have an identifier byte before it.
    */
  method ContainsIdentifier(line: string, identifier: string) returns (r: bool)
    requires IsWord(identifier)
    ensures r == HasWord(line, identifier)
  {
    var start := 0;
    while start < |line|
      invariant start <= |line|
      invariant forall i :: 0 <= i < start && i <= |line| ==> !WholeWordAt(line, identifier, i)
      decreases |line| - start
    {
      var index := IndexFrom(line, identifier, start);
      if index < 0 {
        return false;
      }
      var right := index + |identifier|;
      if (index == 0 || !IsIdentifierByte(line[index - 1])) && (right == |line| || !IsIdentifierByte(line[right])) {
        assert WholeWordAt(line, identifier, index);
        return true;
      }
      forall i | index < i < right ensures !WholeWordAt(line, identifier, i) {
        assert line[i - 1] == identifier[i - 1 - index];
      }
      start := right;
    }
    assert !WholeWordAt(line, identifier, |line|);
    return false;
  }

  // ---------- the definition line

  datatype Definition = Definition(name: string, parameters: string)

  /** How long the identifier is that a text starts with; 0 if there is none. */
  function WordRun(s: string): (n: nat)
    ensures n <= |s| && (forall i :: 0 <= i < n ==> IsIdentifierByte(s[i])) && (n < |s| ==> !IsIdentifierByte(s[n]))
  {
    if s == "" || !IsIdentifierByte(s[0]) then 0 else 1 + WordRun(s[1..])
  }

  /** The name of a definition, and what stands after its opening parenthesis. */
  datatype Head = Head(name: string, rest: string)

  function HeadOf(text: string): Option<Head> {
    if !HasPrefix(text, "def") || |text| == 3 || !IsBlank(text[3]) then None
    else
      var named := SkipBlanks(text[3..]);
      var n := WordRun(named);
      if n == 0 || IsDigit(named[0]) then None
      else
        var opening := SkipBlanks(named[n..]);
        if opening == "" || opening[0] != '(' then None else Some(Head(named[..n], opening[1..]))
  }

  function DefinitionOf(text: string): Option<Definition> {
    var head := HeadOf(text);
    if head == None || ParametersOf(head.value.rest) == None then None
    else Some(Definition(head.value.name, ParametersOf(head.value.rest).value))
  }

  /** What stands before the last closing parenthesis of a text that ends in `)`, blanks and `:`. */
  function ParametersOf(s: string): Option<string> {
    if s == "" || s[|s| - 1] != ':' then None
    else
      var closed := DropBlanks(s[..|s| - 1]);
      if closed == "" || closed[|closed| - 1] != ')' || '\n' in closed[..|closed| - 1] then None
      else Some(closed[..|closed| - 1])
  }

  ghost predicate AdmittedList(parts: seq<string>) {
    && (forall i :: 0 <= i < |parts| ==> IsSimpleIdentifier(Trim(parts[i])))
    && forall i, j :: 0 <= i < j < |parts| ==> Trim(parts[i]) != Trim(parts[j])
  }

  /** No parameter at all, or distinct simple identifiers. */
  ghost predicate AdmittedParameters(parameters: string) {
    Trim(parameters) == "" || AdmittedList(Split(Trim(parameters), ','))
  }

  method ParametersAdmitted(parameters: string) returns (ok: bool)
    ensures ok == AdmittedParameters(parameters)
  {
    hide IsSimpleIdentifier, Trim, Split;
    var value := Trim(parameters);
    if value == "" {
      return true;
    }
    var parts, seen := Split(value, ','), {};
    for i := 0 to |parts|
      invariant forall j :: 0 <= j < i ==> IsSimpleIdentifier(Trim(parts[j])) && Trim(parts[j]) in seen
      invariant forall s :: s in seen ==> exists j :: 0 <= j < i && Trim(parts[j]) == s
      invariant forall j, k :: 0 <= j < k < i ==> Trim(parts[j]) != Trim(parts[k])
    {
      var parameter := Trim(parts[i]);
      if !IsSimpleIdentifier(parameter) || parameter in seen {
        return false;
      }
      seen := seen + {parameter};
    }
    return true;
  }

  // ---------- the observation

  /** The lines that hold code. */
  function CodeLines(lines: seq<Line>): seq<Line> {
    if lines == [] then []
    else if lines[0].text == "" then CodeLines(lines[1..])
    else [lines[0]] + CodeLines(lines[1..])
  }

  ghost predicate Rebound(line: string, binding: string) {
    || HasPrefix(line, "global ") || HasPrefix(line, "nonlocal ") || HasPrefix(line, "del ")
    || HasPrefix(line, "for " + binding + " ") || Contains(line, " as " + binding) || HasPrefix(line, "case " + binding)
    || (var index := IndexFrom(line, "=", 0); index >= 0 && HasWord(line[..index], binding))
  }

  /** What is returned, when a line of the body is a return. */
  function Returned(text: string): Option<string> {
    if HasPrefix(text, "return ") then Some(Trim(text[7..])) else None
  }

  /** What is wrong with a line of the body. */
  ghost function BodyLine(line: Line, indent: nat, binding: string): Option<Category> {
    var value := Returned(line.text);
    if line.indent != indent then Some(LexicalForm)
    else if line.text == "pass" then None
    else if value == None || !IsSimpleExpression(value.value) then Some(DefinitionBody)
    else if !HasWord(value.value, binding) then None
    else Some(if Rebound(line.text, binding) then BindingRebound else BindingDynamicUse)
  }

  ghost function JudgeBody(code: seq<Line>, indent: nat, api: Api): Observation {
    if code == [] then Declared(api)
    else
      var wrong := BodyLine(code[0], indent, Binding(api));
      if wrong.Some? then Unsupported(wrong.value) else JudgeBody(code[1..], indent, api)
  }

  /** What is wrong with a definition line. */
  ghost function DefinitionLine(text: string, binding: string): Option<Category> {
    var d := DefinitionOf(text);
    if HasPrefix(text, "async def ") || d == None then Some(DefinitionShape)
    else if d.value.name == binding || !IsSimpleIdentifier(d.value.name) || !AdmittedParameters(d.value.parameters) then
      Some(DefinitionShape)
    else if HasWord(d.value.parameters, binding) then Some(BindingRebound) else None
  }

  ghost function JudgeDefinition(code: seq<Line>, api: Api): Observation {
    if code == [] || code[0].indent != 0 then Unsupported(LexicalForm)
    else
      var wrong := DefinitionLine(code[0].text, Binding(api));
      if wrong.Some? then Unsupported(wrong.value)
      else if |code| == 1 || code[1].indent == 0 then Unsupported(DefinitionBody)
      else JudgeBody(code[1..], code[1].indent, api)
  }

  ghost function JudgeDecorated(code: seq<Line>, api: Api): Observation {
    if code == [] || code[0].indent != 0 || code[0].text != Decorator(api) then Unsupported(LexicalForm)
    else JudgeDefinition(code[1..], api)
  }

  ghost function Judge(code: seq<Line>): Observation {
    if code == [] then Unsupported(BindingMissing)
    else if code[0].indent != 0 then Unsupported(LexicalForm)
    else
      var api := ImportOf(code[0].text);
      if api == None then Unsupported(BindingMissing) else JudgeDecorated(code[1..], api.value)
  }

  ghost function Observe(source: string): Observation {
    var lexed := Lex(source);
    if lexed == None then ParseError
    else if lexed.value.dynamic then Unsupported(LexicalForm)
    else Judge(CodeLines(lexed.value.lines))
  }

  // ---------- the inspection itself

  /** `kubeflowNextCode`: the next line of code, or -1. */
  method NextCode(lines: seq<Line>, start: nat) returns (r: int)
    requires start <= |lines|
    ensures r == -1 || start <= r < |lines|
    ensures CodeLines(lines[start..]) == if r == -1 then [] else [lines[r]] + CodeLines(lines[r + 1..])
    ensures r != -1 ==> lines[r].text != ""
  {
    for index := start to |lines|
      invariant CodeLines(lines[start..]) == CodeLines(lines[index..])
    {
      assert lines[index..][1..] == lines[index + 1..];
      if lines[index].text != "" {
        return index;
      }
    }
    return -1;
  }

  method BindingIsRebound(line: string, binding: string) returns (r: bool)
    requires IsWord(binding)
    ensures r == Rebound(line, binding)
  {
    hide IsWord, HasWord;
    if HasPrefix(line, "global ") || HasPrefix(line, "nonlocal ") || HasPrefix(line, "del ")
       || HasPrefix(line, "for " + binding + " ") || Contains(line, " as " + binding) || HasPrefix(line, "case " + binding) {
      return true;
    }
    var index := IndexFrom(line, "=", 0);
    if index < 0 {
      return false;
    }
    r := ContainsIdentifier(line[..index], binding);
  }

  method InspectBodyLine(line: Line, indent: nat, binding: string) returns (wrong: Option<Category>)
    requires IsWord(binding)
    ensures wrong == BodyLine(line, indent, binding)
  {
    hide IsWord, HasWord, Rebound, IsSimpleExpression, Trim;
    if line.indent != indent {
      return Some(LexicalForm);
    }
    if line.text == "pass" {
      return None;
    }
    if !HasPrefix(line.text, "return ") {
      return Some(DefinitionBody);
    }
    var value := Trim(line.text[7..]);
    if !IsSimpleExpression(value) {
      return Some(DefinitionBody);
    }
    var uses := ContainsIdentifier(value, binding);
    if uses {
      var rebound := BindingIsRebound(line.text, binding);
      return Some(if rebound then BindingRebound else BindingDynamicUse);
    }
    return None;
  }

  method InspectBody(lines: seq<Line>, start: nat, indent: nat, api: Api) returns (r: Observation)
    requires start <= |lines|
    ensures r == JudgeBody(CodeLines(lines[start..]), indent, api)
  {
    hide BodyLine;
    for cursor := start to |lines|
      invariant JudgeBody(CodeLines(lines[start..]), indent, api) == JudgeBody(CodeLines(lines[cursor..]), indent, api)
    {
      var line := lines[cursor];
      assert lines[cursor..][1..] == lines[cursor + 1..];
      if line.text == "" {
        continue;
      }
      CodeHead(line, lines[cursor + 1..]);
      var wrong := InspectBodyLine(line, indent, Binding(api));
      if wrong.Some? {
        return Unsupported(wrong.value);
      }
    }
    return Declared(api);
  }

  lemma CodeFrom(lines: seq<Line>, i: nat)
    requires i < |lines| && lines[i].text != ""
    ensures CodeLines(lines[i..]) == [lines[i]] + CodeLines(lines[i + 1..])
  {
    assert lines[i..][1..] == lines[i + 1..];
  }

  lemma CodeHead(line: Line, rest: seq<Line>)
    ensures ([line] + CodeLines(rest))[1..] == CodeLines(rest)
  {
  }

  method InspectDefinition(text: string, binding: string) returns (wrong: Option<Category>)
    requires IsWord(binding)
    ensures wrong == DefinitionLine(text, binding)
  {
    hide IsWord, HasWord, DefinitionOf, AdmittedParameters, IsSimpleIdentifier;
    if HasPrefix(text, "async def ") {
      return Some(DefinitionShape);
    }
    var d := DefinitionOf(text);
    if d == None {
      return Some(DefinitionShape);
    }
    var admitted := ParametersAdmitted(d.value.parameters);
    if d.value.name == binding || !IsSimpleIdentifier(d.value.name) || !admitted {
      return Some(DefinitionShape);
    }
    var rebound := ContainsIdentifier(d.value.parameters, binding);
    return if rebound then Some(BindingRebound) else None;
  }

  /** The lines after the decorator. */
  method InspectDefined(lines: seq<Line>, start: nat, api: Api) returns (r: Observation)
    requires start <= |lines|
    ensures r == JudgeDefinition(CodeLines(lines[start..]), api)
  {
    hide DefinitionLine, JudgeBody, IsWord, CodeLines;
    var index := NextCode(lines, start);
    if index < 0 || lines[index].indent != 0 {
      return Unsupported(LexicalForm);
    }
    CodeHead(lines[index], lines[index + 1..]);
    var wrong := InspectDefinition(lines[index].text, Binding(api));
    if wrong.Some? {
      return Unsupported(wrong.value);
    }
    var bodyIndex := NextCode(lines, index + 1);
    if bodyIndex < 0 || lines[bodyIndex].indent == 0 {
      return Unsupported(DefinitionBody);
    }
    CodeFrom(lines, bodyIndex);
    r := InspectBody(lines, bodyIndex, lines[bodyIndex].indent, api);
  }

  /** The lines after the import. */
  method InspectDecorated(lines: seq<Line>, start: nat, api: Api) returns (r: Observation)
    requires start <= |lines|
    ensures r == JudgeDecorated(CodeLines(lines[start..]), api)
  {
    hide JudgeDefinition, Decorator, CodeLines;
    var index := NextCode(lines, start);
    if index < 0 || lines[index].indent != 0 || lines[index].text != Decorator(api) {
      return Unsupported(LexicalForm);
    }
    CodeHead(lines[index], lines[index + 1..]);
    r := InspectDefined(lines, index + 1, api);
  }

  /** `inspectKubeflowKFP` */
  method InspectKubeflowKfp(raw: string) returns (r: Observation)
    ensures r == Observe(raw)
  {
    hide Lex, JudgeDecorated, ImportOf;
    var lexed := LexicalPythonLines(raw);
    if lexed == None {
      return ParseError;
    }
    if lexed.value.dynamic {
      return Unsupported(LexicalForm);
    }
    var lines := lexed.value.lines;
    assert lines[0..] == lines;
    var index := NextCode(lines, 0);
    if index < 0 {
      return Unsupported(BindingMissing);
    }
    if lines[index].indent != 0 {
      return Unsupported(LexicalForm);
    }
    CodeHead(lines[index], lines[index + 1..]);
    var api := ImportOf(lines[index].text);
    if api == None {
      return Unsupported(BindingMissing);
    }
    r := InspectDecorated(lines, index + 1, api.value);
  }
}
