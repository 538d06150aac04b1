/** The Corefile scanner: a depth counter over token rows, and the block grammar it recognises. */
module CoreDns {
  import opened Common
  import opened GoStrings

  const MAX_NESTING: nat := 32

  /** The tokens of one line. */
  type Row = seq<string>

  // ---------- lines

  /** The line without its comment; `None` when it holds quoting, escapes or substitutions. */
  function CodeLine(line: string): Option<string> {
    var code := Cut(line, '#').name;
    if (exists i :: 0 <= i < |code| && (code[i] == '\\' || code[i] == '"' || code[i] == '\'')) || Contains(code, "{$") || Contains(code, "{%")
    then None else Some(Trim(code))
  }

  /** Braces stand apart as tokens of their own. */
  function SpacedBraces(s: string): string {
    if s == "" then "" else SpacedByte(s[0]) + SpacedBraces(s[1..])
  }

  function SpacedByte(c: char): string {
    if c == '{' || c == '}' then [' ', c, ' '] else [c]
  }

  function TokenRow(line: string): Row {
    Fields(SpacedBraces(line))
  }

  // ---------- rows

  predicate IsBrace(token: string) {
    token == "{" || token == "}"
  }

  predicate HasBrace(row: Row) {
    exists i :: 0 <= i < |row| && IsBrace(row[i])
  }

  /** Snippets and imports are not admitted. */
  predicate AdmittedStart(row: Row)
    requires row != []
  {
    !HasPrefix(row[0], "(") && row[0] != "import"
  }

  /** A row that opens a block. */
  predicate OpensBlock(row: Row) {
    |row| >= 2 && row[|row| - 1] == "{" && !HasBrace(row[..|row| - 1]) && AdmittedStart(row)
  }

  /** A row without a block. */
  predicate IsDirective(row: Row) {
    row != [] && !HasBrace(row) && AdmittedStart(row)
  }

  const CLOSING: Row := ["}"]

  function CountOf(row: Row, token: string): nat {
    if row == [] then 0 else (if row[0] == token then 1 else 0) + CountOf(row[1..], token)
  }

  // ---------- the scanner on rows

  datatype State = State(depth: nat, blocks: nat, direct: bool)

  /** One row, as the scanner tests it. */
  function Step(row: Row, st: State): Option<State> {
    if row == [] then None
    else if st.depth == 0 then
      if |row| < 2 || row[|row| - 1] != "{" || HasBrace(row[..|row| - 1]) || HasPrefix(row[0], "(") || row[0] == "import"
      then None else Some(State(1, st.blocks + 1, st.direct))
    else if HasPrefix(row[0], "(") || row[0] == "import" then None
    else if |row| == 1 && row[0] == "}" then Some(st.(depth := st.depth - 1))
    else
      var opens := CountOf(row, "{");
      if CountOf(row, "}") != 0 || opens > 1 || (opens == 1 && (|row| == 1 || row[|row| - 1] != "{")) then None
      else
        var direct := st.direct || (st.depth == 1 && row[0] == "federation");
        if opens == 0 then Some(st.(direct := direct))
        else if st.depth >= MAX_NESTING then None
        else Some(st.(depth := st.depth + 1, direct := direct))
  }

  function Run(rows: seq<Row>, st: State): Option<State> {
    if rows == [] then Some(st)
    else
      var next := Step(rows[0], st);
      if next == None then None else Run(rows[1..], next.value)
  }

  const START: State := State(0, 0, false)

  /** Whether a direct federation directive is present; `None` when the rows are not supported. */
  function Verdict(st: Option<State>): Option<bool> {
    if st.Some? && st.value.depth == 0 && st.value.blocks > 0 then Some(st.value.direct) else None
  }

  // ---------- the scanner on text

  /** The rows of the nonblank lines, `None` if some line is not admitted. */
  function Rows(lines: seq<string>): Option<seq<Row>> {
    if lines == [] then Some([])
    else
      var code := CodeLine(lines[0]);
      var rest := Rows(lines[1..]);
      if code == None || rest == None then None
      else if code.value == "" then rest
      else Some([TokenRow(code.value)] + rest.value)
  }

  function ScanLines(lines: seq<string>, st: State): Option<State> {
    if lines == [] then Some(st)
    else
      var code := CodeLine(lines[0]);
      if code == None then None
      else if code.value == "" then ScanLines(lines[1..], st)
      else
        var next := Step(TokenRow(code.value), st);
        if next == None then None else ScanLines(lines[1..], next.value)
  }

  lemma {:induction false} ScanIsRun(lines: seq<string>, st: State)
    ensures ScanLines(lines, st) == if Rows(lines) == None then None else Run(Rows(lines).value, st)
    decreases |lines|
  {
    hide CodeLine, TokenRow, Step;
    if lines != [] {
      var code := CodeLine(lines[0]);
      if code.Some? {
        if code.value == "" {
          ScanIsRun(lines[1..], st);
        } else {
          var row := TokenRow(code.value);
          var next := Step(row, st);
          if next.Some? {
            ScanIsRun(lines[1..], next.value);
          }
          if Rows(lines[1..]).Some? {
            var rows := [row] + Rows(lines[1..]).value;
            assert rows[1..] == Rows(lines[1..]).value;
          }
        }
      }
    }
  }

  method CountToken(row: Row, token: string) returns (count: nat)
    ensures count == CountOf(row, token)
  {
    count := 0;
    for i := 0 to |row|
      invariant CountOf(row, token) == count + CountOf(row[i..], token)
    {
      assert row[i..][1..] == row[i + 1..];
      if row[i] == token {
        count := count + 1;
      }
    }
  }

  method ContainsBrace(row: Row) returns (found: bool)
    ensures found == HasBrace(row)
  {
    for i := 0 to |row|
      invariant forall j :: 0 <= j < i ==> !IsBrace(row[j])
    {
      if row[i] == "{" || row[i] == "}" {
        return true;
      }
    }
    return false;
  }

  /** The body of the scanner's loop, past the blank lines. */
  method ScanRow(tokens: Row, st: State) returns (next: Option<State>)
    ensures next == Step(tokens, st)
  {
    if |tokens| == 0 {
      return None;
    }
    if st.depth == 0 {
      var brace := ContainsBrace(tokens[..|tokens| - 1]);
      if |tokens| < 2 || tokens[|tokens| - 1] != "{" || brace || HasPrefix(tokens[0], "(") || tokens[0] == "import" {
        return None;
      }
      return Some(State(1, st.blocks + 1, st.direct));
    }
    if HasPrefix(tokens[0], "(") || tokens[0] == "import" {
      return None;
    }
    if |tokens| == 1 && tokens[0] == "}" {
      return Some(st.(depth := st.depth - 1));
    }
    var openBraces := CountToken(tokens, "{");
    var closeBraces := CountToken(tokens, "}");
    if closeBraces != 0 || openBraces > 1 || (openBraces == 1 && (|tokens| == 1 || tokens[|tokens| - 1] != "{")) {
      return None;
    }
    var direct := st.direct;
    if st.depth == 1 && tokens[0] == "federation" {
      direct := true;
    }
    var depth := st.depth;
    if openBraces == 1 {
      if depth >= MAX_NESTING {
        return None;
      }
      depth := depth + 1;
    }
    return Some(State(depth, st.blocks, direct));
  }

  /** `coreDNSDirectFederation` */
  method DirectFederation(raw: string) returns (result: Option<bool>)
    ensures result == Verdict(ScanLines(Split(raw, '\n'), START))
  {
    hide CodeLine, TokenRow, Step;
    var st := START;
    var lines := Split(raw, '\n');
    ghost var goal := ScanLines(lines, START);
    assert lines[0..] == lines;
    for index := 0 to |lines|
      invariant goal == ScanLines(lines[index..], st)
    {
      assert lines[index..][1..] == lines[index + 1..];
      var body := CodeLine(lines[index]);
      if body == None {
        return None;
      }
      if body.value != "" {
        var next := ScanRow(TokenRow(body.value), st);
        if next == None {
          return None;
        }
        st := next.value;
      }
    }
    assert lines[|lines|..] == [];
    return if st.depth == 0 && st.blocks > 0 then Some(st.direct) else None;
  }
}
