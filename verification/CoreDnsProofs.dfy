/** The Corefile scanner accepts exactly the prints of server blocks, and finds exactly the direct directives. */
module CoreDnsProofs {
  import opened Common
  import opened GoStrings
  import opened CoreDns

  // ---------- the block grammar

  /** The body of a block: rows, some of which open a block of their own. */
  datatype Body =
    | End
    | Directive(row: Row, rest: Body)
    | Nested(row: Row, inner: Body, rest: Body)

  datatype Server = Server(header: Row, body: Body)

  ghost function PrintBody(b: Body): seq<Row> {
    match b
    case End => []
    case Directive(row, rest) => [row] + PrintBody(rest)
    case Nested(row, inner, rest) => [row] + PrintBody(inner) + [CLOSING] + PrintBody(rest)
  }

  ghost function PrintServers(servers: seq<Server>): seq<Row> {
    if servers == [] then []
    else [servers[0].header] + PrintBody(servers[0].body) + [CLOSING] + PrintServers(servers[1..])
  }

  /** Admitted rows, nested at most 32 deep; `depth` is that of the rows of `b`. */
  ghost predicate BodyOk(b: Body, depth: nat) {
    match b
    case End => true
    case Directive(row, rest) => IsDirective(row) && BodyOk(rest, depth)
    case Nested(row, inner, rest) =>
      OpensBlock(row) && depth < 32 && BodyOk(inner, depth + 1) && BodyOk(rest, depth)
  }

  ghost predicate ServersOk(servers: seq<Server>) {
    forall i :: 0 <= i < |servers| ==> OpensBlock(servers[i].header) && BodyOk(servers[i].body, 1)
  }

  /** A row of the body itself, not of a nested block, starts with `federation`. */
  ghost predicate HasFederation(b: Body) {
    match b
    case End => false
    case Directive(row, rest) => (row != [] && row[0] == "federation") || HasFederation(rest)
    case Nested(row, _, rest) => (row != [] && row[0] == "federation") || HasFederation(rest)
  }

  ghost predicate SomeFederation(servers: seq<Server>) {
    exists i :: 0 <= i < |servers| && HasFederation(servers[i].body)
  }

  // ---------- one row

  lemma BraceTail(row: Row)
    requires row != []
    ensures HasBrace(row) <==> IsBrace(row[0]) || HasBrace(row[1..])
  {
    assert forall i :: 0 <= i < |row[1..]| ==> row[1..][i] == row[i + 1];
    if HasBrace(row) {
      var i :| 0 <= i < |row| && IsBrace(row[i]);
      if i > 0 {
        assert IsBrace(row[1..][i - 1]);
      }
    }
  }

  lemma {:induction false} CountsOf(row: Row)
    ensures CountOf(row, "{") == 0 && CountOf(row, "}") == 0 <==> !HasBrace(row)
  {
    if row != [] {
      CountsOf(row[1..]);
      BraceTail(row);
    }
  }

  lemma {:induction false} CountLast(row: Row, token: string)
    requires row != []
    ensures CountOf(row, token) == CountOf(row[..|row| - 1], token) + (if row[|row| - 1] == token then 1 else 0)
  {
    if |row| > 1 {
      CountLast(row[1..], token);
      assert row[1..][..|row| - 2] == row[..|row| - 1][1..];
    }
  }

  /** What a row does inside a block, by its kind. */
  lemma StepInside(row: Row, st: State)
    requires st.depth > 0
    ensures Step(row, st)
         == (var direct := st.direct || (st.depth == 1 && row != [] && row[0] == "federation");
             if row == CLOSING then Some(st.(depth := st.depth - 1))
             else if IsDirective(row) then Some(st.(direct := direct))
             else if OpensBlock(row) && st.depth < MAX_NESTING then Some(st.(depth := st.depth + 1, direct := direct))
             else None)
  {
    if row != [] {
      CountsOf(row);
      CountsOf(row[..|row| - 1]);
      CountLast(row, "{");
      CountLast(row, "}");
      if row == CLOSING {
        assert row[0] == "}";
      }
      if |row| == 1 && row[0] == "}" {
        assert row == CLOSING;
      }
      if OpensBlock(row) {
        assert IsBrace(row[|row| - 1]);
        assert HasBrace(row);
      }
    }
  }

  /** A row is of one kind only. */
  lemma KindsApart(row: Row)
    ensures !IsDirective(CLOSING) && !OpensBlock(CLOSING)
    ensures OpensBlock(row) ==> !IsDirective(row)
  {
    assert IsBrace(CLOSING[0]);
    if OpensBlock(row) {
      assert IsBrace(row[|row| - 1]);
    }
  }

  // ---------- prints are accepted

  lemma RunCons(row: Row, rows: seq<Row>, st: State)
    ensures Run([row] + rows, st) == if Step(row, st) == None then None else Run(rows, Step(row, st).value)
  {
    assert ([row] + rows)[1..] == rows;
  }

  lemma {:induction false} RunBody(b: Body, rest: seq<Row>, st: State)
    requires st.depth > 0 && BodyOk(b, st.depth)
    ensures Run(PrintBody(b) + rest, st)
         == Run(rest, st.(direct := st.direct || (st.depth == 1 && HasFederation(b))))
    decreases b
  {
    hide Run, Step, OpensBlock, IsDirective;
    if !b.End? {
      KindsApart(b.row);
    }
    match b
    case End => assert PrintBody(b) + rest == rest;
    case Directive(row, tail) =>
      assert PrintBody(b) + rest == [row] + (PrintBody(tail) + rest);
      RunCons(row, PrintBody(tail) + rest, st);
      StepInside(row, st);
      RunBody(tail, rest, Step(row, st).value);
    case Nested(row, inner, tail) =>
      var after := [CLOSING] + (PrintBody(tail) + rest);
      assert PrintBody(b) + rest == [row] + (PrintBody(inner) + after);
      RunCons(row, PrintBody(inner) + after, st);
      StepInside(row, st);
      var deeper := Step(row, st).value;
      RunBody(inner, after, deeper);
      RunCons(CLOSING, PrintBody(tail) + rest, deeper);
      StepInside(CLOSING, deeper);
      RunBody(tail, rest, Step(CLOSING, deeper).value);
  }

  lemma {:induction false} RunServers(servers: seq<Server>, st: State)
    requires st.depth == 0 && ServersOk(servers)
    ensures Run(PrintServers(servers), st)
         == Some(State(0, st.blocks + |servers|, st.direct || SomeFederation(servers)))
    decreases |servers|
  {
    if servers != [] {
      var s, more := servers[0], PrintServers(servers[1..]);
      var inside := State(1, st.blocks + 1, st.direct);
      assert PrintServers(servers) == [s.header] + (PrintBody(s.body) + ([CLOSING] + more));
      RunCons(s.header, PrintBody(s.body) + ([CLOSING] + more), st);
      assert Step(s.header, st) == Some(inside);
      RunBody(s.body, [CLOSING] + more, inside);
      var done := inside.(direct := st.direct || HasFederation(s.body));
      RunCons(CLOSING, more, done);
      StepInside(CLOSING, done);
      RunServers(servers[1..], done.(depth := 0));
      FederationTail(servers);
    }
  }

  lemma FederationTail(servers: seq<Server>)
    requires servers != []
    ensures SomeFederation(servers) <==> HasFederation(servers[0].body) || SomeFederation(servers[1..])
  {
    if SomeFederation(servers[1..]) {
      var i :| 0 <= i < |servers[1..]| && HasFederation(servers[1..][i].body);
      assert HasFederation(servers[i + 1].body);
    }
    if SomeFederation(servers) && !HasFederation(servers[0].body) {
      var i :| 0 <= i < |servers| && HasFederation(servers[i].body);
      assert servers[1..][i - 1] == servers[i];
    }
  }

  // ---------- only prints are accepted

  /** What closes a number of open blocks: the rest of each body, its closing row, and then further servers. */
  ghost function Unwound(bodies: seq<Body>, servers: seq<Server>): seq<Row> {
    if bodies == [] then PrintServers(servers)
    else PrintBody(bodies[0]) + [CLOSING] + Unwound(bodies[1..], servers)
  }

  ghost predicate BodiesOk(bodies: seq<Body>) {
    forall i :: 0 <= i < |bodies| ==> BodyOk(bodies[i], |bodies| - i)
  }

  /** The parts of an accepted run: the rest of each open body, the innermost first, and the servers after them. */
  datatype Parts = Parts(bodies: seq<Body>, servers: seq<Server>)

  ghost predicate PartsOf(parts: Parts, rows: seq<Row>, st: State, end: State) {
    && |parts.bodies| == st.depth
    && BodiesOk(parts.bodies) && ServersOk(parts.servers)
    && Unwound(parts.bodies, parts.servers) == rows
    && end.blocks == st.blocks + |parts.servers|
    && (end.direct <==> || st.direct
                        || (st.depth > 0 && HasFederation(parts.bodies[st.depth - 1]))
                        || SomeFederation(parts.servers))
  }

  lemma {:induction false} AcceptedParts(rows: seq<Row>, st: State, end: State) returns (parts: Parts)
    requires Run(rows, st) == Some(end) && end.depth == 0
    ensures PartsOf(parts, rows, st, end)
    decreases |rows|
  {
    if rows == [] {
      return Parts([], []);
    }
    var row, more := rows[0], rows[1..];
    var next := Step(row, st).value;
    var later := AcceptedParts(more, next, end);
    assert rows == [row] + more;
    if st.depth == 0 {
      parts := OpenServer(row, more, st, next, end, later);
    } else {
      StepInside(row, st);
      if row == CLOSING {
        parts := CloseBlock(more, st, next, end, later);
        assert row == CLOSING;
      } else if IsDirective(row) {
        parts := AddDirective(row, more, st, next, end, later);
      } else {
        parts := OpenBlock(row, more, st, next, end, later);
      }
    }
  }

  lemma OpenServer(row: Row, more: seq<Row>, st: State, next: State, end: State, later: Parts) returns (parts: Parts)
    requires st.depth == 0 && Step(row, st) == Some(next) && PartsOf(later, more, next, end)
    ensures PartsOf(parts, [row] + more, st, end)
  {
    var body := later.bodies[0];
    var server := Server(row, body);
    parts := Parts([], [server] + later.servers);
    assert parts.servers[1..] == later.servers;
    assert later.bodies[1..] == [];
    assert Unwound(later.bodies[1..], later.servers) == PrintServers(later.servers);
    assert more == PrintBody(body) + [CLOSING] + PrintServers(later.servers);
    FederationTail(parts.servers);
  }

  lemma CloseBlock(more: seq<Row>, st: State, next: State, end: State, later: Parts) returns (parts: Parts)
    requires st.depth > 0 && next == st.(depth := st.depth - 1) && PartsOf(later, more, next, end)
    ensures PartsOf(parts, [CLOSING] + more, st, end)
  {
    parts := Parts([End] + later.bodies, later.servers);
    assert parts.bodies[1..] == later.bodies;
  }

  lemma AddDirective(row: Row, more: seq<Row>, st: State, next: State, end: State, later: Parts) returns (parts: Parts)
    requires st.depth > 0 && IsDirective(row)
    requires next == st.(direct := st.direct || (st.depth == 1 && row[0] == "federation"))
    requires PartsOf(later, more, next, end)
    ensures PartsOf(parts, [row] + more, st, end)
  {
    var rest := later.bodies[1..];
    parts := Parts([Directive(row, later.bodies[0])] + rest, later.servers);
    assert parts.bodies[1..] == rest;
    var tail := [CLOSING] + Unwound(rest, later.servers);
    assert more == PrintBody(later.bodies[0]) + tail;
    assert Unwound(parts.bodies, parts.servers) == [row] + (PrintBody(later.bodies[0]) + tail);
  }

  lemma UnwoundFirst(body: Body, bodies: seq<Body>, servers: seq<Server>)
    ensures Unwound([body] + bodies, servers) == PrintBody(body) + ([CLOSING] + Unwound(bodies, servers))
  {
    hide PrintBody;
    assert ([body] + bodies)[1..] == bodies;
  }

  lemma Regrouped(row: seq<Row>, inner: seq<Row>, closing: seq<Row>, outer: seq<Row>, rest: seq<Row>)
    ensures row + inner + closing + outer + rest == row + (inner + (closing + (outer + rest)))
  {
  }

  lemma OpenedRows(row: Row, inner: Body, outer: Body, bodies: seq<Body>, servers: seq<Server>)
    ensures Unwound([Nested(row, inner, outer)] + bodies, servers) == [row] + Unwound([inner, outer] + bodies, servers)
  {
    hide Unwound;
    var nested := Nested(row, inner, outer);
    UnwoundFirst(nested, bodies, servers);
    UnwoundFirst(inner, [outer] + bodies, servers);
    UnwoundFirst(outer, bodies, servers);
    assert [inner, outer] + bodies == [inner] + ([outer] + bodies);
    assert PrintBody(nested) == [row] + PrintBody(inner) + [CLOSING] + PrintBody(outer);
    Regrouped([row], PrintBody(inner), [CLOSING], PrintBody(outer), [CLOSING] + Unwound(bodies, servers));
  }

  lemma OpenBlock(row: Row, more: seq<Row>, st: State, next: State, end: State, later: Parts) returns (parts: Parts)
    requires 0 < st.depth < MAX_NESTING && OpensBlock(row)
    requires next == State(st.depth + 1, st.blocks, st.direct || (st.depth == 1 && row[0] == "federation"))
    requires PartsOf(later, more, next, end)
    ensures PartsOf(parts, [row] + more, st, end)
  {
    hide Unwound, ServersOk, SomeFederation;
    var inner, outer, rest := later.bodies[0], later.bodies[1], later.bodies[2..];
    parts := Parts([Nested(row, inner, outer)] + rest, later.servers);
    assert later.bodies == [inner, outer] + rest;
    OpenedRows(row, inner, outer, rest, later.servers);
  }

  // ---------- the theorem

  /**
    The rows are supported exactly when they are the print of a nonempty list of
    server blocks with admitted rows, nested at most 32 deep; the answer is then
    whether some server block has a direct federation directive.
    */
  lemma AcceptsIffBlocks(rows: seq<Row>, present: bool)
    ensures Verdict(Run(rows, START)) == Some(present) <==>
            exists servers :: servers != [] && ServersOk(servers) && PrintServers(servers) == rows
                              && present == SomeFederation(servers)
  {
    forall servers | servers != [] && ServersOk(servers) && PrintServers(servers) == rows
      ensures Verdict(Run(rows, START)) == Some(SomeFederation(servers))
    {
      RunServers(servers, START);
    }
    if Verdict(Run(rows, START)) == Some(present) {
      var end := Run(rows, START).value;
      var parts := AcceptedParts(rows, START, end);
      assert parts.bodies == [];
      assert parts.servers != [] && PrintServers(parts.servers) == rows && present == SomeFederation(parts.servers);
    }
  }
}
