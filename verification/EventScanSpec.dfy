/**
  What the event scanner computes on an arbitrary text, as functions on the
  unread rest of the input. `EventScanner` is the object with the mutable
  position that computes these functions; `EventScanProofs` relates them to the
  grammar of `JsonText`.
  */
module EventScanSpec {
  import opened Common
  import opened JsonText

  const MAX_DEPTH: nat := 24
  const MAX_TOKENS: nat := 100000
  const MAX_MEMBERS: nat := 100000
  const MAX_NAME: nat := 16384

  // ---------- blanks and single characters

  function SkipBlanks(s: string): (r: string)
    ensures |r| <= |s|
    ensures r != "" ==> !IsBlank(r[0])
  {
    if s != "" && IsBlank(s[0]) then SkipBlanks(s[1..]) else s
  }

  function Take(s: string, c: char): (r: Option<string>)
    ensures r.Some? ==> |r.value| < |s|
  {
    var t := SkipBlanks(s);
    if t != "" && t[0] == c then Some(t[1..]) else None
  }

  // ---------- string tokens

  /** `strconv.ParseUint(text, 16, 16)` on four characters. */
  function ParseUnit(s: string): Option<nat> {
    if IsHex4(s) then Some(CodeUnit(s)) else None
  }

  /** A `\u` escape of a low surrogate starts at `i`. */
  predicate LowEscapeAt(s: string, i: nat) {
    && i + 6 <= |s| && s[i] == '\\' && s[i + 1] == 'u'
    && IsHex4(s[i + 2..i + 6]) && LowUnit(CodeUnit(s[i + 2..i + 6]))
  }

  /** Where a walk stands, and whether it met a surrogate without its partner. */
  datatype Walk = Walk(at: nat, repaired: bool)

  /** The escape that starts at `i`: where it ends, and whether it is such a surrogate. */
  function EscapeAt(s: string, i: nat): (w: Option<Walk>)
    requires i < |s|
    ensures w.Some? ==> i < w.value.at <= |s|
  {
    if i + 1 >= |s| then None
    else if s[i + 1] != 'u' then Some(Walk(i + 2, false))
    else if i + 6 > |s| then None
    else
      var unit := ParseUnit(s[i + 2..i + 6]);
      if unit == None then None
      else if HighUnit(unit.value) && LowEscapeAt(s, i + 6) then Some(Walk(i + 12, false))
      else Some(Walk(i + 6, HighUnit(unit.value) || LowUnit(unit.value)))
  }

  /** The walk from `i` over a string body to its closing quote. */
  function WalkAt(s: string, i: nat, repaired: bool): (w: Option<Walk>)
    requires i <= |s|
    ensures w.Some? ==> i <= w.value.at < |s|
    decreases |s| - i
  {
    if i == |s| then None
    else if s[i] == '"' then Some(Walk(i, repaired))
    else if s[i] != '\\' then WalkAt(s, i + 1, repaired)
    else
      var step := EscapeAt(s, i);
      if step == None then None else WalkAt(s, step.value.at, repaired || step.value.repaired)
  }

  function Cons(c: char, rest: Option<string>): Option<string> {
    if rest.Some? then Some([c] + rest.value) else None
  }

  /** `json.Unmarshal` of a string body into a Go string. */
  function Unquote(s: string): Option<string>
    decreases |s|
  {
    if s == "" then Some("")
    else if s[0] == '"' || s[0] < ' ' then None
    else if s[0] != '\\' then Cons(s[0], Unquote(s[1..]))
    else if |s| < 2 then None
    else if s[1] != 'u' then
      var c := ShortEscape(s[1]);
      if c == None then None else Cons(c.value, Unquote(s[2..]))
    else if |s| < 6 || !IsHex4(s[2..6]) then None
    else
      var unit := CodeUnit(s[2..6]);
      if HighUnit(unit) && LowEscapeAt(s, 6) then Cons(PairChar(unit, CodeUnit(s[8..12])), Unquote(s[12..]))
      else Cons(UnitChar(unit), Unquote(s[6..]))
  }

  datatype StringToken = StringToken(text: string, repaired: bool, rest: string)

  function ScanString(s: string): (r: Option<StringToken>)
    ensures r.Some? ==> |r.value.rest| < |s|
  {
    var t := SkipBlanks(s);
    if t == "" || t[0] != '"' then None
    else
      var walk := WalkAt(t, 1, false);
      if walk == None then None
      else
        var text := Unquote(t[1..walk.value.at]);
        if text == None then None
        else Some(StringToken(text.value, walk.value.repaired, t[walk.value.at + 1..]))
  }

  // ---------- values

  datatype Counts = Counts(tokens: nat, members: nat)

  datatype Kind = StringKind | ObjectKind | ArrayKind | NullKind | BoolKind | NumberKind

  /** What the scanner keeps of a value. */
  datatype Scanned = Scanned(kind: Kind, text: string, repaired: bool)

  function Bare(kind: Kind): Scanned {
    Scanned(kind, "", false)
  }

  datatype Outcome<+T> = Rejected | Read(value: T, rest: string, counts: Counts)

  predicate IsTerminator(c: char) {
    IsBlank(c) || c == ',' || c == ']' || c == '}'
  }

  /** The length of the run of characters that end no number. */
  function Run(s: string): (n: nat)
    ensures n <= |s|
    ensures forall i :: 0 <= i < n ==> !IsTerminator(s[i])
    ensures n < |s| ==> IsTerminator(s[n])
  {
    if s == "" || IsTerminator(s[0]) then 0 else 1 + Run(s[1..])
  }

  function ScanWord(t: string, word: string, kind: Kind, n: Counts): Outcome<Scanned> {
    if HasPrefix(t, word) then Read(Bare(kind), t[|word|..], n) else Rejected
  }

  function ScanValue(s: string, depth: nat, n: Counts): (r: Outcome<Scanned>)
    ensures r.Read? ==> |r.rest| < |s|
    decreases |s|, 1
  {
    if depth > MAX_DEPTH || n.tokens > MAX_TOKENS then Rejected
    else
      var t := SkipBlanks(s);
      if t == "" then Rejected
      else
        var n := n.(tokens := n.tokens + 1);
        match t[0]
        case '"' =>
          var token := ScanString(t);
          if token == None then Rejected
          else Read(Scanned(StringKind, token.value.text, token.value.repaired), token.value.rest, n)
        case '{' => ScanObject(t, depth + 1, n)
        case '[' => ScanArray(t, depth + 1, n)
        case 'n' => ScanWord(t, "null", NullKind, n)
        case 't' => ScanWord(t, "true", BoolKind, n)
        case 'f' => ScanWord(t, "false", BoolKind, n)
        case _ => if Run(t) == 0 then Rejected else Read(Bare(NumberKind), t[Run(t)..], n)
  }

  function ScanObject(t: string, depth: nat, n: Counts): (r: Outcome<Scanned>)
    requires t != ""
    ensures r.Read? ==> |r.rest| < |t|
    ensures r.Read? ==> r.value == Bare(ObjectKind)
    decreases |t|, 0
  {
    var close := Take(t[1..], '}');
    if close.Some? then Read(Bare(ObjectKind), close.value, n) else ScanMembers(t[1..], depth, n)
  }

  function ScanArray(t: string, depth: nat, n: Counts): (r: Outcome<Scanned>)
    requires t != ""
    ensures r.Read? ==> |r.rest| < |t|
    ensures r.Read? ==> r.value == Bare(ArrayKind)
    decreases |t|, 0
  {
    var close := Take(t[1..], ']');
    if close.Some? then Read(Bare(ArrayKind), close.value, n) else ScanItems(t[1..], depth, n)
  }

  function ScanItems(s: string, depth: nat, n: Counts): (r: Outcome<Scanned>)
    ensures r.Read? ==> |r.rest| < |s|
    ensures r.Read? ==> r.value == Bare(ArrayKind)
    decreases |s|, 2
  {
    var item := ScanValue(s, depth, n);
    if item.Rejected? then Rejected
    else
      var close := Take(item.rest, ']');
      if close.Some? then Read(Bare(ArrayKind), close.value, item.counts)
      else
        var comma := Take(item.rest, ',');
        if comma == None then Rejected else ScanItems(comma.value, depth, item.counts)
  }

  datatype Named = Named(name: string, value: Scanned)

  /** One `name : value`. */
  function ScanMember(s: string, depth: nat, n: Counts): (r: Outcome<Named>)
    ensures r.Read? ==> |r.rest| < |s|
    decreases |s|, 0
  {
    var token := ScanString(s);
    if token == None || Utf8Length(token.value.text) > MAX_NAME || n.members + 1 > MAX_MEMBERS then Rejected
    else
      var colon := Take(token.value.rest, ':');
      if colon == None then Rejected
      else
        var value := ScanValue(colon.value, depth, n.(members := n.members + 1));
        if value.Rejected? then Rejected
        else Read(Named(token.value.text, value.value), value.rest, value.counts)
  }

  function ScanMembers(s: string, depth: nat, n: Counts): (r: Outcome<Scanned>)
    ensures r.Read? ==> |r.rest| < |s|
    ensures r.Read? ==> r.value == Bare(ObjectKind)
    decreases |s|, 1
  {
    var member := ScanMember(s, depth, n);
    if member.Rejected? then Rejected
    else
      var close := Take(member.rest, '}');
      if close.Some? then Read(Bare(ObjectKind), close.value, member.counts)
      else
        var comma := Take(member.rest, ',');
        if comma == None then Rejected else ScanMembers(comma.value, depth, member.counts)
  }

  // ---------- the root

  /** The six members that the observation is about. */
  predicate IsSelected(name: string) {
    name == "specversion" || name == "id" || name == "source" || name == "type" || name == "data" || name == "data_base64"
  }

  datatype EventScan = EventScan(rootObject: bool, duplicate: bool, selected: map<string, Scanned>)

  /** The bookkeeping of the root loop: names seen, duplicates met, values kept. */
  datatype Book = Book(seen: set<string>, duplicate: bool, selected: map<string, Scanned>) {
    function Enter(m: Named): Book {
      Book(seen + {m.name},
           duplicate || m.name in seen,
           if IsSelected(m.name) then selected[m.name := m.value] else selected)
    }

    function Close(): EventScan {
      EventScan(true, duplicate, selected)
    }
  }

  function ScanRootMembers(s: string, n: Counts, book: Book): (r: Outcome<EventScan>)
    ensures r.Read? ==> |r.rest| < |s|
    decreases |s|
  {
    var member := ScanMember(s, 1, n);
    if member.Rejected? then Rejected
    else
      var book := book.Enter(member.value);
      var close := Take(member.rest, '}');
      if close.Some? then Read(book.Close(), close.value, member.counts)
      else
        var comma := Take(member.rest, ',');
        if comma == None then Rejected else ScanRootMembers(comma.value, member.counts, book)
  }

  const NO_EVENT: EventScan := EventScan(false, false, map[])

  function ScanRoot(s: string): Outcome<EventScan> {
    var t := SkipBlanks(s);
    if t == "" then Rejected
    else if t[0] != '{' then
      var value := ScanValue(t, 0, Counts(0, 0));
      if value.Rejected? then Rejected else Read(NO_EVENT, value.rest, value.counts)
    else
      var close := Take(t[1..], '}');
      if close.Some? then Read(EventScan(true, false, map[]), close.value, Counts(1, 0))
      else ScanRootMembers(t[1..], Counts(1, 0), Book({}, false, map[]))
  }
}
