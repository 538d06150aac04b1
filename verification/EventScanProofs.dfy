/**
  The parser/printer theorem: on the print of any tree the scanner succeeds
  exactly when the tree is within the bounds, stops exactly at its end, and
  keeps exactly what the tree says.
  */
module EventScanProofs {
  import opened Common
  import opened JsonText
  import opened EventScanSpec
  import opened EventStringProofs

  // ---------- what the scanner is to keep, and when it is to succeed

  ghost function Kept(v: Value): Scanned {
    match v
    case Literal(word) => Bare(if word == NullWord then NullKind else BoolKind)
    case Numeric(_) => Bare(NumberKind)
    case Text(pieces) => Scanned(StringKind, Decode(pieces), LoneSurrogate(pieces))
    case EmptyArray(_) => Bare(ArrayKind)
    case Array(_) => Bare(ArrayKind)
    case EmptyObject(_) => Bare(ObjectKind)
    case Object(_) => Bare(ObjectKind)
  }

  ghost function After(v: Value, n: Counts): Counts {
    Counts(n.tokens + Nodes(v), n.members + MemberCount(v))
  }

  ghost function AfterItems(items: Items, n: Counts): Counts {
    Counts(n.tokens + NodesOfItems(items), n.members + MemberCountOfItems(items))
  }

  ghost function AfterMember(m: Member, n: Counts): Counts {
    After(m.element.value, n.(members := n.members + 1))
  }

  ghost function AfterMembers(ms: Members, n: Counts): Counts {
    Counts(n.tokens + NodesOfMembers(ms), n.members + MemberCountOfMembers(ms))
  }

  /** The scanner's checks, in the order in which it makes them. */
  ghost predicate Fits(v: Value, depth: nat, n: Counts) {
    && depth <= MAX_DEPTH && n.tokens <= MAX_TOKENS
    && (v.Array? ==> FitsItems(v.items, depth + 1, n.(tokens := n.tokens + 1)))
    && (v.Object? ==> FitsMembers(v.members, depth + 1, n.(tokens := n.tokens + 1)))
  }

  ghost predicate FitsItems(items: Items, depth: nat, n: Counts) {
    && Fits(items.head.value, depth, n)
    && (items.MoreItems? ==> FitsItems(items.tail, depth, After(items.head.value, n)))
  }

  ghost predicate FitsMember(m: Member, depth: nat, n: Counts) {
    && Utf8Length(Decode(m.name)) <= MAX_NAME
    && n.members + 1 <= MAX_MEMBERS
    && Fits(m.element.value, depth, n.(members := n.members + 1))
  }

  ghost predicate FitsMembers(ms: Members, depth: nat, n: Counts) {
    && FitsMember(ms.first, depth, n)
    && (ms.MoreMembers? ==> FitsMembers(ms.rest, depth, AfterMember(ms.first, n)))
  }

  // ---------- first characters

  predicate StartsValue(c: char) {
    c == '"' || c == '{' || c == '[' || c == 'n' || c == 't' || c == 'f' || StartsNumber(c)
  }

  predicate StartsNumber(c: char) {
    c == '-' || IsDigit(c)
  }

  /** A printed number is one run that no terminator interrupts. */
  lemma NumberPrint(n: Number)
    requires n.Ok()
    ensures n.Print() != "" && StartsNumber(n.Print()[0])
    ensures forall i :: 0 <= i < |n.Print()| ==> !IsTerminator(n.Print()[i])
  {
    var sign := if n.minus then "-" else "";
    var fraction := if n.fraction.Some? then "." + n.fraction.value else "";
    var exponent := if n.exponent.Some? then n.exponent.value.Print() else "";
    assert forall i :: 0 <= i < |exponent| ==> !IsTerminator(exponent[i]);
    assert forall i :: 0 <= i < |fraction| ==> !IsTerminator(fraction[i]);
    assert n.Print() == sign + n.whole + fraction + exponent;
  }

  lemma ValueStart(v: Value)
    requires ValueOk(v)
    ensures PrintValue(v) != "" && StartsValue(PrintValue(v)[0])
  {
    if v.Numeric? {
      NumberPrint(v.number);
    }
  }

  lemma {:induction false} RunOver(s: string, rest: string)
    requires forall i :: 0 <= i < |s| ==> !IsTerminator(s[i])
    requires Follows(rest)
    ensures Run(s + rest) == |s|
  {
    if s == "" {
      assert s + rest == rest;
    } else {
      assert (s + rest)[1..] == s[1..] + rest;
      RunOver(s[1..], rest);
    }
  }

  /** What may follow a value. */
  ghost predicate Follows(rest: string) {
    rest == "" || IsTerminator(rest[0])
  }

  // ---------- the theorem on values

  ghost function Expected<T>(fits: bool, value: T, rest: string, n: Counts): Outcome<T> {
    if fits then Read(value, rest, n) else Rejected
  }

  /** The scan proper, past the blanks and the bounds. */
  lemma OpenValue(v: Value, pre: string, rest: string)
    requires ValueOk(v) && Blanks(pre)
    ensures SkipBlanks(pre + PrintValue(v) + rest) == PrintValue(v) + rest
    ensures PrintValue(v) != "" && StartsValue(PrintValue(v)[0])
  {
    var t := PrintValue(v) + rest;
    assert pre + PrintValue(v) + rest == pre + t;
    ValueStart(v);
    SkipOver(pre, t);
  }

  lemma ReadsPlain(v: Value, pre: string, rest: string, depth: nat, n: Counts)
    requires ValueOk(v) && Blanks(pre) && Follows(rest)
    requires v.Literal? || v.Numeric?
    requires depth <= MAX_DEPTH && n.tokens <= MAX_TOKENS
    ensures ScanValue(pre + PrintValue(v) + rest, depth, n) == Read(Kept(v), rest, After(v, n))
  {
    OpenValue(v, pre, rest);
    var t := PrintValue(v) + rest;
    assert t[|PrintValue(v)|..] == rest;
    if v.Numeric? {
      NumberPrint(v.number);
      RunOver(v.number.Print(), rest);
    }
  }

  lemma ReadsText(v: Value, pre: string, rest: string, depth: nat, n: Counts)
    requires ValueOk(v) && Blanks(pre) && v.Text?
    requires depth <= MAX_DEPTH && n.tokens <= MAX_TOKENS
    ensures ScanValue(pre + PrintValue(v) + rest, depth, n) == Read(Kept(v), rest, After(v, n))
  {
    OpenValue(v, pre, rest);
    assert "" + PrintString(v.pieces) + rest == PrintValue(v) + rest;
    ScanStringPrinted("", v.pieces, rest);
  }

  lemma ReadsEmpty(v: Value, pre: string, rest: string, depth: nat, n: Counts)
    requires ValueOk(v) && Blanks(pre) && (v.EmptyArray? || v.EmptyObject?)
    requires depth <= MAX_DEPTH && n.tokens <= MAX_TOKENS
    ensures ScanValue(pre + PrintValue(v) + rest, depth, n) == Read(Kept(v), rest, After(v, n))
  {
    OpenValue(v, pre, rest);
    var close := if v.EmptyArray? then ']' else '}';
    assert (PrintValue(v) + rest)[1..] == v.blank + [close] + rest;
    TakeOver(v.blank, close, rest);
  }

  lemma {:induction false} ReadsNonempty(v: Value, pre: string, rest: string, depth: nat, n: Counts)
    requires ValueOk(v) && Blanks(pre) && (v.Array? || v.Object?)
    requires depth <= MAX_DEPTH && n.tokens <= MAX_TOKENS
    ensures ScanValue(pre + PrintValue(v) + rest, depth, n)
         == Expected(Fits(v, depth, n), Kept(v), rest, After(v, n))
    decreases v, 0
  {
    OpenValue(v, pre, rest);
    if v.Array? {
      ReadsArray(v.items, rest, depth + 1, n.(tokens := n.tokens + 1));
    } else {
      ReadsObject(v.members, rest, depth + 1, n.(tokens := n.tokens + 1));
    }
  }

  /** Every value, with blanks before it and a terminator after it. */
  lemma {:induction false} ReadsValue(v: Value, pre: string, rest: string, depth: nat, n: Counts)
    requires ValueOk(v) && Blanks(pre) && Follows(rest)
    ensures ScanValue(pre + PrintValue(v) + rest, depth, n)
         == Expected(Fits(v, depth, n), Kept(v), rest, After(v, n))
    decreases v, 1
  {
    if depth <= MAX_DEPTH && n.tokens <= MAX_TOKENS {
      match v {
        case Literal(_) => ReadsPlain(v, pre, rest, depth, n);
        case Numeric(_) => ReadsPlain(v, pre, rest, depth, n);
        case Text(_) => ReadsText(v, pre, rest, depth, n);
        case EmptyArray(_) => ReadsEmpty(v, pre, rest, depth, n);
        case EmptyObject(_) => ReadsEmpty(v, pre, rest, depth, n);
        case Array(_) => ReadsNonempty(v, pre, rest, depth, n);
        case Object(_) => ReadsNonempty(v, pre, rest, depth, n);
      }
    }
  }

  /** An element and what follows it, seen from its value. */
  lemma SplitElement(e: Element, rest: string)
    requires ElementOk(e)
    ensures PrintElement(e) + rest == e.before + PrintValue(e.value) + (e.after + rest)
    ensures rest != "" && IsTerminator(rest[0]) ==> Follows(e.after + rest)
  {
  }

  lemma {:induction false} ReadsArray(items: Items, rest: string, depth: nat, n: Counts)
    requires ItemsOk(items)
    ensures ScanArray(['['] + PrintItems(items) + [']'] + rest, depth, n)
         == Expected(FitsItems(items, depth, n), Bare(ArrayKind), rest, AfterItems(items, n))
    decreases items, 3
  {
    var t := ['['] + PrintItems(items) + [']'] + rest;
    var s := PrintItems(items) + [']'] + rest;
    assert t[1..] == s;
    var follow := s[|PrintElement(items.head)|..];
    assert s == PrintElement(items.head) + follow;
    SplitElement(items.head, follow);
    OpenValue(items.head.value, items.head.before, items.head.after + follow);
    assert Take(s, ']') == None;
    ReadsItems(items, rest, depth, n);
  }

  lemma {:induction false} ReadsItems(items: Items, rest: string, depth: nat, n: Counts)
    requires ItemsOk(items)
    ensures ScanItems(PrintItems(items) + [']'] + rest, depth, n)
         == Expected(FitsItems(items, depth, n), Bare(ArrayKind), rest, AfterItems(items, n))
    decreases items, 2
  {
    var head := items.head;
    var s := PrintItems(items) + [']'] + rest;
    if items.LastItem? {
      var follow := [']'] + rest;
      assert s == PrintElement(head) + follow;
      SplitElement(head, follow);
      ReadsValue(head.value, head.before, head.after + follow, depth, n);
      assert head.after + follow == head.after + [']'] + rest;
      TakeOver(head.after, ']', rest);
    } else {
      var more := PrintItems(items.tail) + [']'] + rest;
      var follow := [','] + more;
      assert s == PrintElement(head) + follow;
      SplitElement(head, follow);
      ReadsValue(head.value, head.before, head.after + follow, depth, n);
      assert head.after + follow == head.after + [','] + more;
      TakeOver(head.after, ',', more);
      ReadsItems(items.tail, rest, depth, After(head.value, n));
    }
  }

  lemma {:induction false} ReadsObject(ms: Members, rest: string, depth: nat, n: Counts)
    requires MembersOk(ms)
    ensures ScanObject(['{'] + PrintMembers(ms) + ['}'] + rest, depth, n)
         == Expected(FitsMembers(ms, depth, n), Bare(ObjectKind), rest, AfterMembers(ms, n))
    decreases ms, 3
  {
    var t := ['{'] + PrintMembers(ms) + ['}'] + rest;
    var s := PrintMembers(ms) + ['}'] + rest;
    assert t[1..] == s;
    NotClosed(ms, ['}'] + rest);
    assert PrintMembers(ms) + (['}'] + rest) == s;
    ReadsMembers(ms, rest, depth, n);
  }

  /** The first thing in a nonempty object is a quote, not the closing brace. */
  lemma NotClosed(ms: Members, rest: string)
    requires MembersOk(ms)
    ensures Take(PrintMembers(ms) + rest, '}') == None
  {
    hide SkipBlanks, PrintMember, MemberOk;
    var m := ms.first;
    var follow := if ms.LastMember? then rest else [','] + PrintMembers(ms.rest) + rest;
    assert PrintMembers(ms) + rest == PrintMember(m) + follow;
    OpensWithQuote(m, follow);
  }

  lemma OpensWithQuote(m: Member, follow: string)
    requires MemberOk(m)
    ensures Take(PrintMember(m) + follow, '}') == None
  {
    hide PrintMember, PrintElement;
    SplitMember(m, follow);
    var inner := PrintString(m.name) + (m.after + [':'] + (PrintElement(m.element) + follow));
    assert PrintMember(m) + follow == m.before + inner;
    assert inner[0] == '"';
    SkipOver(m.before, inner);
  }

  /** One member, whatever follows it. */
  lemma {:induction false} ReadsMember(m: Member, rest: string, depth: nat, n: Counts)
    requires MemberOk(m) && rest != "" && IsTerminator(rest[0])
    ensures ScanMember(PrintMember(m) + rest, depth, n)
         == Expected(FitsMember(m, depth, n), Named(Decode(m.name), Kept(m.element.value)),
                     m.element.after + rest, AfterMember(m, n))
    decreases m, 2
  {
    hide ScanString, ScanValue, Take, Fits, PrintMember;
    var e := m.element;
    var value := PrintElement(e) + rest;
    var colon := m.after + [':'] + value;
    SplitElement(e, rest);
    SplitMember(m, rest);
    ScanStringPrinted(m.before, m.name, colon);
    TakeOver(m.after, ':', value);
    ReadsValue(e.value, e.before, e.after + rest, depth, n.(members := n.members + 1));
  }

  lemma SplitMember(m: Member, rest: string)
    ensures PrintMember(m) + rest
         == m.before + PrintString(m.name) + (m.after + [':'] + (PrintElement(m.element) + rest))
  {
    var head := m.before + PrintString(m.name);
    var tail := m.after + [':'];
    assert PrintMember(m) == head + tail + PrintElement(m.element);
  }

  /** What follows the first member of an object whose closing brace is followed by `rest`. */
  ghost function Following(ms: Members, rest: string): string {
    if ms.LastMember? then ['}'] + rest else [','] + (PrintMembers(ms.rest) + ['}'] + rest)
  }

  /** One turn of the member loop. */
  lemma {:induction false} ReadsFirstMember(ms: Members, rest: string, depth: nat, n: Counts)
    requires MembersOk(ms)
    ensures ScanMember(PrintMembers(ms) + ['}'] + rest, depth, n)
         == Expected(FitsMember(ms.first, depth, n), Named(Decode(ms.first.name), Kept(ms.first.element.value)),
                     ms.first.element.after + Following(ms, rest), AfterMember(ms.first, n))
    ensures Take(ms.first.element.after + Following(ms, rest), '}')
         == if ms.LastMember? then Some(rest) else None
    ensures ms.MoreMembers? ==>
              Take(ms.first.element.after + Following(ms, rest), ',') == Some(PrintMembers(ms.rest) + ['}'] + rest)
    decreases ms, 1
  {
    var after := ms.first.element.after;
    var follow := Following(ms, rest);
    assert MemberOk(ms.first) && ElementOk(ms.first.element);
    assert PrintMembers(ms) + ['}'] + rest == PrintMember(ms.first) + follow;
    ReadsMember(ms.first, follow, depth, n);
    assert after + follow == after + [follow[0]] + follow[1..];
    TakeOver(after, follow[0], follow[1..]);
  }

  lemma {:induction false} ReadsMembers(ms: Members, rest: string, depth: nat, n: Counts)
    requires MembersOk(ms)
    ensures ScanMembers(PrintMembers(ms) + ['}'] + rest, depth, n)
         == Expected(FitsMembers(ms, depth, n), Bare(ObjectKind), rest, AfterMembers(ms, n))
    decreases ms, 2
  {
    hide ScanMember, Take, FitsMember;
    ReadsFirstMember(ms, rest, depth, n);
    if ms.MoreMembers? {
      ReadsMembers(ms.rest, rest, depth, AfterMember(ms.first, n));
    }
  }

  // ---------- the theorem on the root

  ghost function Names(ms: Members): seq<string> {
    [Decode(ms.first.name)] + (if ms.MoreMembers? then Names(ms.rest) else [])
  }

  /** The members entered one after the other. */
  ghost function EnterAll(book: Book, ms: Members): Book
    decreases ms
  {
    var next := book.Enter(Named(Decode(ms.first.name), Kept(ms.first.element.value)));
    if ms.MoreMembers? then EnterAll(next, ms.rest) else next
  }

  lemma {:induction false} ReadsRootMembers(ms: Members, rest: string, n: Counts, book: Book)
    requires MembersOk(ms)
    ensures ScanRootMembers(PrintMembers(ms) + ['}'] + rest, n, book)
         == Expected(FitsMembers(ms, 1, n), EnterAll(book, ms).Close(), rest, AfterMembers(ms, n))
    decreases ms
  {
    hide ScanMember, Take, FitsMember;
    ReadsFirstMember(ms, rest, 1, n);
    if ms.MoreMembers? {
      ReadsRootMembers(ms.rest, rest, AfterMember(ms.first, n),
                       book.Enter(Named(Decode(ms.first.name), Kept(ms.first.element.value))));
    }
  }

  /** What the scan of a whole document is to report. */
  ghost function Reported(v: Value): EventScan {
    match v
    case Object(members) => EnterAll(Book({}, false, map[]), members).Close()
    case EmptyObject(_) => EventScan(true, false, map[])
    case _ => NO_EVENT
  }

  lemma ReadsRootObject(ms: Members, rest: string)
    requires MembersOk(ms)
    ensures ScanRoot(PrintValue(Object(ms)) + rest)
         == Expected(Fits(Object(ms), 0, Counts(0, 0)), Reported(Object(ms)), rest, After(Object(ms), Counts(0, 0)))
  {
    hide ScanRootMembers, ScanValue, Take, PrintMembers, MembersOk, FitsMembers, EnterAll;
    var t := PrintValue(Object(ms)) + rest;
    var inner := PrintMembers(ms) + ['}'] + rest;
    assert t == ['{'] + inner;
    assert t[1..] == inner;
    assert inner == PrintMembers(ms) + (['}'] + rest);
    NotClosed(ms, ['}'] + rest);
    ReadsRootMembers(ms, rest, Counts(1, 0), Book({}, false, map[]));
  }

  lemma ReadsRootEmpty(blank: string, rest: string)
    requires Blanks(blank)
    ensures ScanRoot(PrintValue(EmptyObject(blank)) + rest) == Read(EventScan(true, false, map[]), rest, Counts(1, 0))
  {
    hide ScanRootMembers, ScanValue, Take;
    var t := PrintValue(EmptyObject(blank)) + rest;
    assert t[1..] == blank + ['}'] + rest;
    TakeOver(blank, '}', rest);
  }

  /** A root that is no object is only read over. */
  lemma ReadsRootOther(v: Value, rest: string)
    requires ValueOk(v) && !v.Object? && !v.EmptyObject? && Follows(rest)
    ensures ScanRoot(PrintValue(v) + rest)
         == Expected(Fits(v, 0, Counts(0, 0)), NO_EVENT, rest, After(v, Counts(0, 0)))
  {
    var t := PrintValue(v) + rest;
    NoBrace(v);
    OpenValue(v, "", rest);
    ReadsValue(v, "", rest, 0, Counts(0, 0));
    assert "" + PrintValue(v) + rest == t;
    OtherRoot(t);
  }

  lemma NoBrace(v: Value)
    requires ValueOk(v) && !v.Object? && !v.EmptyObject?
    ensures PrintValue(v) != "" && PrintValue(v)[0] != '{'
  {
    if v.Numeric? {
      NumberPrint(v.number);
    }
  }

  lemma OtherRoot(t: string)
    requires t != "" && SkipBlanks(t) == t && t[0] != '{'
    ensures var value := ScanValue(t, 0, Counts(0, 0));
            ScanRoot(t) == if value.Rejected? then Rejected else Read(NO_EVENT, value.rest, value.counts)
  {
    hide ScanValue;
  }

  lemma RootAfterBlanks(s: string, t: string)
    requires SkipBlanks(s) == t && SkipBlanks(t) == t
    ensures ScanRoot(s) == ScanRoot(t)
  {
    hide SkipBlanks, ScanValue, ScanRootMembers, Take;
  }

  /** The print of a tree is read to its end, and reported exactly when it fits. */
  lemma ReadsDocument(e: Element)
    requires ElementOk(e)
    ensures ScanRoot(PrintElement(e))
         == Expected(Fits(e.value, 0, Counts(0, 0)), Reported(e.value), e.after, After(e.value, Counts(0, 0)))
    ensures SkipBlanks(e.after) == ""
  {
    hide ScanRoot, PrintValue, Fits, Follows, EnterAll;
    var v := e.value;
    var t := PrintValue(v) + e.after;
    OpenValue(v, e.before, e.after);
    OpenValue(v, "", e.after);
    assert "" + PrintValue(v) + e.after == t;
    RootAfterBlanks(PrintElement(e), t);
    BlanksEnd(e.after);
    match v
    case Object(ms) => ReadsRootObject(ms, e.after);
    case EmptyObject(blank) =>
      ReadsRootEmpty(blank, e.after);
      EmptyFits(blank);
    case _ => ReadsRootOther(v, e.after);
  }

  lemma BlanksEnd(s: string)
    requires Blanks(s)
    ensures SkipBlanks(s) == "" && Follows(s)
  {
    assert s + "" == s;
    SkipOver(s, "");
  }

  lemma EmptyFits(blank: string)
    ensures Fits(EmptyObject(blank), 0, Counts(0, 0))
  {
  }
}
