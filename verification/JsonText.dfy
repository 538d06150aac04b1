/**
  The JSON texts of RFC 8259 as concrete syntax trees, and their printing.

  A tree keeps every insignificant blank and every escape as it was written, so
  the prints of well-formed trees are exactly the JSON texts. Input that passed
  `utf8.Valid` is a sequence of Unicode scalar values, which is what Dafny's
  `string` is.
  */
module JsonText {
  import opened Common

  // ---------- lexical classes

  predicate IsBlank(c: char) {
    c == ' ' || c == '\n' || c == '\r' || c == '\t'
  }

  ghost predicate Blanks(s: string) {
    forall i :: 0 <= i < |s| ==> IsBlank(s[i])
  }

  predicate IsHex(c: char) {
    IsDigit(c) || 'a' <= c <= 'f' || 'A' <= c <= 'F'
  }

  function HexDigit(c: char): (d: nat)
    requires IsHex(c)
    ensures d < 16
  {
    if IsDigit(c) then c as int - '0' as int
    else if 'a' <= c <= 'f' then c as int - 'a' as int + 10
    else c as int - 'A' as int + 10
  }

  predicate IsHex4(s: string) {
    |s| == 4 && IsHex(s[0]) && IsHex(s[1]) && IsHex(s[2]) && IsHex(s[3])
  }

  /** The UTF-16 code unit written by four hexadecimal digits. */
  function CodeUnit(s: string): (u: nat)
    requires IsHex4(s)
    ensures u < 0x10000
  {
    HexDigit(s[0]) * 4096 + HexDigit(s[1]) * 256 + HexDigit(s[2]) * 16 + HexDigit(s[3])
  }

  predicate HighUnit(u: nat) {
    0xd800 <= u <= 0xdbff
  }

  predicate LowUnit(u: nat) {
    0xdc00 <= u <= 0xdfff
  }

  const REPLACEMENT: char := '\U{FFFD}'

  /** The character of one code unit; a surrogate on its own is replaced. */
  function UnitChar(u: nat): char
    requires u < 0x10000
  {
    if HighUnit(u) || LowUnit(u) then REPLACEMENT else u as char
  }

  /** The character of a surrogate pair. */
  function PairChar(high: nat, low: nat): char
    requires HighUnit(high) && LowUnit(low)
  {
    ((high - 0xd800) * 0x400 + (low - 0xdc00) + 0x10000) as char
  }

  /** The two-character escapes of section 7 of RFC 8259. */
  function ShortEscape(c: char): Option<char> {
    match c
    case '"' => Some('"')
    case '\\' => Some('\\')
    case '/' => Some('/')
    case 'b' => Some('\U{0008}')
    case 'f' => Some('\U{000C}')
    case 'n' => Some('\n')
    case 'r' => Some('\r')
    case 't' => Some('\t')
    case _ => None
  }

  // ---------- strings

  datatype Piece =
    | Plain(c: char)
    | Short(c: char)
    | Unit(hex: string)
  {
    predicate Ok() {
      match this
      case Plain(c) => c >= ' ' && c != '"' && c != '\\'
      case Short(c) => ShortEscape(c).Some?
      case Unit(hex) => IsHex4(hex)
    }

    predicate High() {
      Unit? && IsHex4(hex) && HighUnit(CodeUnit(hex))
    }

    predicate Low() {
      Unit? && IsHex4(hex) && LowUnit(CodeUnit(hex))
    }

    function Print(): string {
      match this
      case Plain(c) => [c]
      case Short(c) => ['\\', c]
      case Unit(hex) => ['\\', 'u'] + hex
    }

    /** The character this piece stands for when it is not half of a pair. */
    function Alone(): char {
      match this
      case Plain(c) => c
      case Short(c) => if ShortEscape(c).Some? then ShortEscape(c).value else c
      case Unit(hex) => if IsHex4(hex) then UnitChar(CodeUnit(hex)) else REPLACEMENT
    }
  }

  ghost predicate PiecesOk(ps: seq<Piece>) {
    forall i :: 0 <= i < |ps| ==> ps[i].Ok()
  }

  function PrintPieces(ps: seq<Piece>): string {
    if ps == [] then "" else ps[0].Print() + PrintPieces(ps[1..])
  }

  /** A high surrogate escape directly followed by a low one. */
  predicate PairAt(ps: seq<Piece>, i: nat) {
    i + 1 < |ps| && ps[i].High() && ps[i + 1].Low()
  }

  /** The text that a string literal denotes. */
  ghost function Decode(ps: seq<Piece>): string {
    if ps == [] then ""
    else if PairAt(ps, 0) then
      [PairChar(CodeUnit(ps[0].hex), CodeUnit(ps[1].hex))] + Decode(ps[2..])
    else [ps[0].Alone()] + Decode(ps[1..])
  }

  /** Section 8.2 of RFC 8259: some surrogate escape has no partner next to it. */
  ghost predicate LoneSurrogate(ps: seq<Piece>) {
    exists i :: 0 <= i < |ps| && LoneAt(ps, i)
  }

  ghost predicate LoneAt(ps: seq<Piece>, i: nat)
    requires i < |ps|
  {
    || (ps[i].High() && !(i + 1 < |ps| && ps[i + 1].Low()))
    || (ps[i].Low() && !(0 < i && ps[i - 1].High()))
  }

  ghost function PrintString(ps: seq<Piece>): string {
    ['"'] + PrintPieces(ps) + ['"']
  }

  // ---------- numbers

  predicate Digits(s: string) {
    s != "" && forall i :: 0 <= i < |s| ==> IsDigit(s[i])
  }

  datatype Number = Number(minus: bool, whole: string, fraction: Option<string>, exponent: Option<Exponent>) {
    predicate Ok() {
      && Digits(whole) && (|whole| == 1 || whole[0] != '0')
      && (fraction.Some? ==> Digits(fraction.value))
      && (exponent.Some? ==> exponent.value.Ok())
    }

    function Print(): string {
      (if minus then "-" else "") + whole
      + (if fraction.Some? then "." + fraction.value else "")
      + (if exponent.Some? then exponent.value.Print() else "")
    }
  }

  datatype Exponent = Exponent(mark: char, sign: string, digits: string) {
    predicate Ok() {
      && (mark == 'e' || mark == 'E')
      && (sign == "" || sign == "+" || sign == "-")
      && Digits(digits)
    }

    function Print(): string {
      [mark] + sign + digits
    }
  }

  // ---------- trees

  datatype Word = NullWord | TrueWord | FalseWord {
    function Print(): string {
      match this
      case NullWord => "null"
      case TrueWord => "true"
      case FalseWord => "false"
    }
  }

  datatype Value =
    | Literal(word: Word)
    | Numeric(number: Number)
    | Text(pieces: seq<Piece>)
    | EmptyArray(blank: string)
    | Array(items: Items)
    | EmptyObject(blank: string)
    | Object(members: Members)

  /** A value with the blanks around it: `ws value ws`. */
  datatype Element = Element(before: string, value: Value, after: string)

  datatype Items = LastItem(head: Element) | MoreItems(head: Element, tail: Items)

  /** `ws string ws ":" element` */
  datatype Member = Member(before: string, name: seq<Piece>, after: string, element: Element)

  datatype Members = LastMember(first: Member) | MoreMembers(first: Member, rest: Members)

  ghost predicate ValueOk(v: Value) {
    match v
    case Literal(_) => true
    case Numeric(number) => number.Ok()
    case Text(pieces) => PiecesOk(pieces)
    case EmptyArray(blank) => Blanks(blank)
    case Array(items) => ItemsOk(items)
    case EmptyObject(blank) => Blanks(blank)
    case Object(members) => MembersOk(members)
  }

  ghost predicate ElementOk(e: Element) {
    Blanks(e.before) && ValueOk(e.value) && Blanks(e.after)
  }

  ghost predicate ItemsOk(items: Items) {
    ElementOk(items.head) && (items.MoreItems? ==> ItemsOk(items.tail))
  }

  ghost predicate MemberOk(m: Member) {
    Blanks(m.before) && PiecesOk(m.name) && Blanks(m.after) && ElementOk(m.element)
  }

  ghost predicate MembersOk(ms: Members) {
    MemberOk(ms.first) && (ms.MoreMembers? ==> MembersOk(ms.rest))
  }

  ghost function PrintValue(v: Value): string {
    match v
    case Literal(word) => word.Print()
    case Numeric(number) => number.Print()
    case Text(pieces) => PrintString(pieces)
    case EmptyArray(blank) => ['['] + blank + [']']
    case Array(items) => ['['] + PrintItems(items) + [']']
    case EmptyObject(blank) => ['{'] + blank + ['}']
    case Object(members) => ['{'] + PrintMembers(members) + ['}']
  }

  ghost function PrintElement(e: Element): string {
    e.before + PrintValue(e.value) + e.after
  }

  ghost function PrintItems(items: Items): string {
    match items
    case LastItem(head) => PrintElement(head)
    case MoreItems(head, tail) => PrintElement(head) + [','] + PrintItems(tail)
  }

  ghost function PrintMember(m: Member): string {
    m.before + PrintString(m.name) + m.after + [':'] + PrintElement(m.element)
  }

  ghost function PrintMembers(ms: Members): string {
    match ms
    case LastMember(first) => PrintMember(first)
    case MoreMembers(first, rest) => PrintMember(first) + [','] + PrintMembers(rest)
  }

  /** What `json.Valid` decides: the text is the print of some tree. */
  ghost predicate IsJson(s: string) {
    exists e: Element :: ElementOk(e) && PrintElement(e) == s
  }

  // ---------- sizes

  /** How many values the tree holds, itself included. */
  ghost function Nodes(v: Value): (n: nat)
    ensures n >= 1
  {
    match v
    case Array(items) => 1 + NodesOfItems(items)
    case Object(members) => 1 + NodesOfMembers(members)
    case _ => 1
  }

  ghost function NodesOfItems(items: Items): (n: nat)
    ensures n >= 1
  {
    Nodes(items.head.value) + (if items.MoreItems? then NodesOfItems(items.tail) else 0)
  }

  ghost function NodesOfMembers(ms: Members): (n: nat)
    ensures n >= 1
  {
    Nodes(ms.first.element.value) + (if ms.MoreMembers? then NodesOfMembers(ms.rest) else 0)
  }

  /** How many members the objects of the tree hold together. */
  ghost function MemberCount(v: Value): nat {
    match v
    case Array(items) => MemberCountOfItems(items)
    case Object(members) => MemberCountOfMembers(members)
    case _ => 0
  }

  ghost function MemberCountOfItems(items: Items): nat {
    MemberCount(items.head.value) + (if items.MoreItems? then MemberCountOfItems(items.tail) else 0)
  }

  ghost function MemberCountOfMembers(ms: Members): nat {
    1 + MemberCount(ms.first.element.value) + (if ms.MoreMembers? then MemberCountOfMembers(ms.rest) else 0)
  }

  ghost function Max(a: nat, b: nat): nat {
    if a < b then b else a
  }

  /** How many containers enclose the most deeply nested value. */
  ghost function Height(v: Value): nat {
    match v
    case Array(items) => 1 + HeightOfItems(items)
    case Object(members) => 1 + HeightOfMembers(members)
    case _ => 0
  }

  ghost function HeightOfItems(items: Items): nat {
    if items.MoreItems? then Max(Height(items.head.value), HeightOfItems(items.tail)) else Height(items.head.value)
  }

  ghost function HeightOfMembers(ms: Members): nat {
    if ms.MoreMembers? then Max(Height(ms.first.element.value), HeightOfMembers(ms.rest)) else Height(ms.first.element.value)
  }

  /** The length of the UTF-8 encoding, which is Go's `len`. */
  function Utf8Length(s: string): nat {
    if s == "" then 0
    else (if s[0] < '\U{0080}' then 1 else if s[0] < '\U{0800}' then 2 else if s[0] < '\U{10000}' then 3 else 4)
         + Utf8Length(s[1..])
  }

  /** Every member name, decoded, is at most `bound` bytes long. */
  ghost predicate NamesWithin(v: Value, bound: nat) {
    match v
    case Array(items) => NamesWithinItems(items, bound)
    case Object(members) => NamesWithinMembers(members, bound)
    case _ => true
  }

  ghost predicate NamesWithinItems(items: Items, bound: nat) {
    NamesWithin(items.head.value, bound) && (items.MoreItems? ==> NamesWithinItems(items.tail, bound))
  }

  ghost predicate NamesWithinMembers(ms: Members, bound: nat) {
    && Utf8Length(Decode(ms.first.name)) <= bound
    && NamesWithin(ms.first.element.value, bound)
    && (ms.MoreMembers? ==> NamesWithinMembers(ms.rest, bound))
  }
}
