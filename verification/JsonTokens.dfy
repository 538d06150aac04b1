/**
  `json.Decoder` as a stream of tokens, the documents behind such streams, and
  the grammar that relates the two. A document keeps repeated members.
  */
module JsonTokens {
  import opened Common

  datatype Token = OpenObject | CloseObject | OpenArray | CloseArray | Atom(atom: Scalar)

  datatype Scalar = NullAtom | BoolAtom(b: bool) | NumberAtom(lexeme: string) | StringAtom(s: string)

  datatype Doc = Leaf(atom: Scalar) | List(items: Docs) | Dict(members: Fields)

  datatype Docs = NoDocs | Docs(head: Doc, tail: Docs)

  datatype Fields = NoFields | Fields(key: string, value: Doc, rest: Fields)

  // ---------- printing

  ghost function Tokens(t: Doc): (s: seq<Token>)
    ensures s != []
  {
    match t
    case Leaf(atom) => [Atom(atom)]
    case List(items) => [OpenArray] + ItemTokens(items)
    case Dict(members) => [OpenObject] + FieldTokens(members)
  }

  /** The tokens of the items and the closing bracket. */
  ghost function ItemTokens(items: Docs): (s: seq<Token>)
    ensures s != []
  {
    match items
    case NoDocs => [CloseArray]
    case Docs(head, tail) => Tokens(head) + ItemTokens(tail)
  }

  ghost function FieldTokens(members: Fields): (s: seq<Token>)
    ensures s != []
  {
    match members
    case NoFields => [CloseObject]
    case Fields(key, value, rest) => [Atom(StringAtom(key))] + Tokens(value) + FieldTokens(rest)
  }

  // ---------- parsing

  datatype Parsed<+T> = Parsed(tree: T, rest: seq<Token>)

  function Parse(s: seq<Token>): (r: Option<Parsed<Doc>>)
    ensures r.Some? ==> |r.value.rest| < |s|
    decreases |s|, 0
  {
    if s == [] then None
    else match s[0]
      case Atom(atom) => Some(Parsed(Leaf(atom), s[1..]))
      case OpenArray =>
        var items := ParseItems(s[1..]);
        if items == None then None else Some(Parsed(List(items.value.tree), items.value.rest))
      case OpenObject =>
        var members := ParseFields(s[1..]);
        if members == None then None else Some(Parsed(Dict(members.value.tree), members.value.rest))
      case CloseArray => None
      case CloseObject => None
  }

  function ParseItems(s: seq<Token>): (r: Option<Parsed<Docs>>)
    ensures r.Some? ==> |r.value.rest| < |s|
    decreases |s|, 1
  {
    if s == [] || s[0] == CloseObject then None
    else if s[0] == CloseArray then Some(Parsed(NoDocs, s[1..]))
    else
      var head := Parse(s);
      if head == None then None
      else
        var tail := ParseItems(head.value.rest);
        if tail == None then None else Some(Parsed(Docs(head.value.tree, tail.value.tree), tail.value.rest))
  }

  function ParseFields(s: seq<Token>): (r: Option<Parsed<Fields>>)
    ensures r.Some? ==> |r.value.rest| < |s|
    decreases |s|, 1
  {
    if s == [] || s[0] == CloseArray then None
    else if s[0] == CloseObject then Some(Parsed(NoFields, s[1..]))
    else if !(s[0].Atom? && s[0].atom.StringAtom?) then None
    else
      var value := Parse(s[1..]);
      if value == None then None
      else
        var rest := ParseFields(value.value.rest);
        if rest == None then None
        else Some(Parsed(Fields(s[0].atom.s, value.value.tree, rest.value.tree), rest.value.rest))
  }

  lemma {:induction false} ParseTokens(t: Doc, rest: seq<Token>)
    ensures Parse(Tokens(t) + rest) == Some(Parsed(t, rest))
    decreases t
  {
    var s := Tokens(t) + rest;
    match t
    case Leaf(_) => assert s[1..] == rest;
    case List(items) =>
      assert s[1..] == ItemTokens(items) + rest;
      ParseItemTokens(items, rest);
    case Dict(members) =>
      assert s[1..] == FieldTokens(members) + rest;
      ParseFieldTokens(members, rest);
  }

  lemma {:induction false} ParseItemTokens(items: Docs, rest: seq<Token>)
    ensures ParseItems(ItemTokens(items) + rest) == Some(Parsed(items, rest))
    decreases items
  {
    var s := ItemTokens(items) + rest;
    match items
    case NoDocs => assert s[1..] == rest;
    case Docs(head, tail) =>
      assert s == Tokens(head) + (ItemTokens(tail) + rest);
      assert s[0] == Tokens(head)[0];
      ParseTokens(head, ItemTokens(tail) + rest);
      ParseItemTokens(tail, rest);
  }

  lemma {:induction false} ParseFieldTokens(members: Fields, rest: seq<Token>)
    ensures ParseFields(FieldTokens(members) + rest) == Some(Parsed(members, rest))
    decreases members
  {
    var s := FieldTokens(members) + rest;
    match members
    case NoFields => assert s[1..] == rest;
    case Fields(key, value, more) =>
      assert s[1..] == Tokens(value) + (FieldTokens(more) + rest);
      ParseTokens(value, FieldTokens(more) + rest);
      ParseFieldTokens(more, rest);
  }

  lemma {:induction false} ParsePrints(s: seq<Token>)
    requires Parse(s).Some?
    ensures s == Tokens(Parse(s).value.tree) + Parse(s).value.rest
    decreases |s|, 0
  {
    assert s == [s[0]] + s[1..];
    match s[0]
    case OpenArray => ParseItemsPrints(s[1..]);
    case OpenObject => ParseFieldsPrints(s[1..]);
    case _ =>
  }

  lemma {:induction false} ParseItemsPrints(s: seq<Token>)
    requires ParseItems(s).Some?
    ensures s == ItemTokens(ParseItems(s).value.tree) + ParseItems(s).value.rest
    decreases |s|, 1
  {
    assert s == [s[0]] + s[1..];
    if s[0] != CloseArray {
      ParsePrints(s);
      ParseItemsPrints(Parse(s).value.rest);
    }
  }

  lemma {:induction false} ParseFieldsPrints(s: seq<Token>)
    requires ParseFields(s).Some?
    ensures s == FieldTokens(ParseFields(s).value.tree) + ParseFields(s).value.rest
    decreases |s|, 1
  {
    assert s == [s[0]] + s[1..];
    if s[0] != CloseObject {
      ParsePrints(s[1..]);
      ParseFieldsPrints(Parse(s[1..]).value.rest);
    }
  }

  /** Parsing undoes printing, and only prints parse. */
  lemma ParseIff(s: seq<Token>, t: Doc, rest: seq<Token>)
    ensures Parse(s) == Some(Parsed(t, rest)) <==> s == Tokens(t) + rest
  {
    ParseTokens(t, rest);
    if Parse(s).Some? {
      ParsePrints(s);
    }
  }

  // ---------- sizes and keys

  ghost function Length(items: Docs): nat {
    if items.NoDocs? then 0 else 1 + Length(items.tail)
  }

  ghost function Count(members: Fields): nat {
    if members.NoFields? then 0 else 1 + Count(members.rest)
  }

  ghost function Keys(members: Fields): seq<string> {
    if members.NoFields? then [] else [members.key] + Keys(members.rest)
  }

  /** The object has a member of that key and value. */
  ghost predicate Has(members: Fields, key: string, value: Doc) {
    members.Fields? && ((members.key == key && members.value == value) || Has(members.rest, key, value))
  }

  // ---------- the decoder object

  /** `clean` says that the input ends after the last token instead of going on with something ungrammatical. */
  class Decoder {
    const tokens: seq<Token>
    const clean: bool
    var pos: nat
    /** The open containers, the innermost last. */
    var open: seq<Token>

    ghost predicate Valid()
      reads this
    {
      pos <= |tokens|
    }

    ghost function Rest(): seq<Token>
      reads this
      requires Valid()
    {
      tokens[pos..]
    }

    constructor (tokens: seq<Token>, clean: bool)
      ensures Valid() && pos == 0 && open == [] && this.tokens == tokens && this.clean == clean
    {
      this.tokens, this.clean, this.pos, this.open := tokens, clean, 0, [];
    }

    method More() returns (more: bool)
      requires Valid()
      ensures more <==> Rest() != [] && Rest()[0] != CloseObject && Rest()[0] != CloseArray
    {
      more := pos < |tokens| && tokens[pos] != CloseObject && tokens[pos] != CloseArray;
    }

    /** The next token; an error at the end and at a bracket that does not close the innermost container. */
    method Next() returns (token: Option<Token>)
      requires Valid()
      modifies this
      ensures Valid() && pos >= old(pos)
      ensures token.Some? ==> old(Rest()) != [] && token.value == old(Rest())[0] && Rest() == old(Rest())[1..]
      ensures token.Some? && token.value.Atom? ==> open == old(open)
      ensures token.Some? && (token.value == OpenObject || token.value == OpenArray) ==> open == old(open) + [token.value]
      ensures token.Some? && (token.value == CloseObject || token.value == CloseArray) ==>
                old(open) != [] && open == old(open)[..|old(open)| - 1]
                && old(open)[|old(open)| - 1] == (if token.value == CloseObject then OpenObject else OpenArray)
      ensures token == None ==>
                || old(Rest()) == []
                || (&& (old(Rest())[0] == CloseObject || old(Rest())[0] == CloseArray)
                    && (old(open) == [] || old(open)[|old(open)| - 1]
                                           != if old(Rest())[0] == CloseObject then OpenObject else OpenArray))
    {
      if pos >= |tokens| {
        return None;
      }
      var t := tokens[pos];
      if t == OpenObject || t == OpenArray {
        open := open + [t];
      } else if t == CloseObject || t == CloseArray {
        if open == [] || open[|open| - 1] != (if t == CloseObject then OpenObject else OpenArray) {
          return None;
        }
        open := open[..|open| - 1];
      }
      DropDrop(tokens, pos, 1);
      pos := pos + 1;
      return Some(t);
    }
  }
}
