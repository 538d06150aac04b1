/** The strict decoder of the preparers: bounded, without empty keys and without keys that collide when lower-cased. */
module StrictDecoder {
  import opened Common
  import opened JsonTokens

  const MAX_DEPTH: nat := 32
  const MAX_MEMBERS: nat := 4096
  const MAX_ITEMS: nat := 2048

  /** A decoded value. */
  datatype Value = Scalar(atom: Scalar) | Sequence(items: seq<Value>) | Mapping(entries: map<string, Value>)

  const NIL: Value := Scalar(NullAtom)

  datatype Decoded = Decoded(value: Value, rest: seq<Token>)

  /** A decoded value that may be ambiguous. */
  datatype Judged = Judged(value: Value, ambiguous: bool, rest: seq<Token>)

  /** Whether null is admitted, and the lower-casing of keys, which is a parameter of the model. */
  datatype Policy = Policy(allowNull: bool, lower: string -> string)

  // ---------- the decoder on an arbitrary stream

  function Strict(s: seq<Token>, depth: nat, p: Policy): (r: Option<Decoded>)
    ensures r.Some? ==> |r.value.rest| < |s|
    decreases |s|, 0
  {
    if depth > MAX_DEPTH || s == [] then None
    else match s[0]
      case OpenObject => StrictFields(s[1..], depth, p, {}, 0, map[])
      case OpenArray => StrictItems(s[1..], depth, p, [])
      case Atom(atom) => if atom == NullAtom && !p.allowNull then None else Some(Decoded(Scalar(atom), s[1..]))
      case CloseObject => None
      case CloseArray => None
  }

  function StrictFields(s: seq<Token>, depth: nat, p: Policy, keys: set<string>, members: nat, entries: map<string, Value>)
    : (r: Option<Decoded>)
    ensures r.Some? ==> |r.value.rest| < |s|
    decreases |s|, 1
  {
    if s == [] || s[0] == CloseArray then None
    else if s[0] == CloseObject then Some(Decoded(Mapping(entries), s[1..]))
    else if !(s[0].Atom? && s[0].atom.StringAtom?) || s[0].atom.s == "" then None
    else
      var key := s[0].atom.s;
      if p.lower(key) in keys || members + 1 > MAX_MEMBERS then None
      else
        var value := Strict(s[1..], depth + 1, p);
        if value == None then None
        else StrictFields(value.value.rest, depth, p, keys + {p.lower(key)}, members + 1, entries[key := value.value.value])
  }

  function StrictItems(s: seq<Token>, depth: nat, p: Policy, done: seq<Value>): (r: Option<Decoded>)
    ensures r.Some? ==> |r.value.rest| < |s|
    decreases |s|, 1
  {
    if s == [] || s[0] == CloseObject then None
    else if s[0] == CloseArray then Some(Decoded(Sequence(done), s[1..]))
    else if |done| >= MAX_ITEMS then None
    else
      var value := Strict(s, depth + 1, p);
      if value == None then None else StrictItems(value.value.rest, depth, p, done + [value.value.value])
  }

  /** The whole input is one value. */
  function StrictDocument(s: seq<Token>, clean: bool, p: Policy): Option<Value> {
    var r := Strict(s, 0, p);
    if r == None || r.value.rest != [] || !clean then None else Some(r.value.value)
  }

  // ---------- documents

  ghost function Lowered(members: Fields, lower: string -> string): seq<string> {
    if members.NoFields? then [] else [lower(members.key)] + Lowered(members.rest, lower)
  }

  /** Every bound and every rule of the decoder, as a property of the document. */
  ghost predicate Admitted(t: Doc, depth: nat, p: Policy) {
    && depth <= 32
    && match t
       case Leaf(atom) => atom == NullAtom ==> p.allowNull
       case List(items) => Length(items) <= 2048 && ItemsAdmitted(items, depth + 1, p)
       case Dict(members) =>
         && Count(members) <= 4096
         && Distinct(Lowered(members, p.lower))
         && FieldsAdmitted(members, depth + 1, p)
  }

  ghost predicate ItemsAdmitted(items: Docs, depth: nat, p: Policy) {
    items.Docs? ==> Admitted(items.head, depth, p) && ItemsAdmitted(items.tail, depth, p)
  }

  ghost predicate FieldsAdmitted(members: Fields, depth: nat, p: Policy) {
    members.Fields? ==>
      members.key != "" && Admitted(members.value, depth, p) && FieldsAdmitted(members.rest, depth, p)
  }

  /** The value of a document; of members of the same name the last one counts. */
  ghost function Meaning(t: Doc): Value {
    match t
    case Leaf(atom) => Scalar(atom)
    case List(items) => Sequence(Meanings(items))
    case Dict(members) => Mapping(Entries(map[], members))
  }

  ghost function Meanings(items: Docs): seq<Value> {
    if items.NoDocs? then [] else [Meaning(items.head)] + Meanings(items.tail)
  }

  ghost function Entries(entries: map<string, Value>, members: Fields): map<string, Value>
    decreases members
  {
    if members.NoFields? then entries else Entries(entries[members.key := Meaning(members.value)], members.rest)
  }

  // ---------- the decoder is a filter on the grammar

  lemma {:induction false} StrictFilters(s: seq<Token>, depth: nat, p: Policy)
    ensures Strict(s, depth, p)
         == match Parse(s)
            case None => None
            case Some(d) => if Admitted(d.tree, depth, p) then Some(Decoded(Meaning(d.tree), d.rest)) else None
    decreases |s|, 0
  {
    if depth <= MAX_DEPTH && s != [] {
      match s[0]
      case OpenObject =>
        StrictFieldsFilter(s[1..], depth, p, {}, 0, map[]);
        var members := ParseFields(s[1..]);
        assert members.Some? ==> !Meets({}, Lowered(members.value.tree, p.lower));
      case OpenArray =>
        StrictItemsFilter(s[1..], depth, p, []);
        var items := ParseItems(s[1..]);
        assert items.Some? ==> [] + Meanings(items.value.tree) == Meanings(items.value.tree);
      case _ =>
    }
  }

  lemma {:induction false} StrictFieldsFilter(
      s: seq<Token>, depth: nat, p: Policy, keys: set<string>, members: nat, entries: map<string, Value>)
    requires members <= MAX_MEMBERS
    ensures StrictFields(s, depth, p, keys, members, entries)
         == match ParseFields(s)
            case None => None
            case Some(d) =>
              if && members + Count(d.tree) <= MAX_MEMBERS
                 && !Meets(keys, Lowered(d.tree, p.lower)) && Distinct(Lowered(d.tree, p.lower))
                 && FieldsAdmitted(d.tree, depth + 1, p)
              then Some(Decoded(Mapping(Entries(entries, d.tree)), d.rest)) else None
    decreases |s|, 1
  {
    hide Strict, Parse, Admitted, Meaning;
    if s == [] || !(s[0].Atom? && s[0].atom.StringAtom?) {
      return;
    }
    var key := s[0].atom.s;
    StrictFilters(s[1..], depth + 1, p);
    var value := Parse(s[1..]);
    if value.Some? {
      var rest := ParseFields(value.value.rest);
      if rest.Some? {
        MeetsTail(keys, p.lower(key), Lowered(rest.value.tree, p.lower));
        DistinctTail(p.lower(key), Lowered(rest.value.tree, p.lower));
      }
      if members + 1 <= MAX_MEMBERS {
        StrictFieldsFilter(value.value.rest, depth, p, keys + {p.lower(key)}, members + 1,
                           entries[key := Meaning(value.value.tree)]);
      }
    }
  }

  lemma {:induction false} StrictItemsFilter(s: seq<Token>, depth: nat, p: Policy, done: seq<Value>)
    requires |done| <= MAX_ITEMS
    ensures StrictItems(s, depth, p, done)
         == match ParseItems(s)
            case None => None
            case Some(d) =>
              if |done| + Length(d.tree) <= MAX_ITEMS && ItemsAdmitted(d.tree, depth + 1, p)
              then Some(Decoded(Sequence(done + Meanings(d.tree)), d.rest)) else None
    decreases |s|, 1
  {
    hide Strict, Parse, Admitted, Meaning;
    if s != [] && s[0] != CloseObject && s[0] != CloseArray && |done| < MAX_ITEMS {
      StrictFilters(s, depth + 1, p);
      var head := Parse(s);
      if head.Some? {
        var v := Meaning(head.value.tree);
        StrictItemsFilter(head.value.rest, depth, p, done + [v]);
        var tail := ParseItems(head.value.rest);
        if tail.Some? {
          assert (done + [v]) + Meanings(tail.value.tree) == done + ([v] + Meanings(tail.value.tree));
        }
      }
    } else if s != [] && s[0] == CloseArray {
      assert done + [] == done;
    }
  }

  /** The decoder accepts exactly the prints of admitted documents, and returns their value: decode undoes print. */
  lemma StrictIff(s: seq<Token>, clean: bool, p: Policy, v: Value)
    ensures StrictDocument(s, clean, p) == Some(v) <==>
            clean && exists t :: s == Tokens(t) && Admitted(t, 0, p) && v == Meaning(t)
  {
    StrictFilters(s, 0, p);
    if Parse(s).Some? && Parse(s).value.rest == [] {
      ParsePrints(s);
      assert s == Tokens(Parse(s).value.tree) + [] == Tokens(Parse(s).value.tree);
    }
    forall t | s == Tokens(t) ensures Parse(s) == Some(Parsed(t, [])) {
      assert s == Tokens(t) + [];
      ParseTokens(t, []);
    }
  }

  // ---------- the decoder itself

  /** The decoder's state and result after reading something whose specification is `r`. */
  ghost predicate Reads(decoder: Decoder, from: nat, r: Option<Decoded>, value: Option<Value>, open: seq<Token>)
    reads decoder
  {
    && decoder.Valid() && decoder.pos >= from
    && value.Some? == r.Some?
    && (value.Some? ==> value.value == r.value.value && decoder.Rest() == r.value.rest && decoder.open == open)
  }

  ghost predicate ReadsJudged(decoder: Decoder, from: nat, r: Option<Judged>, ok: bool, value: Value, ambiguous: bool, open: seq<Token>)
    reads decoder
  {
    && decoder.Valid() && decoder.pos >= from
    && ok == r.Some?
    && (ok ==> decoder.open == open && r == Some(Judged(value, ambiguous, decoder.Rest())))
  }

  method DecodeValue(decoder: Decoder, depth: nat, p: Policy) returns (value: Option<Value>)
    requires decoder.Valid()
    modifies decoder
    ensures Reads(decoder, old(decoder.pos), Strict(old(decoder.Rest()), depth, p), value, old(decoder.open))
    decreases |decoder.tokens| - decoder.pos, 0
  {
    if depth > MAX_DEPTH {
      return None;
    }
    var token := decoder.Next();
    if token == None {
      return None;
    }
    match token.value
    case OpenObject => value := DecodeObject(decoder, depth, p);
    case OpenArray => value := DecodeArray(decoder, depth, p);
    case Atom(atom) =>
      if atom == NullAtom && !p.allowNull {
        return None;
      }
      return Some(Scalar(atom));
    case CloseObject => return None;
    case CloseArray => return None;
  }

  method DecodeObject(decoder: Decoder, depth: nat, p: Policy) returns (value: Option<Value>)
    requires decoder.Valid() && decoder.open != [] && decoder.open[|decoder.open| - 1] == OpenObject
    modifies decoder
    ensures Reads(decoder, old(decoder.pos), StrictFields(old(decoder.Rest()), depth, p, {}, 0, map[]), value,
                  old(decoder.open)[..|old(decoder.open)| - 1])
    decreases |decoder.tokens| - decoder.pos, 1
  {
    hide Strict;
    var entries: map<string, Value>, keys: set<string>, members: nat := map[], {}, 0;
    ghost var goal := StrictFields(decoder.Rest(), depth, p, {}, 0, map[]);
    ghost var open := decoder.open;
    var more := decoder.More();
    while more
      invariant decoder.Valid() && decoder.pos >= old(decoder.pos) && decoder.open == open
      invariant goal == StrictFields(decoder.Rest(), depth, p, keys, members, entries)
      invariant more <==> decoder.Rest() != [] && decoder.Rest()[0] != CloseObject && decoder.Rest()[0] != CloseArray
      decreases |decoder.tokens| - decoder.pos
    {
      var token := decoder.Next();
      if token == None || !(token.value.Atom? && token.value.atom.StringAtom?) || token.value.atom.s == "" {
        return None;
      }
      var key := token.value.atom.s;
      var folded := p.lower(key);
      if folded in keys {
        return None;
      }
      keys := keys + {folded};
      members := members + 1;
      if members > MAX_MEMBERS {
        return None;
      }
      var item := DecodeValue(decoder, depth + 1, p);
      if item == None {
        return None;
      }
      entries := entries[key := item.value];
      more := decoder.More();
    }
    var close := decoder.Next();
    if close == None {
      return None;
    }
    return Some(Mapping(entries));
  }

  method DecodeArray(decoder: Decoder, depth: nat, p: Policy) returns (value: Option<Value>)
    requires decoder.Valid() && decoder.open != [] && decoder.open[|decoder.open| - 1] == OpenArray
    modifies decoder
    ensures Reads(decoder, old(decoder.pos), StrictItems(old(decoder.Rest()), depth, p, []), value,
                  old(decoder.open)[..|old(decoder.open)| - 1])
    decreases |decoder.tokens| - decoder.pos, 1
  {
    var done: seq<Value> := [];
    ghost var goal := StrictItems(decoder.Rest(), depth, p, []);
    ghost var open := decoder.open;
    var more := decoder.More();
    while more
      invariant decoder.Valid() && decoder.pos >= old(decoder.pos) && decoder.open == open
      invariant goal == StrictItems(decoder.Rest(), depth, p, done)
      invariant more <==> decoder.Rest() != [] && decoder.Rest()[0] != CloseObject && decoder.Rest()[0] != CloseArray
      decreases |decoder.tokens| - decoder.pos
    {
      if |done| >= MAX_ITEMS {
        return None;
      }
      var item := DecodeValue(decoder, depth + 1, p);
      if item == None {
        return None;
      }
      done := done + [item.value];
      more := decoder.More();
    }
    var close := decoder.Next();
    if close == None {
      return None;
    }
    return Some(Sequence(done));
  }

  method DecodeStrict(tokens: seq<Token>, clean: bool, p: Policy) returns (value: Option<Value>)
    ensures value == StrictDocument(tokens, clean, p)
  {
    var decoder := new Decoder(tokens, clean);
    assert tokens[0..] == tokens;
    value := DecodeValue(decoder, 0, p);
    if value.Some? && !(decoder.pos == |decoder.tokens| && decoder.clean) {
      return None;
    }
  }
}
