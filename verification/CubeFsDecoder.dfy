/** The CubeFS decoder: the bounds of the strict one, but colliding keys make the result ambiguous instead of invalid. */
module CubeFsDecoder {
  import opened Common
  import opened JsonTokens
  import opened StrictDecoder

  // ---------- the decoder on an arbitrary stream

  function Cube(s: seq<Token>, depth: nat, lower: string -> string): (r: Option<Judged>)
    ensures r.Some? ==> |r.value.rest| < |s|
    decreases |s|, 0
  {
    if depth > MAX_DEPTH || s == [] then None
    else match s[0]
      case OpenObject => CubeFields(s[1..], depth, lower, {}, 0, map[], false)
      case OpenArray => CubeItems(s[1..], depth, lower, [], false)
      case Atom(atom) => Some(Judged(Scalar(atom), false, s[1..]))
      case CloseObject => None
      case CloseArray => None
  }

  function CubeFields(
      s: seq<Token>, depth: nat, lower: string -> string, keys: set<string>, members: nat,
      entries: map<string, Value>, ambiguous: bool): (r: Option<Judged>)
    ensures r.Some? ==> |r.value.rest| < |s|
    decreases |s|, 1
  {
    if s == [] || s[0] == CloseArray then None
    else if s[0] == CloseObject then Some(Judged(Mapping(entries), ambiguous, s[1..]))
    else if members >= MAX_MEMBERS || !(s[0].Atom? && s[0].atom.StringAtom?) || s[0].atom.s == "" then None
    else
      var key := s[0].atom.s;
      var item := Cube(s[1..], depth + 1, lower);
      if item == None then None
      else
        CubeFields(item.value.rest, depth, lower, keys + {lower(key)}, members + 1,
                   if key in entries then entries else entries[key := item.value.value],
                   ambiguous || lower(key) in keys || item.value.ambiguous)
  }

  function CubeItems(s: seq<Token>, depth: nat, lower: string -> string, done: seq<Value>, ambiguous: bool): (r: Option<Judged>)
    ensures r.Some? ==> |r.value.rest| < |s|
    decreases |s|, 1
  {
    if s == [] || s[0] == CloseObject then None
    else if s[0] == CloseArray then Some(Judged(Sequence(done), ambiguous, s[1..]))
    else if |done| >= MAX_ITEMS then None
    else
      var item := Cube(s, depth + 1, lower);
      if item == None then None
      else CubeItems(item.value.rest, depth, lower, done + [item.value.value], ambiguous || item.value.ambiguous)
  }

  /** The whole input is one value: the value and whether it is ambiguous. */
  function CubeDocument(s: seq<Token>, clean: bool, lower: string -> string): Option<(Value, bool)> {
    var r := Cube(s, 0, lower);
    if r == None || r.value.rest != [] || !clean then None else Some((r.value.value, r.value.ambiguous))
  }

  // ---------- documents

  /** The bounds alone. */
  ghost predicate Bounded(t: Doc, depth: nat) {
    && depth <= 32
    && match t
       case Leaf(_) => true
       case List(items) => Length(items) <= 2048 && ItemsBounded(items, depth + 1)
       case Dict(members) => Count(members) <= 4096 && FieldsBounded(members, depth + 1)
  }

  ghost predicate ItemsBounded(items: Docs, depth: nat) {
    items.Docs? ==> Bounded(items.head, depth) && ItemsBounded(items.tail, depth)
  }

  ghost predicate FieldsBounded(members: Fields, depth: nat) {
    members.Fields? ==> members.key != "" && Bounded(members.value, depth) && FieldsBounded(members.rest, depth)
  }

  /** Somewhere in the document, two keys of one object collide when lower-cased. */
  ghost predicate Collides(t: Doc, lower: string -> string) {
    match t
    case Leaf(_) => false
    case List(items) => ItemsCollide(items, lower)
    case Dict(members) => !Distinct(Lowered(members, lower)) || FieldsCollide(members, lower)
  }

  ghost predicate ItemsCollide(items: Docs, lower: string -> string) {
    items.Docs? && (Collides(items.head, lower) || ItemsCollide(items.tail, lower))
  }

  ghost predicate FieldsCollide(members: Fields, lower: string -> string) {
    members.Fields? && (Collides(members.value, lower) || FieldsCollide(members.rest, lower))
  }

  /** The value of a document; of members of the same name the first one counts. */
  ghost function FirstMeaning(t: Doc): Value {
    match t
    case Leaf(atom) => Scalar(atom)
    case List(items) => Sequence(FirstMeanings(items))
    case Dict(members) => Mapping(FirstEntries(map[], members))
  }

  ghost function FirstMeanings(items: Docs): seq<Value> {
    if items.NoDocs? then [] else [FirstMeaning(items.head)] + FirstMeanings(items.tail)
  }

  ghost function FirstEntries(entries: map<string, Value>, members: Fields): map<string, Value>
    decreases members
  {
    if members.NoFields? then entries
    else FirstEntries(if members.key in entries then entries else entries[members.key := FirstMeaning(members.value)],
                      members.rest)
  }

  // ---------- the decoder is a filter on the grammar

  lemma {:induction false} CubeFilters(s: seq<Token>, depth: nat, lower: string -> string)
    ensures Cube(s, depth, lower)
         == match Parse(s)
            case None => None
            case Some(d) =>
              if Bounded(d.tree, depth) then Some(Judged(FirstMeaning(d.tree), Collides(d.tree, lower), d.rest)) else None
    decreases |s|, 0
  {
    if depth <= MAX_DEPTH && s != [] {
      match s[0]
      case OpenObject =>
        CubeFieldsFilter(s[1..], depth, lower, {}, 0, map[], false);
        var members := ParseFields(s[1..]);
        assert members.Some? ==> !Meets({}, Lowered(members.value.tree, lower));
      case OpenArray =>
        CubeItemsFilter(s[1..], depth, lower, [], false);
        var items := ParseItems(s[1..]);
        assert items.Some? ==> [] + FirstMeanings(items.value.tree) == FirstMeanings(items.value.tree);
      case _ =>
    }
  }

  ghost predicate FieldsClash(members: Fields, keys: set<string>, lower: string -> string) {
    Meets(keys, Lowered(members, lower)) || !Distinct(Lowered(members, lower)) || FieldsCollide(members, lower)
  }

  lemma ClashTail(members: Fields, keys: set<string>, lower: string -> string)
    requires members.Fields?
    ensures FieldsClash(members, keys, lower) <==>
            lower(members.key) in keys || Collides(members.value, lower)
            || FieldsClash(members.rest, keys + {lower(members.key)}, lower)
  {
    MeetsTail(keys, lower(members.key), Lowered(members.rest, lower));
    DistinctTail(lower(members.key), Lowered(members.rest, lower));
  }

  lemma NoClash(keys: set<string>, lower: string -> string)
    ensures !FieldsClash(NoFields, keys, lower)
  {
  }

  lemma {:induction false} CubeFieldsFilter(
      s: seq<Token>, depth: nat, lower: string -> string, keys: set<string>, members: nat,
      entries: map<string, Value>, ambiguous: bool)
    requires members <= MAX_MEMBERS
    ensures CubeFields(s, depth, lower, keys, members, entries, ambiguous)
         == match ParseFields(s)
            case None => None
            case Some(d) =>
              if members + Count(d.tree) <= MAX_MEMBERS && FieldsBounded(d.tree, depth + 1)
              then Some(Judged(Mapping(FirstEntries(entries, d.tree)), ambiguous || FieldsClash(d.tree, keys, lower), d.rest))
              else None
    decreases |s|, 1
  {
    hide Cube, Parse, Bounded, FirstMeaning, Collides, FieldsClash;
    if s == [] || !(s[0].Atom? && s[0].atom.StringAtom?) {
      assert s != [] && s[0] == CloseObject ==> !FieldsClash(NoFields, keys, lower) by { NoClash(keys, lower); }
      return;
    }
    var key := s[0].atom.s;
    CubeFilters(s[1..], depth + 1, lower);
    var value := Parse(s[1..]);
    if value.Some? {
      var v := FirstMeaning(value.value.tree);
      var rest := ParseFields(value.value.rest);
      if rest.Some? {
        ClashTail(Fields(key, value.value.tree, rest.value.tree), keys, lower);
      }
      if members < MAX_MEMBERS {
        CubeFieldsFilter(value.value.rest, depth, lower, keys + {lower(key)}, members + 1,
                         if key in entries then entries else entries[key := v],
                         ambiguous || lower(key) in keys || Collides(value.value.tree, lower));
      }
    }
  }

  lemma {:induction false} CubeItemsFilter(s: seq<Token>, depth: nat, lower: string -> string, done: seq<Value>, ambiguous: bool)
    requires |done| <= MAX_ITEMS
    ensures CubeItems(s, depth, lower, done, ambiguous)
         == match ParseItems(s)
            case None => None
            case Some(d) =>
              if |done| + Length(d.tree) <= MAX_ITEMS && ItemsBounded(d.tree, depth + 1)
              then Some(Judged(Sequence(done + FirstMeanings(d.tree)), ambiguous || ItemsCollide(d.tree, lower), d.rest))
              else None
    decreases |s|, 1
  {
    hide Cube, Parse, Bounded, FirstMeaning, Collides;
    if s != [] && s[0] != CloseObject && s[0] != CloseArray && |done| < MAX_ITEMS {
      CubeFilters(s, depth + 1, lower);
      var head := Parse(s);
      if head.Some? {
        var v := FirstMeaning(head.value.tree);
        CubeItemsFilter(head.value.rest, depth, lower, done + [v], ambiguous || Collides(head.value.tree, lower));
        var tail := ParseItems(head.value.rest);
        if tail.Some? {
          assert (done + [v]) + FirstMeanings(tail.value.tree) == done + ([v] + FirstMeanings(tail.value.tree));
        }
      }
    } else if s != [] && s[0] == CloseArray {
      assert done + [] == done;
    }
  }

  // ---------- against the strict decoder

  lemma {:induction false} AdmittedIff(t: Doc, depth: nat, lower: string -> string)
    ensures Admitted(t, depth, Policy(true, lower)) <==> Bounded(t, depth) && !Collides(t, lower)
    decreases t
  {
    match t
    case Leaf(_) =>
    case List(items) => ItemsAdmittedIff(items, depth + 1, lower);
    case Dict(members) => FieldsAdmittedIff(members, depth + 1, lower);
  }

  lemma {:induction false} ItemsAdmittedIff(items: Docs, depth: nat, lower: string -> string)
    ensures ItemsAdmitted(items, depth, Policy(true, lower)) <==> ItemsBounded(items, depth) && !ItemsCollide(items, lower)
    decreases items
  {
    if items.Docs? {
      AdmittedIff(items.head, depth, lower);
      ItemsAdmittedIff(items.tail, depth, lower);
    }
  }

  lemma {:induction false} FieldsAdmittedIff(members: Fields, depth: nat, lower: string -> string)
    ensures FieldsAdmitted(members, depth, Policy(true, lower)) <==>
            FieldsBounded(members, depth) && !FieldsCollide(members, lower)
    decreases members
  {
    if members.Fields? {
      AdmittedIff(members.value, depth, lower);
      FieldsAdmittedIff(members.rest, depth, lower);
    }
  }

  /** Without a collision it does not matter which of equal keys counts: there are none. */
  lemma {:induction false} SameMeaning(t: Doc, lower: string -> string)
    requires !Collides(t, lower)
    ensures FirstMeaning(t) == Meaning(t)
    decreases t
  {
    match t
    case Leaf(_) =>
    case List(items) => SameMeanings(items, lower);
    case Dict(members) =>
      assert !Meets({}, Lowered(members, lower));
      SameEntries(members, lower, map[], {});
  }

  lemma {:induction false} SameMeanings(items: Docs, lower: string -> string)
    requires !ItemsCollide(items, lower)
    ensures FirstMeanings(items) == Meanings(items)
    decreases items
  {
    if items.Docs? {
      SameMeaning(items.head, lower);
      SameMeanings(items.tail, lower);
    }
  }

  lemma {:induction false} SameEntries(members: Fields, lower: string -> string, entries: map<string, Value>, keys: set<string>)
    requires !FieldsClash(members, keys, lower)
    requires forall k :: k in entries ==> lower(k) in keys
    ensures FirstEntries(entries, members) == Entries(entries, members)
    decreases members
  {
    if members.Fields? {
      ClashTail(members, keys, lower);
      SameMeaning(members.value, lower);
      SameEntries(members.rest, lower, entries[members.key := Meaning(members.value)], keys + {lower(members.key)});
    }
  }

  /**
    An unambiguous result is exactly a result of the strict decoder with nulls
    allowed; an ambiguous one means exactly that collisions of lower-cased keys
    are the only defect of the document.
    */
  lemma RefinesStrict(s: seq<Token>, clean: bool, lower: string -> string, v: Value)
    ensures CubeDocument(s, clean, lower) == Some((v, false)) <==> StrictDocument(s, clean, Policy(true, lower)) == Some(v)
    ensures CubeDocument(s, clean, lower) == Some((v, true)) <==>
            clean && exists t :: s == Tokens(t) && Bounded(t, 0) && Collides(t, lower) && v == FirstMeaning(t)
  {
    CubeFilters(s, 0, lower);
    StrictFilters(s, 0, Policy(true, lower));
    if Parse(s).Some? {
      var t := Parse(s).value.tree;
      AdmittedIff(t, 0, lower);
      if !Collides(t, lower) {
        SameMeaning(t, lower);
      }
      if Parse(s).value.rest == [] {
        ParsePrints(s);
        assert s == Tokens(t) + [] == Tokens(t);
      }
    }
    forall t | s == Tokens(t) ensures Parse(s) == Some(Parsed(t, [])) {
      assert s == Tokens(t) + [];
      ParseTokens(t, []);
    }
  }

  // ---------- the decoder itself

  method DecodeCubeFSValue(decoder: Decoder, depth: nat, lower: string -> string)
    returns (ok: bool, value: Value, ambiguous: bool)
    requires decoder.Valid()
    modifies decoder
    ensures ReadsJudged(decoder, old(decoder.pos), Cube(old(decoder.Rest()), depth, lower), ok, value, ambiguous, old(decoder.open))
    decreases |decoder.tokens| - decoder.pos, 0
  {
    if depth > MAX_DEPTH {
      return false, NIL, false;
    }
    var token := decoder.Next();
    if token == None {
      return false, NIL, false;
    }
    match token.value
    case OpenObject => ok, value, ambiguous := DecodeObject(decoder, depth, lower);
    case OpenArray => ok, value, ambiguous := DecodeArray(decoder, depth, lower);
    case Atom(atom) => return true, Scalar(atom), false;
    case CloseObject => return false, NIL, false;
    case CloseArray => return false, NIL, false;
  }

  /** The cases of the loop over the members of an object. */
  lemma CubeFieldStep(
      s: seq<Token>, depth: nat, lower: string -> string, keys: set<string>, members: nat,
      entries: map<string, Value>, ambiguous: bool)
    ensures var all := CubeFields(s, depth, lower, keys, members, entries, ambiguous);
            if s == [] || s[0] == CloseArray then all == None
            else if s[0] == CloseObject then all == Some(Judged(Mapping(entries), ambiguous, s[1..]))
            else if members >= MAX_MEMBERS || !(s[0].Atom? && s[0].atom.StringAtom?) || s[0].atom.s == "" then all == None
            else
              var key := s[0].atom.s;
              var item := Cube(s[1..], depth + 1, lower);
              if item == None then all == None
              else all == CubeFields(item.value.rest, depth, lower, keys + {lower(key)}, members + 1,
                                     if key in entries then entries else entries[key := item.value.value],
                                     ambiguous || lower(key) in keys || item.value.ambiguous)
  {
    hide Cube;
  }

  method DecodeObject(decoder: Decoder, depth: nat, lower: string -> string)
    returns (ok: bool, value: Value, ambiguous: bool)
    requires decoder.Valid() && decoder.open != [] && decoder.open[|decoder.open| - 1] == OpenObject
    modifies decoder
    ensures ReadsJudged(decoder, old(decoder.pos), CubeFields(old(decoder.Rest()), depth, lower, {}, 0, map[], false),
                  ok, value, ambiguous, old(decoder.open)[..|old(decoder.open)| - 1])
    decreases |decoder.tokens| - decoder.pos, 1
  {
    hide Cube, CubeFields;
    var entries: map<string, Value>, keys: set<string>, members: nat := map[], {}, 0;
    ambiguous := false;
    ghost var goal := CubeFields(decoder.Rest(), depth, lower, {}, 0, map[], false);
    ghost var open := decoder.open;
    var more := decoder.More();
    while more
      invariant decoder.Valid() && decoder.pos >= old(decoder.pos) && decoder.open == open
      invariant goal == CubeFields(decoder.Rest(), depth, lower, keys, members, entries, ambiguous)
      invariant more <==> decoder.Rest() != [] && decoder.Rest()[0] != CloseObject && decoder.Rest()[0] != CloseArray
      decreases |decoder.tokens| - decoder.pos
    {
      CubeFieldStep(decoder.Rest(), depth, lower, keys, members, entries, ambiguous);
      if members >= MAX_MEMBERS {
        return false, NIL, false;
      }
      var token := decoder.Next();
      if token == None || !(token.value.Atom? && token.value.atom.StringAtom?) || token.value.atom.s == "" {
        return false, NIL, false;
      }
      var key := token.value.atom.s;
      var folded := lower(key);
      if folded in keys {
        ambiguous := true;
      }
      keys := keys + {folded};
      var itemOk, item, itemAmbiguous := DecodeCubeFSValue(decoder, depth + 1, lower);
      if !itemOk {
        return false, NIL, false;
      }
      ambiguous := ambiguous || itemAmbiguous;
      if key !in entries {
        entries := entries[key := item];
      }
      members := members + 1;
      more := decoder.More();
    }
    CubeFieldStep(decoder.Rest(), depth, lower, keys, members, entries, ambiguous);
    var close := decoder.Next();
    if close == None {
      return false, NIL, false;
    }
    return true, Mapping(entries), ambiguous;
  }

  method DecodeArray(decoder: Decoder, depth: nat, lower: string -> string)
    returns (ok: bool, value: Value, ambiguous: bool)
    requires decoder.Valid() && decoder.open != [] && decoder.open[|decoder.open| - 1] == OpenArray
    modifies decoder
    ensures ReadsJudged(decoder, old(decoder.pos), CubeItems(old(decoder.Rest()), depth, lower, [], false),
                  ok, value, ambiguous, old(decoder.open)[..|old(decoder.open)| - 1])
    decreases |decoder.tokens| - decoder.pos, 1
  {
    var done: seq<Value> := [];
    ambiguous := false;
    ghost var goal := CubeItems(decoder.Rest(), depth, lower, [], false);
    ghost var open := decoder.open;
    var more := decoder.More();
    while more
      invariant decoder.Valid() && decoder.pos >= old(decoder.pos) && decoder.open == open
      invariant goal == CubeItems(decoder.Rest(), depth, lower, done, ambiguous)
      invariant more <==> decoder.Rest() != [] && decoder.Rest()[0] != CloseObject && decoder.Rest()[0] != CloseArray
      decreases |decoder.tokens| - decoder.pos
    {
      if |done| >= MAX_ITEMS {
        return false, NIL, false;
      }
      var itemOk, item, itemAmbiguous := DecodeCubeFSValue(decoder, depth + 1, lower);
      if !itemOk {
        return false, NIL, false;
      }
      done := done + [item];
      ambiguous := ambiguous || itemAmbiguous;
      more := decoder.More();
    }
    var close := decoder.Next();
    if close == None {
      return false, NIL, false;
    }
    return true, Sequence(done), ambiguous;
  }

  method DecodeCubeFSJSON(tokens: seq<Token>, clean: bool, lower: string -> string) returns (result: Option<(Value, bool)>)
    ensures result == CubeDocument(tokens, clean, lower)
  {
    var decoder := new Decoder(tokens, clean);
    assert tokens[0..] == tokens;
    var ok, value, ambiguous := DecodeCubeFSValue(decoder, 0, lower);
    if !ok || !(decoder.pos == |decoder.tokens| && decoder.clean) {
      return None;
    }
    return Some((value, ambiguous));
  }
}
