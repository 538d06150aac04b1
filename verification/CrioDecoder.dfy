/** The CRI-O request decoder, which objects only to unclear `image` keys, and the reference it yields. */
module CrioDecoder {
  import opened Common
  import opened JsonTokens
  import opened StrictDecoder
  import opened CubeFsDecoder

  const IMAGE := "image"

  /** `strings.EqualFold(key, "image")`, with the case folding as a parameter. */
  predicate IsImage(key: string, fold: string -> string) {
    fold(key) == fold(IMAGE)
  }

  // ---------- the decoder on an arbitrary stream

  function Crio(s: seq<Token>, depth: nat, inRootImage: bool, fold: string -> string): (r: Option<Judged>)
    ensures r.Some? ==> |r.value.rest| < |s|
    decreases |s|, 0
  {
    if depth > MAX_DEPTH || s == [] then None
    else match s[0]
      case OpenObject => CrioFields(s[1..], depth, inRootImage, fold, 0, false, map[], false)
      case OpenArray => CrioItems(s[1..], depth, fold, [], false)
      case Atom(atom) => Some(Judged(Scalar(atom), false, s[1..]))
      case CloseObject => None
      case CloseArray => None
  }

  function CrioFields(
      s: seq<Token>, depth: nat, inRootImage: bool, fold: string -> string, members: nat,
      seenRelevant: bool, entries: map<string, Value>, ambiguous: bool): (r: Option<Judged>)
    ensures r.Some? ==> |r.value.rest| < |s|
    decreases |s|, 1
  {
    if s == [] || s[0] == CloseArray then None
    else if s[0] == CloseObject then Some(Judged(Mapping(entries), ambiguous, s[1..]))
    else if members >= MAX_MEMBERS || !(s[0].Atom? && s[0].atom.StringAtom?) then None
    else
      var key := s[0].atom.s;
      var relevant := (depth == 0 || inRootImage) && IsImage(key, fold);
      var item := Crio(s[1..], depth + 1, depth == 0 && key == IMAGE, fold);
      if item == None then None
      else
        CrioFields(item.value.rest, depth, inRootImage, fold, members + 1, seenRelevant || relevant,
                   if key in entries then entries else entries[key := item.value.value],
                   ambiguous || (relevant && (seenRelevant || key != IMAGE)) || item.value.ambiguous)
  }

  function CrioItems(s: seq<Token>, depth: nat, fold: string -> string, done: seq<Value>, ambiguous: bool): (r: Option<Judged>)
    ensures r.Some? ==> |r.value.rest| < |s|
    decreases |s|, 1
  {
    if s == [] || s[0] == CloseObject then None
    else if s[0] == CloseArray then Some(Judged(Sequence(done), ambiguous, s[1..]))
    else if |done| >= MAX_ITEMS then None
    else
      var item := Crio(s, depth + 1, false, fold);
      if item == None then None
      else CrioItems(item.value.rest, depth, fold, done + [item.value.value], ambiguous || item.value.ambiguous)
  }

  /** The root object, if the root is one, and whether it is ambiguous. */
  datatype Request = Request(root: Option<map<string, Value>>, ambiguous: bool)

  function CrioRequest(s: seq<Token>, clean: bool, fold: string -> string): Option<Request> {
    var r := Crio(s, 0, false, fold);
    if r == None || r.value.rest != [] || !clean then None
    else if !r.value.value.Mapping? then Some(Request(None, false))
    else Some(Request(Some(r.value.value.entries), r.value.ambiguous))
  }

  // ---------- documents

  ghost predicate CrioBounded(t: Doc, depth: nat) {
    && depth <= 32
    && match t
       case Leaf(_) => true
       case List(items) => Length(items) <= 2048 && CrioItemsBounded(items, depth + 1)
       case Dict(members) => Count(members) <= 4096 && CrioFieldsBounded(members, depth + 1)
  }

  ghost predicate CrioItemsBounded(items: Docs, depth: nat) {
    items.Docs? ==> CrioBounded(items.head, depth) && CrioItemsBounded(items.tail, depth)
  }

  ghost predicate CrioFieldsBounded(members: Fields, depth: nat) {
    members.Fields? ==> CrioBounded(members.value, depth) && CrioFieldsBounded(members.rest, depth)
  }

  /** The keys that a case-insensitive reader takes for `image`. */
  ghost function ImageKeys(members: Fields, fold: string -> string): seq<string> {
    if members.NoFields? then []
    else (if fold(members.key) == fold("image") then [members.key] else []) + ImageKeys(members.rest, fold)
  }

  /** More than one such key, or one that is spelled differently. */
  ghost predicate UnclearImage(members: Fields, fold: string -> string) {
    ImageKeys(members, fold) != [] && ImageKeys(members, fold) != [IMAGE]
  }

  /** The root object or an object-valued root `image` has an unclear `image` key. */
  ghost predicate Ambiguous(t: Doc, fold: string -> string) {
    && t.Dict?
    && (|| UnclearImage(t.members, fold)
        || exists inner :: Has(t.members, IMAGE, Dict(inner)) && UnclearImage(inner, fold))
  }

  // ---------- the decoder is a filter on the grammar

  /** The running check of the member loop. */
  ghost predicate Unclear(members: Fields, seen: bool, fold: string -> string) {
    members.Fields? &&
    if IsImage(members.key, fold) then seen || members.key != IMAGE || Unclear(members.rest, true, fold)
    else Unclear(members.rest, seen, fold)
  }

  lemma {:induction false} UnclearIff(members: Fields, fold: string -> string)
    ensures Unclear(members, true, fold) <==> ImageKeys(members, fold) != []
    ensures Unclear(members, false, fold) <==> UnclearImage(members, fold)
  {
    if members.Fields? {
      UnclearIff(members.rest, fold);
      var rest := ImageKeys(members.rest, fold);
      assert IsImage(members.key, fold) ==> ImageKeys(members, fold) == [members.key] + rest;
      assert [members.key] + rest == [IMAGE] <==> members.key == IMAGE && rest == [] by {
        if [members.key] + rest == [IMAGE] {
          assert ([members.key] + rest)[0] == members.key && |[members.key] + rest| == 1 + |rest|;
        }
      }
    }
  }

  ghost predicate UnclearChild(members: Fields, fold: string -> string) {
    members.Fields? &&
    (|| (members.key == IMAGE && members.value.Dict? && Unclear(members.value.members, false, fold))
     || UnclearChild(members.rest, fold))
  }

  lemma {:induction false} UnclearChildIff(members: Fields, fold: string -> string)
    ensures UnclearChild(members, fold) <==> exists inner :: Has(members, IMAGE, Dict(inner)) && UnclearImage(inner, fold)
  {
    if members.Fields? {
      UnclearChildIff(members.rest, fold);
      if members.value.Dict? {
        UnclearIff(members.value.members, fold);
        assert members.key == IMAGE ==> Has(members, IMAGE, Dict(members.value.members));
      }
    }
  }

  /** What the decoder reports at a given place. */
  ghost predicate Reported(t: Doc, depth: nat, inRootImage: bool, fold: string -> string) {
    && t.Dict?
    && (|| ((depth == 0 || inRootImage) && Unclear(t.members, false, fold))
        || (depth == 0 && UnclearChild(t.members, fold)))
  }

  lemma {:induction false} CrioFilters(s: seq<Token>, depth: nat, inRootImage: bool, fold: string -> string)
    ensures Crio(s, depth, inRootImage, fold)
         == match Parse(s)
            case None => None
            case Some(d) =>
              if CrioBounded(d.tree, depth)
              then Some(Judged(FirstMeaning(d.tree), Reported(d.tree, depth, inRootImage, fold), d.rest)) else None
    decreases |s|, 0
  {
    if depth <= MAX_DEPTH && s != [] {
      match s[0]
      case OpenObject => CrioFieldsFilter(s[1..], depth, inRootImage, fold, 0, false, map[], false);
      case OpenArray =>
        CrioItemsFilter(s[1..], depth, fold, [], false);
        var items := ParseItems(s[1..]);
        assert items.Some? ==> [] + FirstMeanings(items.value.tree) == FirstMeanings(items.value.tree);
      case _ =>
    }
  }

  ghost predicate FieldsReported(members: Fields, depth: nat, inRootImage: bool, seen: bool, fold: string -> string) {
    || ((depth == 0 || inRootImage) && Unclear(members, seen, fold))
    || (depth == 0 && UnclearChild(members, fold))
  }

  lemma ReportedTail(members: Fields, depth: nat, inRootImage: bool, seen: bool, fold: string -> string)
    requires members.Fields?
    ensures var relevant := (depth == 0 || inRootImage) && IsImage(members.key, fold);
            FieldsReported(members, depth, inRootImage, seen, fold) <==>
            || (relevant && (seen || members.key != IMAGE))
            || Reported(members.value, depth + 1, depth == 0 && members.key == IMAGE, fold)
            || FieldsReported(members.rest, depth, inRootImage, seen || relevant, fold)
  {
  }

  /** One turn of the member loop. */
  lemma CrioFieldsStep(
      s: seq<Token>, depth: nat, inRootImage: bool, fold: string -> string, members: nat,
      seenRelevant: bool, entries: map<string, Value>, ambiguous: bool)
    requires s != [] && s[0].Atom? && s[0].atom.StringAtom? && members < MAX_MEMBERS
    ensures var key := s[0].atom.s;
            var relevant := (depth == 0 || inRootImage) && IsImage(key, fold);
            var item := Crio(s[1..], depth + 1, depth == 0 && key == IMAGE, fold);
            CrioFields(s, depth, inRootImage, fold, members, seenRelevant, entries, ambiguous)
            == if item == None then None
               else CrioFields(item.value.rest, depth, inRootImage, fold, members + 1, seenRelevant || relevant,
                               if key in entries then entries else entries[key := item.value.value],
                               ambiguous || (relevant && (seenRelevant || key != IMAGE)) || item.value.ambiguous)
  {
    hide Crio, IsImage;
  }

  /** What the loop is to return for the members it still has to read. */
  ghost function FieldsJudged(
      parsed: Option<Parsed<Fields>>, depth: nat, inRootImage: bool, fold: string -> string, members: nat,
      seenRelevant: bool, entries: map<string, Value>, ambiguous: bool): Option<Judged>
  {
    match parsed
    case None => None
    case Some(d) =>
      if members + Count(d.tree) <= MAX_MEMBERS && CrioFieldsBounded(d.tree, depth + 1)
      then Some(Judged(Mapping(FirstEntries(entries, d.tree)),
                       ambiguous || FieldsReported(d.tree, depth, inRootImage, seenRelevant, fold), d.rest))
      else None
  }

  lemma FieldsJudgedTurn(
      key: string, value: Doc, parsed: Option<Parsed<Fields>>, depth: nat, inRootImage: bool, fold: string -> string,
      members: nat, seenRelevant: bool, entries: map<string, Value>, ambiguous: bool)
    requires members < MAX_MEMBERS && CrioBounded(value, depth + 1)
    ensures var relevant := (depth == 0 || inRootImage) && IsImage(key, fold);
            var whole := if parsed == None then None
                         else Some(Parsed(Fields(key, value, parsed.value.tree), parsed.value.rest));
            FieldsJudged(whole, depth, inRootImage, fold, members, seenRelevant, entries, ambiguous)
            == FieldsJudged(parsed, depth, inRootImage, fold, members + 1, seenRelevant || relevant,
                            if key in entries then entries else entries[key := FirstMeaning(value)],
                            ambiguous || (relevant && (seenRelevant || key != IMAGE))
                            || Reported(value, depth + 1, depth == 0 && key == IMAGE, fold))
  {
    hide FieldsReported, Reported, IsImage, CrioBounded, FirstMeaning;
    if parsed.Some? {
      ReportedTail(Fields(key, value, parsed.value.tree), depth, inRootImage, seenRelevant, fold);
    }
  }

  lemma {:induction false} CrioFieldsFilter(
      s: seq<Token>, depth: nat, inRootImage: bool, fold: string -> string, members: nat,
      seenRelevant: bool, entries: map<string, Value>, ambiguous: bool)
    requires members <= MAX_MEMBERS
    ensures CrioFields(s, depth, inRootImage, fold, members, seenRelevant, entries, ambiguous)
         == FieldsJudged(ParseFields(s), depth, inRootImage, fold, members, seenRelevant, entries, ambiguous)
    decreases |s|, 1
  {
    if s != [] && s[0].Atom? && s[0].atom.StringAtom? && members < MAX_MEMBERS {
      CrioFieldsMore(s, depth, inRootImage, fold, members, seenRelevant, entries, ambiguous);
    }
  }

  lemma {:induction false} CrioFieldsMore(
      s: seq<Token>, depth: nat, inRootImage: bool, fold: string -> string, members: nat,
      seenRelevant: bool, entries: map<string, Value>, ambiguous: bool)
    requires s != [] && s[0].Atom? && s[0].atom.StringAtom? && members < MAX_MEMBERS
    ensures CrioFields(s, depth, inRootImage, fold, members, seenRelevant, entries, ambiguous)
         == FieldsJudged(ParseFields(s), depth, inRootImage, fold, members, seenRelevant, entries, ambiguous)
    decreases |s|, 0
  {
    hide CrioFields, FieldsReported, Reported, IsImage, Crio, Parse, CrioBounded, FirstMeaning;
    CrioFieldsStep(s, depth, inRootImage, fold, members, seenRelevant, entries, ambiguous);
    var key := s[0].atom.s;
    var relevant := (depth == 0 || inRootImage) && IsImage(key, fold);
    var child := depth == 0 && key == IMAGE;
    CrioFilters(s[1..], depth + 1, child, fold);
    var value := Parse(s[1..]);
    if value.Some? && CrioBounded(value.value.tree, depth + 1) {
      var t := value.value.tree;
      var entries' := if key in entries then entries else entries[key := FirstMeaning(t)];
      var ambiguous' := ambiguous || (relevant && (seenRelevant || key != IMAGE)) || Reported(t, depth + 1, child, fold);
      CrioFieldsFilter(value.value.rest, depth, inRootImage, fold, members + 1, seenRelevant || relevant, entries', ambiguous');
      FieldsJudgedTurn(key, t, ParseFields(value.value.rest), depth, inRootImage, fold, members, seenRelevant, entries, ambiguous);
    }
  }

  /** Below the root nothing is reported outside of the image. */
  lemma NotReported(depth: nat, fold: string -> string)
    ensures depth > 0 ==> forall t :: !Reported(t, depth, false, fold)
  {
  }

  lemma {:induction false} CrioItemsFilter(s: seq<Token>, depth: nat, fold: string -> string, done: seq<Value>, ambiguous: bool)
    requires |done| <= MAX_ITEMS
    ensures CrioItems(s, depth, fold, done, ambiguous)
         == match ParseItems(s)
            case None => None
            case Some(d) =>
              if |done| + Length(d.tree) <= MAX_ITEMS && CrioItemsBounded(d.tree, depth + 1)
              then Some(Judged(Sequence(done + FirstMeanings(d.tree)), ambiguous, d.rest)) else None
    decreases |s|, 1
  {
    hide Crio, Parse, CrioBounded, FirstMeaning, Reported;
    if s != [] && s[0] != CloseObject && s[0] != CloseArray && |done| < MAX_ITEMS {
      NotReported(depth + 1, fold);
      CrioFilters(s, depth + 1, false, fold);
      var head := Parse(s);
      if head.Some? {
        var v := FirstMeaning(head.value.tree);
        CrioItemsFilter(head.value.rest, depth, fold, done + [v], ambiguous);
        var tail := ParseItems(head.value.rest);
        if tail.Some? {
          assert (done + [v]) + FirstMeanings(tail.value.tree) == done + ([v] + FirstMeanings(tail.value.tree));
        }
      }
    } else if s != [] && s[0] == CloseArray {
      assert done + [] == done;
    }
  }

  /** A bounded document is accepted whatever it repeats, and reported exactly when an `image` key is unclear. */
  lemma CrioIff(t: Doc, fold: string -> string)
    ensures CrioRequest(Tokens(t), true, fold)
         == if !CrioBounded(t, 0) then None
            else if !t.Dict? then Some(Request(None, false))
            else Some(Request(Some(FirstEntries(map[], t.members)), Ambiguous(t, fold)))
  {
    assert Tokens(t) == Tokens(t) + [];
    ParseTokens(t, []);
    CrioFilters(Tokens(t), 0, false, fold);
    if t.Dict? {
      UnclearIff(t.members, fold);
      UnclearChildIff(t.members, fold);
    }
  }

  /** Streams that are not the print of a bounded document are errors. */
  lemma CrioOnlyDocuments(s: seq<Token>, clean: bool, fold: string -> string)
    requires CrioRequest(s, clean, fold).Some?
    ensures clean && exists t :: s == Tokens(t) && CrioBounded(t, 0)
  {
    CrioFilters(s, 0, false, fold);
    ParsePrints(s);
    assert s == Tokens(Parse(s).value.tree) + [] == Tokens(Parse(s).value.tree);
  }

  // ---------- the reference

  /** `crioReference` */
  function Reference(root: map<string, Value>): Option<string> {
    if IMAGE in root && root[IMAGE].Mapping? then
      var image := root[IMAGE].entries;
      if IMAGE in image && image[IMAGE].Scalar? && image[IMAGE].atom.StringAtom? && image[IMAGE].atom.s != ""
      then Some(image[IMAGE].atom.s) else None
    else None
  }

  /** What some case-insensitive reader finds at `image.image`. */
  ghost predicate Candidate(t: Doc, fold: string -> string, r: string) {
    && t.Dict?
    && exists outer, middle, inner ::
         && Has(t.members, outer, Dict(middle)) && fold(outer) == fold("image")
         && Has(middle, inner, Leaf(StringAtom(r))) && fold(inner) == fold("image")
  }

  lemma {:induction false} FirstEntryIs(entries: map<string, Value>, members: Fields, key: string, value: Doc)
    requires key !in entries && Has(members, key, value)
    requires forall other :: Has(members, key, other) ==> other == value
    ensures key in FirstEntries(entries, members) && FirstEntries(entries, members)[key] == FirstMeaning(value)
    decreases members
  {
    if members.key == key {
      assert Has(members, key, members.value);
      KeepsEntry(entries[key := FirstMeaning(value)], members.rest, key);
    } else {
      var next := if members.key in entries then entries else entries[members.key := FirstMeaning(members.value)];
      assert forall other :: Has(members.rest, key, other) ==> Has(members, key, other);
      FirstEntryIs(next, members.rest, key, value);
    }
  }

  lemma {:induction false} KeepsEntry(entries: map<string, Value>, members: Fields, key: string)
    requires key in entries
    ensures key in FirstEntries(entries, members) && FirstEntries(entries, members)[key] == entries[key]
    decreases members
  {
    if members.Fields? {
      KeepsEntry(if members.key in entries then entries else entries[members.key := FirstMeaning(members.value)],
                 members.rest, key);
    }
  }

  lemma {:induction false} NoEntry(entries: map<string, Value>, members: Fields, key: string)
    requires key !in entries && forall v :: !Has(members, key, v)
    ensures key !in FirstEntries(entries, members)
    decreases members
  {
    if members.Fields? {
      assert Has(members, members.key, members.value);
      assert forall v :: Has(members.rest, key, v) ==> Has(members, key, v);
      NoEntry(if members.key in entries then entries else entries[members.key := FirstMeaning(members.value)],
              members.rest, key);
    }
  }

  lemma {:induction false} HasImage(members: Fields, fold: string -> string, key: string, value: Doc)
    requires Has(members, key, value) && IsImage(key, fold)
    ensures key in ImageKeys(members, fold)
  {
    if !(members.key == key && members.value == value) {
      HasImage(members.rest, fold, key, value);
    }
  }

  lemma {:induction false} OneImage(members: Fields, fold: string -> string, v: Doc, w: Doc)
    requires |ImageKeys(members, fold)| <= 1 && Has(members, IMAGE, v) && Has(members, IMAGE, w)
    ensures v == w
  {
    if members.key == IMAGE {
      if members.value != v {
        HasImage(members.rest, fold, IMAGE, v);
      }
      if members.value != w {
        HasImage(members.rest, fold, IMAGE, w);
      }
    } else {
      OneImage(members.rest, fold, v, w);
    }
  }

  /** An object without unclear keys has one reading: the member that is spelled `image`. */
  lemma ClearImage(members: Fields, fold: string -> string)
    requires !UnclearImage(members, fold)
    ensures forall key, v :: Has(members, key, v) && IsImage(key, fold) ==>
              && key == IMAGE
              && IMAGE in FirstEntries(map[], members) && FirstEntries(map[], members)[IMAGE] == FirstMeaning(v)
    ensures IMAGE in FirstEntries(map[], members) ==> exists v :: Has(members, IMAGE, v)
  {
    forall key, v | Has(members, key, v) && IsImage(key, fold)
      ensures key == IMAGE && IMAGE in FirstEntries(map[], members)
              && FirstEntries(map[], members)[IMAGE] == FirstMeaning(v)
    {
      HasImage(members, fold, key, v);
      assert ImageKeys(members, fold) == [IMAGE];
      forall w | Has(members, IMAGE, w) ensures w == v {
        OneImage(members, fold, v, w);
      }
      FirstEntryIs(map[], members, IMAGE, v);
    }
    if forall v :: !Has(members, IMAGE, v) {
      NoEntry(map[], members, IMAGE);
    }
  }

  /** Unless the document is ambiguous, the reference is what any case-insensitive reader would find. */
  lemma ReferenceIsOnlyCandidate(t: Doc, fold: string -> string, r: string)
    requires t.Dict? && !Ambiguous(t, fold)
    ensures Reference(FirstEntries(map[], t.members)) == Some(r) <==> r != "" && Candidate(t, fold, r)
  {
    var root := FirstEntries(map[], t.members);
    ClearImage(t.members, fold);
    if Reference(root) == Some(r) {
      var v :| Has(t.members, IMAGE, v);
      assert v.Dict?;
      ClearImage(v.members, fold);
      var w :| Has(v.members, IMAGE, w);
      assert w == Leaf(StringAtom(r));
      assert Has(t.members, IMAGE, Dict(v.members)) && Has(v.members, IMAGE, Leaf(StringAtom(r)));
    }
    if Candidate(t, fold, r) {
      var outer, middle, inner :|
        && Has(t.members, outer, Dict(middle)) && fold(outer) == fold("image")
        && Has(middle, inner, Leaf(StringAtom(r))) && fold(inner) == fold("image");
      ClearImage(middle, fold);
    }
  }

  // ---------- the decoder itself

  method DecodeCRIOValue(decoder: Decoder, depth: nat, inRootImage: bool, fold: string -> string)
    returns (ok: bool, value: Value, ambiguous: bool)
    requires decoder.Valid()
    modifies decoder
    ensures ReadsJudged(decoder, old(decoder.pos), Crio(old(decoder.Rest()), depth, inRootImage, fold),
                  ok, value, ambiguous, old(decoder.open))
    decreases |decoder.tokens| - decoder.pos, 0
  {
    if depth > MAX_DEPTH {
      return false, NIL, false;
    }
    var token := decoder.Next();
    if token == None {
      return false, NIL, false;
    }
    match token.value
    case Atom(atom) => return true, Scalar(atom), false;
    case OpenObject => ok, value, ambiguous := DecodeObject(decoder, depth, inRootImage, fold);
    case OpenArray => ok, value, ambiguous := DecodeArray(decoder, depth, fold);
    case CloseObject => return false, NIL, false;
    case CloseArray => return false, NIL, false;
  }

  /** The cases of the loop over the members of an object. */
  lemma CrioFieldStep(
      s: seq<Token>, depth: nat, inRootImage: bool, fold: string -> string, members: nat,
      seenRelevant: bool, entries: map<string, Value>, ambiguous: bool)
    ensures var all := CrioFields(s, depth, inRootImage, fold, members, seenRelevant, entries, ambiguous);
            if s == [] || s[0] == CloseArray then all == None
            else if s[0] == CloseObject then all == Some(Judged(Mapping(entries), ambiguous, s[1..]))
            else if members >= MAX_MEMBERS || !(s[0].Atom? && s[0].atom.StringAtom?) then all == None
            else
              var key := s[0].atom.s;
              var relevant := (depth == 0 || inRootImage) && IsImage(key, fold);
              var item := Crio(s[1..], depth + 1, depth == 0 && key == IMAGE, fold);
              if item == None then all == None
              else all == CrioFields(item.value.rest, depth, inRootImage, fold, members + 1, seenRelevant || relevant,
                                     if key in entries then entries else entries[key := item.value.value],
                                     ambiguous || (relevant && (seenRelevant || key != IMAGE)) || item.value.ambiguous)
  {
    hide Crio, IsImage;
  }

  method DecodeObject(decoder: Decoder, depth: nat, inRootImage: bool, fold: string -> string)
    returns (ok: bool, value: Value, ambiguous: bool)
    requires decoder.Valid() && decoder.open != [] && decoder.open[|decoder.open| - 1] == OpenObject
    modifies decoder
    ensures ReadsJudged(decoder, old(decoder.pos),
                  CrioFields(old(decoder.Rest()), depth, inRootImage, fold, 0, false, map[], false),
                  ok, value, ambiguous, old(decoder.open)[..|old(decoder.open)| - 1])
    decreases |decoder.tokens| - decoder.pos, 1
  {
    hide Crio, CrioFields, IsImage;
    var entries: map<string, Value>, seenRelevant: bool, members: nat := map[], false, 0;
    ambiguous := false;
    ghost var goal := CrioFields(decoder.Rest(), depth, inRootImage, fold, 0, false, map[], false);
    ghost var open := decoder.open;
    var more := decoder.More();
    while more
      invariant decoder.Valid() && decoder.pos >= old(decoder.pos) && decoder.open == open
      invariant goal == CrioFields(decoder.Rest(), depth, inRootImage, fold, members, seenRelevant, entries, ambiguous)
      invariant more <==> decoder.Rest() != [] && decoder.Rest()[0] != CloseObject && decoder.Rest()[0] != CloseArray
      decreases |decoder.tokens| - decoder.pos
    {
      CrioFieldStep(decoder.Rest(), depth, inRootImage, fold, members, seenRelevant, entries, ambiguous);
      if members >= MAX_MEMBERS {
        return false, NIL, false;
      }
      ghost var seen, was := seenRelevant, ambiguous;
      var token := decoder.Next();
      if token == None || !(token.value.Atom? && token.value.atom.StringAtom?) {
        return false, NIL, false;
      }
      var key := token.value.atom.s;
      var relevant := (depth == 0 || inRootImage) && IsImage(key, fold);
      if relevant && seenRelevant {
        ambiguous := true;
      }
      if relevant {
        seenRelevant := true;
      }
      var itemOk, item, itemAmbiguous := DecodeCRIOValue(decoder, depth + 1, depth == 0 && key == IMAGE, fold);
      if !itemOk {
        return false, NIL, false;
      }
      ambiguous := ambiguous || itemAmbiguous;
      if key !in entries {
        entries := entries[key := item];
      }
      if inRootImage && IsImage(key, fold) && key != IMAGE {
        ambiguous := true;
      }
      if depth == 0 && IsImage(key, fold) && key != IMAGE {
        ambiguous := true;
      }
      assert ambiguous == (was || (relevant && (seen || key != IMAGE)) || itemAmbiguous);
      members := members + 1;
      more := decoder.More();
    }
    CrioFieldStep(decoder.Rest(), depth, inRootImage, fold, members, seenRelevant, entries, ambiguous);
    var close := decoder.Next();
    if close == None {
      return false, NIL, false;
    }
    return true, Mapping(entries), ambiguous;
  }

  method DecodeArray(decoder: Decoder, depth: nat, fold: string -> string)
    returns (ok: bool, value: Value, ambiguous: bool)
    requires decoder.Valid() && decoder.open != [] && decoder.open[|decoder.open| - 1] == OpenArray
    modifies decoder
    ensures ReadsJudged(decoder, old(decoder.pos), CrioItems(old(decoder.Rest()), depth, fold, [], false),
                  ok, value, ambiguous, old(decoder.open)[..|old(decoder.open)| - 1])
    decreases |decoder.tokens| - decoder.pos, 1
  {
    var done: seq<Value> := [];
    ambiguous := false;
    ghost var goal := CrioItems(decoder.Rest(), depth, fold, [], false);
    ghost var open := decoder.open;
    var more := decoder.More();
    while more
      invariant decoder.Valid() && decoder.pos >= old(decoder.pos) && decoder.open == open
      invariant goal == CrioItems(decoder.Rest(), depth, fold, done, ambiguous)
      invariant more <==> decoder.Rest() != [] && decoder.Rest()[0] != CloseObject && decoder.Rest()[0] != CloseArray
      decreases |decoder.tokens| - decoder.pos
    {
      if |done| >= MAX_ITEMS {
        return false, NIL, false;
      }
      var itemOk, item, itemAmbiguous := DecodeCRIOValue(decoder, depth + 1, false, fold);
      if !itemOk {
        return false, NIL, false;
      }
      done := done + [item];
      ambiguous := ambiguous || itemAmbiguous;
      more := decoder.More();
    }
    var close := decoder.Next();
    if close == None {
      return false, NIL, false;
    }
    return true, Sequence(done), ambiguous;
  }

  method DecodeCRIORequest(tokens: seq<Token>, clean: bool, fold: string -> string) returns (result: Option<Request>)
    ensures result == CrioRequest(tokens, clean, fold)
  {
    var decoder := new Decoder(tokens, clean);
    assert tokens[0..] == tokens;
    var ok, value, ambiguous := DecodeCRIOValue(decoder, 0, false, fold);
    if !ok || !(decoder.pos == |decoder.tokens| && decoder.clean) {
      return None;
    }
    if !value.Mapping? {
      return Some(Request(None, false));
    }
    return Some(Request(Some(value.entries), ambiguous));
  }
}
