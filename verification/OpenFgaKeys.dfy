/** What the OpenFGA pre-scan refuses and what it notes, by the keys at the places that matter; and what the fields are. */
module OpenFgaKeys {
  import opened Common
  import opened JsonTokens
  import opened StrictDecoder
  import opened OpenFga

  // ---------- places

  datatype Place = Root | Authn | Oidc | Elsewhere

  ghost function PlaceOf(p: Path, c: Casing): Place {
    if p == [] then Root
    else if |p| == 1 && c.EqualFold(p[0], "authn") then Authn
    else if |p| == 2 && c.EqualFold(p[0], "authn") && c.EqualFold(p[1], "oidc") then Oidc
    else Elsewhere
  }

  ghost function NamesAt(place: Place): set<string> {
    match place
    case Root => {"authn"}
    case Authn => {"method", "oidc"}
    case Oidc => {"issuer", "audience"}
    case Elsewhere => {}
  }

  /** Whole paths that other readers take in one key. */
  ghost function DottedAt(place: Place): set<string> {
    match place
    case Root => {"authn.method", "authn.oidc", "authn.oidc.issuer", "authn.oidc.audience"}
    case Authn => {"oidc.issuer", "oidc.audience"}
    case Oidc => {}
    case Elsewhere => {}
  }

  ghost predicate IsExactPath(p: Path) {
    p == [] || p == ["authn"] || p == ["authn", "oidc"]
  }

  /** The key folds to a name of its place, but it or the path to it is spelled differently. */
  ghost predicate IsMisspelled(p: Path, key: string, c: Casing) {
    var names := NamesAt(PlaceOf(p, c));
    (exists name :: name in names && c.EqualFold(key, name)) && !(IsExactPath(p) && key in names)
  }

  ghost predicate IsDotted(p: Path, key: string, c: Casing) {
    '.' in key && c.Lower()(key) in DottedAt(PlaceOf(p, c))
  }

  /** The last of the keys that lower-cases like the given one. */
  ghost function LastAlike(keys: seq<string>, key: string, c: Casing): Option<string> {
    if keys == [] then None
    else if c.EqualLower(keys[|keys| - 1], key) then Some(keys[|keys| - 1])
    else LastAlike(keys[..|keys| - 1], key, c)
  }

  datatype Finding = Fault | Suspicion

  /** What is to be said of a key, given the path of its object and the keys before it. */
  ghost predicate IsFound(p: Path, before: seq<string>, key: string, c: Casing, what: Finding) {
    match what
    case Fault => key == "" || LastAlike(before, key, c) == Some(key)
    case Suspicion =>
      || IsMisspelled(p, key, c) || IsDotted(p, key, c)
      || (LastAlike(before, key, c).Some? && c.Lower()(key) in NamesAt(PlaceOf(p, c)))
  }

  /** Somewhere in the document; arrays do not lengthen a path. */
  ghost predicate Anywhere(t: Doc, p: Path, c: Casing, what: Finding)
    decreases t
  {
    match t
    case Leaf(_) => false
    case List(items) => AnywhereIn(items, p, c, what)
    case Dict(members) => AnywhereUnder(members, p, [], c, what)
  }

  ghost predicate AnywhereIn(items: Docs, p: Path, c: Casing, what: Finding)
    decreases items
  {
    items.Docs? && (Anywhere(items.head, p, c, what) || AnywhereIn(items.tail, p, c, what))
  }

  ghost predicate AnywhereUnder(members: Fields, p: Path, before: seq<string>, c: Casing, what: Finding)
    decreases members
  {
    members.Fields?
    && (|| IsFound(p, before, members.key, c, what)
        || Anywhere(members.value, p + [members.key], c, what)
        || AnywhereUnder(members.rest, p, before + [members.key], c, what))
  }

  // ---------- one key

  ghost predicate KeepsDots(c: Casing) {
    c.Sane() && c.lower('.') == '.'
  }

  lemma LowerKeepsDots(key: string, c: Casing)
    requires KeepsDots(c) && '.' in key
    ensures '.' in c.Lower()(key)
  {
    var i :| 0 <= i < |key| && key[i] == '.';
    assert Mapped(c.lower, key)[i] == '.';
  }

  lemma NamesHaveNoDot(place: Place, name: string)
    requires name in NamesAt(place)
    ensures '.' !in name
  {
  }

  /** The key is relevant and not canonical exactly when it is misspelled or spells out a path. */
  lemma RelevantIff(p: Path, key: string, c: Casing)
    requires KeepsDots(c)
    ensures RelevantKey(p, key, c) && !CanonicalKey(p, key) <==> IsMisspelled(p, key, c) || IsDotted(p, key, c)
  {
    if '.' in key {
      LowerKeepsDots(key, c);
      DottedIff(p, key, c);
    } else {
      UndottedIff(p, key, c);
    }
  }

  lemma DottedIff(p: Path, key: string, c: Casing)
    requires KeepsDots(c) && '.' in key && '.' in c.Lower()(key)
    ensures RelevantKey(p, key, c) <==> IsDotted(p, key, c)
    ensures !CanonicalKey(p, key) && !IsMisspelled(p, key, c)
  {
    forall name | name in NamesAt(PlaceOf(p, c)) ensures !c.EqualFold(key, name) && key != name {
      NamesHaveNoDot(PlaceOf(p, c), name);
      if c.EqualFold(key, name) {
        FoldKeepsDots(key, name, c);
      }
    }
    hide IsExactPath;
    NoFold(key, c);
    assert '.' !in "issuer" && '.' !in "audience";
    assert '.' !in "authn" && '.' !in "method" && '.' !in "oidc";
  }

  /** A key with a full stop folds to none of the names. */
  lemma NoFold(key: string, c: Casing)
    requires c.Sane() && '.' in key
    ensures !c.EqualFold(key, "authn") && !c.EqualFold(key, "method") && !c.EqualFold(key, "oidc")
    ensures !c.EqualFold(key, "issuer") && !c.EqualFold(key, "audience")
  {
    forall name | name in {"authn", "method", "oidc", "issuer", "audience"} ensures !c.EqualFold(key, name) {
      assert '.' !in name;
      if c.EqualFold(key, name) {
        FoldKeepsDots(key, name, c);
      }
    }
  }

  lemma UndottedIff(p: Path, key: string, c: Casing)
    requires '.' !in key
    ensures RelevantKey(p, key, c) <==> exists name :: name in NamesAt(PlaceOf(p, c)) && c.EqualFold(key, name)
    ensures RelevantKey(p, key, c) ==> (CanonicalKey(p, key) <==> IsExactPath(p) && key in NamesAt(PlaceOf(p, c)))
  {
    var place := PlaceOf(p, c);
    match place
    case Root => assert "authn" in NamesAt(place);
    case Authn => assert "method" in NamesAt(place) && "oidc" in NamesAt(place);
    case Oidc => assert "issuer" in NamesAt(place) && "audience" in NamesAt(place);
    case Elsewhere =>
  }

  lemma RelevantPathIff(p: Path, folded: string, c: Casing)
    ensures RelevantPath(p, folded, c) <==> folded in NamesAt(PlaceOf(p, c))
  {
  }

  // ---------- the keys seen so far

  ghost function SeenOf(keys: seq<string>, c: Casing): map<string, string> {
    if keys == [] then map[] else SeenOf(keys[..|keys| - 1], c)[c.Lower()(keys[|keys| - 1]) := keys[|keys| - 1]]
  }

  lemma {:induction false} SeenIs(keys: seq<string>, key: string, c: Casing)
    ensures var seen, folded := SeenOf(keys, c), c.Lower()(key);
            LastAlike(keys, key, c) == if folded in seen then Some(seen[folded]) else None
  {
    if keys != [] {
      SeenIs(keys[..|keys| - 1], key, c);
    }
  }

  lemma JudgeKeyIs(p: Path, before: seq<string>, key: string, c: Casing)
    requires KeepsDots(c)
    ensures JudgeKey(p, key, c, SeenOf(before, c))
         == if IsFound(p, before, key, c, Fault) then BadKey else GoodKey(IsFound(p, before, key, c, Suspicion))
  {
    hide RelevantKey, CanonicalKey, RelevantPath, IsMisspelled, IsDotted, LastAlike, SeenOf, PlaceOf;
    SeenIs(before, key, c);
    RelevantIff(p, key, c);
    RelevantPathIff(p, c.Lower()(key), c);
  }

  // ---------- the whole document

  ghost predicate WalkIs(result: Option<bool>, fault: bool, suspicion: bool) {
    result == if fault then None else Some(suspicion)
  }

  lemma {:induction false} WalkDocIs(t: Doc, p: Path, c: Casing)
    requires KeepsDots(c)
    ensures WalkIs(WalkDoc(t, p, c), Anywhere(t, p, c, Fault), Anywhere(t, p, c, Suspicion))
    decreases t
  {
    hide KeepsDots;
    match t
    case Leaf(_) =>
    case List(items) => WalkDocsIs(items, p, c);
    case Dict(members) =>
      assert SeenOf([], c) == map[];
      WalkDictIs(members, p, [], c);
  }

  lemma {:induction false} WalkDocsIs(items: Docs, p: Path, c: Casing)
    requires KeepsDots(c)
    ensures WalkIs(WalkDocs(items, p, c), AnywhereIn(items, p, c, Fault), AnywhereIn(items, p, c, Suspicion))
    decreases items
  {
    hide KeepsDots;
    if items.Docs? {
      WalkDocIs(items.head, p, c);
      WalkDocsIs(items.tail, p, c);
    }
  }

  lemma {:induction false} WalkDictIs(members: Fields, p: Path, before: seq<string>, c: Casing)
    requires KeepsDots(c)
    ensures WalkIs(WalkDict(members, p, c, SeenOf(before, c)),
                   AnywhereUnder(members, p, before, c, Fault), AnywhereUnder(members, p, before, c, Suspicion))
    decreases members
  {
    hide KeepsDots, IsFound, JudgeKey;
    if members.Fields? {
      JudgeKeyIs(p, before, members.key, c);
      WalkDocIs(members.value, p + [members.key], c);
      var after := before + [members.key];
      assert after[..|after| - 1] == before;
      WalkDictIs(members.rest, p, after, c);
    }
  }

  /**
    The pre-scan of a whole input, in all its answers: an error exactly for streams
    that are no document or have a faulty key somewhere, and otherwise ambiguity
    exactly when a key somewhere is suspicious.
    */
  lemma AmbiguityIff(t: Doc, c: Casing)
    requires KeepsDots(c)
    ensures CaseAmbiguity(Tokens(t), true, c) == if Anywhere(t, [], c, Fault) then None else Some(Anywhere(t, [], c, Suspicion))
  {
    assert Tokens(t) == Tokens(t) + [];
    ParseTokens(t, []);
    WalkFilters(Tokens(t), [], c, false);
    WalkDocIs(t, [], c);
  }

  lemma AmbiguityOnlyDocuments(s: seq<Token>, clean: bool, c: Casing)
    requires CaseAmbiguity(s, clean, c).Some?
    ensures clean && exists t :: s == Tokens(t)
  {
    WalkFilters(s, [], c, false);
    ParsePrints(s);
    assert s == Tokens(Parse(s).value.tree) + [] == Tokens(Parse(s).value.tree);
  }

  // ---------- the fields

  ghost predicate HasText(o: map<string, Value>, key: string, text: string) {
    key in o && o[key] == Scalar(StringAtom(text))
  }

  /** The string at the key, or the empty one when there is none. */
  ghost predicate TextOr(o: map<string, Value>, key: string, text: string) {
    if key in o then HasText(o, key, text) else text == ""
  }

  /** Which answer the exact reading gives, on the entries of the decoded document. */
  ghost predicate Answers(root: Value, way: string, issuer: string, audience: string) {
    && root.Mapping? && "authn" in root.entries && root.entries["authn"].Mapping?
    && var authn := root.entries["authn"].entries;
       && HasText(authn, "method", way)
       && if way == "oidc" && "oidc" in authn then
            && authn["oidc"].Mapping?
            && TextOr(authn["oidc"].entries, "issuer", issuer) && TextOr(authn["oidc"].entries, "audience", audience)
          else issuer == "" && audience == ""
  }

  lemma FieldsIff(root: Value, way: string, issuer: string, audience: string)
    ensures OpenFgaFields(root) == Readable(way, issuer, audience) <==> Answers(root, way, issuer, audience)
  {
  }
}
