/**
  The OpenFGA pre-scan for keys that other readers might take for a relevant one,
  the exact reading that follows it, and how the two fit together.
  */
module OpenFga {
  import opened Common
  import opened JsonTokens
  import opened StrictDecoder

  /** Go's case mappings, code point by code point: lower-casing, and a representative of the simple folding. */
  datatype Casing = Casing(lower: char -> char, fold: char -> char) {
    /** No other character folds to a full stop. */
    ghost predicate Sane() {
      forall c :: fold(c) == fold('.') ==> c == '.'
    }

    function Lower(): string -> string {
      s => Mapped(lower, s)
    }

    /** `strings.EqualFold` */
    predicate EqualFold(a: string, b: string) {
      Mapped(fold, a) == Mapped(fold, b)
    }

    /** How a reader that lower-cases its keys compares them. */
    predicate EqualLower(a: string, b: string) {
      Lower()(a) == Lower()(b)
    }
  }

  function Mapped(f: char -> char, s: string): (r: string)
    ensures |r| == |s| && forall i :: 0 <= i < |s| ==> r[i] == f(s[i])
  {
    seq(|s|, i requires 0 <= i < |s| => f(s[i]))
  }

  // ---------- keys

  type Path = seq<string>

  function AtAuthn(path: Path, c: Casing): bool {
    |path| == 1 && c.EqualFold(path[0], "authn")
  }

  function AtOidc(path: Path, c: Casing): bool {
    |path| == 2 && c.EqualFold(path[0], "authn") && c.EqualFold(path[1], "oidc")
  }

  /** `openFGARelevantPath` */
  predicate RelevantPath(path: Path, folded: string, c: Casing) {
    if path == [] then folded == "authn"
    else if AtAuthn(path, c) then folded == "method" || folded == "oidc"
    else AtOidc(path, c) && (folded == "issuer" || folded == "audience")
  }

  /** `openFGARelevantKey` */
  predicate RelevantKey(path: Path, key: string, c: Casing) {
    var folded := c.Lower()(key);
    if '.' in key && path == [] then
      folded == "authn.method" || folded == "authn.oidc" || folded == "authn.oidc.issuer" || folded == "authn.oidc.audience"
    else if '.' in key && |path| == 1 then
      c.EqualFold(path[0], "authn") && (folded == "oidc.issuer" || folded == "oidc.audience")
    else if '.' in key && |path| == 2 then
      c.EqualFold(path[0], "authn") && c.EqualFold(path[1], "oidc") && (folded == "issuer" || folded == "audience")
    else
      || (path == [] && c.EqualFold(key, "authn"))
      || (AtAuthn(path, c) && (c.EqualFold(key, "method") || c.EqualFold(key, "oidc")))
      || (AtOidc(path, c) && (c.EqualFold(key, "issuer") || c.EqualFold(key, "audience")))
  }

  /** `openFGACanonicalKey` */
  predicate CanonicalKey(path: Path, key: string) {
    if path == [] then key == "authn"
    else if path == ["authn"] then key == "method" || key == "oidc"
    else path == ["authn", "oidc"] && (key == "issuer" || key == "audience")
  }

  // ---------- the pre-scan on an arbitrary stream

  datatype Scan = Scan(ambiguous: bool, rest: seq<Token>)

  function Walk(s: seq<Token>, path: Path, c: Casing, ambiguous: bool): (r: Option<Scan>)
    ensures r.Some? ==> |r.value.rest| < |s|
    decreases |s|, 0
  {
    if s == [] then None
    else match s[0]
      case OpenObject => WalkFields(s[1..], path, c, map[], ambiguous)
      case OpenArray => WalkItems(s[1..], path, c, ambiguous)
      case Atom(_) => Some(Scan(ambiguous, s[1..]))
      case CloseObject => None
      case CloseArray => None
  }

  /** The verdict on one key, given the last key seen for each lower-cased form. */
  datatype KeyVerdict = BadKey | GoodKey(ambiguous: bool)

  function JudgeKey(path: Path, key: string, c: Casing, seen: map<string, string>): KeyVerdict {
    var folded := c.Lower()(key);
    if key == "" || (folded in seen && seen[folded] == key) then BadKey
    else GoodKey(|| (RelevantKey(path, key, c) && !CanonicalKey(path, key))
                 || (folded in seen && RelevantPath(path, folded, c)))
  }

  function WalkFields(s: seq<Token>, path: Path, c: Casing, seen: map<string, string>, ambiguous: bool): (r: Option<Scan>)
    ensures r.Some? ==> |r.value.rest| < |s|
    decreases |s|, 1
  {
    if s == [] || s[0] == CloseArray then None
    else if s[0] == CloseObject then Some(Scan(ambiguous, s[1..]))
    else if !(s[0].Atom? && s[0].atom.StringAtom?) then None
    else
      var key := s[0].atom.s;
      var verdict := JudgeKey(path, key, c, seen);
      if verdict.BadKey? then None
      else
        var child := Walk(s[1..], path + [key], c, ambiguous || verdict.ambiguous);
        if child == None then None
        else WalkFields(child.value.rest, path, c, seen[c.Lower()(key) := key], child.value.ambiguous)
  }

  function WalkItems(s: seq<Token>, path: Path, c: Casing, ambiguous: bool): (r: Option<Scan>)
    ensures r.Some? ==> |r.value.rest| < |s|
    decreases |s|, 1
  {
    if s == [] || s[0] == CloseObject then None
    else if s[0] == CloseArray then Some(Scan(ambiguous, s[1..]))
    else
      var child := Walk(s, path, c, ambiguous);
      if child == None then None else WalkItems(child.value.rest, path, c, child.value.ambiguous)
  }

  /** `openFGARelevantCaseAmbiguity`, `None` for its error. */
  function CaseAmbiguity(s: seq<Token>, clean: bool, c: Casing): Option<bool> {
    var r := Walk(s, [], c, false);
    if r == None || r.value.rest != [] || !clean then None else Some(r.value.ambiguous)
  }

  // ---------- the pre-scan of a document

  ghost function WalkDoc(t: Doc, path: Path, c: Casing): Option<bool>
    decreases t
  {
    match t
    case Leaf(_) => Some(false)
    case List(items) => WalkDocs(items, path, c)
    case Dict(members) => WalkDict(members, path, c, map[])
  }

  ghost function Either(a: Option<bool>, b: Option<bool>): Option<bool> {
    if a == None || b == None then None else Some(a.value || b.value)
  }

  ghost function WalkDocs(items: Docs, path: Path, c: Casing): Option<bool>
    decreases items
  {
    if items.NoDocs? then Some(false) else Either(WalkDoc(items.head, path, c), WalkDocs(items.tail, path, c))
  }

  ghost function WalkDict(members: Fields, path: Path, c: Casing, seen: map<string, string>): Option<bool>
    decreases members
  {
    if members.NoFields? then Some(false)
    else
      var verdict := JudgeKey(path, members.key, c, seen);
      if verdict.BadKey? then None
      else
        Either(Some(verdict.ambiguous),
               Either(WalkDoc(members.value, path + [members.key], c),
                      WalkDict(members.rest, path, c, seen[c.Lower()(members.key) := members.key])))
  }

  ghost function Scanned(result: Option<bool>, ambiguous: bool, rest: seq<Token>): Option<Scan> {
    if result == None then None else Some(Scan(ambiguous || result.value, rest))
  }

  lemma {:induction false} WalkFilters(s: seq<Token>, path: Path, c: Casing, ambiguous: bool)
    ensures Walk(s, path, c, ambiguous)
         == match Parse(s)
            case None => None
            case Some(d) => Scanned(WalkDoc(d.tree, path, c), ambiguous, d.rest)
    decreases |s|, 0
  {
    if s != [] {
      match s[0]
      case OpenObject => WalkFieldsFilter(s[1..], path, c, map[], ambiguous);
      case OpenArray => WalkItemsFilter(s[1..], path, c, ambiguous);
      case _ =>
    }
  }

  lemma {:induction false} WalkFieldsFilter(s: seq<Token>, path: Path, c: Casing, seen: map<string, string>, ambiguous: bool)
    ensures WalkFields(s, path, c, seen, ambiguous)
         == match ParseFields(s)
            case None => None
            case Some(d) => Scanned(WalkDict(d.tree, path, c, seen), ambiguous, d.rest)
    decreases |s|, 1
  {
    hide JudgeKey, Walk, Parse, WalkDoc;
    if s != [] && s[0].Atom? && s[0].atom.StringAtom? {
      var key := s[0].atom.s;
      var verdict := JudgeKey(path, key, c, seen);
      if verdict.GoodKey? {
        WalkFilters(s[1..], path + [key], c, ambiguous || verdict.ambiguous);
        var child := Walk(s[1..], path + [key], c, ambiguous || verdict.ambiguous);
        if child.Some? {
          WalkFieldsFilter(child.value.rest, path, c, seen[c.Lower()(key) := key], child.value.ambiguous);
        }
      }
    }
  }

  lemma {:induction false} WalkItemsFilter(s: seq<Token>, path: Path, c: Casing, ambiguous: bool)
    ensures WalkItems(s, path, c, ambiguous)
         == match ParseItems(s)
            case None => None
            case Some(d) => Scanned(WalkDocs(d.tree, path, c), ambiguous, d.rest)
    decreases |s|, 1
  {
    if s != [] && s[0] != CloseObject && s[0] != CloseArray {
      WalkFilters(s, path, c, ambiguous);
      var child := Walk(s, path, c, ambiguous);
      if child.Some? {
        WalkItemsFilter(child.value.rest, path, c, child.value.ambiguous);
      }
    }
  }

  // ---------- reading

  /** What a reader that compares keys by `same` may find for a name. */
  ghost predicate MayRead(t: Doc, name: string, same: (string, string) -> bool, found: Option<Doc>) {
    if !t.Dict? then found == None
    else match found
      case Some(v) => exists key :: Has(t.members, key, v) && same(key, name)
      case None => forall key, v :: Has(t.members, key, v) ==> !same(key, name)
  }

  /** Only the exact spelling is taken for the name. */
  ghost predicate OnlyExact(t: Doc, name: string, same: (string, string) -> bool) {
    t.Dict? ==> forall key, v :: Has(t.members, key, v) && same(key, name) ==> key == name
  }

  ghost function Find(members: Fields, name: string): Option<Doc> {
    if members.NoFields? then None
    else if members.key == name then Some(members.value)
    else Find(members.rest, name)
  }

  ghost function Exact(t: Doc, name: string): Option<Doc> {
    if t.Dict? then Find(t.members, name) else None
  }

  lemma {:induction false} FindHas(members: Fields, name: string)
    ensures Find(members, name).Some? ==> Has(members, name, Find(members, name).value)
    ensures Find(members, name) == None ==> forall v :: !Has(members, name, v)
  {
    if members.Fields? {
      FindHas(members.rest, name);
      assert forall v :: Has(members, name, v) ==> (members.key == name && members.value == v) || Has(members.rest, name, v);
    }
  }

  lemma {:induction false} HasKey(members: Fields, name: string, v: Doc)
    requires Has(members, name, v)
    ensures name in Keys(members)
  {
    if !(members.key == name && members.value == v) {
      HasKey(members.rest, name, v);
    }
  }

  lemma {:induction false} FindOnly(members: Fields, name: string, v: Doc)
    requires Distinct(Keys(members)) && Has(members, name, v)
    ensures Find(members, name) == Some(v)
  {
    DistinctTail(members.key, Keys(members.rest));
    if !(members.key == name && members.value == v) {
      HasKey(members.rest, name, v);
      FindOnly(members.rest, name, v);
    }
  }

  lemma {:induction false} LoweredDistinct(members: Fields, lower: string -> string)
    requires Distinct(Lowered(members, lower))
    ensures Distinct(Keys(members))
    ensures forall key :: key in Keys(members) ==> lower(key) in Lowered(members, lower)
  {
    if members.Fields? {
      DistinctTail(lower(members.key), Lowered(members.rest, lower));
      LoweredDistinct(members.rest, lower);
      DistinctTail(members.key, Keys(members.rest));
    }
  }

  /** A reader that takes only the exact spelling for the name agrees with the exact reading, whatever it picks. */
  lemma ExactReading(t: Doc, name: string, same: (string, string) -> bool, found: Option<Doc>)
    requires t.Dict? ==> Distinct(Keys(t.members))
    requires same(name, name) && OnlyExact(t, name, same)
    ensures MayRead(t, name, same, found) <==> found == Exact(t, name)
  {
    if t.Dict? {
      FindHas(t.members, name);
      if MayRead(t, name, same, found) && found.Some? {
        FindOnly(t.members, name, found.value);
      }
    }
  }

  // ---------- what a clear pre-scan says about the keys

  lemma {:induction false} ClearMember(members: Fields, path: Path, c: Casing, seen: map<string, string>, key: string, v: Doc)
    requires WalkDict(members, path, c, seen) == Some(false) && Has(members, key, v)
    ensures RelevantKey(path, key, c) ==> CanonicalKey(path, key)
    ensures WalkDoc(v, path + [key], c) == Some(false)
    decreases members
  {
    hide RelevantKey, CanonicalKey, RelevantPath;
    if !(members.key == key && members.value == v) {
      ClearMember(members.rest, path, c, seen[c.Lower()(members.key) := members.key], key, v);
    }
  }

  /** A key that folds to a name without a full stop has none. */
  lemma FoldKeepsDots(key: string, name: string, c: Casing)
    requires c.Sane() && c.EqualFold(key, name) && '.' !in name
    ensures '.' !in key
  {
    forall i | 0 <= i < |key| ensures key[i] != '.' {
      assert Mapped(c.fold, key)[i] == Mapped(c.fold, name)[i];
    }
  }

  /** The places and the names that matter. */
  ghost predicate Relevant(path: Path, name: string) {
    || (path == [] && name == "authn")
    || (path == ["authn"] && (name == "method" || name == "oidc"))
    || (path == ["authn", "oidc"] && (name == "issuer" || name == "audience"))
  }

  lemma RelevantSpelling(path: Path, name: string, key: string, c: Casing)
    requires c.Sane() && Relevant(path, name) && c.EqualFold(key, name)
    requires RelevantKey(path, key, c) ==> CanonicalKey(path, key)
    ensures CanonicalKey(path, key)
  {
    FoldKeepsDots(key, name, c);
  }

  /** Canonical keys that fold alike are alike: the names differ in length or in a letter that stays apart. */
  ghost predicate NamesApart(c: Casing) {
    !c.EqualFold("method", "oidc") && !c.EqualFold("issuer", "audience")
  }

  lemma NamesAreApart(c: Casing)
    ensures NamesApart(c)
  {
    assert |Mapped(c.fold, "method")| == 6 && |Mapped(c.fold, "oidc")| == 4;
    assert |Mapped(c.fold, "issuer")| == 6 && |Mapped(c.fold, "audience")| == 8;
  }

  /** After a clear pre-scan, only the exact spelling folds to a relevant name. */
  lemma ClearObject(t: Doc, path: Path, name: string, c: Casing)
    requires c.Sane() && Relevant(path, name) && WalkDoc(t, path, c) == Some(false)
    ensures OnlyExact(t, name, c.EqualFold)
  {
    if t.Dict? {
      forall key, v | Has(t.members, key, v) && c.EqualFold(key, name) ensures key == name {
        ClearMember(t.members, path, c, map[], key, v);
        RelevantSpelling(path, name, key, c);
        NamesAreApart(c);
      }
    }
  }

  // ---------- the selected fields

  datatype Reading = Unreadable | Readable(way: string, issuer: string, audience: string)

  predicate IsString(v: Option<Value>) {
    v.Some? && v.value.Scalar? && v.value.atom.StringAtom?
  }

  /** The ladder of `openFGAFields`, on the five values it looks up. */
  function Assemble(
      authn: Option<Value>, way: Option<Value>, oidc: Option<Value>, issuer: Option<Value>, audience: Option<Value>): Reading
  {
    if authn == None || !authn.value.Mapping? || !IsString(way) then Unreadable
    else if way.value.atom.s != "oidc" || oidc == None then Readable(way.value.atom.s, "", "")
    else if !oidc.value.Mapping? || (issuer.Some? && !IsString(issuer)) || (audience.Some? && !IsString(audience)) then Unreadable
    else Readable(way.value.atom.s,
                  if issuer.Some? then issuer.value.atom.s else "",
                  if audience.Some? then audience.value.atom.s else "")
  }

  function Look(v: Option<Value>, name: string): Option<Value> {
    if v.Some? && v.value.Mapping? && name in v.value.entries then Some(v.value.entries[name]) else None
  }

  /** `openFGAFields`: every key exactly as it is spelled. */
  function OpenFgaFields(root: Value): Reading {
    var authn := Look(Some(root), "authn");
    var oidc := Look(authn, "oidc");
    Assemble(authn, Look(authn, "method"), oidc, Look(oidc, "issuer"), Look(oidc, "audience"))
  }

  ghost function ValueOf(t: Option<Doc>): Option<Value> {
    if t.Some? then Some(Meaning(t.value)) else None
  }

  ghost predicate MayReadIn(t: Option<Doc>, name: string, same: (string, string) -> bool, found: Option<Doc>) {
    if t.Some? then MayRead(t.value, name, same, found) else found == None
  }

  ghost function ExactIn(t: Option<Doc>, name: string): Option<Doc> {
    if t.Some? then Exact(t.value, name) else None
  }

  /** What a reader picked for each of the five names. */
  datatype Picks = Picks(authn: Option<Doc>, way: Option<Doc>, oidc: Option<Doc>, issuer: Option<Doc>, audience: Option<Doc>) {
    ghost predicate By(t: Doc, same: (string, string) -> bool) {
      && MayReadIn(Some(t), "authn", same, authn)
      && MayReadIn(authn, "method", same, way) && MayReadIn(authn, "oidc", same, oidc)
      && MayReadIn(oidc, "issuer", same, issuer) && MayReadIn(oidc, "audience", same, audience)
    }

    ghost function Report(): Reading {
      Assemble(ValueOf(authn), ValueOf(way), ValueOf(oidc), ValueOf(issuer), ValueOf(audience))
    }
  }

  ghost function ExactPicks(t: Doc): Picks {
    var authn := Exact(t, "authn");
    var oidc := ExactIn(authn, "oidc");
    Picks(authn, ExactIn(authn, "method"), oidc, ExactIn(oidc, "issuer"), ExactIn(oidc, "audience"))
  }

  /** What a reader that compares keys by `same` may report. */
  ghost predicate MayReport(t: Doc, same: (string, string) -> bool, r: Reading) {
    exists picks: Picks :: picks.By(t, same) && r == picks.Report()
  }

  lemma {:induction false} EntriesFind(entries: map<string, Value>, members: Fields, name: string)
    requires Distinct(Keys(members)) && name !in entries
    ensures var found := Find(members, name);
            (name in Entries(entries, members) <==> found.Some?)
            && (found.Some? ==> Entries(entries, members)[name] == Meaning(found.value))
    decreases members
  {
    if members.Fields? {
      DistinctTail(members.key, Keys(members.rest));
      if members.key == name {
        EntriesKeep(entries[name := Meaning(members.value)], members.rest, name);
      } else {
        EntriesFind(entries[members.key := Meaning(members.value)], members.rest, name);
      }
    }
  }

  lemma {:induction false} EntriesKeep(entries: map<string, Value>, members: Fields, name: string)
    requires name !in Keys(members) && name in entries
    ensures name in Entries(entries, members) && Entries(entries, members)[name] == entries[name]
    decreases members
  {
    if members.Fields? {
      EntriesKeep(entries[members.key := Meaning(members.value)], members.rest, name);
    }
  }

  /** A document with clear keys: no key repeated, and nothing else folds to a relevant name. */
  ghost predicate Tidy(t: Option<Doc>) {
    t.Some? && t.value.Dict? ==> Distinct(Keys(t.value.members))
  }

  lemma LookIsExact(t: Option<Doc>, name: string)
    requires Tidy(t)
    ensures Look(ValueOf(t), name) == ValueOf(ExactIn(t, name))
  {
    if t.Some? && t.value.Dict? {
      EntriesFind(map[], t.value.members, name);
    }
  }

  /** What was found exactly in an admitted and clearly scanned document is itself such a document. */
  lemma Descend(t: Doc, path: Path, name: string, depth: nat, p: Policy, c: Casing)
    requires Admitted(t, depth, p) && WalkDoc(t, path, c) == Some(false)
    requires Exact(t, name).Some?
    ensures Admitted(Exact(t, name).value, depth + 1, p)
    ensures WalkDoc(Exact(t, name).value, path + [name], c) == Some(false)
  {
    FindHas(t.members, name);
    AdmittedMember(t.members, depth + 1, p, name, Exact(t, name).value);
    ClearMember(t.members, path, c, map[], name, Exact(t, name).value);
  }

  lemma {:induction false} AdmittedMember(members: Fields, depth: nat, p: Policy, key: string, v: Doc)
    requires FieldsAdmitted(members, depth, p) && Has(members, key, v)
    ensures Admitted(v, depth, p)
  {
    if !(members.key == key && members.value == v) {
      AdmittedMember(members.rest, depth, p, key, v);
    }
  }

  lemma TidyAdmitted(t: Doc, depth: nat, p: Policy)
    requires Admitted(t, depth, p)
    ensures Tidy(Some(t))
  {
    if t.Dict? {
      LoweredDistinct(t.members, p.lower);
    }
  }

  /** Every name is read in one way only. */
  ghost predicate ReadOnce(t: Option<Doc>, name: string, same: (string, string) -> bool) {
    forall found :: MayReadIn(t, name, same, found) <==> found == ExactIn(t, name)
  }

  lemma ReadsOnce(t: Doc, path: Path, name: string, depth: nat, p: Policy, c: Casing)
    requires c.Sane() && Relevant(path, name)
    requires Admitted(t, depth, p) && WalkDoc(t, path, c) == Some(false)
    ensures ReadOnce(Some(t), name, c.EqualFold)
    ensures Look(Some(Meaning(t)), name) == ValueOf(Exact(t, name))
  {
    TidyAdmitted(t, depth, p);
    ClearObject(t, path, name, c);
    LookIsExact(Some(t), name);
    forall found ensures MayReadIn(Some(t), name, c.EqualFold, found) <==> found == Exact(t, name) {
      ExactReading(t, name, c.EqualFold, found);
    }
  }

  /** After a clear pre-scan, every case-insensitive reader reports what the exact reading reports. */
  lemma ReadersAgree(t: Doc, c: Casing, r: Reading)
    requires c.Sane() && Admitted(t, 0, Policy(true, c.Lower())) && WalkDoc(t, [], c) == Some(false)
    ensures MayReport(t, c.EqualFold, r) <==> r == OpenFgaFields(Meaning(t))
  {
    hide MayReadIn, WalkDoc, Admitted;
    var p := Policy(true, c.Lower());
    var same := c.EqualFold;
    ReadsOnce(t, [], "authn", 0, p, c);
    var authn := Exact(t, "authn");
    var way, oidc := ExactIn(authn, "method"), ExactIn(authn, "oidc");
    if authn.Some? {
      Descend(t, [], "authn", 0, p, c);
      assert [] + ["authn"] == ["authn"];
      ReadsOnce(authn.value, ["authn"], "method", 1, p, c);
      ReadsOnce(authn.value, ["authn"], "oidc", 1, p, c);
      if oidc.Some? {
        Descend(authn.value, ["authn"], "oidc", 1, p, c);
        assert ["authn"] + ["oidc"] == ["authn", "oidc"];
        ReadsOnce(oidc.value, ["authn", "oidc"], "issuer", 2, p, c);
        ReadsOnce(oidc.value, ["authn", "oidc"], "audience", 2, p, c);
      }
    }
    NothingReadOnce(same);
    assert OpenFgaFields(Meaning(t)) == ExactPicks(t).Report();
    PicksOnce(t, same);
  }

  lemma NothingReadOnce(same: (string, string) -> bool)
    ensures forall name :: ReadOnce(None, name, same)
  {
  }

  /** When every name is read in one way only, so is the whole. */
  lemma PicksOnce(t: Doc, same: (string, string) -> bool)
    requires ReadOnce(Some(t), "authn", same)
    requires ReadOnce(ExactPicks(t).authn, "method", same) && ReadOnce(ExactPicks(t).authn, "oidc", same)
    requires ReadOnce(ExactPicks(t).oidc, "issuer", same) && ReadOnce(ExactPicks(t).oidc, "audience", same)
    ensures forall picks: Picks :: picks.By(t, same) <==> picks == ExactPicks(t)
  {
    hide MayReadIn, Exact;
  }

  /** The same, for every input that both the pre-scan and the strict decoder accept. */
  lemma ReadersAgreeOnInput(s: seq<Token>, clean: bool, c: Casing, v: Value)
    requires c.Sane() && CaseAmbiguity(s, clean, c) == Some(false)
    requires StrictDocument(s, clean, Policy(true, c.Lower())) == Some(v)
    ensures exists t :: s == Tokens(t) && forall r :: MayReport(t, c.EqualFold, r) <==> r == OpenFgaFields(v)
  {
    StrictIff(s, clean, Policy(true, c.Lower()), v);
    var t :| s == Tokens(t) && Admitted(t, 0, Policy(true, c.Lower())) && v == Meaning(t);
    assert s == Tokens(t) + [];
    ParseTokens(t, []);
    WalkFilters(s, [], c, false);
    forall r ensures MayReport(t, c.EqualFold, r) <==> r == OpenFgaFields(v) {
      ReadersAgree(t, c, r);
    }
  }

  // ---------- the pre-scan itself

  ghost predicate Reads(decoder: Decoder, from: nat, r: Option<Scan>, ok: bool, ambiguous: bool, open: seq<Token>)
    reads decoder
  {
    && decoder.Valid() && decoder.pos >= from
    && ok == r.Some?
    && (ok ==> decoder.open == open && r == Some(Scan(ambiguous, decoder.Rest())))
  }

  method WalkValue(decoder: Decoder, path: Path, c: Casing, before: bool) returns (ok: bool, ambiguous: bool)
    requires decoder.Valid()
    modifies decoder
    ensures Reads(decoder, old(decoder.pos), Walk(old(decoder.Rest()), path, c, before), ok, ambiguous, old(decoder.open))
    decreases |decoder.tokens| - decoder.pos, 0
  {
    var token := decoder.Next();
    if token == None {
      return false, before;
    }
    match token.value
    case OpenObject => ok, ambiguous := WalkObject(decoder, path, c, before);
    case OpenArray => ok, ambiguous := WalkArray(decoder, path, c, before);
    case Atom(_) => return true, before;
    case CloseObject => return false, before;
    case CloseArray => return false, before;
  }

  /** A key of an object: whether it repeats the last one of its lower-cased form, and whether it is to be noted. */
  method InspectKey(path: Path, key: string, c: Casing, seen: map<string, string>) returns (repeated: bool, noted: bool)
    requires key != ""
    ensures JudgeKey(path, key, c, seen) == if repeated then BadKey else GoodKey(noted)
  {
    hide RelevantKey, CanonicalKey, RelevantPath;
    var folded := c.Lower()(key);
    repeated := false;
    noted := RelevantKey(path, key, c) && !CanonicalKey(path, key);
    if folded in seen {
      if seen[folded] == key {
        return true, noted;
      }
      if RelevantPath(path, folded, c) {
        noted := true;
      }
    }
  }

  lemma EmptyKey(path: Path, c: Casing, seen: map<string, string>)
    ensures JudgeKey(path, "", c, seen).BadKey?
  {
  }

  method WalkObject(decoder: Decoder, path: Path, c: Casing, before: bool) returns (ok: bool, ambiguous: bool)
    requires decoder.Valid() && decoder.open != [] && decoder.open[|decoder.open| - 1] == OpenObject
    modifies decoder
    ensures Reads(decoder, old(decoder.pos), WalkFields(old(decoder.Rest()), path, c, map[], before), ok, ambiguous,
                  old(decoder.open)[..|old(decoder.open)| - 1])
    decreases |decoder.tokens| - decoder.pos, 1
  {
    hide Walk, JudgeKey;
    var seen: map<string, string> := map[];
    ambiguous := before;
    ghost var goal := WalkFields(decoder.Rest(), path, c, map[], before);
    ghost var open := decoder.open;
    var more := decoder.More();
    while more
      invariant decoder.Valid() && decoder.pos >= old(decoder.pos) && decoder.open == open
      invariant goal == WalkFields(decoder.Rest(), path, c, seen, ambiguous)
      invariant more <==> decoder.Rest() != [] && decoder.Rest()[0] != CloseObject && decoder.Rest()[0] != CloseArray
      decreases |decoder.tokens| - decoder.pos
    {
      EmptyKey(path, c, seen);
      var token := decoder.Next();
      if token == None || !(token.value.Atom? && token.value.atom.StringAtom?) || token.value.atom.s == "" {
        return false, ambiguous;
      }
      var key := token.value.atom.s;
      var folded := c.Lower()(key);
      var repeated, noted := InspectKey(path, key, c, seen);
      if repeated {
        return false, ambiguous;
      }
      ambiguous := ambiguous || noted;
      seen := seen[folded := key];
      ok, ambiguous := WalkValue(decoder, path + [key], c, ambiguous);
      if !ok {
        return false, ambiguous;
      }
      more := decoder.More();
    }
    var close := decoder.Next();
    return close.Some?, ambiguous;
  }

  method WalkArray(decoder: Decoder, path: Path, c: Casing, before: bool) returns (ok: bool, ambiguous: bool)
    requires decoder.Valid() && decoder.open != [] && decoder.open[|decoder.open| - 1] == OpenArray
    modifies decoder
    ensures Reads(decoder, old(decoder.pos), WalkItems(old(decoder.Rest()), path, c, before), ok, ambiguous,
                  old(decoder.open)[..|old(decoder.open)| - 1])
    decreases |decoder.tokens| - decoder.pos, 1
  {
    ambiguous := before;
    ghost var goal := WalkItems(decoder.Rest(), path, c, before);
    ghost var open := decoder.open;
    var more := decoder.More();
    while more
      invariant decoder.Valid() && decoder.pos >= old(decoder.pos) && decoder.open == open
      invariant goal == WalkItems(decoder.Rest(), path, c, ambiguous)
      invariant more <==> decoder.Rest() != [] && decoder.Rest()[0] != CloseObject && decoder.Rest()[0] != CloseArray
      decreases |decoder.tokens| - decoder.pos
    {
      ok, ambiguous := WalkValue(decoder, path, c, ambiguous);
      if !ok {
        return false, ambiguous;
      }
      more := decoder.More();
    }
    var close := decoder.Next();
    return close.Some?, ambiguous;
  }

  method RelevantCaseAmbiguity(tokens: seq<Token>, clean: bool, c: Casing) returns (result: Option<bool>)
    ensures result == CaseAmbiguity(tokens, clean, c)
  {
    var decoder := new Decoder(tokens, clean);
    assert tokens[0..] == tokens;
    var ok, ambiguous := WalkValue(decoder, [], c, false);
    if !ok || !(decoder.pos == |decoder.tokens| && decoder.clean) {
      return None;
    }
    return Some(ambiguous);
  }
}
