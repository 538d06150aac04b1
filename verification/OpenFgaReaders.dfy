/** Readers that lower-case keys instead of folding them: when they agree with the exact reading, and when not. */
module OpenFgaReaders {
  import opened Common
  import opened JsonTokens
  import opened StrictDecoder
  import opened OpenFga

  // ---------- what they may pick

  /**
    Lower-casing and folding differ, and the pre-scan folds. In an admitted
    object, a reader that lower-cases agrees with the exact reading exactly when
    no other key lower-cases to the name.
    */
  lemma LowerReadingIff(t: Doc, name: string, c: Casing)
    requires t.Dict? ==> Distinct(Lowered(t.members, c.Lower()))
    ensures (forall found :: MayRead(t, name, c.EqualLower, found) <==> found == Exact(t, name))
            <==> OnlyExact(t, name, c.EqualLower)
  {
    if t.Dict? {
      LoweredDistinct(t.members, c.Lower());
      if OnlyExact(t, name, c.EqualLower) {
        forall found ensures MayRead(t, name, c.EqualLower, found) <==> found == Exact(t, name) {
          ExactReading(t, name, c.EqualLower, found);
        }
      } else {
        var key, v :| Has(t.members, key, v) && c.EqualLower(key, name) && key != name;
        assert MayRead(t, name, c.EqualLower, Some(v));
        FindHas(t.members, name);
        if Exact(t, name).Some? {
          SameLowered(t.members, c.Lower(), key, v, name, Exact(t, name).value);
        }
      }
    }
  }

  lemma {:induction false} SameLowered(members: Fields, lower: string -> string, key: string, v: Doc, key': string, v': Doc)
    requires Distinct(Lowered(members, lower))
    requires Has(members, key, v) && Has(members, key', v') && lower(key) == lower(key')
    ensures key == key'
  {
    DistinctTail(lower(members.key), Lowered(members.rest, lower));
    LoweredDistinct(members.rest, lower);
    var here, here' := members.key == key && members.value == v, members.key == key' && members.value == v';
    if here && !here' {
      HasKey(members.rest, key', v');
    } else if !here && here' {
      HasKey(members.rest, key, v);
    } else if !here {
      SameLowered(members.rest, lower, key, v, key', v');
    }
  }

  /** What is found exactly in an admitted document is absent or admitted. */
  ghost predicate AdmittedIn(t: Option<Doc>, depth: nat, p: Policy) {
    t.Some? ==> Admitted(t.value, depth, p)
  }

  lemma AdmittedExact(t: Option<Doc>, name: string, depth: nat, p: Policy)
    requires AdmittedIn(t, depth, p)
    ensures AdmittedIn(ExactIn(t, name), depth + 1, p)
  {
    if ExactIn(t, name).Some? {
      FindHas(t.value.members, name);
      AdmittedMember(t.value.members, depth + 1, p, name, ExactIn(t, name).value);
    }
  }

  ghost predicate OnlyExactIn(t: Option<Doc>, name: string, same: (string, string) -> bool) {
    t.Some? ==> OnlyExact(t.value, name, same)
  }

  lemma LowerReadOnce(t: Option<Doc>, name: string, depth: nat, c: Casing)
    requires AdmittedIn(t, depth, Policy(true, c.Lower()))
    ensures ReadOnce(t, name, c.EqualLower) <==> OnlyExactIn(t, name, c.EqualLower)
    ensures Look(ValueOf(t), name) == ValueOf(ExactIn(t, name))
  {
    hide OnlyExact, MayRead, Exact;
    if t.Some? {
      LowerReadingIff(t.value, name, c);
      assert forall found :: MayRead(t.value, name, c.EqualLower, found) <==> MayReadIn(t, name, c.EqualLower, found);
      TidyAdmitted(t.value, depth, Policy(true, c.Lower()));
    }
    LookIsExact(t, name);
  }

  /** Every reader finds something, if only that there is nothing. */
  lemma SomeReading(t: Option<Doc>, name: string, same: (string, string) -> bool) returns (found: Option<Doc>)
    ensures MayReadIn(t, name, same, found)
  {
    found := None;
    if t.Some? && t.value.Dict? {
      if key, v :| Has(t.value.members, key, v) && same(key, name) {
        found := Some(v);
      }
    }
  }

  /** No key at the five places lower-cases to a name without being that name. */
  ghost predicate NoStray(t: Doc, c: Casing) {
    var p, same := ExactPicks(t), c.EqualLower;
    && OnlyExactIn(Some(t), "authn", same)
    && OnlyExactIn(p.authn, "method", same) && OnlyExactIn(p.authn, "oidc", same)
    && OnlyExactIn(p.oidc, "issuer", same) && OnlyExactIn(p.oidc, "audience", same)
  }

  ghost predicate AllReadOnce(t: Doc, same: (string, string) -> bool) {
    var p := ExactPicks(t);
    && ReadOnce(Some(t), "authn", same)
    && ReadOnce(p.authn, "method", same) && ReadOnce(p.authn, "oidc", same)
    && ReadOnce(p.oidc, "issuer", same) && ReadOnce(p.oidc, "audience", same)
  }

  ghost predicate OnlyPicks(t: Doc, same: (string, string) -> bool) {
    forall picks: Picks :: picks.By(t, same) <==> picks == ExactPicks(t)
  }

  /** One way to read the whole means one way to read each name. */
  lemma PicksOnlyOnce(t: Doc, same: (string, string) -> bool)
    requires OnlyPicks(t, same)
    ensures AllReadOnce(t, same)
  {
    hide MayReadIn, Exact;
    var p := ExactPicks(t);
    assert p.By(t, same);
    forall found | MayReadIn(Some(t), "authn", same, found) ensures found == p.authn {
      var way := SomeReading(found, "method", same);
      var oidc := SomeReading(found, "oidc", same);
      var issuer := SomeReading(oidc, "issuer", same);
      var audience := SomeReading(oidc, "audience", same);
      assert Picks(found, way, oidc, issuer, audience).By(t, same);
    }
    forall found | MayReadIn(p.authn, "method", same, found) ensures found == p.way {
      assert p.(way := found).By(t, same);
    }
    forall found | MayReadIn(p.authn, "oidc", same, found) ensures found == p.oidc {
      var issuer := SomeReading(found, "issuer", same);
      var audience := SomeReading(found, "audience", same);
      assert p.(oidc := found, issuer := issuer, audience := audience).By(t, same);
    }
    forall found | MayReadIn(p.oidc, "issuer", same, found) ensures found == p.issuer {
      assert p.(issuer := found).By(t, same);
    }
    forall found | MayReadIn(p.oidc, "audience", same, found) ensures found == p.audience {
      assert p.(audience := found).By(t, same);
    }
  }

  lemma LowerReadEverywhere(t: Doc, c: Casing)
    requires Admitted(t, 0, Policy(true, c.Lower()))
    ensures AllReadOnce(t, c.EqualLower) <==> NoStray(t, c)
    ensures OpenFgaFields(Meaning(t)) == ExactPicks(t).Report()
  {
    hide ReadOnce, OnlyExactIn, Admitted, Exact;
    var p, policy := ExactPicks(t), Policy(true, c.Lower());
    AdmittedExact(Some(t), "authn", 0, policy);
    AdmittedExact(p.authn, "oidc", 1, policy);
    LowerReadOnce(Some(t), "authn", 0, c);
    LowerReadOnce(p.authn, "method", 1, c);
    LowerReadOnce(p.authn, "oidc", 1, c);
    LowerReadOnce(p.oidc, "issuer", 2, c);
    LowerReadOnce(p.oidc, "audience", 2, c);
  }

  /**
    On every admitted document, a reader that lower-cases can only pick what the
    exact reading picks exactly when no stray key stands at the five places.
    */
  lemma LowerReadersIff(t: Doc, c: Casing)
    requires Admitted(t, 0, Policy(true, c.Lower()))
    ensures OnlyPicks(t, c.EqualLower) <==> NoStray(t, c)
    ensures NoStray(t, c) ==> forall r :: MayReport(t, c.EqualLower, r) <==> r == OpenFgaFields(Meaning(t))
  {
    hide ReadOnce, NoStray, Admitted, OpenFgaFields;
    LowerReadEverywhere(t, c);
    if OnlyPicks(t, c.EqualLower) {
      PicksOnlyOnce(t, c.EqualLower);
    }
    if NoStray(t, c) {
      PicksOnce(t, c.EqualLower);
    }
  }

  // ---------- what a lower-casing reader finds

  /** The member whose key lower-cases to the name; in an admitted object there is at most one. */
  ghost function FindLower(members: Fields, name: string, c: Casing): Option<Doc> {
    if members.NoFields? then None
    else if c.EqualLower(members.key, name) then Some(members.value)
    else FindLower(members.rest, name, c)
  }

  ghost function LowerIn(t: Option<Doc>, name: string, c: Casing): Option<Doc> {
    if t.Some? && t.value.Dict? then FindLower(t.value.members, name, c) else None
  }

  lemma {:induction false} FindLowerHas(members: Fields, name: string, c: Casing)
    ensures var found := FindLower(members, name, c);
            if found.Some? then exists key :: Has(members, key, found.value) && c.EqualLower(key, name)
            else forall key, v :: Has(members, key, v) ==> !c.EqualLower(key, name)
  {
    if members.Fields? {
      FindLowerHas(members.rest, name, c);
      assert Has(members, members.key, members.value);
    }
  }

  lemma {:induction false} FindLowerOnly(members: Fields, name: string, c: Casing, key: string, v: Doc)
    requires Distinct(Lowered(members, c.Lower())) && Has(members, key, v) && c.EqualLower(key, name)
    ensures FindLower(members, name, c) == Some(v)
  {
    DistinctTail(c.Lower()(members.key), Lowered(members.rest, c.Lower()));
    if !(members.key == key && members.value == v) {
      LoweredDistinct(members.rest, c.Lower());
      HasKey(members.rest, key, v);
      FindLowerOnly(members.rest, name, c, key, v);
    }
  }

  /** A lower-casing reader has no choice in an admitted document. */
  lemma LowerReadIs(t: Option<Doc>, name: string, depth: nat, c: Casing, found: Option<Doc>)
    requires AdmittedIn(t, depth, Policy(true, c.Lower()))
    ensures MayReadIn(t, name, c.EqualLower, found) <==> found == LowerIn(t, name, c)
  {
    if t.Some? && t.value.Dict? {
      var members := t.value.members;
      FindLowerHas(members, name, c);
      if MayReadIn(t, name, c.EqualLower, found) && found.Some? {
        var key :| Has(members, key, found.value) && c.EqualLower(key, name);
        FindLowerOnly(members, name, c, key, found.value);
      }
    }
  }

  /** Where the exact reading finds something, a lower-casing reader finds the same. */
  lemma LowerExact(t: Option<Doc>, name: string, depth: nat, c: Casing)
    requires AdmittedIn(t, depth, Policy(true, c.Lower()))
    ensures ExactIn(t, name).Some? ==> LowerIn(t, name, c) == ExactIn(t, name)
  {
    if ExactIn(t, name).Some? {
      FindHas(t.value.members, name);
      FindLowerOnly(t.value.members, name, c, name, ExactIn(t, name).value);
    }
  }

  lemma AdmittedLower(t: Option<Doc>, name: string, depth: nat, c: Casing)
    requires AdmittedIn(t, depth, Policy(true, c.Lower()))
    ensures AdmittedIn(LowerIn(t, name, c), depth + 1, Policy(true, c.Lower()))
  {
    var found := LowerIn(t, name, c);
    if found.Some? {
      FindLowerHas(t.value.members, name, c);
      var key :| Has(t.value.members, key, found.value) && c.EqualLower(key, name);
      AdmittedMember(t.value.members, depth + 1, Policy(true, c.Lower()), key, found.value);
    }
  }

  ghost function LowerPicks(t: Doc, c: Casing): Picks {
    var authn := LowerIn(Some(t), "authn", c);
    var oidc := LowerIn(authn, "oidc", c);
    Picks(authn, LowerIn(authn, "method", c), oidc, LowerIn(oidc, "issuer", c), LowerIn(oidc, "audience", c))
  }

  /** Every lower-casing reader of an admitted document picks the same, and so reports the same. */
  lemma LowerReadersReport(t: Doc, c: Casing, r: Reading)
    requires Admitted(t, 0, Policy(true, c.Lower()))
    ensures MayReport(t, c.EqualLower, r) <==> r == LowerPicks(t, c).Report()
  {
    hide MayReadIn, Admitted, LowerIn;
    var p := LowerPicks(t, c);
    AdmittedLower(Some(t), "authn", 0, c);
    AdmittedLower(p.authn, "oidc", 1, c);
    forall picks: Picks ensures picks.By(t, c.EqualLower) <==> picks == p {
      LowerReadIs(Some(t), "authn", 0, c, picks.authn);
      LowerReadIs(p.authn, "method", 1, c, picks.way);
      LowerReadIs(p.authn, "oidc", 1, c, picks.oidc);
      LowerReadIs(p.oidc, "issuer", 2, c, picks.issuer);
      LowerReadIs(p.oidc, "audience", 2, c, picks.audience);
    }
    assert p.By(t, c.EqualLower);
  }

  // ---------- when the answers agree

  const LETTERS := "authnmethod"

  /** What lower-cases to one of these letters also folds to it; in Unicode only `i` and `k` have strays. */
  ghost predicate LowersPlainly(c: Casing) {
    forall x, i :: 0 <= i < |LETTERS| && c.lower(x) == c.lower(LETTERS[i]) ==> c.fold(x) == c.fold(LETTERS[i])
  }

  lemma LowerThenFold(key: string, name: string, c: Casing)
    requires LowersPlainly(c) && (name == LETTERS[..5] || name == LETTERS[5..]) && c.EqualLower(key, name)
    ensures c.EqualFold(key, name)
  {
    assert Mapped(c.lower, key) == Mapped(c.lower, name);
    assert |key| == |name|;
    forall i | 0 <= i < |key| ensures c.fold(key[i]) == c.fold(name[i]) {
      assert Mapped(c.lower, key)[i] == Mapped(c.lower, name)[i];
      assert name[i] == LETTERS[if name == LETTERS[..5] then i else i + 5];
    }
    assert Mapped(c.fold, key) == Mapped(c.fold, name);
  }

  lemma PlainName(t: Doc, path: Path, name: string, depth: nat, c: Casing)
    requires c.Sane() && LowersPlainly(c) && Relevant(path, name) && (name == "authn" || name == "method")
    requires Admitted(t, depth, Policy(true, c.Lower())) && WalkDoc(t, path, c) == Some(false)
    ensures LowerIn(Some(t), name, c) == Exact(t, name)
  {
    hide WalkDoc, Relevant, LowersPlainly;
    assert LETTERS[..5] == "authn" && LETTERS[5..] == "method";
    ClearObject(t, path, name, c);
    if t.Dict? {
      FindLowerHas(t.members, name, c);
      var found := FindLower(t.members, name, c);
      if found.Some? {
        var key :| Has(t.members, key, found.value) && c.EqualLower(key, name);
        LowerThenFold(key, name, c);
        FindHas(t.members, name);
      }
      LowerExact(Some(t), name, depth, c);
    }
  }

  /** Nothing, or an empty string. */
  ghost predicate Empty(t: Option<Doc>) {
    t == None || t == Some(Leaf(StringAtom("")))
  }

  ghost predicate IsText(t: Option<Doc>) {
    t.Some? && t.value.Leaf? && t.value.atom.StringAtom?
  }

  /** What only a lower-casing reader sees for a name is nothing or empty. */
  ghost predicate NothingHidden(t: Option<Doc>, name: string, c: Casing) {
    ExactIn(t, name).Some? || Empty(LowerIn(t, name, c))
  }

  /**
    Hidden keys do not matter unless the method is `oidc`. Then a hidden `oidc`
    must be an object with an empty issuer and an empty audience, and in a visible
    one a hidden issuer or audience must be empty, unless the visible ones make
    the whole unreadable anyway.
    */
  ghost predicate SameAnswer(t: Doc, c: Casing) {
    var p := ExactPicks(t);
    p.way == Some(Leaf(StringAtom("oidc"))) ==>
      if p.oidc.Some? then
        || !p.oidc.value.Dict?
        || (p.issuer.Some? && !IsText(p.issuer)) || (p.audience.Some? && !IsText(p.audience))
        || (NothingHidden(p.oidc, "issuer", c) && NothingHidden(p.oidc, "audience", c))
      else
        var hidden := LowerIn(p.authn, "oidc", c);
        hidden.Some? ==> hidden.value.Dict? && Empty(LowerIn(hidden, "issuer", c)) && Empty(LowerIn(hidden, "audience", c))
  }

  /** In what a lower-casing reader picks, only `oidc` and what is below it can differ from the exact picks. */
  lemma LowerPicksShape(t: Doc, c: Casing)
    requires c.Sane() && LowersPlainly(c)
    requires Admitted(t, 0, Policy(true, c.Lower())) && WalkDoc(t, [], c) == Some(false)
    ensures var e, l := ExactPicks(t), LowerPicks(t, c);
            && l.authn == e.authn && l.way == e.way
            && (e.oidc.Some? ==> l.oidc == e.oidc)
            && (e.issuer.Some? ==> l.issuer == e.issuer) && (e.audience.Some? ==> l.audience == e.audience)
  {
    hide WalkDoc, Admitted, LowerIn, Exact, LowersPlainly;
    var p, policy := ExactPicks(t), Policy(true, c.Lower());
    PlainName(t, [], "authn", 0, c);
    if p.authn.Some? {
      Descend(t, [], "authn", 0, policy, c);
      assert [] + ["authn"] == ["authn"];
      PlainName(p.authn.value, ["authn"], "method", 1, c);
      AdmittedExact(p.authn, "oidc", 1, policy);
      LowerExact(p.authn, "oidc", 1, c);
      LowerExact(p.oidc, "issuer", 2, c);
      LowerExact(p.oidc, "audience", 2, c);
    } else {
      NothingLower(c);
    }
  }

  lemma NothingLower(c: Casing)
    ensures forall name :: LowerIn(None, name, c) == None && ExactIn(None, name) == None
  {
  }

  lemma TextValue(t: Option<Doc>)
    ensures IsString(ValueOf(t)) <==> IsText(t)
    ensures IsText(t) ==> ValueOf(t).value.atom.s == t.value.atom.s
    ensures t.Some? ==> (ValueOf(t).value.Mapping? <==> t.value.Dict?)
  {
  }

  /** The two ladders give the same answer exactly under that condition. */
  lemma SameReportIff(t: Doc, c: Casing)
    requires var e, l := ExactPicks(t), LowerPicks(t, c);
             && l.authn == e.authn && l.way == e.way
             && (e.oidc.Some? ==> l.oidc == e.oidc)
             && (e.issuer.Some? ==> l.issuer == e.issuer) && (e.audience.Some? ==> l.audience == e.audience)
    ensures LowerPicks(t, c).Report() == ExactPicks(t).Report() <==> SameAnswer(t, c)
  {
    hide FindLower, Find, Meaning;
    var e, l := ExactPicks(t), LowerPicks(t, c);
    TextValue(e.authn);
    TextValue(e.way);
    TextValue(e.oidc);
    TextValue(l.oidc);
    TextValue(e.issuer);
    TextValue(l.issuer);
    TextValue(e.audience);
    TextValue(l.audience);
  }

  /**
    After a clear pre-scan of an admitted document, what lower-casing readers
    report is what the exact reading reports exactly when the hidden keys satisfy
    that condition.
    */
  lemma LowerAnswersIff(t: Doc, c: Casing)
    requires c.Sane() && LowersPlainly(c)
    requires Admitted(t, 0, Policy(true, c.Lower())) && WalkDoc(t, [], c) == Some(false)
    ensures (forall r :: MayReport(t, c.EqualLower, r) <==> r == OpenFgaFields(Meaning(t))) <==> SameAnswer(t, c)
  {
    hide MayReport, OpenFgaFields, Admitted, WalkDoc, SameAnswer, LowersPlainly;
    LowerPicksShape(t, c);
    SameReportIff(t, c);
    LowerReadEverywhere(t, c);
    forall r ensures MayReport(t, c.EqualLower, r) <==> r == LowerPicks(t, c).Report() {
      LowerReadersReport(t, c, r);
    }
    assert MayReport(t, c.EqualLower, LowerPicks(t, c).Report());
  }

  // ---------- a document that is read differently

  /** Go's mappings on ASCII and on the code points that map into it. */
  function GoLower(c: char): char {
    if 'A' <= c <= 'Z' then (c as int + 32) as char
    else if c == '\U{0130}' then 'i'
    else if c == '\U{212A}' then 'k'
    else c
  }

  function GoFold(c: char): char {
    if 'A' <= c <= 'Z' then (c as int + 32) as char
    else if c == '\U{017F}' then 's'
    else if c == '\U{212A}' then 'k'
    else c
  }

  const GO: Casing := Casing(GoLower, GoFold)

  lemma GoIsPlain()
    ensures GO.Sane() && LowersPlainly(GO) && GO.lower('.') == '.'
  {
    forall x, i | 0 <= i < |LETTERS| && GO.lower(x) == GO.lower(LETTERS[i]) ensures GO.fold(x) == GO.fold(LETTERS[i]) {
      var y := LETTERS[i];
      assert 'a' <= y <= 'z' && y != 'i' && y != 'k';
    }
  }

  const STRAY := "\U{0130}ssuer"

  ghost function One(key: string, value: Doc): Doc {
    Dict(Fields(key, value, NoFields))
  }

  ghost const OIDC_DOC: Doc := One(STRAY, Leaf(StringAtom("x")))
  ghost const AUTHN_DOC: Doc := Dict(Fields("method", Leaf(StringAtom("oidc")), Fields("oidc", OIDC_DOC, NoFields)))
  ghost const STRAY_DOC: Doc := One("authn", AUTHN_DOC)

  lemma StrayKey()
    ensures GO.Sane() && GO.EqualLower(STRAY, "issuer") && !GO.EqualFold(STRAY, "issuer")
    ensures !GO.EqualLower(STRAY, "audience") && !GO.EqualFold(STRAY, "audience")
  {
    assert Mapped(GoLower, STRAY) == Mapped(GoLower, "issuer");
    assert Mapped(GoFold, STRAY)[0] != Mapped(GoFold, "issuer")[0];
    assert |Mapped(GoLower, STRAY)| == 6 && |Mapped(GoLower, "audience")| == 8;
    assert |Mapped(GoFold, STRAY)| == 6 && |Mapped(GoFold, "audience")| == 8;
  }

  lemma StrayIsClear()
    ensures WalkDoc(OIDC_DOC, ["authn", "oidc"], GO) == Some(false)
    ensures WalkDoc(STRAY_DOC, [], GO) == Some(false)
  {
    StrayKey();
    assert JudgeKey(["authn", "oidc"], STRAY, GO, map[]) == GoodKey(false) by {
      assert '.' !in STRAY;
    }
    assert WalkDict(OIDC_DOC.members, ["authn", "oidc"], GO, map[]) == Some(false);
    var seen: map<string, string> := map[GO.Lower()("method") := "method"];
    assert GO.Lower()("oidc") !in seen by {
      assert |GO.Lower()("oidc")| == 4 && |GO.Lower()("method")| == 6;
    }
    assert ["authn"] + ["oidc"] == ["authn", "oidc"];
    assert WalkDict(Fields("oidc", OIDC_DOC, NoFields), ["authn"], GO, seen) == Some(false);
    assert WalkDict(AUTHN_DOC.members, ["authn"], GO, map[]) == Some(false);
    assert [] + ["authn"] == ["authn"];
    assert WalkDict(STRAY_DOC.members, [], GO, map[]) == Some(false);
  }

  lemma StrayIsAdmitted()
    ensures Admitted(STRAY_DOC, 0, Policy(true, GO.Lower()))
  {
    var p := Policy(true, GO.Lower());
    assert |GO.Lower()("oidc")| == 4 && |GO.Lower()("method")| == 6;
    assert Lowered(AUTHN_DOC.members, p.lower) == [p.lower("method"), p.lower("oidc")];
    assert Count(AUTHN_DOC.members) == 2;
    assert Admitted(OIDC_DOC, 2, p);
    assert FieldsAdmitted(Fields("oidc", OIDC_DOC, NoFields), 2, p);
    assert Admitted(AUTHN_DOC, 1, p);
  }

  /** A document that passes the pre-scan and the strict decoder, in which a lower-casing reader finds an issuer and the exact reading none. */
  lemma LowerReaderDiffers()
    ensures WalkDoc(STRAY_DOC, [], GO) == Some(false) && Admitted(STRAY_DOC, 0, Policy(true, GO.Lower()))
    ensures OpenFgaFields(Meaning(STRAY_DOC)) == Readable("oidc", "", "")
    ensures MayReport(STRAY_DOC, GO.EqualLower, Readable("oidc", "x", ""))
  {
    hide WalkDoc, Admitted, MayReport, OpenFgaFields, Meaning;
    StrayIsClear();
    StrayIsAdmitted();
    StrayMeaning();
    StrayReport();
  }

  lemma StrayReads()
    ensures MayRead(STRAY_DOC, "authn", GO.EqualLower, Some(AUTHN_DOC))
    ensures MayRead(AUTHN_DOC, "method", GO.EqualLower, Some(Leaf(StringAtom("oidc"))))
    ensures MayRead(AUTHN_DOC, "oidc", GO.EqualLower, Some(OIDC_DOC))
    ensures MayRead(OIDC_DOC, "issuer", GO.EqualLower, Some(Leaf(StringAtom("x"))))
    ensures MayRead(OIDC_DOC, "audience", GO.EqualLower, None)
  {
    StrayKey();
    assert forall key, v :: Has(OIDC_DOC.members, key, v) ==> key == STRAY;
    assert Has(STRAY_DOC.members, "authn", AUTHN_DOC);
    assert Has(AUTHN_DOC.members, "method", Leaf(StringAtom("oidc")));
    assert Has(AUTHN_DOC.members, "oidc", OIDC_DOC);
    assert Has(OIDC_DOC.members, STRAY, Leaf(StringAtom("x")));
  }

  lemma StrayReport()
    ensures MayReport(STRAY_DOC, GO.EqualLower, Readable("oidc", "x", ""))
  {
    hide MayRead;
    StrayReads();
    var picks := Picks(Some(AUTHN_DOC), Some(Leaf(StringAtom("oidc"))), Some(OIDC_DOC), Some(Leaf(StringAtom("x"))), None);
    assert picks.By(STRAY_DOC, GO.EqualLower);
    assert picks.Report() == Readable("oidc", "x", "");
  }

  lemma StrayMeaning()
    ensures OpenFgaFields(Meaning(STRAY_DOC)) == Readable("oidc", "", "")
  {
    var oidc := Mapping(map[STRAY := Scalar(StringAtom("x"))]);
    assert Meaning(OIDC_DOC) == oidc;
    var authn := Mapping(map["method" := Scalar(StringAtom("oidc")), "oidc" := oidc]);
    assert Entries(map["method" := Scalar(StringAtom("oidc"))], Fields("oidc", OIDC_DOC, NoFields)) == authn.entries;
    assert Meaning(AUTHN_DOC) == authn;
    assert Meaning(STRAY_DOC) == Mapping(map["authn" := authn]);
    assert STRAY[0] != "issuer"[0] && |STRAY| != |"audience"|;
  }
}
