/** What the two Kubernetes adapters declare, on the entries of the decoded document. */
module KubernetesReports {
  import opened Common
  import opened GoStrings
  import opened GoStringsProofs
  import opened JsonTokens
  import opened StrictDecoder
  import opened Kubernetes
  import opened KubernetesProofs

  // ---------- names

  /** A dotted name of at most 253 bytes whose labels are not empty. */
  ghost predicate IsGroupName(s: string) {
    && |s| <= 253
    && (forall part :: part in Split(s, '.') ==> part != "" && IsLabel(part))
    && !HasPrefix(s, "-") && !HasSuffix(s, "-")
  }

  ghost predicate IsLabel(s: string) {
    forall i :: 0 <= i < |s| ==> 'a' <= s[i] <= 'z' || IsDigit(s[i]) || s[i] == '-'
  }

  /** The letter v, a digit, and lower-case letters and digits. */
  ghost predicate IsVersionName(s: string) {
    |s| >= 2 && s[0] == 'v' && IsDigit(s[1]) && forall i :: 0 <= i < |s| ==> 'a' <= s[i] <= 'z' || IsDigit(s[i])
  }

  ghost predicate IsKindName(s: string) {
    && 1 <= |s| <= 63 && 'A' <= s[0] <= 'Z'
    && forall i :: 0 <= i < |s| ==> 'a' <= s[i] <= 'z' || 'A' <= s[i] <= 'Z' || IsDigit(s[i])
  }

  lemma {:induction false} LabelsOf(s: string)
    ensures (forall part :: part in Split(s, '.') ==> IsLabel(part)) <==>
            forall i :: 0 <= i < |s| ==> LowerOrDigit(s[i]) || s[i] == '.' || s[i] == '-'
  {
    if s != "" {
      LabelsOf(s[1..]);
      var rest := Split(s[1..], '.');
      assert s == [s[0]] + s[1..];
      if s[0] == '.' {
        assert Split(s, '.') == [""] + rest;
        assert IsLabel("");
      } else {
        assert rest == [rest[0]] + rest[1..];
        assert IsLabel([s[0]] + rest[0]) <==> IsLabel([s[0]]) && IsLabel(rest[0]) by { LabelCons(s[0], rest[0]); }
        assert IsLabel([s[0]]) <==> LowerOrDigit(s[0]) || s[0] == '-' by { assert [s[0]][0] == s[0]; }
      }
    } else {
      assert Split("", '.') == [""];
    }
  }

  lemma LabelCons(c: char, s: string)
    ensures IsLabel([c] + s) <==> IsLabel([c]) && IsLabel(s)
  {
    var t := [c] + s;
    assert t[0] == c && [c][0] == c;
    assert forall i :: 0 <= i < |s| ==> s[i] == t[i + 1];
  }

  ghost predicate AllFull(parts: seq<string>) {
    forall i :: 0 <= i < |parts| ==> parts[i] != ""
  }

  ghost predicate TwoDotsAt(s: string, i: nat) {
    i + 1 < |s| && s[i] == '.' && s[i + 1] == '.'
  }

  ghost predicate TwoDots(s: string) {
    exists i: nat :: TwoDotsAt(s, i)
  }

  lemma TwoDotsCons(c: char, s: string)
    ensures TwoDots([c] + s) <==> (c == '.' && s != "" && s[0] == '.') || TwoDots(s)
  {
    var t := [c] + s;
    if i: nat :| TwoDotsAt(t, i) {
      if i > 0 {
        assert TwoDotsAt(s, i - 1);
      }
    }
    if c == '.' && s != "" && s[0] == '.' {
      assert TwoDotsAt(t, 0);
    }
    if i: nat :| TwoDotsAt(s, i) {
      assert TwoDotsAt(t, i + 1);
    }
  }

  lemma AllFullCons(part: string, parts: seq<string>)
    ensures AllFull([part] + parts) <==> part != "" && AllFull(parts)
  {
    var all := [part] + parts;
    assert all[0] == part && forall i :: 0 <= i < |parts| ==> parts[i] == all[i + 1];
  }

  lemma FirstLabel(s: string)
    requires s != ""
    ensures Split(s, '.')[0] == "" <==> s[0] == '.'
    ensures Split(s, '.')[1..] == if s[0] == '.' then Split(s[1..], '.') else Split(s[1..], '.')[1..]
  {
  }

  /** The labels after the first are not empty exactly when no dot is last or next to another. */
  lemma {:induction false} LaterLabels(s: string)
    requires s != ""
    ensures AllFull(Split(s, '.')[1..]) <==> s[|s| - 1] != '.' && !TwoDots(s)
  {
    hide Split, TwoDots, AllFull;
    var tail := s[1..];
    FirstLabel(s);
    assert s == [s[0]] + tail;
    TwoDotsCons(s[0], tail);
    if tail == "" {
      ShortLabels();
    } else {
      LaterLabels(tail);
      FirstLabel(tail);
      var rest := Split(tail, '.');
      assert rest == [rest[0]] + rest[1..];
      AllFullCons(rest[0], rest[1..]);
    }
  }

  lemma ShortLabels()
    ensures Split("", '.') == [""] && !AllFull([""]) && AllFull([""][1..]) && !TwoDots("")
  {
    assert [""][0] == "";
  }

  lemma LabelsFull(s: string)
    ensures AllFull(Split(s, '.')) <==> s != "" && s[0] != '.' && s[|s| - 1] != '.' && !TwoDots(s)
  {
    hide Split, TwoDots, AllFull;
    ShortLabels();
    if s != "" {
      LaterLabels(s);
      FirstLabel(s);
      var parts := Split(s, '.');
      assert parts == [parts[0]] + parts[1..];
      AllFullCons(parts[0], parts[1..]);
    }
  }

  lemma DotsIff(s: string)
    ensures Contains(s, "..") <==> TwoDots(s)
  {
    if Contains(s, "..") {
      var i :| 0 <= i <= |s| && ContainsAt(s, "..", i);
      assert s[i] == s[i..i + 2][0] && s[i + 1] == s[i..i + 2][1];
      assert TwoDotsAt(s, i);
    }
    if i: nat :| TwoDotsAt(s, i) {
      assert s[i..i + 2] == "..";
      assert ContainsAt(s, "..", i);
    }
  }

  lemma FullIff(parts: seq<string>)
    ensures AllFull(parts) <==> forall part :: part in parts ==> part != ""
  {
    forall i | 0 <= i < |parts| ensures parts[i] in parts {
    }
    forall part | part in parts && AllFull(parts) ensures part != "" {
      var i :| 0 <= i < |parts| && parts[i] == part;
    }
  }

  lemma GroupIff(s: string)
    ensures IsGroup(s) <==> IsGroupName(s)
  {
    hide Contains, Split, TwoDots;
    LabelsFull(s);
    LabelsOf(s);
    DotsIff(s);
    FullIff(Split(s, '.'));
    assert s != "" ==> (HasPrefix(s, "-") <==> s[0] == '-') && (HasSuffix(s, "-") <==> s[|s| - 1] == '-') by {
      if s != "" {
        assert s[..1] == [s[0]] && s[|s| - 1..] == [s[|s| - 1]];
      }
    }
  }

  /** Core version 1, or a group and a version with one slash between them. */
  ghost predicate IsApiName(s: string) {
    s == "v1" || exists group, version :: s == group + ['/'] + version && IsGroupName(group) && IsVersionName(version)
  }

  lemma NamesHaveNoSlash(group: string, version: string)
    ensures IsGroup(group) ==> '/' !in group
    ensures IsVersionName(version) ==> '/' !in version && IsVersion(version)
    ensures IsVersion(version) ==> IsVersionName(version)
  {
  }

  lemma ApiIff(s: string)
    ensures IsApiVersion(s) <==> IsApiName(s)
  {
    hide IsGroup, IsGroupName, IsVersion, IsVersionName;
    var halves := Cut(s, '/');
    CutSplits(s, '/');
    if halves.value.Some? {
      GroupIff(halves.name);
      NamesHaveNoSlash(halves.name, halves.value.value);
    }
    forall group, version | s == group + ['/'] + version && IsGroupName(group) && IsVersionName(version)
      ensures IsApiVersion(s)
    {
      GroupIff(group);
      NamesHaveNoSlash(group, version);
      CutOf(group, '/', version);
    }
  }

  // ---------- documents

  ghost predicate HasText(o: Object, key: string, text: string) {
    key in o && o[key] == Scalar(StringAtom(text))
  }

  /** The document says that it is of this version and kind, in names that are well formed. */
  ghost predicate Says(o: Object, api: string, kind: string) {
    HasText(o, "apiVersion", api) && HasText(o, "kind", kind) && IsApiName(api) && IsKindName(kind)
  }

  lemma GvkIff(o: Object, api: string, kind: string)
    ensures GvkOf(o) == Some(Gvk(api, kind)) <==> Says(o, api, kind)
  {
    hide IsApiVersion, IsApiName;
    ApiIff(api);
    if GvkOf(o).Some? {
      ApiIff(GvkOf(o).value.api);
    }
  }

  /** A document of a kind that is not a list. */
  ghost predicate IsFlat(o: Object) {
    exists api, kind :: Says(o, api, kind) && !HasSuffix(kind, "List")
  }

  lemma FlatIff(o: Object)
    ensures IsFlatDocument(o) <==> IsFlat(o)
  {
    hide GvkOf, Says;
    if IsFlatDocument(o) {
      GvkIff(o, GvkOf(o).value.api, GvkOf(o).value.kind);
      assert "List"[0..] == "List";
    }
    if api, kind :| Says(o, api, kind) && !HasSuffix(kind, "List") {
      GvkIff(o, api, kind);
      assert HasSuffix("List", "List");
    }
  }

  // ---------- pages

  /** The metadata of a list can be read: a continuation is a string, a remaining count a number. */
  ghost predicate IsReadable(root: Object, count: CountOf) {
    "metadata" in root ==>
      && root["metadata"].Mapping?
      && var m := root["metadata"].entries;
         && ("continue" in m ==> exists s :: m["continue"] == Scalar(StringAtom(s)))
         && ("remainingItemCount" in m ==> exists n :: m["remainingItemCount"] == Scalar(NumberAtom(n)) && count(n).Some?)
  }

  /** The metadata says that there is more: a continuation that is not empty, or a remaining count that is not zero. */
  ghost predicate HasMore(root: Object, count: CountOf) {
    && "metadata" in root && root["metadata"].Mapping?
    && var m := root["metadata"].entries;
       || ("continue" in m && !HasText(m, "continue", ""))
       || ("remainingItemCount" in m
           && exists n :: m["remainingItemCount"] == Scalar(NumberAtom(n)) && count(n).Some? && count(n).value > 0)
  }

  lemma PaginationIff(root: Object, count: CountOf)
    ensures Pagination(root, count).Some? <==> IsReadable(root, count)
    ensures Pagination(root, count).Some? ==> (Pagination(root, count).value <==> HasMore(root, count))
  {
    if "metadata" in root && root["metadata"].Mapping? {
      var m := root["metadata"].entries;
      if "continue" in m && StringAt(m, "continue").Some? {
        assert m["continue"] == Scalar(StringAtom(StringAt(m, "continue").value));
      }
      if "remainingItemCount" in m && m["remainingItemCount"].Scalar? && m["remainingItemCount"].atom.NumberAtom? {
        assert m["remainingItemCount"] == Scalar(NumberAtom(m["remainingItemCount"].atom.lexeme));
      }
    }
  }

  // ---------- apply sets

  /** The root is one flat document, or a list of flat documents in core version 1 whose metadata can be read. */
  ghost predicate IsSet(root: Object, documents: seq<Object>, partial: bool, count: CountOf) {
    || (documents == [root] && IsFlat(root) && !partial)
    || (&& Says(root, "v1", "List")
        && documents != [] && "items" in root && root["items"].Sequence?
        && |root["items"].items| == |documents|
        && (forall i :: 0 <= i < |documents| ==> root["items"].items[i] == Mapping(documents[i]) && IsFlat(documents[i]))
        && IsReadable(root, count) && (partial <==> HasMore(root, count)))
  }

  ghost predicate IsApplySet(input: Input, documents: seq<Object>, partial: bool, count: CountOf) {
    && !input.templated && input.decoded.Some? && input.decoded.value.Mapping?
    && IsSet(input.decoded.value.entries, documents, partial, count)
  }

  lemma AllFlatIff(documents: seq<Object>)
    ensures AllFlat(documents) <==> forall i :: 0 <= i < |documents| ==> IsFlat(documents[i])
  {
    hide IsFlat, IsFlatDocument;
    forall i | 0 <= i < |documents| ensures IsFlatDocument(documents[i]) <==> IsFlat(documents[i]) {
      FlatIff(documents[i]);
    }
  }

  /** A single document and a list exclude each other. */
  lemma ListIsNotFlat(root: Object)
    requires Says(root, "v1", "List")
    ensures !IsFlat(root)
  {
    hide IsApiName, IsKindName;
    assert HasSuffix("List", "List");
  }

  lemma SetIsRead(input: Input, documents: seq<Object>, partial: bool, count: CountOf)
    requires IsApplySet(input, documents, partial, count)
    ensures DocumentSet(input, true, count) == Documents(documents, partial)
  {
    hide IsFlat, IsReadable, HasMore, Pagination, GvkOf, Says, IsFlatDocument;
    var root := input.decoded.value.entries;
    FlatIff(root);
    PaginationIff(root, count);
    AllFlatIff(documents);
    if documents == [root] && IsFlat(root) && !partial {
      FlatRoot(root);
    } else {
      GvkIff(root, "v1", "List");
      var items := root["items"].items;
      assert AllObjects(items);
      assert ObjectsOf(items) == documents;
    }
  }

  lemma FlatRoot(root: Object)
    requires IsFlatDocument(root)
    ensures GvkOf(root).Some? && GvkOf(root).value.kind != "List" && !HasSuffix(GvkOf(root).value.kind, "List")
  {
    hide GvkOf;
  }

  lemma ReadIsSet(input: Input, documents: seq<Object>, partial: bool, count: CountOf)
    requires DocumentSet(input, true, count) == Documents(documents, partial)
    ensures IsApplySet(input, documents, partial, count)
  {
    hide IsFlat, IsReadable, HasMore, Pagination, Says;
    var root := input.decoded.value.entries;
    var gvk := GvkOf(root).value;
    GvkIff(root, gvk.api, gvk.kind);
    FlatIff(root);
    PaginationIff(root, count);
    AllFlatIff(documents);
  }

  ghost predicate SomeSet(input: Input, count: CountOf) {
    exists documents, partial :: IsApplySet(input, documents, partial, count)
  }

  // ---------- facts

  /** A document of the group and one of the kinds, in this version. */
  ghost predicate IsAt(o: Object, r: Removal, version: string) {
    exists kind :: kind in r.kinds && Says(o, r.group + ['/'] + version, kind)
  }

  ghost predicate IsPresent(documents: seq<Object>, r: Removal) {
    exists i :: 0 <= i < |documents| && IsAt(documents[i], r, r.removed)
  }

  ghost predicate IsUnreviewed(documents: seq<Object>, r: Removal) {
    exists i, version :: 0 <= i < |documents| && IsAt(documents[i], r, version) && version != r.removed && version !in r.served
  }

  lemma VersionIff(o: Object, r: Removal, version: string)
    ensures VersionFor(o, r) == Some(version) <==> IsAt(o, r, version)
  {
    hide IsApiName, IsKindName, HasText;
    if VersionFor(o, r) == Some(version) {
      var gvk := GvkOf(o).value;
      GvkIff(o, gvk.api, gvk.kind);
      CutSplits(gvk.api, '/');
    }
    if kind :| kind in r.kinds && Says(o, r.group + ['/'] + version, kind) {
      var api := r.group + ['/'] + version;
      GvkIff(o, api, kind);
      OneSlash(r.group, version);
    }
  }

  lemma SlashIn(a: string, b: string, g: string, v: string)
    requires a + ['/'] + b == g + ['/'] + v
    ensures |a| < |g| ==> '/' in g
    ensures |a| > |g| ==> '/' in v
    ensures |a| == |g| ==> a == g && b == v
  {
    var s := a + ['/'] + b;
    assert s[|a|] == '/';
    if |a| < |g| {
      assert g[|a|] == s[|a|];
    } else if |a| > |g| {
      assert v[|a| - |g| - 1] == s[|a|];
    } else {
      assert s[..|a|] == a && s[..|a|] == g && s[|a| + 1..] == b && s[|a| + 1..] == v;
    }
  }

  lemma OneSlash(group: string, version: string)
    requires IsApiName(group + ['/'] + version)
    ensures Cut(group + ['/'] + version, '/') == Halves(group, Some(version))
  {
    hide IsGroupName, IsVersionName, IsGroup, IsVersion;
    var s := group + ['/'] + version;
    assert s[|group|] == '/' && '/' !in "v1";
    var g, v :| s == g + ['/'] + v && IsGroupName(g) && IsVersionName(v);
    GroupIff(g);
    NamesHaveNoSlash(g, v);
    SlashIn(group, version, g, v);
    CutOf(g, '/', v);
  }

  /** What a row of the table says about documents. */
  lemma FactIff(documents: seq<Object>, r: Removal)
    ensures FactFor(documents, r) == if IsUnreviewed(documents, r) then Unsupported else Declared(IsPresent(documents, r))
  {
    PresentIff(documents, r);
    UnreviewedIff(documents, r);
  }

  lemma PresentIff(documents: seq<Object>, r: Removal)
    ensures Present(documents, r) <==> IsPresent(documents, r)
  {
    hide VersionFor, IsAt;
    forall i | 0 <= i < |documents| ensures VersionFor(documents[i], r) == Some(r.removed) <==> IsAt(documents[i], r, r.removed) {
      VersionIff(documents[i], r, r.removed);
    }
  }

  lemma UnreviewedIff(documents: seq<Object>, r: Removal)
    ensures Unreviewed(documents, r) <==> IsUnreviewed(documents, r)
  {
    hide VersionFor, IsAt;
    if Unreviewed(documents, r) {
      var i :| 0 <= i < |documents| && UnreviewedVersion(documents[i], r);
      VersionIff(documents[i], r, VersionFor(documents[i], r).value);
    }
    if i, version :| 0 <= i < |documents| && IsAt(documents[i], r, version) && version != r.removed && version !in r.served {
      VersionIff(documents[i], r, version);
      assert UnreviewedVersion(documents[i], r);
    }
  }

  // ---------- reports

  /** The scope and the set are such that facts can be declared at all. */
  ghost predicate MayDeclare(input: Input, scope: Scope, documents: seq<Object>, count: CountOf) {
    && input.readable && scope.guarded && scope.complete
    && IsApplySet(input, documents, false, count)
  }

  /** The row of a removal, on what the documents say. */
  ghost function RowOf(documents: seq<Object>, r: Removal): Row {
    Row(r.id, if IsUnreviewed(documents, r) then Unsupported else Declared(IsPresent(documents, r)))
  }

  /** The rows are those of the table, for these documents. */
  ghost predicate RowsSay(rows: seq<Row>, table: seq<Removal>, documents: seq<Object>) {
    forall row :: row in rows <==> exists i :: 0 <= i < |table| && row == RowOf(documents, table[i])
  }

  ghost predicate NothingDeclared(report: Report) {
    report.Report? ==> !report.prepared && forall row :: row in report.rows ==> row.fact == Unsupported
  }

  lemma RowsAreSaid(documents: seq<Object>, table: seq<Removal>)
    ensures RowsSay(SortRows(RowsFor(documents, table)), table, documents)
  {
    hide FactFor, IsUnreviewed, IsPresent, SortRows;
    var rows := RowsFor(documents, table);
    SortRowsSorts(rows);
    forall i | 0 <= i < |table| ensures rows[i] == RowOf(documents, table[i]) && rows[i] in rows {
      FactIff(documents, table[i]);
    }
    forall row | row in rows ensures exists i :: 0 <= i < |table| && row == RowOf(documents, table[i]) {
      var i :| 0 <= i < |rows| && rows[i] == row;
    }
  }

  /**
    When facts can be declared, the general adapter reports exactly the rows of
    the table for the documents, and is prepared exactly when none of them is
    undecided; a present removal is the decisive reason.
    */
  lemma GeneralDeclares(input: Input, scope: Scope, table: seq<Removal>, count: CountOf, documents: seq<Object>)
    requires MayDeclare(input, scope, documents, count)
    ensures var r := General(input, scope, table, count);
            && r.Report? && RowsSay(r.rows, table, documents)
            && (r.prepared <==> forall i :: 0 <= i < |table| ==> !IsUnreviewed(documents, table[i]))
            && (r.reason == RemovedGvkPresent <==>
                exists i :: 0 <= i < |table| && IsPresent(documents, table[i]) && !IsUnreviewed(documents, table[i]))
            && r.reason in {RemovedGvkPresent, GvkVersionUnreviewed, RemovedGvkAbsent}
            && (r.reason == RemovedGvkAbsent ==> r.prepared)
  {
    hide DocumentSet, IsApplySet, FactFor, SortRows, IsUnreviewed, IsPresent;
    SetIsRead(input, documents, false, count);
    RowsAreSaid(documents, table);
    var rows := RowsFor(documents, table);
    forall i | 0 <= i < |table| ensures rows[i] == RowOf(documents, table[i]) {
      FactIff(documents, table[i]);
    }
    assert SomeFact(rows, Unsupported) <==> exists i :: 0 <= i < |table| && IsUnreviewed(documents, table[i]) by {
      if SomeFact(rows, Unsupported) {
        var i :| 0 <= i < |rows| && rows[i].fact == Unsupported;
        assert IsUnreviewed(documents, table[i]);
      }
      if i :| 0 <= i < |table| && IsUnreviewed(documents, table[i]) {
        assert rows[i].fact == Unsupported;
      }
    }
    assert SomeFact(rows, Declared(true)) <==>
           exists i :: 0 <= i < |table| && IsPresent(documents, table[i]) && !IsUnreviewed(documents, table[i]) by {
      if SomeFact(rows, Declared(true)) {
        var i :| 0 <= i < |rows| && rows[i].fact == Declared(true);
        assert IsPresent(documents, table[i]);
      }
      if i :| 0 <= i < |table| && IsPresent(documents, table[i]) && !IsUnreviewed(documents, table[i]) {
        assert rows[i].fact == Declared(true);
      }
    }
  }

  lemma UnknownDeclaresNothing(table: seq<Removal>, reason: Reason)
    ensures NothingDeclared(UnknownReport(table, reason))
  {
    hide SortRows;
    SortRowsSorts(UnsupportedRows(table));
  }

  /**
    Otherwise nothing is declared, and the refusal or the reason says why: in this
    order the bytes, the target, the rendering, the decoding, the shape, the scope
    and the pages.
    */
  lemma GeneralDeclaresNothing(input: Input, scope: Scope, table: seq<Removal>, count: CountOf)
    requires forall documents :: !MayDeclare(input, scope, documents, count)
    ensures var r := General(input, scope, table, count);
            && NothingDeclared(r)
            && (r.Refused? <==> !input.readable || (scope.guarded && !input.templated && input.decoded == None))
            && (r.Report? ==>
                  r.reason == if !scope.guarded then TargetGuard
                              else if input.templated then Templated
                              else if !SomeSet(input, count) then ShapeUnresolved
                              else if !scope.complete then ScopeIncomplete
                              else Paginated)
  {
    hide DocumentSet, IsApplySet, UnknownReport;
    var set_ := DocumentSet(input, true, count);
    forall reason ensures NothingDeclared(UnknownReport(table, reason)) && UnknownReport(table, reason).Report?
                          && UnknownReport(table, reason).reason == reason
    {
      UnknownDeclaresNothing(table, reason);
      UnknownReason(table, reason);
    }
    SetCases(input, count);
    if set_.Documents? {
      ReadIsSet(input, set_.documents, set_.paginated, count);
      assert IsApplySet(input, set_.documents, set_.paginated, count);
      assert !MayDeclare(input, scope, set_.documents, count);
    }
    if documents, partial :| IsApplySet(input, documents, partial, count) {
      SetIsRead(input, documents, partial, count);
    }
  }

  lemma UnknownReason(table: seq<Removal>, reason: Reason)
    ensures UnknownReport(table, reason).Report? && UnknownReport(table, reason).reason == reason
  {
  }

  /** Why a set was not read. */
  lemma SetCases(input: Input, count: CountOf)
    ensures var set_ := DocumentSet(input, true, count);
            && (set_.BadInput? <==> !input.templated && input.decoded == None)
            && (set_.Unresolved? ==> set_.reason == if input.templated then Templated else ShapeUnresolved)
            && (input.templated ==> set_.Unresolved?)
  {
    hide GvkOf, Pagination, AllFlat;
  }

  /** The dedicated adapter declares the same, for its one row. */
  lemma DedicatedDeclares(input: Input, scope: Scope, count: CountOf, documents: seq<Object>)
    requires MayDeclare(input, scope, documents, count)
    ensures var r := Dedicated(input, scope, count);
            && r.Report? && r.rows == [RowOf(documents, FLOW_ROW)]
            && (r.prepared <==> !IsUnreviewed(documents, FLOW_ROW))
  {
    hide Dedicated, General, IsUnreviewed, IsPresent, MayDeclare;
    AdaptersAgree(input, scope, count);
    OneRowSaid(input, scope, count, documents);
  }

  lemma OneRowSaid(input: Input, scope: Scope, count: CountOf, documents: seq<Object>)
    requires MayDeclare(input, scope, documents, count)
    ensures General(input, scope, [FLOW_ROW], count).Report?
    ensures General(input, scope, [FLOW_ROW], count).rows == [RowOf(documents, FLOW_ROW)]
    ensures General(input, scope, [FLOW_ROW], count).prepared <==> !IsUnreviewed(documents, FLOW_ROW)
  {
    hide DocumentSet, IsApplySet, IsUnreviewed, IsPresent, SortRows, RowsFor, SomeFact, FactFor;
    SetIsRead(input, documents, false, count);
    OneRow(documents);
    FactIff(documents, FLOW_ROW);
  }

  lemma DedicatedDeclaresNothing(input: Input, scope: Scope, count: CountOf)
    requires forall documents :: !MayDeclare(input, scope, documents, count)
    ensures NothingDeclared(Dedicated(input, scope, count))
  {
    hide Dedicated, General, MayDeclare;
    AdaptersAgree(input, scope, count);
    GeneralDeclaresNothing(input, scope, [FLOW_ROW], count);
  }

  /** The two reasons of the dedicated adapter that come with a declared fact. */
  lemma FlowReasons(input: Input, scope: Scope, count: CountOf)
    ensures var r := Dedicated(input, scope, count);
            r.Report? ==>
              && |r.rows| == 1
              && (r.reason == FlowRemoved <==> r.rows[0].fact == Declared(true))
              && (r.reason == FlowAbsent <==> r.rows[0].fact == Declared(false))
  {
    hide DocumentSet, InspectFrom;
    var set_ := DocumentSet(input, false, count);
    LooseReasons(input, count);
    match set_
    case Documents(documents, _) => InspectReasons(documents, false);
    case _ =>
  }

  lemma LooseReasons(input: Input, count: CountOf)
    ensures var set_ := DocumentSet(input, false, count); set_.Unresolved? ==> set_.reason == Templated || set_.reason == ShapeUnresolved
  {
    hide GvkOf, Pagination;
  }

  lemma {:induction false} InspectReasons(documents: seq<Object>, removed: bool)
    ensures var r := InspectFrom(documents, removed); r.Unclear? ==> r.reason == ShapeUnresolved || r.reason == FlowUnreviewed
  {
    hide GvkOf, Cut;
    if documents != [] {
      InspectReasons(documents[1..], removed);
      InspectReasons(documents[1..], true);
    }
  }
}
