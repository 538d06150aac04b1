/** The two Kubernetes apply-set adapters: the dedicated flow-control one and the general one for removed APIs. */
module Kubernetes {
  import opened Common
  import opened GoStrings
  import opened JsonTokens
  import opened StrictDecoder
  import opened KubernetesLines

  type Object = map<string, Value>

  // ---------- group, version and kind

  datatype Gvk = Gvk(api: string, kind: string)

  function StringAt(o: Object, key: string): Option<string> {
    if key in o && o[key].Scalar? && o[key].atom.StringAtom? then Some(o[key].atom.s) else None
  }

  predicate LowerOrDigit(c: char) {
    'a' <= c <= 'z' || '0' <= c <= '9'
  }

  predicate IsGroup(s: string) {
    && s != "" && |s| <= 253 && s[0] != '.' && s[0] != '-' && s[|s| - 1] != '.' && s[|s| - 1] != '-'
    && !Contains(s, "..")
    && forall i :: 0 <= i < |s| ==> LowerOrDigit(s[i]) || s[i] == '.' || s[i] == '-'
  }

  predicate IsVersion(s: string) {
    |s| >= 2 && s[0] == 'v' && '0' <= s[1] <= '9' && forall i :: 2 <= i < |s| ==> LowerOrDigit(s[i])
  }

  predicate IsApiVersion(s: string) {
    s == "v1" || (var halves := Cut(s, '/');
                  halves.value.Some? && '/' !in halves.value.value && IsGroup(halves.name) && IsVersion(halves.value.value))
  }

  predicate IsKind(s: string) {
    && s != "" && |s| <= 63 && 'A' <= s[0] <= 'Z'
    && forall i :: 1 <= i < |s| ==> LowerOrDigit(s[i]) || 'A' <= s[i] <= 'Z'
  }

  /** `kubernetesGVK`, `None` when it is not resolvable. */
  function GvkOf(o: Object): Option<Gvk> {
    var api, kind := StringAt(o, "apiVersion"), StringAt(o, "kind");
    if api.Some? && kind.Some? && IsApiVersion(api.value) && IsKind(kind.value) then Some(Gvk(api.value, kind.value)) else None
  }

  predicate IsListKind(kind: string) {
    kind == "List" || HasSuffix(kind, "List")
  }

  // ---------- pagination

  /** A nonnegative 64-bit count, as `json.Number.Int64` reads it, or `None`; the number syntax is a parameter. */
  type CountOf = string -> Option<nat>

  /** `kubernetesListPagination`, `None` when the metadata is not resolvable. Nulls do not survive the strict decoder. */
  function Pagination(root: Object, count: CountOf): Option<bool> {
    if "metadata" !in root then Some(false)
    else if !root["metadata"].Mapping? then None
    else
      var metadata := root["metadata"].entries;
      if "continue" in metadata && StringAt(metadata, "continue") == None then None
      else
        var continued := "continue" in metadata && StringAt(metadata, "continue").value != "";
        if "remainingItemCount" !in metadata then Some(continued)
        else
          var remaining := metadata["remainingItemCount"];
          if !(remaining.Scalar? && remaining.atom.NumberAtom?) || count(remaining.atom.lexeme) == None then None
          else Some(continued || count(remaining.atom.lexeme).value > 0)
  }

  // ---------- the input and the report

  /** Whether the bytes are of admitted size and valid, whether they hold template markers, and their strict decoding. */
  datatype Input = Input(readable: bool, templated: bool, decoded: Option<Value>)

  /** What the caller says: the target applies to an official distribution, and the set is complete. */
  datatype Scope = Scope(guarded: bool, complete: bool)

  datatype Reason = TargetGuard | Templated | ShapeUnresolved | ScopeIncomplete | Paginated
                  | GvkVersionUnreviewed | RemovedGvkPresent | RemovedGvkAbsent
                  | FlowUnreviewed | FlowRemoved | FlowAbsent

  datatype Fact = Unsupported | Declared(present: bool)
  datatype Row = Row(id: string, fact: Fact)

  /** A rejected input, or the facts in the order of their identifiers, whether the state is PREPARED, and the reason. */
  datatype Report = Refused | Report(rows: seq<Row>, prepared: bool, reason: Reason)

  // ---------- the documents of an apply set

  datatype ApplySet = BadInput | Unresolved(reason: Reason) | Documents(documents: seq<Object>, paginated: bool)

  predicate AllObjects(items: seq<Value>) {
    forall i :: 0 <= i < |items| ==> items[i].Mapping?
  }

  function ObjectsOf(items: seq<Value>): (r: seq<Object>)
    requires AllObjects(items)
    ensures |r| == |items| && forall i :: 0 <= i < |r| ==> r[i] == items[i].entries
  {
    seq(|items|, i requires 0 <= i < |items| => items[i].entries)
  }

  predicate IsFlatDocument(o: Object) {
    GvkOf(o).Some? && !IsListKind(GvkOf(o).value.kind)
  }

  predicate AllFlat(documents: seq<Object>) {
    forall i :: 0 <= i < |documents| ==> IsFlatDocument(documents[i])
  }

  /** The documents that both adapters look at; the general one also demands that each of them be flat. */
  function DocumentSet(input: Input, flat: bool, count: CountOf): ApplySet {
    if input.templated then Unresolved(Templated)
    else if input.decoded == None then BadInput
    else if !input.decoded.value.Mapping? then Unresolved(ShapeUnresolved)
    else
      var root := input.decoded.value.entries;
      var gvk := GvkOf(root);
      if gvk == None then Unresolved(ShapeUnresolved)
      else if gvk.value.kind != "List" then
        if HasSuffix(gvk.value.kind, "List") then Unresolved(ShapeUnresolved) else Documents([root], false)
      else if gvk.value.api != "v1" || "items" !in root || !root["items"].Sequence? || root["items"].items == [] then
        Unresolved(ShapeUnresolved)
      else
        var items, paginated := root["items"].items, Pagination(root, count);
        if paginated == None || !AllObjects(items) || (flat && !AllFlat(ObjectsOf(items))) then Unresolved(ShapeUnresolved)
        else Documents(ObjectsOf(items), paginated.value)
  }

  /** The loop over the items of a list; `None` when one of them is refused. */
  method Collect(items: seq<Value>, flat: bool) returns (documents: Option<seq<Object>>)
    ensures documents == if AllObjects(items) && (flat ==> AllFlat(ObjectsOf(items))) then Some(ObjectsOf(items)) else None
  {
    var collected: seq<Object> := [];
    for i := 0 to |items|
      invariant |collected| == i
      invariant forall j :: 0 <= j < i ==> items[j].Mapping? && collected[j] == items[j].entries
      invariant flat ==> AllFlat(collected)
    {
      if !items[i].Mapping? {
        return None;
      }
      if flat && !IsFlatDocument(items[i].entries) {
        assert AllObjects(items) ==> ObjectsOf(items)[i] == items[i].entries;
        return None;
      }
      collected := collected + [items[i].entries];
    }
    assert collected == ObjectsOf(items);
    return Some(collected);
  }

  /** `kubernetesApplySetDocuments`, and the first half of `inspectKubernetesFlowControl`, which does not demand flatness. */
  method ReadDocuments(input: Input, flat: bool, count: CountOf) returns (r: ApplySet)
    ensures r == DocumentSet(input, flat, count)
  {
    if input.templated {
      return Unresolved(Templated);
    }
    if input.decoded == None {
      return BadInput;
    }
    if !input.decoded.value.Mapping? {
      return Unresolved(ShapeUnresolved);
    }
    var root := input.decoded.value.entries;
    var gvk := GvkOf(root);
    if gvk == None {
      return Unresolved(ShapeUnresolved);
    }
    if gvk.value.kind != "List" {
      if HasSuffix(gvk.value.kind, "List") {
        return Unresolved(ShapeUnresolved);
      }
      return Documents([root], false);
    }
    if gvk.value.api != "v1" || "items" !in root || !root["items"].Sequence? || root["items"].items == [] {
      return Unresolved(ShapeUnresolved);
    }
    var paginated := Pagination(root, count);
    if paginated == None {
      return Unresolved(ShapeUnresolved);
    }
    var documents := Collect(root["items"].items, flat);
    if documents == None {
      return Unresolved(ShapeUnresolved);
    }
    return Documents(documents.value, paginated.value);
  }

  // ---------- the general adapter

  datatype Removal = Removal(id: string, group: string, kinds: seq<string>, removed: string, served: seq<string>)

  /** The document is of the removal's group and kinds; its version. */
  function VersionFor(o: Object, r: Removal): Option<string> {
    var gvk := GvkOf(o);
    if gvk == None || gvk.value.kind !in r.kinds then None
    else
      var halves := Cut(gvk.value.api, '/');
      if halves.value == None || halves.name != r.group then None else halves.value
  }

  ghost predicate Present(documents: seq<Object>, r: Removal) {
    exists i :: 0 <= i < |documents| && VersionFor(documents[i], r) == Some(r.removed)
  }

  predicate UnreviewedVersion(o: Object, r: Removal) {
    var v := VersionFor(o, r);
    v.Some? && v.value != r.removed && v.value !in r.served
  }

  ghost predicate Unreviewed(documents: seq<Object>, r: Removal) {
    exists i :: 0 <= i < |documents| && UnreviewedVersion(documents[i], r)
  }

  /** `classifyKubernetesRemoval` */
  method Classify(documents: seq<Object>, r: Removal) returns (present: bool, unreviewed: bool)
    ensures present == Present(documents, r) && unreviewed == Unreviewed(documents, r)
  {
    present, unreviewed := false, false;
    for i := 0 to |documents|
      invariant present <==> exists j :: 0 <= j < i && VersionFor(documents[j], r) == Some(r.removed)
      invariant unreviewed <==> exists j :: 0 <= j < i && UnreviewedVersion(documents[j], r)
    {
      var version := VersionFor(documents[i], r);
      if version.Some? {
        if version.value == r.removed {
          present := true;
        } else if version.value !in r.served {
          unreviewed := true;
        }
      }
    }
  }

  /** An unreviewed version hides a present one, in its own row only. */
  ghost function FactFor(documents: seq<Object>, r: Removal): Fact {
    if Unreviewed(documents, r) then Unsupported else Declared(Present(documents, r))
  }

  ghost function RowsFor(documents: seq<Object>, table: seq<Removal>): (rows: seq<Row>)
    ensures |rows| == |table| && forall i :: 0 <= i < |rows| ==> rows[i] == Row(table[i].id, FactFor(documents, table[i]))
  {
    seq(|table|, i requires 0 <= i < |table| => Row(table[i].id, FactFor(documents, table[i])))
  }

  function UnsupportedRows(table: seq<Removal>): (rows: seq<Row>)
    ensures |rows| == |table| && forall i :: 0 <= i < |rows| ==> rows[i] == Row(table[i].id, Unsupported)
  {
    seq(|table|, i requires 0 <= i < |table| => Row(table[i].id, Unsupported))
  }

  predicate SomeFact(rows: seq<Row>, fact: Fact) {
    exists i :: 0 <= i < |rows| && rows[i].fact == fact
  }

  /** The rows are listed in the order of their identifiers. */
  function InsertRow(row: Row, rows: seq<Row>): seq<Row> {
    if rows == [] || Less(row.id, rows[0].id) then [row] + rows else [rows[0]] + InsertRow(row, rows[1..])
  }

  function SortRows(rows: seq<Row>): seq<Row> {
    if rows == [] then [] else InsertRow(rows[0], SortRows(rows[1..]))
  }

  function ReportOf(rows: seq<Row>): Report {
    Report(
      SortRows(rows),
      !SomeFact(rows, Unsupported),
      if SomeFact(rows, Declared(true)) then RemovedGvkPresent
      else if SomeFact(rows, Unsupported) then GvkVersionUnreviewed else RemovedGvkAbsent)
  }

  function UnknownReport(table: seq<Removal>, reason: Reason): Report {
    Report(SortRows(UnsupportedRows(table)), false, reason)
  }

  /** The report of the general adapter on the rows of a line. */
  ghost function General(input: Input, scope: Scope, table: seq<Removal>, count: CountOf): Report {
    if !input.readable then Refused
    else if !scope.guarded then UnknownReport(table, TargetGuard)
    else
      match DocumentSet(input, true, count)
      case BadInput => Refused
      case Unresolved(reason) => UnknownReport(table, reason)
      case Documents(documents, paginated) =>
        if !scope.complete then UnknownReport(table, ScopeIncomplete)
        else if paginated then UnknownReport(table, Paginated)
        else ReportOf(RowsFor(documents, table))
  }

  /** The loop over the rows of the line. */
  method ClassifyTable(documents: seq<Object>, table: seq<Removal>)
    returns (rows: seq<Row>, anyPresent: bool, anyUnreviewed: bool)
    ensures rows == RowsFor(documents, table)
    ensures anyPresent == SomeFact(rows, Declared(true)) && anyUnreviewed == SomeFact(rows, Unsupported)
  {
    hide Present, Unreviewed;
    rows, anyPresent, anyUnreviewed := [], false, false;
    for i := 0 to |table|
      invariant rows == RowsFor(documents, table)[..i]
      invariant anyPresent == SomeFact(rows, Declared(true)) && anyUnreviewed == SomeFact(rows, Unsupported)
    {
      var present, unreviewed := Classify(documents, table[i]);
      var fact := if unreviewed then Unsupported else Declared(present);
      SomeFactSnoc(rows, Row(table[i].id, fact));
      if unreviewed {
        anyUnreviewed := true;
      } else if present {
        anyPresent := true;
      }
      rows := rows + [Row(table[i].id, fact)];
    }
  }

  lemma SomeFactSnoc(rows: seq<Row>, row: Row)
    ensures forall fact :: SomeFact(rows + [row], fact) <==> SomeFact(rows, fact) || row.fact == fact
  {
    forall fact ensures SomeFact(rows + [row], fact) <==> SomeFact(rows, fact) || row.fact == fact {
      var longer := rows + [row];
      assert longer[|rows|] == row;
      if i :| 0 <= i < |rows| && rows[i].fact == fact {
        assert longer[i].fact == fact;
      }
    }
  }

  /** `PrepareKubernetesRemovedAPIs` on a reviewed line. */
  method PrepareRemoved(input: Input, scope: Scope, table: seq<Removal>, count: CountOf) returns (r: Report)
    ensures r == General(input, scope, table, count)
  {
    if !input.readable {
      return Refused;
    }
    if !scope.guarded {
      return UnknownReport(table, TargetGuard);
    }
    var documents := ReadDocuments(input, true, count);
    match documents
    case BadInput => return Refused;
    case Unresolved(reason) => return UnknownReport(table, reason);
    case Documents(objects, paginated) =>
      if !scope.complete {
        return UnknownReport(table, ScopeIncomplete);
      }
      if paginated {
        return UnknownReport(table, Paginated);
      }
      var rows, anyPresent, anyUnreviewed := ClassifyTable(objects, table);
      var prepared, reason := true, RemovedGvkAbsent;
      if anyUnreviewed {
        prepared, reason := false, GvkVersionUnreviewed;
      }
      if anyPresent {
        reason := RemovedGvkPresent;
      }
      return Report(SortRows(rows), prepared, reason);
  }

  // ---------- the dedicated adapter

  const FLOW_GROUP := "flowcontrol.apiserver.k8s.io"
  const FLOW_REMOVED := "flowcontrol.apiserver.k8s.io/v1beta3"
  const FLOW_SERVED := "flowcontrol.apiserver.k8s.io/v1"
  const FLOW_FACT := "component.kubernetes.flowcontrol_v1beta3_removed_gvk_present"

  function FlowReport(fact: Fact, reason: Reason): Report {
    Report([Row(FLOW_FACT, fact)], fact.Declared?, reason)
  }

  datatype Inspection = Unclear(reason: Reason) | Clear(removed: bool)

  /** The dedicated loop: any unresolvable document or unreviewed version ends it. */
  function InspectFrom(documents: seq<Object>, removed: bool): Inspection {
    if documents == [] then Clear(removed)
    else
      var gvk := GvkOf(documents[0]);
      if gvk == None || IsListKind(gvk.value.kind) then Unclear(ShapeUnresolved)
      else if gvk.value.kind != "FlowSchema" && gvk.value.kind != "PriorityLevelConfiguration" then
        InspectFrom(documents[1..], removed)
      else
        var halves := Cut(gvk.value.api, '/');
        if halves.value == None || halves.name != FLOW_GROUP then InspectFrom(documents[1..], removed)
        else if gvk.value.api == FLOW_REMOVED then InspectFrom(documents[1..], true)
        else if gvk.value.api != FLOW_SERVED then Unclear(FlowUnreviewed)
        else InspectFrom(documents[1..], removed)
  }

  method InspectDocuments(documents: seq<Object>) returns (r: Inspection)
    ensures r == InspectFrom(documents, false)
  {
    var removed := false;
    assert documents[0..] == documents;
    for i := 0 to |documents|
      invariant InspectFrom(documents, false) == InspectFrom(documents[i..], removed)
    {
      assert documents[i..][1..] == documents[i + 1..];
      var gvk := GvkOf(documents[i]);
      if gvk == None || IsListKind(gvk.value.kind) {
        return Unclear(ShapeUnresolved);
      }
      if gvk.value.kind != "FlowSchema" && gvk.value.kind != "PriorityLevelConfiguration" {
        continue;
      }
      var halves := Cut(gvk.value.api, '/');
      if halves.value == None || halves.name != FLOW_GROUP {
        continue;
      }
      if gvk.value.api == FLOW_REMOVED {
        removed := true;
        continue;
      }
      if gvk.value.api != FLOW_SERVED {
        return Unclear(FlowUnreviewed);
      }
    }
    assert documents[|documents|..] == [];
    return Clear(removed);
  }

  function Dedicated(input: Input, scope: Scope, count: CountOf): Report {
    if !input.readable then Refused
    else if !scope.guarded then FlowReport(Unsupported, TargetGuard)
    else
      match DocumentSet(input, false, count)
      case BadInput => Refused
      case Unresolved(reason) => FlowReport(Unsupported, reason)
      case Documents(documents, paginated) =>
        match InspectFrom(documents, false)
        case Unclear(reason) => FlowReport(Unsupported, reason)
        case Clear(removed) =>
          if !scope.complete then FlowReport(Unsupported, ScopeIncomplete)
          else if paginated then FlowReport(Unsupported, Paginated)
          else FlowReport(Declared(removed), if removed then FlowRemoved else FlowAbsent)
  }

  /** `PrepareKubernetesFlowControl` */
  method PrepareFlowControl(input: Input, scope: Scope, count: CountOf) returns (r: Report)
    ensures r == Dedicated(input, scope, count)
  {
    if !input.readable {
      return Refused;
    }
    if !scope.guarded {
      return FlowReport(Unsupported, TargetGuard);
    }
    var documents := ReadDocuments(input, false, count);
    match documents
    case BadInput => return Refused;
    case Unresolved(reason) => return FlowReport(Unsupported, reason);
    case Documents(objects, paginated) =>
      var inspected := InspectDocuments(objects);
      match inspected
      case Unclear(reason) => return FlowReport(Unsupported, reason);
      case Clear(removed) =>
        if !scope.complete {
          return FlowReport(Unsupported, ScopeIncomplete);
        } else if paginated {
          return FlowReport(Unsupported, Paginated);
        } else if removed {
          return FlowReport(Declared(true), FlowRemoved);
        }
        return FlowReport(Declared(false), FlowAbsent);
  }

  // ---------- which adapter runs

  /** Both adapters end by refusing pairs that are not two different versions. */
  predicate IsUpgrade(from: string, to: string) {
    VersionParts(from).Some? && VersionParts(to).Some? && from != to
  }

  ghost function Prepared(lines: map<string, seq<Removal>>, from: string, to: string, input: Input, scope: Scope, count: CountOf): Report {
    var table := ForCrossedLine(lines, from, to);
    if !IsUpgrade(from, to) then Refused
    else if table.Some? then General(input, scope, table.value, count) else Dedicated(input, scope, count)
  }

  /** `PrepareKubernetesRemovedAPIs` */
  method PrepareRemovedApis(lines: map<string, seq<Removal>>, from: string, to: string, input: Input, scope: Scope, count: CountOf)
    returns (r: Report)
    ensures r == Prepared(lines, from, to, input, scope, count)
  {
    var table := ForCrossedLine(lines, from, to);
    if table.Some? {
      r := PrepareRemoved(input, scope, table.value, count);
    } else {
      r := PrepareFlowControl(input, scope, count);
    }
    if !IsUpgrade(from, to) {
      return Refused;
    }
  }
}
