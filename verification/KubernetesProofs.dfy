/** The two Kubernetes adapters agree, and their reports do not depend on the order of documents or rows. */
module KubernetesProofs {
  import opened Common
  import opened GoStrings
  import opened StrictDecoder
  import opened KubernetesLines
  import opened Kubernetes

  // ---------- the dedicated loop, as the general classification

  /** The row of the 1.32 line, which the general table leaves to the dedicated adapter. */
  const FLOW_ROW: Removal :=
    Removal("component.kubernetes.flowcontrol_v1beta3_removed_gvk_present", "flowcontrol.apiserver.k8s.io", ["FlowSchema", "PriorityLevelConfiguration"], "v1beta3", ["v1"])

  lemma FlowVersions(api: string)
    requires Cut(api, '/').value.Some? && Cut(api, '/').name == FLOW_GROUP
    ensures api == FLOW_REMOVED <==> Cut(api, '/').value.value == "v1beta3"
    ensures api == FLOW_SERVED <==> Cut(api, '/').value.value == "v1"
  {
    CutSplits(api, '/');
    assert FLOW_REMOVED == FLOW_GROUP + ['/'] + "v1beta3";
    assert FLOW_SERVED == FLOW_GROUP + ['/'] + "v1";
    assert '/' !in FLOW_GROUP;
    CutOf(FLOW_GROUP, '/', "v1beta3");
    CutOf(FLOW_GROUP, '/', "v1");
  }

  /** One document of a flat set, in the terms of either adapter. */
  lemma OneDocument(o: Object)
    requires IsFlatDocument(o)
    ensures var gvk := GvkOf(o).value;
            var halves := Cut(gvk.api, '/');
            var relevant := (gvk.kind == "FlowSchema" || gvk.kind == "PriorityLevelConfiguration")
                            && halves.value.Some? && halves.name == FLOW_GROUP;
            && VersionFor(o, FLOW_ROW) == (if relevant then halves.value else None)
            && (relevant ==> (gvk.api == FLOW_REMOVED <==> halves.value.value == "v1beta3"))
            && (relevant ==> (gvk.api == FLOW_SERVED <==> halves.value.value == "v1"))
  {
    var gvk := GvkOf(o).value;
    var halves := Cut(gvk.api, '/');
    assert gvk.kind in FLOW_ROW.kinds <==> gvk.kind == FLOW_ROW.kinds[0] || gvk.kind == FLOW_ROW.kinds[1];
    if halves.value.Some? && halves.name == FLOW_GROUP {
      FlowVersions(gvk.api);
    }
  }

  /** The early-exit loop computes what the whole set says, when the set is flat. */
  lemma {:induction false} InspectIs(documents: seq<Object>, removed: bool)
    ensures InspectFrom(documents, removed).Unclear? <==> !AllFlat(documents) || Unreviewed(documents, FLOW_ROW)
    ensures var r := InspectFrom(documents, removed);
            r.Clear? ==> r.removed == (removed || Present(documents, FLOW_ROW))
  {
    if documents != [] {
      hide VersionFor, GvkOf, Cut;
      var o, rest := documents[0], documents[1..];
      InspectIs(rest, removed);
      InspectIs(rest, true);
      DocumentsTail(documents);
      if IsFlatDocument(o) {
        OneDocument(o);
      }
    }
  }

  lemma DocumentsTail(documents: seq<Object>)
    requires documents != []
    ensures AllFlat(documents) <==> IsFlatDocument(documents[0]) && AllFlat(documents[1..])
    ensures Present(documents, FLOW_ROW) <==>
            VersionFor(documents[0], FLOW_ROW) == Some(FLOW_ROW.removed) || Present(documents[1..], FLOW_ROW)
    ensures Unreviewed(documents, FLOW_ROW) <==>
            UnreviewedVersion(documents[0], FLOW_ROW) || Unreviewed(documents[1..], FLOW_ROW)
  {
    hide VersionFor, IsFlatDocument, UnreviewedVersion;
    var rest := documents[1..];
    assert forall i :: 0 <= i < |rest| ==> rest[i] == documents[i + 1];
    if Present(documents, FLOW_ROW) {
      var i :| 0 <= i < |documents| && VersionFor(documents[i], FLOW_ROW) == Some(FLOW_ROW.removed);
      if i > 0 {
        assert rest[i - 1] == documents[i];
      }
    }
    if Unreviewed(documents, FLOW_ROW) {
      var i :| 0 <= i < |documents| && UnreviewedVersion(documents[i], FLOW_ROW);
      if i > 0 {
        assert rest[i - 1] == documents[i];
      }
    }
    if AllFlat(rest) {
      forall i | 0 < i < |documents| && IsFlatDocument(documents[0]) ensures IsFlatDocument(documents[i]) {
        assert documents[i] == rest[i - 1];
      }
    }
  }

  /** Demanding flatness beforehand only turns unflat sets into unresolved ones. */
  lemma FlatOrUnresolved(input: Input, count: CountOf)
    ensures var loose, strict := DocumentSet(input, false, count), DocumentSet(input, true, count);
            strict == if loose.Documents? && !AllFlat(loose.documents) then Unresolved(ShapeUnresolved) else loose
  {
    hide GvkOf, Pagination;
  }

  // ---------- they agree

  /** The same facts in the same state; the reason codes are worded differently. */
  predicate SameFacts(a: Report, b: Report) {
    if a.Refused? || b.Refused? then a == b else a.rows == b.rows && a.prepared == b.prepared
  }

  lemma OneRow(documents: seq<Object>)
    ensures RowsFor(documents, [FLOW_ROW]) == [Row(FLOW_FACT, FactFor(documents, FLOW_ROW))]
    ensures UnsupportedRows([FLOW_ROW]) == [Row(FLOW_FACT, Unsupported)]
    ensures forall fact :: SortRows([Row(FLOW_FACT, fact)]) == [Row(FLOW_FACT, fact)]
    ensures forall a, b :: SomeFact([Row(FLOW_FACT, a)], b) <==> a == b
  {
    hide Present, Unreviewed;
    forall fact ensures SortRows([Row(FLOW_FACT, fact)]) == [Row(FLOW_FACT, fact)] {
      var rows := [Row(FLOW_FACT, fact)];
      assert rows[1..] == [];
    }
    forall a, b ensures SomeFact([Row(FLOW_FACT, a)], b) <==> a == b {
      assert [Row(FLOW_FACT, a)][0].fact == a;
    }
  }

  /** On every input the dedicated adapter emits the fact and the state that the general one would emit for its row. */
  lemma AdaptersAgree(input: Input, scope: Scope, count: CountOf)
    ensures SameFacts(Dedicated(input, scope, count), General(input, scope, [FLOW_ROW], count))
  {
    hide DocumentSet, InspectFrom, SortRows, RowsFor, SomeFact, UnsupportedRows, Present, Unreviewed;
    var loose := DocumentSet(input, false, count);
    FlatOrUnresolved(input, count);
    OneRow([]);
    if loose.Documents? {
      InspectIs(loose.documents, false);
      OneRow(loose.documents);
    }
  }

  /** Giving the dedicated adapter's line a row in the table changes no fact and no state of any upgrade into it. */
  lemma RowIsRedundant(
    lines: map<string, seq<Removal>>, line: string, from: string, to: string, input: Input, scope: Scope, count: CountOf)
    requires line !in lines
    ensures SameFacts(Prepared(lines, from, to, input, scope, count),
                      Prepared(lines[line := [FLOW_ROW]], from, to, input, scope, count))
  {
    hide General, Dedicated, CrossedLine, IsUpgrade;
    AdaptersAgree(input, scope, count);
  }

  /** On a reviewed line the versions are never what refuses an input. */
  lemma ReviewedIsUpgrade(lines: map<string, seq<Removal>>, from: string, to: string)
    ensures ForCrossedLine(lines, from, to).Some? ==> IsUpgrade(from, to)
  {
    hide VersionParts;
  }

  // ---------- order independence

  lemma FactOneWay(a: seq<Object>, b: seq<Object>, r: Removal)
    requires forall o :: o in a ==> o in b
    ensures Present(a, r) ==> Present(b, r)
    ensures Unreviewed(a, r) ==> Unreviewed(b, r)
  {
    hide VersionFor, UnreviewedVersion;
    if Present(a, r) {
      var i :| 0 <= i < |a| && VersionFor(a[i], r) == Some(r.removed);
      assert a[i] in a;
      assert a[i] in b;
      var j :| 0 <= j < |b| && b[j] == a[i];
    }
    if Unreviewed(a, r) {
      var i :| 0 <= i < |a| && UnreviewedVersion(a[i], r);
      assert a[i] in a;
      assert a[i] in b;
      var j :| 0 <= j < |b| && b[j] == a[i];
    }
  }

  /** A fact depends neither on the order of the documents nor on repetitions among them. */
  lemma FactOrderIndependent(a: seq<Object>, b: seq<Object>, r: Removal)
    requires forall o :: o in a <==> o in b
    ensures FactFor(a, r) == FactFor(b, r)
  {
    FactOneWay(a, b, r);
    FactOneWay(b, a, r);
  }

  ghost predicate Ascending(rows: seq<Row>) {
    forall i, j :: 0 <= i < j < |rows| ==> Less(rows[i].id, rows[j].id)
  }

  ghost predicate SameRows(a: seq<Row>, b: seq<Row>) {
    forall row :: row in a <==> row in b
  }

  ghost predicate DistinctIds(rows: seq<Row>) {
    forall i, j :: 0 <= i < j < |rows| ==> rows[i].id != rows[j].id
  }

  lemma {:induction false} InsertRowHas(row: Row, rows: seq<Row>)
    ensures forall x :: x in InsertRow(row, rows) <==> x == row || x in rows
  {
    if rows != [] {
      InsertRowHas(row, rows[1..]);
      assert rows == [rows[0]] + rows[1..];
    }
  }

  lemma {:induction false} InsertRowAscends(row: Row, rows: seq<Row>)
    requires Ascending(rows) && forall i :: 0 <= i < |rows| ==> rows[i].id != row.id
    ensures Ascending(InsertRow(row, rows))
  {
    hide Less;
    var r := InsertRow(row, rows);
    if rows == [] {
      assert r == [row];
    } else if Less(row.id, rows[0].id) {
      assert r == [row] + rows;
      forall i | 0 < i < |rows| ensures Less(row.id, rows[i].id) {
        LessTransitive(row.id, rows[0].id, rows[i].id);
      }
    } else {
      var rest := InsertRow(row, rows[1..]);
      InsertRowAscends(row, rows[1..]);
      InsertRowHas(row, rows[1..]);
      LessTotal(row.id, rows[0].id);
      forall j | 0 <= j < |rest| ensures Less(rows[0].id, rest[j].id) {
        if rest[j] != row {
          assert rest[j] in rows[1..];
          var k :| 0 <= k < |rows| - 1 && rows[1..][k] == rest[j];
          assert rows[k + 1] == rest[j];
        }
      }
      assert r == [rows[0]] + rest;
    }
  }

  /** Sorting keeps the rows, and lists them by identifier. */
  lemma {:induction false} SortRowsSorts(rows: seq<Row>)
    ensures SameRows(SortRows(rows), rows)
    ensures DistinctIds(rows) ==> Ascending(SortRows(rows))
  {
    if rows != [] {
      var rest := rows[1..];
      SortRowsSorts(rest);
      InsertRowHas(rows[0], SortRows(rest));
      assert rows == [rows[0]] + rest;
      if DistinctIds(rows) {
        assert forall i :: 0 <= i < |rest| ==> rest[i] == rows[i + 1];
        forall i | 0 <= i < |SortRows(rest)| ensures SortRows(rest)[i].id != rows[0].id {
          assert SortRows(rest)[i] in rest;
        }
        InsertRowAscends(rows[0], SortRows(rest));
      }
    }
  }

  lemma HeadIsLeast(a: seq<Row>, b: seq<Row>)
    requires Ascending(a) && Ascending(b) && SameRows(a, b) && a != []
    ensures b != [] && a[0] == b[0] && SameRows(a[1..], b[1..])
  {
    hide Less;
    assert a[0] in b;
    assert b[0] in a;
    var i :| 0 <= i < |b| && b[i] == a[0];
    var j :| 0 <= j < |a| && a[j] == b[0];
    LessTotal(a[0].id, b[0].id);
    TailRows(a);
    TailRows(b);
  }

  lemma TailRows(a: seq<Row>)
    requires Ascending(a) && a != []
    ensures forall row :: row in a[1..] <==> row in a && row != a[0]
  {
    hide Less;
    forall row ensures row in a[1..] <==> row in a && row != a[0] {
      LessTotal(a[0].id, a[0].id);
      assert a == [a[0]] + a[1..];
    }
  }

  /** Rows listed by identifier are determined by which rows they are. */
  lemma {:induction false} AscendingUnique(a: seq<Row>, b: seq<Row>)
    requires Ascending(a) && Ascending(b) && SameRows(a, b)
    ensures a == b
  {
    assert b != [] ==> b[0] in b;
    if a != [] {
      HeadIsLeast(a, b);
      assert Ascending(a[1..]) && Ascending(b[1..]);
      AscendingUnique(a[1..], b[1..]);
      assert a == [a[0]] + a[1..] && b == [b[0]] + b[1..];
    }
  }

  ghost predicate DistinctFacts(table: seq<Removal>) {
    forall i, j :: 0 <= i < j < |table| ==> table[i].id != table[j].id
  }

  lemma RowsOneWay(a: seq<Object>, b: seq<Object>, s: seq<Removal>, t: seq<Removal>)
    requires (forall o :: o in a <==> o in b) && forall r :: r in s ==> r in t
    ensures forall row :: row in RowsFor(a, s) ==> row in RowsFor(b, t)
    ensures forall row :: row in UnsupportedRows(s) ==> row in UnsupportedRows(t)
  {
    hide FactFor;
    forall row | row in RowsFor(a, s) ensures row in RowsFor(b, t) {
      var i :| 0 <= i < |s| && RowsFor(a, s)[i] == row;
      assert s[i] in t;
      var j :| 0 <= j < |t| && t[j] == s[i];
      FactOrderIndependent(a, b, s[i]);
      assert RowsFor(b, t)[j] == row;
    }
    forall row | row in UnsupportedRows(s) ensures row in UnsupportedRows(t) {
      var i :| 0 <= i < |s| && UnsupportedRows(s)[i] == row;
      assert s[i] in t;
      var j :| 0 <= j < |t| && t[j] == s[i];
      assert UnsupportedRows(t)[j] == row;
    }
  }

  lemma SortedAlike(a: seq<Row>, b: seq<Row>)
    requires SameRows(a, b) && DistinctIds(a) && DistinctIds(b)
    ensures SortRows(a) == SortRows(b)
  {
    SortRowsSorts(a);
    SortRowsSorts(b);
    AscendingUnique(SortRows(a), SortRows(b));
  }

  lemma SomeFactAlike(a: seq<Row>, b: seq<Row>, fact: Fact)
    requires SameRows(a, b)
    ensures SomeFact(a, fact) ==> SomeFact(b, fact)
  {
    if SomeFact(a, fact) {
      var i :| 0 <= i < |a| && a[i].fact == fact;
      assert a[i] in a;
      assert a[i] in b;
      var j :| 0 <= j < |b| && b[j] == a[i];
    }
  }

  lemma ReportAlike(a: seq<Row>, b: seq<Row>)
    requires SameRows(a, b) && DistinctIds(a) && DistinctIds(b)
    ensures ReportOf(a) == ReportOf(b)
  {
    hide SomeFact;
    SortedAlike(a, b);
    forall fact ensures SomeFact(a, fact) == SomeFact(b, fact) {
      SomeFactAlike(a, b, fact);
      SomeFactAlike(b, a, fact);
    }
  }

  /** Two readings of an apply set that hold the same documents, in whatever order. */
  ghost predicate SameSet(a: ApplySet, b: ApplySet) {
    if a.Documents? && b.Documents? then
      a.paginated == b.paginated && forall o :: o in a.documents <==> o in b.documents
    else a == b
  }

  /** The report of the general adapter depends neither on the order of the documents nor on the order of the table. */
  lemma ReportOrderIndependent(a: Input, b: Input, s: seq<Removal>, t: seq<Removal>, scope: Scope, count: CountOf)
    requires a.readable == b.readable && SameSet(DocumentSet(a, true, count), DocumentSet(b, true, count))
    requires DistinctFacts(s) && DistinctFacts(t) && forall r :: r in s <==> r in t
    ensures General(a, scope, s, count) == General(b, scope, t, count)
  {
    hide DocumentSet, FactFor, SortRows, SomeFact;
    RowsOneWay([], [], s, t);
    RowsOneWay([], [], t, s);
    SortedAlike(UnsupportedRows(s), UnsupportedRows(t));
    var x, y := DocumentSet(a, true, count), DocumentSet(b, true, count);
    if x.Documents? && y.Documents? {
      RowsOneWay(x.documents, y.documents, s, t);
      RowsOneWay(y.documents, x.documents, t, s);
      ReportAlike(RowsFor(x.documents, s), RowsFor(y.documents, t));
    }
  }
}
