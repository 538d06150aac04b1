/** The scanner's running checks as bounds on the whole tree, and its bookkeeping as facts about the root's names. */
module EventBounds {
  import opened Common
  import opened JsonText
  import opened EventScanSpec
  import opened EventScanProofs

  // ---------- bounds

  /** At most 24 levels, 100001 values, 100000 members and 16384 bytes in any member name. */
  ghost predicate WithinBounds(v: Value) {
    && Height(v) <= 24
    && Nodes(v) <= 100001
    && MemberCount(v) <= 100000
    && NamesWithin(v, 16384)
  }

  /** A part of a tree of the given size still fits at this depth and with these counts. */
  ghost predicate Room(depth: nat, n: Counts, height: nat, nodes: nat, members: nat) {
    depth + height <= MAX_DEPTH && n.tokens + nodes <= MAX_TOKENS + 1 && n.members + members <= MAX_MEMBERS
  }

  lemma {:induction false} FitsIff(v: Value, depth: nat, n: Counts)
    requires n.members <= MAX_MEMBERS
    ensures Fits(v, depth, n) <==>
            Room(depth, n, Height(v), Nodes(v), MemberCount(v)) && NamesWithin(v, MAX_NAME)
    decreases v, 1
  {
    var n1 := n.(tokens := n.tokens + 1);
    match v
    case Array(items) => FitsItemsIff(items, depth + 1, n1);
    case Object(members) => FitsMembersIff(members, depth + 1, n1);
    case _ =>
  }

  lemma {:induction false} FitsItemsIff(items: Items, depth: nat, n: Counts)
    requires n.members <= MAX_MEMBERS
    ensures FitsItems(items, depth, n) <==>
            Room(depth, n, HeightOfItems(items), NodesOfItems(items), MemberCountOfItems(items))
            && NamesWithinItems(items, MAX_NAME)
    decreases items, 0
  {
    FitsIff(items.head.value, depth, n);
    if items.MoreItems? && Fits(items.head.value, depth, n) {
      FitsItemsIff(items.tail, depth, After(items.head.value, n));
    }
  }

  lemma {:induction false} FitsMembersIff(ms: Members, depth: nat, n: Counts)
    requires n.members <= MAX_MEMBERS
    ensures FitsMembers(ms, depth, n) <==>
            Room(depth, n, HeightOfMembers(ms), NodesOfMembers(ms), MemberCountOfMembers(ms))
            && NamesWithinMembers(ms, MAX_NAME)
    decreases ms, 0
  {
    if n.members < MAX_MEMBERS {
      FitsIff(ms.first.element.value, depth, n.(members := n.members + 1));
      if ms.MoreMembers? && FitsMember(ms.first, depth, n) {
        FitsMembersIff(ms.rest, depth, AfterMember(ms.first, n));
      }
    }
  }

  /** The scanner's counters stop it exactly at trees that exceed the bounds. */
  lemma FitsIffWithinBounds(v: Value)
    ensures Fits(v, 0, Counts(0, 0)) <==> WithinBounds(v)
  {
    FitsIff(v, 0, Counts(0, 0));
  }

  // ---------- bookkeeping

  /** The value of the last member of that name. */
  ghost function LastValue(ms: Members, name: string): Option<Value> {
    var later := if ms.MoreMembers? then LastValue(ms.rest, name) else None;
    if later.Some? then later
    else if Decode(ms.first.name) == name then Some(ms.first.element.value)
    else None
  }

  lemma {:induction false} LastValueIff(ms: Members, name: string)
    ensures LastValue(ms, name).Some? <==> name in Names(ms)
  {
    if ms.MoreMembers? {
      LastValueIff(ms.rest, name);
    }
  }

  /** Entering members flags a duplicate exactly when a name was seen before or occurs twice. */
  lemma {:induction false} DuplicateIff(book: Book, ms: Members)
    ensures EnterAll(book, ms).duplicate <==>
            book.duplicate || Meets(book.seen, Names(ms)) || !Distinct(Names(ms))
    decreases ms
  {
    var name := Decode(ms.first.name);
    var names := Names(ms);
    assert names[0] == name;
    if ms.LastMember? {
      assert Meets(book.seen, names) <==> name in book.seen;
    } else {
      var next := book.Enter(Named(name, Kept(ms.first.element.value)));
      var tail := Names(ms.rest);
      DuplicateIff(next, ms.rest);
      assert forall i :: 0 <= i < |tail| ==> tail[i] == names[i + 1];
      MeetsTail(book.seen, name, tail);
      DistinctTail(name, tail);
      assert names == [name] + tail;
    }
  }

  /** Exactly the named members are kept, with the value of their last occurrence. */
  lemma {:induction false} KeepsSelected(book: Book, ms: Members, name: string)
    ensures var kept := EnterAll(book, ms).selected;
            if IsSelected(name) && LastValue(ms, name).Some?
            then name in kept && kept[name] == Kept(LastValue(ms, name).value)
            else (name in kept <==> name in book.selected) && (name in kept ==> kept[name] == book.selected[name])
    decreases ms
  {
    hide IsSelected;
    if ms.MoreMembers? {
      KeepsSelected(book.Enter(Named(Decode(ms.first.name), Kept(ms.first.element.value))), ms.rest, name);
    }
  }
}
