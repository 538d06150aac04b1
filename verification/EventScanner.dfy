/** The scanner object: a cursor over the input with two counters, moved by mutually recursive methods. */
module EventScanner {
  import opened Common
  import opened JsonText
  import opened EventScanSpec
  import opened EventStringProofs

  class JsonScanner {
    const raw: string
    var pos: nat
    var tokens: nat
    var members: nat

    ghost predicate Valid()
      reads this
    {
      pos <= |raw|
    }

    /** What has not been read yet. */
    ghost function Rest(): string
      reads this
      requires Valid()
    {
      raw[pos..]
    }

    ghost function Tally(): Counts
      reads this
    {
      Counts(tokens, members)
    }

    constructor (raw: string)
      ensures Valid() && this.raw == raw && Rest() == raw && Tally() == Counts(0, 0)
    {
      this.raw := raw;
      this.pos, this.tokens, this.members := 0, 0, 0;
    }

    method Space()
      requires Valid()
      modifies `pos
      ensures Valid() && pos >= old(pos)
      ensures Rest() == SkipBlanks(old(Rest()))
    {
      while pos < |raw| && IsBlank(raw[pos])
        invariant Valid() && pos >= old(pos)
        invariant SkipBlanks(Rest()) == SkipBlanks(old(Rest()))
      {
        DropDrop(raw, pos, 1);
        pos := pos + 1;
      }
    }

    method TakeChar(c: char) returns (taken: bool)
      requires Valid()
      modifies `pos
      ensures Valid() && pos >= old(pos)
      ensures taken == Take(old(Rest()), c).Some?
      ensures taken ==> pos > old(pos) && Rest() == Take(old(Rest()), c).value
      ensures !taken ==> Rest() == SkipBlanks(old(Rest()))
    {
      Space();
      if pos < |raw| && raw[pos] == c {
        DropDrop(raw, pos, 1);
        pos := pos + 1;
        return true;
      }
      return false;
    }

    method Word(word: string) returns (found: bool)
      requires Valid()
      modifies `pos
      ensures Valid() && pos >= old(pos)
      ensures found == HasPrefix(old(Rest()), word)
      ensures found ==> pos == old(pos) + |word| && Rest() == old(Rest())[|word|..]
    {
      if |raw| - pos < |word| || raw[pos..pos + |word|] != word {
        return false;
      }
      DropDrop(raw, pos, |word|);
      pos := pos + |word|;
      return true;
    }

    /** One escape: six characters, twelve for a surrogate pair, two for any other. */
    method Escape() returns (ok: bool, repaired: bool)
      requires pos < |raw|
      modifies `pos
      ensures old(pos) <= pos <= |raw|
      ensures ok == EscapeAt(raw, old(pos)).Some?
      ensures ok ==> EscapeAt(raw, old(pos)) == Some(Walk(pos, repaired))
    {
      if pos + 1 >= |raw| {
        return false, false;
      }
      if raw[pos + 1] != 'u' {
        pos := pos + 2;
        return true, false;
      }
      if pos + 6 > |raw| {
        return false, false;
      }
      var unit := ParseUnit(raw[pos + 2..pos + 6]);
      if unit == None {
        return false, false;
      }
      repaired := false;
      if HighUnit(unit.value) {
        if pos + 12 <= |raw| && raw[pos + 6] == '\\' && raw[pos + 7] == 'u' {
          var low := ParseUnit(raw[pos + 8..pos + 12]);
          if low.Some? && LowUnit(low.value) {
            pos := pos + 12;
            return true, false;
          }
        }
        repaired := true;
      } else if LowUnit(unit.value) {
        repaired := true;
      }
      pos := pos + 6;
      return true, repaired;
    }

    /** The walk to the closing quote of a string body. */
    method Body() returns (closed: bool, repaired: bool)
      requires Valid()
      modifies `pos
      ensures old(pos) <= pos <= |raw|
      ensures closed == WalkAt(raw, old(pos), false).Some?
      ensures closed ==> WalkAt(raw, old(pos), false) == Some(Walk(pos, repaired))
    {
      repaired := false;
      while pos < |raw|
        invariant old(pos) <= pos <= |raw|
        invariant WalkAt(raw, old(pos), false) == WalkAt(raw, pos, repaired)
      {
        if raw[pos] == '"' {
          return true, repaired;
        }
        if raw[pos] == '\\' {
          var ok, lone := Escape();
          if !ok {
            return false, repaired;
          }
          repaired := repaired || lone;
        } else {
          pos := pos + 1;
        }
      }
      return false, repaired;
    }

    method StringToken() returns (ok: bool, text: string, repaired: bool)
      requires Valid()
      modifies `pos
      ensures Valid() && pos >= old(pos)
      ensures ok == ScanString(old(Rest())).Some?
      ensures ok ==> pos > old(pos) && ScanString(old(Rest())) == Some(EventScanSpec.StringToken(text, repaired, Rest()))
    {
      hide WalkAt, Unquote, SkipBlanks;
      Space();
      if pos >= |raw| || raw[pos] != '"' {
        return false, "", false;
      }
      var start := pos;
      pos := pos + 1;
      WalkShift(raw, start, 1, false);
      ok, repaired := Body();
      if !ok {
        return false, "", false;
      }
      pos := pos + 1;
      assert raw[start..][1..pos - 1 - start] == raw[start + 1..pos - 1];
      DropDrop(raw, start, pos - start);
      var decoded := Unquote(raw[start + 1..pos - 1]);
      if decoded == None {
        return false, "", false;
      }
      return true, decoded.value, repaired;
    }

    /** A run of characters that ends at a terminator; the grammar of numbers is not checked here. */
    method Unterminated() returns (found: bool)
      requires Valid()
      modifies `pos
      ensures Valid()
      ensures pos == old(pos) + Run(old(Rest())) && Rest() == old(Rest())[Run(old(Rest()))..]
      ensures found <==> pos > old(pos)
    {
      var start := pos;
      while pos < |raw| && !IsTerminator(raw[pos])
        invariant start <= pos <= |raw|
        invariant Run(old(Rest())) == pos - start + Run(Rest())
      {
        DropDrop(raw, pos, 1);
        pos := pos + 1;
      }
      DropDrop(raw, start, pos - start);
      found := pos > start;
    }

    /** The state after reading something whose specification is `outcome`. */
    ghost predicate Reads<T>(outcome: Outcome<T>, ok: bool)
      reads this
    {
      && Valid()
      && ok == outcome.Read?
      && (ok ==> Rest() == outcome.rest && Tally() == outcome.counts)
    }

    method Value(depth: nat) returns (ok: bool, value: Scanned)
      requires Valid()
      modifies this
      ensures pos >= old(pos)
      ensures Reads(ScanValue(old(Rest()), depth, old(Tally())), ok)
      ensures ok ==> pos > old(pos) && value == ScanValue(old(Rest()), depth, old(Tally())).value
      decreases |raw| - pos, 1
    {
      value := Bare(NullKind);
      if depth > MAX_DEPTH || tokens > MAX_TOKENS {
        return false, value;
      }
      Space();
      if pos >= |raw| {
        return false, value;
      }
      ghost var t := Rest();
      assert SkipBlanks(t) == t;
      tokens := tokens + 1;
      match raw[pos]
      case '"' =>
        var text, repaired;
        ok, text, repaired := StringToken();
        value := Scanned(StringKind, text, repaired);
      case '{' =>
        value := Bare(ObjectKind);
        ok := Object(depth + 1);
      case '[' =>
        value := Bare(ArrayKind);
        ok := Array(depth + 1);
      case 'n' =>
        value := Bare(NullKind);
        ok := Word("null");
      case 't' =>
        value := Bare(BoolKind);
        ok := Word("true");
      case 'f' =>
        value := Bare(BoolKind);
        ok := Word("false");
      case _ =>
        value := Bare(NumberKind);
        ok := Unterminated();
    }

    /** A name, a colon and a value; `ScanRoot` and `Object` read their members alike. */
    method Member(depth: nat) returns (ok: bool, key: string, value: Scanned)
      requires Valid()
      modifies this
      ensures pos >= old(pos)
      ensures Reads(ScanMember(old(Rest()), depth, old(Tally())), ok)
      ensures ok ==> pos > old(pos) && Named(key, value) == ScanMember(old(Rest()), depth, old(Tally())).value
      decreases |raw| - pos, 0
    {
      hide ScanString, ScanValue, Take, SkipBlanks, Utf8Length;
      var repaired;
      value := Bare(NullKind);
      ok, key, repaired := StringToken();
      if !ok || Utf8Length(key) > MAX_NAME {
        return false, key, value;
      }
      members := members + 1;
      if members > MAX_MEMBERS {
        return false, key, value;
      }
      ghost var afterName := Rest();
      Space();
      SkipTwice(afterName);
      ok := TakeChar(':');
      if !ok {
        return false, key, value;
      }
      ok, value := Value(depth);
    }

    method Object(depth: nat) returns (ok: bool)
      requires Valid() && pos < |raw|
      modifies this
      ensures pos >= old(pos)
      ensures Reads(ScanObject(old(Rest()), depth, old(Tally())), ok)
      ensures ok ==> pos > old(pos)
      decreases |raw| - pos, 0
    {
      DropDrop(raw, pos, 1);
      pos := pos + 1;
      ghost var inner := Rest();
      Space();
      SkipTwice(inner);
      ok := TakeChar('}');
      if ok {
        return;
      }
      SkipMember(inner, depth, Tally());
      ghost var goal := ScanMembers(Rest(), depth, Tally());
      while true
        invariant Valid() && pos > old(pos)
        invariant goal == ScanMembers(Rest(), depth, Tally())
        decreases |raw| - pos
      {
        var key, value;
        ok, key, value := Member(depth);
        if !ok {
          return false;
        }
        ghost var afterValue := Rest();
        Space();
        SkipTwice(afterValue);
        ok := TakeChar('}');
        if ok {
          return true;
        }
        ok := TakeChar(',');
        if !ok {
          return false;
        }
      }
    }

    method Array(depth: nat) returns (ok: bool)
      requires Valid() && pos < |raw|
      modifies this
      ensures pos >= old(pos)
      ensures Reads(ScanArray(old(Rest()), depth, old(Tally())), ok)
      ensures ok ==> pos > old(pos)
      decreases |raw| - pos, 0
    {
      DropDrop(raw, pos, 1);
      pos := pos + 1;
      ghost var inner := Rest();
      Space();
      SkipTwice(inner);
      ok := TakeChar(']');
      if ok {
        return;
      }
      SkipItem(inner, depth, Tally());
      ghost var goal := ScanItems(Rest(), depth, Tally());
      while true
        invariant Valid() && pos > old(pos)
        invariant goal == ScanItems(Rest(), depth, Tally())
        decreases |raw| - pos
      {
        var value;
        ok, value := Value(depth);
        if !ok {
          return false;
        }
        ghost var afterValue := Rest();
        Space();
        SkipTwice(afterValue);
        ok := TakeChar(']');
        if ok {
          return true;
        }
        ok := TakeChar(',');
        if !ok {
          return false;
        }
      }
    }

    method ScanRoot() returns (ok: bool, result: EventScan)
      requires Valid() && Tally() == Counts(0, 0)
      modifies this
      ensures pos >= old(pos)
      ensures Reads(EventScanSpec.ScanRoot(old(Rest())), ok)
      ensures ok ==> result == EventScanSpec.ScanRoot(old(Rest())).value
    {
      hide Take, SkipBlanks, ScanValue, ScanRootMembers;
      result := NO_EVENT;
      Space();
      if pos >= |raw| {
        return false, result;
      }
      if raw[pos] != '{' {
        var value;
        ok, value := Value(0);
        return ok, result;
      }
      DropDrop(raw, pos, 1);
      pos := pos + 1;
      tokens := tokens + 1;
      ghost var inner := Rest();
      Space();
      SkipTwice(inner);
      ok := TakeChar('}');
      if ok {
        return ok, EventScan(true, false, map[]);
      }
      SkipRootMember(inner, Tally(), Book({}, false, map[]));
      ok, result := RootMembers();
    }

    /** The loop over the members of the root, with its bookkeeping. */
    method RootMembers() returns (ok: bool, result: EventScan)
      requires Valid()
      modifies this
      ensures pos >= old(pos)
      ensures Reads(ScanRootMembers(old(Rest()), old(Tally()), Book({}, false, map[])), ok)
      ensures ok ==> result == ScanRootMembers(old(Rest()), old(Tally()), Book({}, false, map[])).value
    {
      hide ScanMember, IsSelected, Take, SkipBlanks;
      var seen: set<string>, duplicate: bool, selected: map<string, Scanned> := {}, false, map[];
      ghost var goal := ScanRootMembers(Rest(), Tally(), Book(seen, duplicate, selected));
      while true
        invariant Valid() && pos >= old(pos)
        invariant goal == ScanRootMembers(Rest(), Tally(), Book(seen, duplicate, selected))
        decreases |raw| - pos
      {
        ghost var book := Book(seen, duplicate, selected);
        var key, value;
        ok, key, value := Member(1);
        if !ok {
          return false, NO_EVENT;
        }
        if key in seen {
          duplicate := true;
        }
        seen := seen + {key};
        if IsSelected(key) {
          selected := selected[key := value];
        }
        assert Book(seen, duplicate, selected) == book.Enter(Named(key, value));
        ghost var afterValue := Rest();
        Space();
        SkipTwice(afterValue);
        ok := TakeChar('}');
        if ok {
          return true, EventScan(true, duplicate, selected);
        }
        ok := TakeChar(',');
        if !ok {
          return false, NO_EVENT;
        }
      }
    }
  }

  // ---------- walks in the whole input and in its rest

  ghost function Shift(w: Option<Walk>, start: nat): Option<Walk> {
    if w.Some? then Some(Walk(start + w.value.at, w.value.repaired)) else None
  }

  lemma EscapeShift(raw: string, start: nat, i: nat)
    requires start + i < |raw|
    ensures EscapeAt(raw, start + i) == Shift(EscapeAt(raw[start..], i), start)
  {
    var s := raw[start..];
    if i + 6 <= |s| {
      assert s[i + 2..i + 6] == raw[start + i + 2..start + i + 6];
    }
    if i + 12 <= |s| {
      assert s[i + 8..i + 12] == raw[start + i + 8..start + i + 12];
    }
  }

  lemma {:induction false} WalkShift(raw: string, start: nat, i: nat, repaired: bool)
    requires start + i <= |raw|
    ensures WalkAt(raw, start + i, repaired) == Shift(WalkAt(raw[start..], i, repaired), start)
    decreases |raw| - i
  {
    if start + i < |raw| && raw[start + i] != '"' {
      EscapeShift(raw, start, i);
      if raw[start + i] != '\\' {
        WalkShift(raw, start, i + 1, repaired);
      } else {
        var step := EscapeAt(raw[start..], i);
        if step.Some? {
          WalkShift(raw, start, step.value.at, repaired || step.value.repaired);
        }
      }
    }
  }

  // ---------- blanks that are skipped twice

  lemma SkipTwice(s: string)
    ensures SkipBlanks(SkipBlanks(s)) == SkipBlanks(s)
    ensures forall c :: Take(SkipBlanks(s), c) == Take(s, c)
  {
  }

  lemma SkipItem(s: string, depth: nat, n: Counts)
    ensures ScanItems(SkipBlanks(s), depth, n) == ScanItems(s, depth, n)
  {
    SkipTwice(s);
    assert ScanValue(SkipBlanks(s), depth, n) == ScanValue(s, depth, n);
  }

  lemma SkipMember(s: string, depth: nat, n: Counts)
    ensures ScanMembers(SkipBlanks(s), depth, n) == ScanMembers(s, depth, n)
  {
    SkipTwice(s);
    assert ScanMember(SkipBlanks(s), depth, n) == ScanMember(s, depth, n);
  }

  lemma SkipRootMember(s: string, n: Counts, book: Book)
    ensures ScanRootMembers(SkipBlanks(s), n, book) == ScanRootMembers(s, n, book)
  {
    SkipTwice(s);
    assert ScanMember(SkipBlanks(s), 1, n) == ScanMember(s, 1, n);
  }
}
