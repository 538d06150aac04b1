/** Small definitions shared by every module of the project. */
module Common {

  datatype Option<+T> = None | Some(value: T)

  /** The prefix test of Go's `strings.HasPrefix`. */
  predicate HasPrefix(s: string, prefix: string) {
    |prefix| <= |s| && s[..|prefix|] == prefix
  }

  predicate IsDigit(c: char) {
    '0' <= c <= '9'
  }

  /** No value occurs twice. */
  ghost predicate Distinct<T>(s: seq<T>) {
    forall i, j :: 0 <= i < j < |s| ==> s[i] != s[j]
  }

  lemma DropDrop<T>(s: seq<T>, i: nat, j: nat)
    requires i + j <= |s|
    ensures s[i..][j..] == s[i + j..]
  {
  }

  /** Some value of the sequence is in the set. */
  ghost predicate Meets<T>(seen: set<T>, s: seq<T>) {
    exists i :: 0 <= i < |s| && s[i] in seen
  }

  lemma MeetsTail<T>(seen: set<T>, head: T, tail: seq<T>)
    ensures Meets(seen, [head] + tail) <==> head in seen || Meets(seen, tail)
    ensures Meets(seen + {head}, tail) <==> Meets(seen, tail) || head in tail
  {
    var s := [head] + tail;
    assert forall i :: 0 <= i < |tail| ==> tail[i] == s[i + 1];
    assert s[0] == head;
  }

  lemma DistinctTail<T>(head: T, tail: seq<T>)
    ensures Distinct([head] + tail) <==> head !in tail && Distinct(tail)
  {
    var s := [head] + tail;
    assert forall i :: 0 <= i < |tail| ==> tail[i] == s[i + 1];
    assert s[0] == head;
    if head in tail {
      var i :| 0 <= i < |tail| && tail[i] == head;
      assert s[0] == s[i + 1];
    }
    if Distinct(s) {
      forall i, j | 0 <= i < j < |tail| ensures tail[i] != tail[j] {
        assert s[i + 1] != s[j + 1];
      }
    }
  }
}
