/** Well-nested words over three kinds of brackets, and the stack machine that recognises them. */
module Nesting {
  import opened Common

  predicate IsOpen(c: char) {
    c == '(' || c == '[' || c == '{'
  }

  predicate IsClose(c: char) {
    c == ')' || c == ']' || c == '}'
  }

  predicate Matches(open: char, close: char) {
    (open == '(' && close == ')') || (open == '[' && close == ']') || (open == '{' && close == '}')
  }

  /** The brackets of a text, in order. */
  function Brackets(s: string): (w: string)
    ensures forall i :: 0 <= i < |w| ==> IsOpen(w[i]) || IsClose(w[i])
  {
    if s == "" then "" else (if IsOpen(s[0]) || IsClose(s[0]) then [s[0]] else "") + Brackets(s[1..])
  }

  /** The stack after reading a word of brackets, `None` at the first mismatch. */
  function Push(stack: string, word: string): Option<string>
    decreases |word|
  {
    if word == "" then Some(stack)
    else if IsOpen(word[0]) then Push(stack + [word[0]], word[1..])
    else if stack == "" || !Matches(stack[|stack| - 1], word[0]) then None
    else Push(stack[..|stack| - 1], word[1..])
  }

  // ---------- the grammar

  /** A word is empty, or a bracketed word followed by a word. */
  datatype Nest = Empty | Pair(open: char, close: char, inside: Nest, next: Nest)

  ghost predicate IsPair(open: char, close: char) {
    [open, close] in {"()", "[]", "{}"}
  }

  ghost predicate NestOk(n: Nest) {
    n.Pair? ==> IsPair(n.open, n.close) && NestOk(n.inside) && NestOk(n.next)
  }

  /** The three kinds of brackets. */
  lemma MatchesIff(open: char, close: char)
    ensures Matches(open, close) <==> IsPair(open, close)
    ensures IsOpen(open) <==> open in "([{"
    ensures IsClose(close) <==> close in ")]}"
  {
    if IsPair(open, close) {
      assert open == [open, close][0] && close == [open, close][1];
    }
  }

  ghost function Word(n: Nest): string {
    match n
    case Empty => ""
    case Pair(open, close, inside, next) => [open] + Word(inside) + [close] + Word(next)
  }

  ghost predicate WellNested(word: string) {
    exists n :: NestOk(n) && Word(n) == word
  }

  // ---------- concatenation

  lemma {:induction false} BracketsOf(a: string, b: string)
    ensures Brackets(a + b) == Brackets(a) + Brackets(b)
  {
    hide IsOpen, IsClose;
    if a == "" {
      assert a + b == b;
    } else {
      assert (a + b)[1..] == a[1..] + b;
      BracketsOf(a[1..], b);
      var head := if IsOpen(a[0]) || IsClose(a[0]) then [a[0]] else "";
      assert Brackets(a) == head + Brackets(a[1..]);
      assert head + (Brackets(a[1..]) + Brackets(b)) == head + Brackets(a[1..]) + Brackets(b);
    }
  }

  lemma {:induction false} PushOf(stack: string, a: string, b: string)
    ensures Push(stack, a + b) == match Push(stack, a) case None => None case Some(s) => Push(s, b)
    decreases |a|
  {
    if a == "" {
      assert a + b == b;
    } else {
      assert (a + b)[1..] == a[1..] + b;
      if IsOpen(a[0]) {
        PushOf(stack + [a[0]], a[1..], b);
      } else if stack != "" && Matches(stack[|stack| - 1], a[0]) {
        PushOf(stack[..|stack| - 1], a[1..], b);
      }
    }
  }

  // ---------- the machine accepts exactly the well-nested words

  lemma PushPair(stack: string, open: char, close: char, rest: string)
    requires Matches(open, close)
    ensures Push(stack, [open] + rest) == Push(stack + [open], rest)
    ensures Push(stack + [open], [close] + rest) == Push(stack, rest)
  {
    assert ([open] + rest)[1..] == rest && ([close] + rest)[1..] == rest;
    assert (stack + [open])[..|stack|] == stack;
  }

  lemma {:induction false} PushWord(stack: string, n: Nest)
    requires NestOk(n)
    ensures Push(stack, Word(n)) == Some(stack)
    decreases n
  {
    if n.Pair? {
      hide Push, IsPair;
      MatchesIff(n.open, n.close);
      var tail := [n.close] + Word(n.next);
      assert Word(n) == [n.open] + (Word(n.inside) + tail);
      PushPair(stack, n.open, n.close, Word(n.inside) + tail);
      PushWord(stack + [n.open], n.inside);
      PushOf(stack + [n.open], Word(n.inside), tail);
      PushPair(stack, n.open, n.close, Word(n.next));
      PushWord(stack, n.next);
    }
  }

  /** A word that pops a whole stack: one nest above each of its levels. */
  ghost function Unwound(stack: string, ns: seq<Nest>): string
    requires |ns| == |stack| + 1
    decreases |stack|
  {
    if stack == "" then Word(ns[0])
    else Word(ns[0]) + [Closer(stack[|stack| - 1])] + Unwound(stack[..|stack| - 1], ns[1..])
  }

  function Closer(open: char): char {
    if open == '(' then ')' else if open == '[' then ']' else '}'
  }

  lemma {:induction false} PopsAll(stack: string, word: string) returns (ns: seq<Nest>)
    requires forall i :: 0 <= i < |stack| ==> IsOpen(stack[i])
    requires Push(stack, word) == Some("")
    ensures |ns| == |stack| + 1 && (forall i :: 0 <= i < |ns| ==> NestOk(ns[i]))
    ensures Unwound(stack, ns) == word
    decreases |word|
  {
    if word == "" {
      ns := [Empty];
    } else if IsOpen(word[0]) {
      var c := word[0];
      var more := PopsAll(stack + [c], word[1..]);
      assert (stack + [c])[..|stack|] == stack;
      ns := [Pair(c, Closer(c), more[0], more[1])] + more[2..];
      MatchesIff(c, Closer(c));
      Regroup(stack, c, more);
      assert word == [c] + word[1..];
    } else {
      var more := PopsAll(stack[..|stack| - 1], word[1..]);
      ns := [Empty] + more;
      assert ns[1..] == more;
      assert word == [word[0]] + word[1..];
    }
  }

  lemma UnwoundTop(stack: string, c: char, ns: seq<Nest>)
    requires |ns| == |stack| + 2
    ensures Unwound(stack + [c], ns) == Word(ns[0]) + [Closer(c)] + Unwound(stack, ns[1..])
  {
    assert (stack + [c])[..|stack|] == stack;
  }

  /** What follows the first nest when a stack is unwound. */
  ghost function Below(stack: string, ns: seq<Nest>): string
    requires |ns| == |stack|
  {
    if stack == "" then "" else [Closer(stack[|stack| - 1])] + Unwound(stack[..|stack| - 1], ns)
  }

  lemma UnwoundFirst(stack: string, n: Nest, ns: seq<Nest>)
    requires |ns| == |stack|
    ensures Unwound(stack, [n] + ns) == Word(n) + Below(stack, ns)
  {
    assert ([n] + ns)[1..] == ns;
  }

  lemma Regrouped(c: string, first: string, closer: string, second: string, rest: string)
    ensures c + first + closer + second + rest == c + (first + closer + (second + rest))
  {
  }

  /** The two topmost nests and the bracket between them make one pair. */
  lemma Regroup(stack: string, c: char, more: seq<Nest>)
    requires |more| == |stack| + 2
    ensures Unwound(stack, [Pair(c, Closer(c), more[0], more[1])] + more[2..])
         == [c] + Unwound(stack + [c], more)
  {
    hide Unwound, Below, Closer;
    var pair := Pair(c, Closer(c), more[0], more[1]);
    UnwoundTop(stack, c, more);
    assert more[1..] == [more[1]] + more[2..];
    UnwoundFirst(stack, more[1], more[2..]);
    UnwoundFirst(stack, pair, more[2..]);
    assert Word(pair) == [c] + Word(more[0]) + [Closer(c)] + Word(more[1]);
    Regrouped([c], Word(more[0]), [Closer(c)], Word(more[1]), Below(stack, more[2..]));
  }

  /** The stack machine ends with an empty stack exactly on well-nested words. */
  lemma AcceptsIffWellNested(word: string)
    ensures Push("", word) == Some("") <==> WellNested(word)
  {
    if WellNested(word) {
      var n :| NestOk(n) && Word(n) == word;
      PushWord("", n);
    }
    if Push("", word) == Some("") {
      var ns := PopsAll("", word);
      assert NestOk(ns[0]) && Word(ns[0]) == word;
    }
  }
}
