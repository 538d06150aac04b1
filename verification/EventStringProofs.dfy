/** The scanner reads back every printed string: its text, and whether a surrogate was repaired. */
module EventStringProofs {
  import opened Common
  import opened JsonText
  import opened EventScanSpec

  // ---------- blanks

  lemma {:induction false} SkipOver(pre: string, s: string)
    requires Blanks(pre)
    ensures SkipBlanks(pre + s) == SkipBlanks(s)
  {
    if pre == "" {
      assert pre + s == s;
    } else {
      assert (pre + s)[1..] == pre[1..] + s;
      SkipOver(pre[1..], s);
    }
  }

  lemma TakeOver(pre: string, c: char, rest: string)
    requires Blanks(pre) && !IsBlank(c)
    ensures Take(pre + [c] + rest, c) == Some(rest)
    ensures forall d :: d != c ==> Take(pre + [c] + rest, d) == None
  {
    SkipOver(pre, [c] + rest);
    assert pre + [c] + rest == pre + ([c] + rest);
    assert ([c] + rest)[1..] == rest;
  }

  // ---------- the surrogate walk

  /** The walk's flag, on pieces: pairs are consumed greedily, any other surrogate is a repair. */
  ghost predicate Repairs(ps: seq<Piece>) {
    if ps == [] then false
    else if PairAt(ps, 0) then Repairs(ps[2..])
    else ps[0].High() || ps[0].Low() || Repairs(ps[1..])
  }

  /** The first surrogate of `ps` may have its partner just before `ps`. */
  ghost predicate LoneAfter(previousHigh: bool, ps: seq<Piece>) {
    exists i :: 0 <= i < |ps| && LoneAt(ps, i) && !(i == 0 && previousHigh && ps[0].Low())
  }

  lemma LoneTail(previousHigh: bool, ps: seq<Piece>)
    requires ps != []
    ensures LoneAfter(previousHigh, ps) <==>
            (LoneAt(ps, 0) && !(previousHigh && ps[0].Low())) || LoneAfter(ps[0].High(), ps[1..])
  {
    var tail := ps[1..];
    assert forall i :: 0 <= i < |tail| ==> tail[i] == ps[i + 1];
    forall i | 0 <= i < |tail|
      ensures (LoneAt(tail, i) && !(i == 0 && ps[0].High() && tail[0].Low())) <==> LoneAt(ps, i + 1)
    {
      assert i > 0 ==> tail[i - 1] == ps[i];
      assert i + 1 < |tail| ==> tail[i + 1] == ps[i + 2];
    }
    if LoneAfter(ps[0].High(), tail) {
      var i :| 0 <= i < |tail| && LoneAt(tail, i) && !(i == 0 && ps[0].High() && tail[0].Low());
      assert LoneAt(ps, i + 1);
    }
    if LoneAfter(previousHigh, ps) {
      var i :| 0 <= i < |ps| && LoneAt(ps, i) && !(i == 0 && previousHigh && ps[0].Low());
      if i > 0 {
        assert LoneAt(tail, i - 1);
      }
    }
  }

  /** RFC 8259, section 8.2: the greedy walk finds a repair exactly when some surrogate stands alone. */
  lemma {:induction false} RepairsIffLone(ps: seq<Piece>)
    ensures Repairs(ps) <==> LoneSurrogate(ps)
  {
    RepairsIffLoneAfter(ps);
    assert LoneSurrogate(ps) <==> LoneAfter(false, ps);
  }

  lemma {:induction false} RepairsIffLoneAfter(ps: seq<Piece>)
    ensures Repairs(ps) <==> LoneAfter(false, ps)
    decreases |ps|
  {
    if ps != [] {
      LoneTail(false, ps);
      if PairAt(ps, 0) {
        assert ps[1..][0] == ps[1];
        LoneTail(true, ps[1..]);
        DropDrop(ps, 1, 1);
        assert !ps[1].High();
        RepairsIffLoneAfter(ps[2..]);
      } else if !(ps[0].High() || ps[0].Low()) {
        RepairsIffLoneAfter(ps[1..]);
      }
    }
  }

  /** A repair is visible in the text: it leaves a replacement character. */
  lemma {:induction false} RepairIsVisible(ps: seq<Piece>)
    requires Repairs(ps)
    ensures REPLACEMENT in Decode(ps)
    decreases |ps|
  {
    if PairAt(ps, 0) {
      RepairIsVisible(ps[2..]);
    } else if !(ps[0].High() || ps[0].Low()) {
      RepairIsVisible(ps[1..]);
    }
  }

  /** A decoded pair is the character whose two code units in UTF-16 are the pair. */
  lemma PairIsUtf16(high: nat, low: nat)
    requires HighUnit(high) && LowUnit(low)
    ensures var c := PairChar(high, low) as int - 0x10000;
            0 <= c < 0x100000 && 0xd800 + c / 0x400 == high && 0xdc00 + c % 0x400 == low
  {
  }

  // ---------- one piece at a time

  lemma LowEscapePiece(p: Piece, tail: string)
    requires p.Ok()
    ensures LowEscapeAt(p.Print() + tail, 0) <==> p.Low()
    ensures p.Low() ==> (p.Print() + tail)[2..6] == p.hex
  {
    var s := p.Print() + tail;
    match p {
      case Plain(c) =>
      case Short(c) => assert s[1] == c;
      case Unit(hex) => assert s[2..6] == hex;
    }
  }

  /** A printed body starts with a low escape exactly when its first piece is one. */
  lemma LowEscapeOf(ps: seq<Piece>, rest: string)
    requires PiecesOk(ps)
    ensures LowEscapeAt(PrintPieces(ps) + rest, 0) <==>
            if ps == [] then LowEscapeAt(rest, 0) else ps[0].Low()
    ensures ps != [] && ps[0].Low() ==> (PrintPieces(ps) + rest)[2..6] == ps[0].hex
  {
    hide LowEscapeAt;
    if ps == [] {
      assert PrintPieces(ps) + rest == rest;
    } else {
      var tail := PrintPieces(ps[1..]) + rest;
      assert PrintPieces(ps) + rest == ps[0].Print() + tail;
      LowEscapePiece(ps[0], tail);
    }
  }

  /** The text that has `p` printed between `pre` and `tail`. */
  ghost function Around(pre: string, p: Piece, tail: string): string {
    pre + p.Print() + tail
  }

  lemma PieceAt(pre: string, p: Piece, tail: string)
    requires p.Ok()
    ensures var s, i := Around(pre, p, tail), |pre|;
            && |s| == i + |p.Print()| + |tail|
            && (p.Plain? ==> s[i] == p.c)
            && (p.Short? ==> s[i] == '\\' && s[i + 1] == p.c)
            && (p.Unit? ==>
                  && s[i] == '\\' && s[i + 1] == 'u' && s[i + 2..i + 6] == p.hex
                  && (LowEscapeAt(s, i + 6) <==> LowEscapeAt(tail, 0))
                  && (LowEscapeAt(tail, 0) ==> s[i + 8..i + 12] == tail[2..6]))
  {
    var s, i := Around(pre, p, tail), |pre|;
    if p.Unit? {
      assert s[i + 2..i + 6] == p.hex;
      assert forall k :: 0 <= k < |tail| ==> s[i + 6 + k] == tail[k];
      if |tail| >= 6 {
        assert s[i + 8..i + 12] == tail[2..6];
      }
    }
  }

  /** One step of the walk, except over a pair. */
  lemma WalkStep(pre: string, p: Piece, tail: string, repaired: bool)
    requires p.Ok() && !(p.High() && LowEscapeAt(tail, 0))
    ensures var s := Around(pre, p, tail);
            WalkAt(s, |pre|, repaired) == WalkAt(s, |pre| + |p.Print()|, repaired || p.High() || p.Low())
  {
    PieceAt(pre, p, tail);
  }

  lemma WalkPairStep(pre: string, p: Piece, tail: string, repaired: bool)
    requires p.Ok() && p.High() && LowEscapeAt(tail, 0)
    ensures var s := Around(pre, p, tail);
            WalkAt(s, |pre|, repaired) == WalkAt(s, |pre| + 12, repaired)
  {
    PieceAt(pre, p, tail);
  }

  lemma UnquoteUnit(hex: string, tail: string)
    requires IsHex4(hex) && !(HighUnit(CodeUnit(hex)) && LowEscapeAt(tail, 0))
    ensures Unquote(Unit(hex).Print() + tail) == Cons(UnitChar(CodeUnit(hex)), Unquote(tail))
  {
    hide LowEscapeAt, CodeUnit, IsHex, ShortEscape, UnitChar;
    var s := Unit(hex).Print() + tail;
    assert Around("", Unit(hex), tail) == s;
    PieceAt("", Unit(hex), tail);
    assert |s| >= 6 && s[0] == '\\' && s[1] == 'u' && s[2..6] == hex;
    assert s[6..] == tail;
  }

  lemma UnquoteStep(p: Piece, tail: string)
    requires p.Ok() && !(p.High() && LowEscapeAt(tail, 0))
    ensures Unquote(p.Print() + tail) == Cons(p.Alone(), Unquote(tail))
  {
    hide LowEscapeAt, CodeUnit, IsHex4;
    var s := p.Print() + tail;
    match p
    case Plain(c) => assert s[1..] == tail;
    case Short(c) => assert s[1] == c && s[2..] == tail;
    case Unit(hex) => UnquoteUnit(hex, tail);
  }

  /** A text that starts with a pair of surrogate escapes. */
  lemma UnquotePair(s: string)
    requires |s| >= 6 && s[0] == '\\' && s[1] == 'u' && IsHex4(s[2..6]) && HighUnit(CodeUnit(s[2..6])) && LowEscapeAt(s, 6)
    ensures Unquote(s) == Cons(PairChar(CodeUnit(s[2..6]), CodeUnit(s[8..12])), Unquote(s[12..]))
  {
    hide CodeUnit, IsHex, ShortEscape, PairChar;
  }

  lemma UnquotePairStep(p: Piece, tail: string)
    requires p.Ok() && p.High() && LowEscapeAt(tail, 0)
    ensures Unquote(p.Print() + tail)
         == Cons(PairChar(CodeUnit(p.hex), CodeUnit(tail[2..6])), Unquote(tail[6..]))
  {
    hide Unquote, CodeUnit, IsHex;
    var s := p.Print() + tail;
    assert Around("", p, tail) == s;
    PieceAt("", p, tail);
    assert s[12..] == tail[6..];
    UnquotePair(s);
  }

  /** A body with what follows it, unfolded by one piece. */
  lemma Unfold(ps: seq<Piece>, rest: string)
    requires ps != []
    ensures PrintPieces(ps) + rest == ps[0].Print() + (PrintPieces(ps[1..]) + rest)
    ensures |PrintPieces(ps)| == |ps[0].Print()| + |PrintPieces(ps[1..])|
  {
    var head, tail := ps[0].Print(), PrintPieces(ps[1..]);
    assert PrintPieces(ps) == head + tail;
    Associates(head, tail, rest);
  }

  lemma Associates(a: string, b: string, c: string)
    ensures a + b + c == a + (b + c)
  {
  }

  lemma UnfoldPair(ps: seq<Piece>, rest: string)
    requires PiecesOk(ps) && PairAt(ps, 0)
    ensures var tail := PrintPieces(ps[1..]) + rest;
            LowEscapeAt(tail, 0) && tail[2..6] == ps[1].hex && tail[6..] == PrintPieces(ps[2..]) + rest
    ensures |PrintPieces(ps)| == 12 + |PrintPieces(ps[2..])|
  {
    LowEscapeOf(ps[1..], rest);
    Unfold(ps, rest);
    Unfold(ps[1..], rest);
    DropDrop(ps, 1, 1);
    var tail := PrintPieces(ps[2..]) + rest;
    assert PrintPieces(ps[1..]) + rest == ps[1].Print() + tail;
    assert (ps[1].Print() + tail)[6..] == tail;
  }

  // ---------- the two readers on a printed body

  /** The walk that starts after `pre` stops at the quote after the printed body. */
  ghost predicate WalksPast(pre: string, ps: seq<Piece>, quote: string, repaired: bool) {
    WalkAt(pre + (PrintPieces(ps) + quote), |pre|, repaired)
    == Some(Walk(|pre| + |PrintPieces(ps)|, repaired || Repairs(ps)))
  }

  /** The same text, split before, around and after its first piece. */
  lemma Splits(pre: string, ps: seq<Piece>, quote: string)
    requires ps != []
    ensures var tail := PrintPieces(ps[1..]) + quote;
            && pre + (PrintPieces(ps) + quote) == Around(pre, ps[0], tail)
            && pre + (PrintPieces(ps) + quote) == (pre + ps[0].Print()) + tail
            && |PrintPieces(ps)| == |ps[0].Print()| + |PrintPieces(ps[1..])|
  {
    Unfold(ps, quote);
  }

  lemma WalkPairCase(pre: string, ps: seq<Piece>, quote: string, repaired: bool)
    requires PiecesOk(ps) && PairAt(ps, 0)
    requires WalksPast(pre + ps[0].Print() + ps[1].Print(), ps[2..], quote, repaired)
    ensures WalksPast(pre, ps, quote, repaired)
  {
    hide WalkAt, LowEscapeAt;
    var s := pre + (PrintPieces(ps) + quote);
    assert LowEscapeAt(PrintPieces(ps[1..]) + quote, 0) && |PrintPieces(ps)| == 12 + |PrintPieces(ps[2..])| by {
      UnfoldPair(ps, quote);
    }
    assert s == (pre + ps[0].Print() + ps[1].Print()) + (PrintPieces(ps[2..]) + quote) by {
      Splits(pre, ps, quote);
      Splits(pre + ps[0].Print(), ps[1..], quote);
      DropDrop(ps, 1, 1);
    }
    assert WalkAt(s, |pre|, repaired) == WalkAt(s, |pre| + 12, repaired) by {
      Splits(pre, ps, quote);
      WalkPairStep(pre, ps[0], PrintPieces(ps[1..]) + quote, repaired);
    }
  }

  lemma WalkOtherCase(pre: string, ps: seq<Piece>, quote: string, repaired: bool)
    requires PiecesOk(ps) && ps != [] && !PairAt(ps, 0) && quote != "" && quote[0] == '"'
    requires WalksPast(pre + ps[0].Print(), ps[1..], quote, repaired || ps[0].High() || ps[0].Low())
    ensures WalksPast(pre, ps, quote, repaired)
  {
    hide WalkAt;
    var s := pre + (PrintPieces(ps) + quote);
    var flag := repaired || ps[0].High() || ps[0].Low();
    assert !(ps[0].High() && LowEscapeAt(PrintPieces(ps[1..]) + quote, 0)) by {
      LowEscapeOf(ps[1..], quote);
    }
    Splits(pre, ps, quote);
    assert WalkAt(s, |pre|, repaired) == WalkAt(s, |pre| + |ps[0].Print()|, flag) by {
      WalkStep(pre, ps[0], PrintPieces(ps[1..]) + quote, repaired);
    }
  }

  lemma {:induction false} WalkPrinted(pre: string, ps: seq<Piece>, quote: string, repaired: bool)
    requires PiecesOk(ps) && quote != "" && quote[0] == '"'
    ensures WalksPast(pre, ps, quote, repaired)
    decreases |ps|
  {
    if ps == [] {
      assert PrintPieces(ps) + quote == quote;
    } else if PairAt(ps, 0) {
      WalkPrinted(pre + ps[0].Print() + ps[1].Print(), ps[2..], quote, repaired);
      WalkPairCase(pre, ps, quote, repaired);
    } else {
      WalkPrinted(pre + ps[0].Print(), ps[1..], quote, repaired || ps[0].High() || ps[0].Low());
      WalkOtherCase(pre, ps, quote, repaired);
    }
  }

  lemma {:induction false} UnquotePrinted(ps: seq<Piece>)
    requires PiecesOk(ps)
    ensures Unquote(PrintPieces(ps)) == Some(Decode(ps))
    decreases |ps|
  {
    if ps != [] {
      var tail := PrintPieces(ps[1..]) + "";
      assert PrintPieces(ps) + "" == PrintPieces(ps) && tail == PrintPieces(ps[1..]);
      Unfold(ps, "");
      LowEscapeOf(ps[1..], "");
      if PairAt(ps, 0) {
        UnfoldPair(ps, "");
        UnquotePairStep(ps[0], tail);
        assert PrintPieces(ps[2..]) + "" == PrintPieces(ps[2..]);
        UnquotePrinted(ps[2..]);
      } else {
        UnquoteStep(ps[0], tail);
        UnquotePrinted(ps[1..]);
      }
    }
  }

  // ---------- whole tokens

  /** Scanning a printed string gives its text and its repair flag, and stops just after it. */
  lemma ScanStringPrinted(pre: string, ps: seq<Piece>, rest: string)
    requires Blanks(pre) && PiecesOk(ps)
    ensures ScanString(pre + PrintString(ps) + rest)
         == Some(StringToken(Decode(ps), LoneSurrogate(ps), rest))
  {
    var body := PrintPieces(ps);
    var t := PrintString(ps) + rest;
    assert pre + PrintString(ps) + rest == pre + t;
    SkipOver(pre, t);
    assert t == ['"'] + (body + (['"'] + rest));
    WalkPrinted(['"'], ps, ['"'] + rest, false);
    assert t[1..1 + |body|] == body;
    assert t[|body| + 2..] == rest;
    UnquotePrinted(ps);
    RepairsIffLone(ps);
  }
}
