/** What a repetition that may be missing reports: (ab)*c on "ababc"
    (src/common/regex_engine.cpp, dissect). */
module Repeated {
  import opened Capturing
  import opened Ere
  import opened Grammar
  import opened Numbering
  import opened Offsets
  import opened Regex
  import opened Leftmost
  import opened Shortfalls

  lemma {:induction false} PairSpelled(r: Reader, p: seq<char>, b: Ere)
    requires p == "(ab)*c" && b == Group(1, Word("ab"))
    ensures Atom(r, p, 0, 4, 0, b)
  {
    assert forall k :: 1 <= k < 3 ==> PlainPiece(p, k);
    assert p[1..3] == "ab";
    WordSpelled(r, p, 1, 3, 1, "ab");
    WordLowered("ab");
    assert Whole(r, p, 1, 3, 1, Word("ab"));
  }

  lemma {:induction false} RepeatedSpelled(r: Reader, p: seq<char>, b: Ere, s: Ere)
    requires p == "(ab)*c" && Atom(r, p, 0, 4, 0, b) && s == Star(b)
    ensures Spells(r, p, Cat(Cat(Eps, s), Chr('c')))
  {
    assert Piece(r, p, 0, 5, 0, s);
    OnePiece(r, p, 0, 5, 0, s);
    CharPiece(r, p, 5, 6, Groups(Cat(Eps, s)), 'c');
    OneMorePiece(r, p, 0, 5, 6, 0, Cat(Eps, s), Chr('c'));
    assert |p| == 6 && !Dropped(Cat(Cat(Eps, s), Chr('c')));
  }

  lemma {:induction false} WordNumbered(w: seq<char>, n: nat)
    ensures Numbered(Word(w), n)
  {
    WordLowered(w);
    if w != [] {
      WordNumbered(w[..|w| - 1], n);
      WordLowered(w[..|w| - 1]);
    }
  }

  lemma {:induction false} CatNumbered(e: Ere, l: Ere, r: Ere, n: nat)
    requires e == Cat(l, r) && Ok(l) && Ok(r) && Numbered(l, n) && Numbered(r, n + Groups(l))
    ensures Ok(e) && Numbered(e, n) && Groups(e) == Groups(l) + Groups(r)
  {
  }

  /** A group repeated, then something without groups. */
  lemma {:induction false} RepeatedNumbered(x: Ere, n: nat, b: Ere, s: Ere, c: Ere, y: Ere, e: Ere)
    requires Ok(x) && Numbered(x, n + 1) && b == Group(n + 1, x) && s == Star(b)
    requires Ok(y) && Numbered(y, n + Groups(b)) && Groups(y) == 0 && c == Cat(Eps, s) && e == Cat(c, y)
    ensures Ok(b) && Numbered(b, n) && Groups(b) == Groups(x) + 1
    ensures Ok(e) && Numbered(e, n) && Groups(e) == Groups(b)
  {
    CatNumbered(c, c.l, s, n);
    CatNumbered(e, c, y, n);
  }

  /** The parenthesis has the word "ab" and no other. */
  lemma {:induction false} PairOccurs(b: Ere, t: seq<char>, i: nat, j: int)
    requires b == Group(1, Word("ab"))
    ensures Occurs(b, t, i, j) <==> j == i + 2 <= |t| && t[i..j] == "ab"
  {
    WordLowered("ab");
    if i <= j <= |t| {
      LowerIs(Word("ab"), t, i, j);
      CharsMatch("ab", t, i, j);
    }
  }

  /** In "ababc" it occurs twice, one right after the other. */
  lemma {:induction false} PairsOccur(b: Ere, t: seq<char>)
    requires b == Group(1, Word("ab")) && t == "ababc"
    ensures forall i: nat, j :: Occurs(b, t, i, j) <==> (i, j) == (0, 2) || (i, j) == (2, 4)
  {
    forall i: nat, j ensures Occurs(b, t, i, j) <==> (i, j) == (0, 2) || (i, j) == (2, 4) {
      PairOccurs(b, t, i, j);
      assert t[0..2] == "ab" && t[2..4] == "ab";
      if j == i + 2 <= |t| { assert t[i..j] == [t[i], t[i + 1]]; }
    }
  }

  lemma {:induction false} TwiceOccurs(b: Ere, c: Ere, e: Ere, t: seq<char>)
    requires c == Cat(Eps, Star(b)) && e == Cat(c, Chr('c')) && t == "ababc"
    requires Occurs(b, t, 0, 2) && Occurs(b, t, 2, 4)
    ensures Occurs(Star(b), t, 0, 4) && Occurs(Chr('c'), t, 4, 5) && Occurs(e, t, 0, 5)
  {
    var w := t[0..4];
    assert w[..2] == t[0..2] && w[2..] == t[2..4] && t[0..2][..0] == [] && t[0..2][0..] == t[0..2];
    assert Power(b, 0, t[0..2][..0]) && Lang(b, t[0..2][0..]);
    assert Power(b, 1, w[..2]) && Lang(b, w[2..]);
    assert Power(b, 2, w);
    assert w[..0] == [] && w[0..] == w && Lang(Star(b), w);
    assert Lang(Eps, w[..0]) && Lang(Star(b), w[0..]);
    assert t[0..5][..4] == w && t[0..5][4..] == "c" && t[4..5] == "c";
    assert Lang(c, t[0..5][..4]) && Lang(Chr('c'), t[0..5][4..]);
  }

  lemma {:induction false} TwiceLast(b: Ere, t: seq<char>)
    requires |t| == 5 && forall i: nat, j :: Occurs(b, t, i, j) <==> (i, j) == (0, 2) || (i, j) == (2, 4)
    ensures LastWord(b, t, 0, 0, 4) == (2, 4)
  {
    LongestIs(b, ANYWHERE, t, 0, 4);
    LongestIs(b, ANYWHERE, t, 2, 4);
    LongestIs(b, ANYWHERE, t, 4, 4);
    assert Longest(b, ANYWHERE, t, 0, 4) == 2 && Longest(b, ANYWHERE, t, 2, 4) == 4;
    assert Longest(b, ANYWHERE, t, 4, 4) == NULL;
    assert LastWord(b, t, 2, 4, 4) == (2, 4);
    assert LastWord(b, t, 0, 2, 4) == (2, 4);
  }

  lemma {:induction false} TwiceReported(b: Ere, c: Ere, e: Ere, t: seq<char>)
    requires b.Group? && c == Chr('c') && e == Cat(Cat(Eps, Star(b)), c) && Ok(e) && Numbered(e, 0) && |t| == 5
    requires Groups(b) == 1 && Groups(e) == 1 && LastWord(b, t, 0, 0, 4) == (2, 4)
    requires Occurs(Star(b), t, 0, 4) && Occurs(c, t, 4, 5) && Occurs(e, t, 0, 5)
    ensures Report(Lower(e), t, 0, 5, 2, Groups(e)) == [Span(0, 5), Span(2, 4)]
  {
    assert !Occurs(c, t, 5, 5);
    StarReported(b, c, e, t, 0, 4, 5, 2, 1);
  }

  lemma {:induction false} RepeatedOk(w: seq<char>, b: Ere, y: Ere, e: Ere)
    requires b == Group(1, Word(w)) && y == Chr('c') && e == Cat(Cat(Eps, Star(b)), y)
    ensures Ok(e) && Numbered(e, 0) && Groups(b) == 1 && Groups(e) == 1
  {
    WordLowered(w);
    WordNumbered(w, 1);
    RepeatedNumbered(b.e, 0, b, e.l.r, e.l, y, e);
  }

  lemma {:induction false} PairsLast(b: Ere, w: seq<char>, t: seq<char>)
    requires b == Group(1, Word(w)) && w == "ab" && t == "ababc"
    ensures Occurs(b, t, 0, 2) && Occurs(b, t, 2, 4) && LastWord(b, t, 0, 0, 4) == (2, 4)
  {
    PairsOccur(b, t);
    TwiceLast(b, t);
  }

  lemma {:induction false} RepeatedTwice(w: seq<char>, b: Ere, y: Ere, e: Ere, t: seq<char>)
    requires w == "ab" && t == "ababc"
    requires b == Group(1, Word(w)) && y == Chr('c') && e == Cat(Cat(Eps, Star(b)), y)
    requires Ok(e) && Numbered(e, 0) && Groups(b) == 1 && Groups(e) == 1
    ensures Occurs(e, t, 0, 5) && Report(Lower(e), t, 0, 5, 2, Groups(e)) == [Span(0, 5), Span(2, 4)]
  {
    PairsLast(b, w, t);
    TwiceOccurs(b, e.l, e, t);
    TwiceReported(b, y, e, t);
  }

  /** Of (ab)*c on all of "ababc" the second "ab" is reported for the parenthesis. */
  lemma {:induction false} RepeatedReported(r: Reader, p: seq<char>, w: seq<char>, b: Ere, y: Ere, e: Ere, t: seq<char>)
    requires p == "(ab)*c" && w == "ab" && t == "ababc"
    requires b == Group(1, Word(w)) && y == Chr('c') && e == Cat(Cat(Eps, Star(b)), y)
    ensures Spells(r, p, e) && Ok(e) && Occurs(e, t, 0, 5)
    ensures Report(Lower(e), t, 0, 5, 2, Groups(e)) == [Span(0, 5), Span(2, 4)]
  {
    assert Spells(r, p, e) by {
      PairSpelled(r, p, b);
      RepeatedSpelled(r, p, b, Star(b));
    }
    RepeatedOk(w, b, y, e);
    RepeatedTwice(w, b, y, e, t);
  }
}
