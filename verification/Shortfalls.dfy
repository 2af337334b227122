/** Two patterns whose reported offsets are not the ones a reader would expect
    (src/common/regex_engine.cpp, dissect). */
module Shortfalls {
  import opened Strip
  import opened Reach
  import opened Search
  import opened Capturing
  import opened Captured
  import opened Ere
  import opened Grammar
  import opened Reading
  import opened Nesting
  import opened Reporting
  import opened Regex
  import opened Leftmost

  // ----- Plain words in patterns -----

  function Word(w: seq<char>): Ere {
    if w == [] then Eps else Cat(Word(w[..|w| - 1]), Chr(w[|w| - 1]))
  }

  function Chars(w: seq<char>): seq<Node> {
    if w == [] then [] else Chars(w[..|w| - 1]) + [Char(w[|w| - 1])]
  }

  lemma {:induction false} WordLowered(w: seq<char>)
    ensures Ok(Word(w)) && Lower(Word(w)) == Chars(w) && Groups(Word(w)) == 0 && (Dropped(Word(w)) <==> w == [])
  {
    if w != [] { WordLowered(w[..|w| - 1]); }
  }

  predicate PlainPiece(p: seq<char>, k: nat) {
    PlainAt(p, k) && !RepeatsAt(p, k + 1)
  }

  /** Plain characters spell their word. */
  lemma {:induction false} WordSpelled(r: Reader, p: seq<char>, i: nat, j: nat, n: nat, w: seq<char>)
    requires i <= j <= |p| && w == p[i..j]
    requires forall k :: i <= k < j ==> PlainPiece(p, k)
    ensures Pieces(r, p, i, j, n, Word(w))
    ensures i < j ==> Alternative(r, p, i, j, n, Word(w))
  {
    WordLowered(w);
    if i < j {
      var v := w[..|w| - 1];
      assert v == p[i..j - 1] && PlainPiece(p, j - 1);
      WordSpelled(r, p, i, j - 1, n, v);
      WordLowered(v);
      CharPiece(r, p, j - 1, j, n, p[j - 1]);
      OneMorePiece(r, p, i, j - 1, j, n, Word(v), Chr(p[j - 1]));
    }
  }

  lemma {:induction false} PieceSpells(r: Reader, p: seq<char>, x: Ere)
    requires Piece(r, p, 0, |p|, 0, x) && !Dropped(x)
    ensures Spells(r, p, Cat(Eps, x))
  {
    OnePiece(r, p, 0, |p|, 0, x);
  }

  lemma {:induction false} CharsMatch(w: seq<char>, t: seq<char>, i: nat, j: int)
    requires i <= |t|
    ensures M(Chars(w), t, i, j) <==> j == i + |w| <= |t| && t[i..j] == w
    decreases w
  {
    if w == [] {
      assert j == i <= |t| ==> t[i..j] == [];
    } else {
      var v, c := w[..|w| - 1], Char(w[|w| - 1]);
      MConcat(Chars(v), [c], t, i, j);
      forall k | i <= k <= j ensures M([c], t, k, j) <==> MNode(c, t, k, j) { MSingle(c, t, k, j); }
      forall k ensures M(Chars(v), t, i, k) <==> k == i + |v| <= |t| && t[i..k] == v { CharsMatch(v, t, i, k); }
      assert w == v + [w[|w| - 1]];
      if j == i + |w| <= |t| {
        assert t[i..j] == t[i..j - 1] + [t[j - 1]];
        assert M(Chars(v), t, i, j - 1) && M([c], t, j - 1, j) <==> t[i..j] == w;
      }
    }
  }

  // ----- What regexec returns when it can only start at the first character -----

  lemma {:induction false} OutcomeFrom(e: Ere, xs: seq<Node>, t: seq<char>, f: nat, j: nat, nmatch: nat, nsub: nat)
    requires Ok(e) && xs == Lower(e) && f <= j <= |t| && M(xs, t, 0, f) && M(xs, t, 0, j)
    requires forall i, p :: 0 <= i <= p <= f && M(xs, t, i, p) ==> i == 0 && p == f
    requires forall p :: j < p <= |t| ==> !M(xs, t, 0, p)
    ensures OutcomeOf(xs, t, 0, |t|, nmatch, nsub) == Matched(Report(xs, t, 0, j, nmatch, nsub))
  {
    assert Ends(xs, t, 0, f, f);
    FirstEndIs(xs, t, 0, 0, |t|, f);
    EndsFromCold(xs, t, 0, |t|);
    MaxEndIs(xs, t, 0, |t|);
  }

  // ----- A last pass that ends too early: (a|ab|bcd)+ on "abcd" -----

  function ThreeWords(): Ere { Group(1, Alt([Word("a"), Word("ab"), Word("bcd")])) }

  function ThreeItems(): seq<Node> {
    [LPar(1)] + [Choice(Chars("a"), [Strip.Branch(Chars("ab"))], Chars("bcd"))] + [RPar(1)]
  }

  lemma {:induction false} ThreeSpelled(r: Reader, p: seq<char>, x: Ere, y: Ere, z: Ere)
    requires p == "(a|ab|bcd)+" && x == Word("a") && y == Word("ab") && z == Word("bcd")
    ensures Spells(r, p, Cat(Eps, More(Group(1, Alt([x, y, z])))))
  {
    ThreeAlternatives(r, p, x, y, z);
    ThreeSeparated(r, p, x, y, z);
    var g := Group(1, Alt([x, y, z]));
    assert |p| == 11 && p[10] == '+' && Atom(r, p, 0, 10, 0, g);
    assert Piece(r, p, 0, 11, 0, More(g));
    PieceSpells(r, p, More(g));
  }

  lemma {:induction false} ThreeAlternatives(r: Reader, p: seq<char>, x: Ere, y: Ere, z: Ere)
    requires p == "(a|ab|bcd)+" && x == Word("a") && y == Word("ab") && z == Word("bcd")
    ensures Alternative(r, p, 1, 2, 1, x) && Alternative(r, p, 3, 5, 1, y) && Alternative(r, p, 6, 9, 1, z)
    ensures Groups(x) == 0 && Groups(y) == 0
  {
    assert forall k :: 1 <= k < 2 || 3 <= k < 5 || 6 <= k < 9 ==> PlainPiece(p, k);
    WordLowered("a");
    WordLowered("ab");
    WordSpelled(r, p, 1, 2, 1, "a");
    WordSpelled(r, p, 3, 5, 1, "ab");
    WordSpelled(r, p, 6, 9, 1, "bcd");
  }

  lemma {:induction false} ThreeSeparated(r: Reader, p: seq<char>, x: Ere, y: Ere, z: Ere)
    requires p == "(a|ab|bcd)+" && Groups(x) == 0 && Groups(y) == 0
    requires Alternative(r, p, 1, 2, 1, x) && Alternative(r, p, 3, 5, 1, y) && Alternative(r, p, 6, 9, 1, z)
    ensures Separated(r, p, 1, 9, 1, [x, y, z])
  {
    SeparatedOne(r, p, 6, 9, 1, z);
    SeparatedCons(r, p, 3, 5, 9, 1, y, [z]);
    SeparatedCons(r, p, 1, 2, 9, 1, x, [y] + [z]);
    assert [x] + ([y] + [z]) == [x, y, z];
  }

  lemma {:induction false} ThreeLowered(e: Ere)
    requires e == Cat(Eps, More(ThreeWords()))
    ensures Ok(e) && Groups(e) == 1 && Lower(e) == [Plus(ThreeItems())]
  {
    var x, y, z := Word("a"), Word("ab"), Word("bcd");
    WordLowered("a");
    WordLowered("ab");
    WordLowered("bcd");
    var bs := [x, y, z];
    assert bs[1..2] == [y] && [y][1..] == [] && bs[1..] == [y, z] && [y, z][1..] == [z] && [z][1..] == [];
    assert LowerMid([y]) == [Strip.Branch(Lower(y))];
    assert Lower(Alt(bs)) == [Choice(Lower(x), LowerMid([y]), Lower(z))];
    assert GroupsAll(bs) == 0;
    assert Lower(ThreeWords()) == ThreeItems();
    assert Lower(e) == [] + [Plus(ThreeItems())];
  }

  lemma {:induction false} ThreeMatch(body: seq<Node>, t: seq<char>, i: nat, j: int)
    requires body == ThreeItems() && i <= j <= |t|
    ensures M(body, t, i, j) <==> t[i..j] == "a" || t[i..j] == "ab" || t[i..j] == "bcd"
  {
    var x := Choice(Chars("a"), [Strip.Branch(Chars("ab"))], Chars("bcd"));
    GroupIs(1, [x], t, i, j);
    MSingle(x, t, i, j);
    CharsMatch("a", t, i, j);
    CharsMatch("ab", t, i, j);
    CharsMatch("bcd", t, i, j);
  }

  /** The matches of the body in "abcd", and what they make of the repetition. */
  lemma {:induction false} ThreePasses(body: seq<Node>, t: seq<char>)
    requires body == ThreeItems() && t == "abcd"
    ensures M(body, t, 0, 1) && M(body, t, 0, 2) && M(body, t, 1, 4)
    ensures forall i, j :: 0 <= i <= j <= 4 && M(body, t, i, j) ==> i < j && i <= 1
    ensures MaxEnd(body, t, 0, 4) == 2 && MaxEnd(body, t, 2, 4) == NULL
  {
    forall i: nat, j | i <= j <= 4
      ensures M(body, t, i, j) <==> t[i..j] == "a" || t[i..j] == "ab" || t[i..j] == "bcd"
    {
      ThreeMatch(body, t, i, j);
    }
    assert t[0..1] == "a" && t[0..2] == "ab" && t[1..4] == "bcd";
    MaxEndIs(body, t, 0, 4);
    MaxEndIs(body, t, 2, 4);
  }

  lemma {:induction false} PlusIs(body: seq<Node>, t: seq<char>, i: int, k: int, j: int)
    requires i <= k <= j && M(body, t, i, k)
    ensures M([Plus(body)], t, i, k)
    ensures M(body, t, k, j) ==> M([Plus(body)], t, i, j)
  {
    MSingle(Plus(body), t, i, k);
    MSingle(Plus(body), t, i, j);
    assert MPow(body, 0, t, i, i);
    assert MPow(body, 1, t, i, k);
    if M(body, t, k, j) { assert MPow(body, 2, t, i, j); }
  }

  lemma {:induction false} PlusFirst(body: seq<Node>, t: seq<char>, i: int, j: int) returns (k: int)
    requires i <= j && M([Plus(body)], t, i, j)
    ensures i <= k <= j && M(body, t, i, k)
  {
    MSingle(Plus(body), t, i, j);
    var n: nat :| n >= 1 && MPow(body, n, t, i, j);
    k := FirstPass(body, n, t, i, j);
  }

  /** Of (a|ab|bcd)+ regexec reports all of "abcd", but for its parenthesis "ab", which is not
      where the repetition ends: the walk takes "ab" first and is stuck, "a" "bcd" being the
      only way through. */
  lemma {:induction false} LastPassShort(r: Reader, p: seq<char>, e: Ere, t: seq<char>)
    requires p == "(a|ab|bcd)+" && e == Cat(Eps, More(ThreeWords())) && t == "abcd"
    ensures Spells(r, p, e) && Ok(e) && Occurs(e, t, 0, 4)
    ensures LastPass(ThreeItems(), t, 0, 0, 4) == (0, 2)
    ensures Near(Lower(e)) && OutcomeOf(Lower(e), t, 0, |t|, 2, Groups(e)) == Matched([Span(0, 4), Span(0, 2)])
  {
    var body := ThreeItems();
    ThreeNear(body);
    ThreeSpelled(r, p, Word("a"), Word("ab"), Word("bcd"));
    ThreeLowered(e);
    ThreePasses(body, t);
    PlusIs(body, t, 0, 1, 4);
    forall i, p | 0 <= i <= p <= 1 && M([Plus(body)], t, i, p) ensures i == 0 && p == 1 {
      var k := PlusFirst(body, t, i, p);
    }
    OutcomeFrom(e, [Plus(body)], t, 1, 4, 2, 1);
    LowerIs(e, t, 0, 4);
    ShortReport(body, t);
  }

  lemma {:induction false} CharsLen(w: seq<char>)
    ensures Len(Chars(w)) == |w|
  {
    if w != [] {
      CharsLen(w[..|w| - 1]);
      LenSingle(Char(w[|w| - 1]));
      LenConcat(Chars(w[..|w| - 1]), [Char(w[|w| - 1])]);
    }
  }

  /** A parenthesised choice of few characters. */
  lemma {:induction false} GroupLen(n: nat, x: Node)
    ensures Len([LPar(n)] + [x] + [RPar(n)]) == NodeLen(x) + 2
  {
    LenSingle(LPar(n));
    LenSingle(x);
    LenSingle(RPar(n));
    LenConcat([LPar(n)], [x]);
    LenConcat([LPar(n)] + [x], [RPar(n)]);
  }

  lemma {:induction false} ThreeNear(body: seq<Node>)
    requires body == ThreeItems()
    ensures Near([Plus(body)])
  {
    var x := Choice(Chars("a"), [Strip.Branch(Chars("ab"))], Chars("bcd"));
    CharsLen("a");
    CharsLen("ab");
    CharsLen("bcd");
    assert x.mid[1..] == [];
    GroupLen(1, x);
    LenSingle(Plus(body));
    ShortNear([Plus(body)]);
  }

  lemma {:induction false} CharsSound(w: seq<char>, t: seq<char>, lo: int, hi: int, A: Spans)
    requires 0 <= lo
    ensures Sound(Chars(w), t, lo, hi, A)
  {
    if w != [] {
      CharsSound(w[..|w| - 1], t, lo, hi, A);
      SoundAtom(Char(w[|w| - 1]), t, lo, hi, A);
      SoundConcat(Chars(w[..|w| - 1]), [Char(w[|w| - 1])], t, lo, hi, A);
    }
  }

  lemma {:induction false} ThreeSound(x: Node, t: seq<char>)
    requires x == Choice(Chars("a"), [Strip.Branch(Chars("ab"))], Chars("bcd"))
    ensures Sound([x], t, 0, |t|, iset{})
  {
    CharsSound("a", t, 0, |t|, iset{});
    CharsSound("ab", t, 0, |t|, iset{});
    CharsSound("bcd", t, 0, |t|, iset{});
    SoundChoice(x.first, x.mid, x.last, t, 0, |t|, iset{});
  }

  lemma {:induction false} ShortReport(body: seq<Node>, t: seq<char>)
    requires body == ThreeItems() && |t| == 4 && M([Plus(body)], t, 0, 4)
    requires M(body, t, 0, 2) && MaxEnd(body, t, 0, 4) == 2 && MaxEnd(body, t, 2, 4) == NULL
    ensures LastPass(body, t, 0, 0, 4) == (0, 2)
    ensures Report([Plus(body)], t, 0, 4, 2, 1) == [Span(0, 4), Span(0, 2)]
  {
    var x := Choice(Chars("a"), [Strip.Branch(Chars("ab"))], Chars("bcd"));
    var pm := seq(1 + 1, _ => Span(-1, -1));
    MSingle(Plus(body), t, 0, 4);
    CapturesOne(Plus(body), t, 0, 4, pm);
    GroupIs(1, [x], t, 0, 2);
    GroupCaptures(1, [x], t, 0, 2, pm);
    ThreeSound(x, t);
    var pm1 := pm[1 := pm[1].(so := 0)];
    assert Records(iset{}, pm1, Captures([x], t, 0, 2, pm1));
  }

  // ----- A subexpression reported outside the one around it: ((a)|b){2} on "ab" -----

  lemma {:induction false} TwiceAlternatives(r: Reader, p: seq<char>, x: Ere, y: Ere)
    requires p == "((a)|b){2}" && x == Cat(Eps, Group(2, Word("a"))) && y == Word("b")
    ensures Alternative(r, p, 1, 4, 1, x) && Alternative(r, p, 5, 6, 2, y) && Groups(x) == 1
  {
    assert forall k :: 2 <= k < 3 || 5 <= k < 6 ==> PlainPiece(p, k);
    WordLowered("a");
    WordSpelled(r, p, 2, 3, 2, "a");
    WordSpelled(r, p, 5, 6, 2, "b");
    InnerSpelled(r, p, Word("a"));
  }

  lemma {:induction false} InnerSpelled(r: Reader, p: seq<char>, b: Ere)
    requires p == "((a)|b){2}" && Alternative(r, p, 2, 3, 2, b) && !b.Alt?
    ensures Alternative(r, p, 1, 4, 1, Cat(Eps, Group(2, b)))
  {
    assert Whole(r, p, 2, 3, 2, b);
    assert Atom(r, p, 1, 4, 1, Group(2, b));
    GroupPiece(r, p, 1, 4, 1, Group(2, b));
    OnePiece(r, p, 1, 4, 1, Group(2, b));
  }

  lemma {:induction false} TwiceSpelled(r: Reader, p: seq<char>, x: Ere, y: Ere)
    requires p == "((a)|b){2}" && x == Cat(Eps, Group(2, Word("a"))) && y == Word("b")
    ensures Spells(r, p, Cat(Eps, Bound(Group(1, Alt([x, y])), 2, AtMost(2))))
  {
    var g := Group(1, Alt([x, y]));
    TwiceAlternatives(r, p, x, y);
    SeparatedOne(r, p, 5, 6, 2, y);
    SeparatedCons(r, p, 1, 4, 6, 1, x, [y]);
    assert [x] + [y] == [x, y];
    assert |p| == 10 && Atom(r, p, 0, 7, 0, g);
    assert Numeral(p, 8, 9, 2) && Counted(p, 7, 10, 2, AtMost(2));
    assert Piece(r, p, 0, 10, 0, Bound(g, 2, AtMost(2)));
    PieceSpells(r, p, Bound(g, 2, AtMost(2)));
  }

  lemma {:induction false} OuterLowered(x: Ere, y: Ere, g: Ere)
    requires x == Cat(Eps, Group(2, Word("a"))) && y == Word("b") && g == Group(1, Alt([x, y]))
    ensures Ok(g) && Groups(g) == 2
    ensures Lower(g) == [LPar(1)] + [Choice([LPar(2)] + Chars("a") + [RPar(2)], [], Chars("b"))] + [RPar(1)]
  {
    WordLowered("a");
    WordLowered("b");
    var xs := [LPar(2)] + Chars("a") + [RPar(2)];
    assert Lower(Group(2, Word("a"))) == xs && Lower(x) == [] + xs;
    AltLowered(x, y, xs, Chars("b"));
  }

  lemma {:induction false} AltLowered(x: Ere, y: Ere, xs: seq<Node>, ys: seq<Node>)
    requires Ok(x) && Ok(y) && Lower(x) == xs && Lower(y) == ys
    ensures Ok(Alt([x, y])) && Lower(Alt([x, y])) == [Choice(xs, [], ys)]
    ensures Groups(Alt([x, y])) == Groups(x) + Groups(y)
  {
    var bs := [x, y];
    assert bs[1..1] == [] && bs[1..] == [y] && [y][1..] == [];
    assert GroupsAll(bs) == Groups(x) + GroupsAll([y]);
  }

  lemma {:induction false} TwiceLowered(e: Ere, g: Ere)
    requires e == Cat(Eps, Bound(g, 2, AtMost(2))) && g.Group? && Ok(g)
    ensures Ok(e) && Groups(e) == Groups(g) && Lower(e) == Lower(g) + Lower(g)
  {
    assert Rep(Lower(g), 2, 2) == Lower(g) + Rep(Lower(g), 1, 1);
    assert Lower(e) == [] + Rep(Lower(g), 2, 2);
  }

  /** The items of the two groups, the inner one within the first alternative of x. */
  ghost predicate NestedItems(inner: seq<Node>, x: Node, outer: seq<Node>) {
    && inner == [LPar(2)] + Chars("a") + [RPar(2)] && x == Choice(inner, [], Chars("b"))
    && outer == [LPar(1)] + [x] + [RPar(1)]
  }

  lemma {:induction false} OuterMatch(inner: seq<Node>, x: Node, outer: seq<Node>, t: seq<char>, i: nat, j: int)
    requires NestedItems(inner, x, outer) && i <= j <= |t|
    ensures M(inner, t, i, j) <==> j == i + 1 && t[i] == 'a'
    ensures M([x], t, i, j) <==> j == i + 1 && (t[i] == 'a' || t[i] == 'b')
    ensures M(outer, t, i, j) <==> M([x], t, i, j)
  {
    GroupIs(1, [x], t, i, j);
    MSingle(x, t, i, j);
    GroupIs(2, Chars("a"), t, i, j);
    CharsMatch("a", t, i, j);
    CharsMatch("b", t, i, j);
    assert j == i + 1 ==> t[i..j] == [t[i]];
  }

  /** What one pass records. */
  lemma {:induction false} PassCaptures(inner: seq<Node>, x: Node, outer: seq<Node>, t: seq<char>, i: nat, j: nat,
                                        pm: seq<Span>)
    requires NestedItems(inner, x, outer) && i < j <= |t| && |pm| == 3 && M(outer, t, i, j)
    ensures Captures(outer, t, i, j, pm) == (if t[i] == 'a' then pm[2 := Span(i, j)] else pm)[1 := Span(i, j)]
  {
    var pm1 := pm[1 := pm[1].(so := i)];
    OuterMatch(inner, x, outer, t, i, j);
    ChoiceCaptures(inner, x, t, i, j, pm1);
    GroupRecords(1, [x], t, i, j, pm, Captures([x], t, i, j, pm1));
  }

  lemma {:induction false} ChoiceCaptures(inner: seq<Node>, x: Node, t: seq<char>, i: nat, j: nat, pm: seq<Span>)
    requires inner == [LPar(2)] + Chars("a") + [RPar(2)] && x == Choice(inner, [], Chars("b"))
    requires i <= j <= |t| && M([x], t, i, j) && |pm| == 3
    ensures Captures([x], t, i, j, pm) == if M(inner, t, i, j) then pm[2 := Span(i, j)] else pm
  {
    MSingle(x, t, i, j);
    CapturesOne(x, t, i, j, pm);
    if M(inner, t, i, j) {
      var pm1 := pm[2 := pm[2].(so := i)];
      GroupIs(2, Chars("a"), t, i, j);
      WordKeeps("a", t, i, j, pm1);
      GroupRecords(2, Chars("a"), t, i, j, pm, pm1);
    } else {
      WordKeeps("b", t, i, j, pm);
    }
  }

  lemma {:induction false} WordKeeps(w: seq<char>, t: seq<char>, i: nat, j: nat, pm: seq<Span>)
    requires M(Chars(w), t, i, j)
    ensures Captures(Chars(w), t, i, j, pm) == pm
  {
    MOrder(Chars(w), t, i, j);
    CharsSound(w, t, i, j, iset{});
    assert Records(iset{}, pm, Captures(Chars(w), t, i, j, pm));
  }

  lemma {:induction false} TwiceMatch(inner: seq<Node>, x: Node, xs: seq<Node>, t: seq<char>)
    requires NestedItems(inner, x, xs) && |t| == 2 && t[0] == 'a' && t[1] == 'b'
    ensures M(xs + xs, t, 0, 2)
    ensures forall i, p :: 0 <= i <= p <= 2 && M(xs + xs, t, i, p) ==> i == 0 && p == 2
  {
    OuterMatch(inner, x, xs, t, 0, 1);
    OuterMatch(inner, x, xs, t, 1, 2);
    MJoin(xs, xs, t, 0, 1, 2);
    forall i, p | 0 <= i <= p <= 2 && M(xs + xs, t, i, p) ensures i == 0 && p == 2 {
      var k := MCut(xs, xs, t, i, p);
      OuterMatch(inner, x, xs, t, i, k);
      OuterMatch(inner, x, xs, t, k, p);
    }
  }

  lemma {:induction false} TwiceCaptures(inner: seq<Node>, x: Node, xs: seq<Node>, t: seq<char>, pm: seq<Span>)
    requires NestedItems(inner, x, xs) && |t| == 2 && t[0] == 'a' && t[1] == 'b' && |pm| == 3 && M(xs + xs, t, 0, 2)
    ensures Captures(xs + xs, t, 0, 2, pm) == pm[1 := Span(1, 2)][2 := Span(0, 1)]
  {
    var k := CapturesCut(xs, xs, t, 0, 2, pm);
    OuterMatch(inner, x, xs, t, 0, k);
    var pm1 := Captures(xs, t, 0, k, pm);
    PassCaptures(inner, x, xs, t, 0, k, pm);
    PassCaptures(inner, x, xs, t, k, 2, pm1);
  }

  lemma {:induction false} TwiceOutcome(e: Ere, inner: seq<Node>, x: Node, xs: seq<Node>, t: seq<char>)
    requires Ok(e) && Groups(e) == 2 && Lower(e) == xs + xs
    requires NestedItems(inner, x, xs) && |t| == 2 && t[0] == 'a' && t[1] == 'b'
    ensures OutcomeOf(Lower(e), t, 0, |t|, 3, Groups(e)) == Matched([Span(0, 2), Span(1, 2), Span(0, 1)])
  {
    TwiceMatch(inner, x, xs, t);
    OutcomeFrom(e, xs + xs, t, 2, 2, 3, 2);
    TwiceCaptures(inner, x, xs, t, seq(2 + 1, _ => Span(-1, -1)));
  }

  lemma {:induction false} TwiceNear(inner: seq<Node>, x: Node, xs: seq<Node>)
    requires NestedItems(inner, x, xs)
    ensures Near(xs + xs)
  {
    CharsLen("a");
    CharsLen("b");
    LenSingle(LPar(2));
    LenSingle(RPar(2));
    LenConcat([LPar(2)], Chars("a"));
    LenConcat([LPar(2)] + Chars("a"), [RPar(2)]);
    GroupLen(1, x);
    LenConcat(xs, xs);
    ShortNear(xs + xs);
  }

  /** Of ((a)|b){2} regexec reports for "ab" the inner parenthesis before the outer one, which
      the second copy has recorded anew. */
  lemma {:induction false} NestingLost(r: Reader, p: seq<char>, e: Ere, g: Ere, t: seq<char>)
    requires p == "((a)|b){2}" && t == "ab"
    requires e == Cat(Eps, Bound(g, 2, AtMost(2))) && g == Group(1, Alt([Cat(Eps, Group(2, Word("a"))), Word("b")]))
    ensures Spells(r, p, e) && Ok(e) && Encloses(e, 0, 1, 2) && !Uncopied(e, 0)
    ensures Near(Lower(e))
    ensures OutcomeOf(Lower(e), t, 0, |t|, 3, Groups(e)) == Matched([Span(0, 2), Span(1, 2), Span(0, 1)])
  {
    var x, y, inner := Cat(Eps, Group(2, Word("a"))), Word("b"), [LPar(2)] + Chars("a") + [RPar(2)];
    TwiceSpelled(r, p, x, y);
    OuterLowered(x, y, g);
    TwiceLowered(e, g);
    assert Body(e, 0, 1) == g.e && Body(g, 0, 1) == g.e;
    assert Encloses(g, 0, 1, 2) && !Required(Body(g, 0, 1), 1, 2);
    TwiceOutcome(e, inner, Choice(inner, [], Chars("b")), Lower(g), t);
    TwiceNear(inner, Choice(inner, [], Chars("b")), Lower(g));
  }
}
