/** Which match is reported.  Within the matches that begin at the reported start it is the
    longest; the start itself need not be the leftmost one
    (src/common/regex_engine.cpp, matcher and fast). */
module Leftmost {
  import opened Strip
  import opened Reach
  import opened Live
  import opened Search
  import opened Capturing
  import opened Engine
  import opened Ere
  import opened Grammar
  import opened Reading
  import opened Compiler
  import opened Musts
  import opened Regex

  /** Sets that follow the text from i0 up to q, forgetting at p what began before p. */
  ghost function Restart(xs: seq<Node>, b: nat, t: seq<char>, i0: nat, p: nat, k: int): set<int> {
    LiveSet(xs, b, t, if k < p then i0 else p, k, k)
  }

  lemma {:induction false} RestartFamily(s: seq<Sop>, b: nat, xs: seq<Node>, t: seq<char>, i0: nat, p: nat, q: nat)
    returns (r: Family)
    requires Laid(s, b, xs) && i0 <= p <= q <= |t|
    requires LiveSet(xs, b, t, i0, p, p) == Fresh(xs, b)
    ensures r == Run(s, b, b + Len(xs), t, seq(q + 1, k => Restart(xs, b, t, i0, p, k)))
  {
    var hi := b + Len(xs);
    var F := seq(q + 1, k => Restart(xs, b, t, i0, p, k));
    forall k | 0 <= k < |F| ensures Closed(s, b, hi, F[k]) {
      LiveClosed(s, b, xs, t, if k < p then i0 else p, k, k);
    }
    FreshAnywhere(s, b, xs, t, p);
    forall k | 0 <= k < |F| - 1 ensures Eaten(s, b, hi, F[k], t[k]) <= F[k + 1] {
      var from := if k < p then i0 else p;
      LiveEats(s, b, xs, t, from, k, k);
      assert LiveSet(xs, b, t, from, k, k + 1) <= LiveSet(xs, b, t, from, k + 1, k + 1);
    }
    r := Run(s, b, hi, t, F);
  }

  /** Where the live states are those of a fresh start, what began earlier may be forgotten. */
  lemma {:induction false} Forget(s: seq<Sop>, b: nat, xs: seq<Node>, t: seq<char>, i0: nat, p: nat, q: nat)
    requires Laid(s, b, xs) && i0 <= p <= q <= |t|
    requires LiveSet(xs, b, t, i0, p, p) == Fresh(xs, b)
    ensures LiveSet(xs, b, t, i0, q, q) == LiveSet(xs, b, t, p, q, q)
  {
    var r := RestartFamily(s, b, xs, t, i0, p, q);
    forall pc | pc in LiveSet(xs, b, t, i0, q, q) ensures pc in LiveSet(xs, b, t, p, q, q) {
      var i :| i0 <= i <= q && i <= q && At(xs, b, pc, t, i, q);
      AtStart(xs, b, t, i);
      assert b in r.F[i];
      AtIn(r, b, xs, pc, i, q);
    }
  }

  lemma {:induction false} ColdAtSpec(xs: seq<Node>, t: seq<char>, i0: nat, p: nat)
    requires i0 <= p <= |t| && LiveSet(xs, 1, t, i0, i0, i0) == Fresh(xs, 1)
    ensures Cold(xs, 1, t, i0, ColdAt(xs, t, i0, p), p)
    decreases p
  {
    if i0 < p && LiveSet(xs, 1, t, i0, p, p) != Fresh(xs, 1) { ColdAtSpec(xs, t, i0, p - 1); }
  }

  lemma {:induction false} StartFromSpec(xs: seq<Node>, t: seq<char>, k: nat, stop: nat)
    ensures var i := StartFrom(xs, t, k, stop);
            && (i != NULL ==> k <= i <= stop && MaxEnd(xs, t, i, stop) != NULL)
            && (forall i' :: k <= i' <= stop && (i == NULL || i' < i) ==> MaxEnd(xs, t, i', stop) == NULL)
    decreases stop - k
  {
    if k <= stop && MaxEnd(xs, t, k, stop) == NULL { StartFromSpec(xs, t, k + 1, stop); }
  }

  /** Start and end of the reported match, when there is one. */
  ghost function Reported(e: Ere, t: seq<char>, start: nat, stop: nat): (r: (int, int))
    requires Ok(e)
  {
    var xs := Lower(e);
    var i := StartFrom(xs, t, ColdAt(xs, t, start, FirstEnd(xs, t, start, start, stop)), stop);
    (i, MaxEnd(xs, t, i, stop))
  }

  /** Some match begins at or after the coldest position. */
  lemma {:induction false} EndsFromCold(xs: seq<Node>, t: seq<char>, start: nat, stop: nat)
    requires start <= stop <= |t| && FirstEnd(xs, t, start, start, stop) != NULL
    ensures var f := FirstEnd(xs, t, start, start, stop); var cold := ColdAt(xs, t, start, f);
            && start <= cold <= f <= stop && Cold(xs, 1, t, start, cold, f) && Ends(xs, t, cold, f, f)
  {
    var f := FirstEnd(xs, t, start, start, stop);
    FirstEndSpec(xs, t, start, start, stop);
    var s := [OEND] + Code(xs) + [OEND];
    StripLaid(s, xs);
    FreshAnywhere(s, 1, xs, t, start);
    ColdAtSpec(xs, t, start, f);
    var cold := ColdAt(xs, t, start, f);
    Forget(s, 1, xs, t, start, cold, f);
    EndLive(xs, 1, t, start, f, f);
    EndLive(xs, 1, t, cold, f, f);
  }

  /** The reported stretch is a word of the expression, the longest from its start, and no
      match begins between the coldest position and it. */
  lemma {:induction false} ReportedIsLongest(e: Ere, t: seq<char>, start: nat, stop: nat)
    requires Ok(e) && start <= stop <= |t| && Matches(e, t, start, stop)
    ensures var (i, j) := Reported(e, t, start, stop);
            && start <= i <= j <= stop && Occurs(e, t, i, j)
            && (forall j' :: i <= j' <= stop && Occurs(e, t, i, j') ==> j' <= j)
            && forall cold :: Cold(Lower(e), 1, t, start, cold, FirstEnd(Lower(e), t, start, start, stop)) ==>
                 cold <= i && NoneBegins(e, t, cold, i, stop)
  {
    var xs := Lower(e);
    OutcomeIsMatch(e, t, start, stop, 0);
    EndsFromCold(xs, t, start, stop);
    var f := FirstEnd(xs, t, start, start, stop);
    var cold := ColdAt(xs, t, start, f);
    StartFromSpec(xs, t, cold, stop);
    var k :| cold <= k <= f && M(xs, t, k, f);
    MaxEndIs(xs, t, k, stop);
    var (i, j) := Reported(e, t, start, stop);
    MaxEndIs(xs, t, i, stop);
    LowerIs(e, t, i, j);
    forall j' | i <= j' <= stop ensures M(xs, t, i, j') <==> Occurs(e, t, i, j') { LowerIs(e, t, i, j'); }
    NoneBefore(e, t, cold, i, stop);
    forall c | Cold(xs, 1, t, start, c, f) ensures c == cold { ColdAtIs(xs, t, start, c, f); }
  }

  /** No match begins from k on before i. */
  ghost predicate NoneBegins(e: Ere, t: seq<char>, k: int, i: int, stop: int) {
    forall m, j :: k <= m < i && m <= j <= stop ==> !Occurs(e, t, m, j)
  }

  lemma {:induction false} NoneBefore(e: Ere, t: seq<char>, cold: nat, i: int, stop: nat)
    requires Ok(e) && i == StartFrom(Lower(e), t, cold, stop) && i != NULL && stop <= |t|
    ensures NoneBegins(e, t, cold, i, stop)
  {
    StartFromSpec(Lower(e), t, cold, stop);
    forall m, j | cold <= m < i && m <= j <= stop ensures !Occurs(e, t, m, j) {
      MaxEndIs(Lower(e), t, m, stop);
      LowerIs(e, t, m, j);
    }
  }

  /** i0 is where the leftmost match begins. */
  ghost predicate BeginsFirst(e: Ere, t: seq<char>, start: int, stop: int, i0: int) {
    && start <= i0 && (exists j :: i0 <= j <= stop && Occurs(e, t, i0, j))
    && forall i, j :: start <= i < i0 && i <= j <= stop ==> !Occurs(e, t, i, j)
  }

  /** The reported match is the leftmost one exactly when, between the leftmost start and the
      earliest end of a match, the live states are never those of a fresh start again (the
      comparison that moves coldp). */
  lemma {:induction false} LeftmostExactly(e: Ere, t: seq<char>, start: nat, stop: nat, i0: nat)
    requires Ok(e) && start <= stop <= |t| && BeginsFirst(e, t, start, stop, i0)
    ensures var xs := Lower(e); var f := FirstEnd(xs, t, start, start, stop);
            Reported(e, t, start, stop).0 == i0 <==>
              forall p :: i0 < p <= f ==> LiveSet(xs, 1, t, start, p, p) != Fresh(xs, 1)
  {
    var xs := Lower(e);
    var j0 :| i0 <= j0 <= stop && Occurs(e, t, i0, j0);
    assert Matches(e, t, start, stop);
    OutcomeIsMatch(e, t, start, stop, 0);
    EndsFromCold(xs, t, start, stop);
    var f := FirstEnd(xs, t, start, start, stop);
    var cold := ColdAt(xs, t, start, f);
    StartFromSpec(xs, t, cold, stop);
    LowerIs(e, t, i0, j0);
    MaxEndIs(xs, t, i0, stop);
    forall i: nat | start <= i < i0 ensures MaxEnd(xs, t, i, stop) == NULL {
      MaxEndIs(xs, t, i, stop);
      var m := MaxEnd(xs, t, i, stop);
      if m != NULL {
        LowerIs(e, t, i, m);
        assert Occurs(e, t, i, m);
      }
    }
    assert Reported(e, t, start, stop).0 == i0 <==> cold <= i0;
  }

  // ----- It need not be: (b*|a)c on "ac" -----

  function Pattern(): Ere {
    var b := Star(Chr('b'));
    Cat(Cat(Eps, Group(1, Alt([Cat(Eps, b), Cat(Eps, Chr('a'))]))), Chr('c'))
  }

  function PatternItems(): seq<Node> {
    [LPar(1), Choice([Quest([Plus([Char('b')])])], [], [Char('a')]), RPar(1), Char('c')]
  }

  lemma PatternLowered()
    ensures Ok(Pattern()) && Lower(Pattern()) == PatternItems()
  {
    var l, r := Cat(Eps, Star(Chr('b'))), Cat(Eps, Chr('a'));
    assert Lower(Chr('a')) == [Char('a')] && Lower(Chr('b')) == [Char('b')];
    assert Lower(l) == [Quest([Plus([Char('b')])])] && Lower(r) == [Char('a')];
    var bs := [l, r];
    assert bs[1..1] == [] && Lower(Alt(bs)) == [Choice(Lower(l), [], Lower(r))];
    var g := Group(1, Alt(bs));
    assert Lower(g) == [LPar(1), Choice(Lower(l), [], Lower(r)), RPar(1)];
    assert Ok(Alt(bs)) && Ok(g);
    assert Lower(Cat(Eps, g)) == Lower(g);
  }

  function PatternStrip(): seq<Sop> {
    [OEND, OLPAREN(1), OCH_(7), OQUEST_(4), OPLUS_(2), OCHAR('b'), O_PLUS(2), O_QUEST(4), OOR1(6),
     OOR2(2), OCHAR('a'), O_CH(3), ORPAREN(1), OCHAR('c'), OEND]
  }

  lemma PatternCoded()
    ensures [OEND] + Code(PatternItems()) + [OEND] == PatternStrip()
  {
    var p, a := Plus([Char('b')]), [Char('a')];
    CodeOne(Char('b'));
    CodeOne(p);
    CodeOne(Quest([p]));
    CodeOne(Char('a'));
    var x := Choice([Quest([p])], [], a);
    assert Code([Quest([p])]) == [OQUEST_(4), OPLUS_(2), OCHAR('b'), O_PLUS(2), O_QUEST(4)];
    assert NodeCode(x) == [OCH_(7), OQUEST_(4), OPLUS_(2), OCHAR('b'), O_PLUS(2), O_QUEST(4), OOR1(6),
                           OOR2(2), OCHAR('a'), O_CH(3)];
    CodeOne(x);
    CodeThree(1, [x]);
    CodeOne(Char('c'));
    CodeConcat([LPar(1)] + [x] + [RPar(1)], [Char('c')]);
    assert PatternItems() == [LPar(1)] + [x] + [RPar(1)] + [Char('c')];
  }

  /** If reading t[0] leads from a fresh start nowhere else, the live states are fresh again. */
  lemma {:induction false} FreshKept(s: seq<Sop>, b: nat, xs: seq<Node>, t: seq<char>)
    requires Laid(s, b, xs) && |t| > 0 && Eaten(s, b, b + Len(xs), Fresh(xs, b), t[0]) <= Fresh(xs, b)
    ensures LiveSet(xs, b, t, 0, 1, 1) == Fresh(xs, b)
  {
    FreshAnywhere(s, b, xs, t, 0);
    FreshAnywhere(s, b, xs, t, 1);
    var F := Fresh(xs, b);
    LiveClosed(s, b, xs, t, 0, 0, 0);
    var r: Family := Run(s, b, b + Len(xs), t, [F, F]);
    forall pc | pc in LiveSet(xs, b, t, 0, 1, 1) ensures pc in F {
      var i :| 0 <= i <= 1 && At(xs, b, pc, t, i, 1);
      AtStart(xs, b, t, i);
      assert b in r.F[i];
      AtIn(r, b, xs, pc, i, 1);
    }
  }

  /** Reading an 'a' leads only to the end of the choice, which a fresh start reaches too. */
  lemma OnlyOneA(s: seq<Sop>, F: set<int>)
    requires s == PatternStrip() && 11 in F
    ensures Eaten(s, 1, 14, F, 'a') <= F
  {
    forall q | q in F && 1 <= q < 14 && Eats(s[q], 'a') ensures q == 10 {
    }
  }

  lemma {:induction false} EndOfChoiceFresh(xs: seq<Node>, x: Node)
    requires xs == PatternItems() && x == xs[1] && Len(xs) == 13
    ensures 11 in Fresh(xs, 1)
  {
    var q := x.first[0];
    LenSingle(q.body[0].body[0]);
    LenSingle(q.body[0]);
    LenSingle(q);
    LenSingle(x.last[0]);
    assert x.first == [q] && x.last == [x.last[0]] && q.body == [q.body[0]] && q.body[0].body == [Char('b')];
    assert NodeLen(x) == 10;
    MSingle(q, [], 0, 0);
    assert NodeAt(x, 2, 11, [], 0, 0);
    assert xs[1..][0] == x;
    assert At(xs[1..], 2, 11, [], 0, 0);
    assert MNode(xs[0], [], 0, 0) && At(xs, 1, 11, [], 0, 0);
    assert LiveAt(xs, 1, 11, [], 0, 0, 0);
  }

  lemma {:induction false} OccursAC(xs: seq<Node>, x: Node, t: seq<char>)
    requires xs == [LPar(1)] + ([x] + ([RPar(1)] + [Char('c')])) && x.Choice? && x.last == [Char('a')]
    requires |t| == 2 && t[0] == 'a' && t[1] == 'c'
    ensures M(xs, t, 0, 2)
    ensures forall i, j :: 0 <= i && M(xs, t, i, j) ==> j > 0
  {
    var c := Char('c');
    MSingle(Char('a'), t, 0, 1);
    assert MNode(x, t, 0, 1);
    MSingle(c, t, 1, 2);
    MUnfold(RPar(1), [c], t, 1, 2);
    MUnfold(x, [RPar(1)] + [c], t, 0, 2);
    MUnfold(LPar(1), [x] + ([RPar(1)] + [c]), t, 0, 2);
    forall i, j | 0 <= i && M(xs, t, i, j) ensures j > 0 {
      assert xs == ([LPar(1)] + [x] + [RPar(1)]) + [c];
      var k := MCut([LPar(1)] + [x] + [RPar(1)], [c], t, i, j);
      MSingle(c, t, k, j);
    }
  }

  lemma {:induction false} Missed(e: Ere, xs: seq<Node>, t: seq<char>)
    requires Ok(e) && xs == Lower(e) && |t| == 2 && M(xs, t, 0, 2) && LiveSet(xs, 1, t, 0, 1, 1) == Fresh(xs, 1)
    requires forall i, j :: 0 <= i && M(xs, t, i, j) ==> j > 0
    ensures BeginsFirst(e, t, 0, 2, 0) && Occurs(e, t, 0, 2) && Reported(e, t, 0, 2).0 != 0
  {
    LowerIs(e, t, 0, 2);
    assert Occurs(e, t, 0, 2);
    LeftmostExactly(e, t, 0, 2, 0);
    FirstEndSpec(xs, t, 0, 0, 2);
    assert Ends(xs, t, 0, 2, 2);
    assert FirstEnd(xs, t, 0, 0, 2) >= 1;
  }

  lemma {:induction false} PatternFresh(xs: seq<Node>, t: seq<char>)
    requires xs == PatternItems() && |t| == 2 && t[0] == 'a'
    ensures LiveSet(xs, 1, t, 0, 1, 1) == Fresh(xs, 1)
  {
    PatternCoded();
    StripLaid(PatternStrip(), xs);
    EndOfChoiceFresh(xs, xs[1]);
    OnlyOneA(PatternStrip(), Fresh(xs, 1));
    FreshKept(PatternStrip(), 1, xs, t);
  }

  lemma {:induction false} OnePiece(r: Reader, p: seq<char>, i: nat, j: nat, n: nat, x: Ere)
    requires Piece(r, p, i, j, n, x)
    ensures Pieces(r, p, i, j, n, Cat(Eps, x))
  {
    assert Pieces(r, p, i, i, n, Eps);
  }

  lemma {:induction false} PatternGroup(r: Reader, p: seq<char>, b: Ere, a: Ere)
    requires p == "(b*|a)c" && b == Cat(Eps, Star(Chr('b'))) && a == Cat(Eps, Chr('a'))
    ensures Atom(r, p, 0, 6, 0, Group(1, Alt([b, a])))
  {
    assert Atom(r, p, 1, 2, 1, Chr('b'));
    OnePiece(r, p, 1, 3, 1, Star(Chr('b')));
    assert Atom(r, p, 4, 5, 1, Chr('a'));
    OnePiece(r, p, 4, 5, 1, Chr('a'));
    SeparatedOne(r, p, 4, 5, 1, a);
    SeparatedCons(r, p, 1, 3, 5, 1, b, [a]);
    assert [b] + [a] == [b, a];
  }

  lemma {:induction false} OneMorePiece(r: Reader, p: seq<char>, i: nat, k: nat, j: nat, n: nat, l: Ere, x: Ere)
    requires Pieces(r, p, i, k, n, l) && Piece(r, p, k, j, n + Groups(l), x)
    ensures Pieces(r, p, i, j, n, Cat(l, x))
  {
  }

  lemma {:induction false} CharPiece(r: Reader, p: seq<char>, i: nat, j: nat, n: nat, c: char)
    requires PlainAt(p, i) && p[i] == c && j == i + 1 && !RepeatsAt(p, j)
    ensures Piece(r, p, i, j, n, Chr(c))
  {
    assert Atom(r, p, i, j, n, Chr(c));
  }

  lemma {:induction false} GroupPiece(r: Reader, p: seq<char>, i: nat, j: nat, n: nat, g: Ere)
    requires g.Group? && Atom(r, p, i, j, n, g) && !RepeatsAt(p, j)
    ensures Piece(r, p, i, j, n, g)
  {
  }

  lemma {:induction false} GroupThenChar(r: Reader, p: seq<char>, i: nat, k: nat, j: nat, n: nat, g: Ere, c: char)
    requires g.Group? && Atom(r, p, i, k, n, g) && !RepeatsAt(p, k)
    requires PlainAt(p, k) && p[k] == c && j == k + 1 == |p|
    ensures Pieces(r, p, i, j, n, Cat(Cat(Eps, g), Chr(c)))
  {
    GroupPiece(r, p, i, k, n, g);
    OnePiece(r, p, i, k, n, g);
    CharPiece(r, p, k, j, n + Groups(Cat(Eps, g)), c);
    OneMorePiece(r, p, i, k, j, n, Cat(Eps, g), Chr(c));
  }

  /** A pattern a caller can pass. */
  lemma {:induction false} PatternSpelled(r: Reader, p: seq<char>)
    requires p == "(b*|a)c"
    ensures Spells(r, p, Pattern())
  {
    var b, a := Cat(Eps, Star(Chr('b'))), Cat(Eps, Chr('a'));
    PatternGroup(r, p, b, a);
    GroupThenChar(r, p, 0, 6, 7, 0, Group(1, Alt([b, a])), 'c');
  }

  lemma PatternNear(xs: seq<Node>)
    requires xs == PatternItems()
    ensures Near(xs)
  {
    PatternCoded();
    ShortNear(xs);
  }

  /** With the pattern (b*|a)c the match at 0 of "ac" is forgotten at 1, and "c" is reported instead of "ac". */
  lemma {:induction false} LeftmostMissed(r: Reader, p: seq<char>, e: Ere, t: seq<char>)
    requires p == "(b*|a)c" && e == Pattern() && t == "ac"
    ensures Spells(r, p, e)
    ensures Ok(e) && BeginsFirst(e, t, 0, 2, 0) && Occurs(e, t, 0, 2)
    ensures Reported(e, t, 0, 2).0 != 0 && Near(Lower(e))
  {
    PatternSpelled(r, p);
    PatternLowered();
    var xs := PatternItems();
    PatternNear(xs);
    PatternFresh(xs, t);
    assert xs == [LPar(1)] + ([xs[1]] + ([RPar(1)] + [Char('c')]));
    OccursAC(xs, xs[1], t);
    Missed(e, xs, t);
  }
}
