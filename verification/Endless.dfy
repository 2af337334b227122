/** When regexec does not return: the word engine keeps the test by which step notices that a
    loop's head was live already in an int, which has no room for heads from state 32 on
    (src/common/regexec.cpp, ISSETBACK; src/common/regex_engine.cpp, step). */
module Endless {
  import opened Strip
  import opened Reach
  import opened Search
  import opened Capturing
  import opened Ere
  import opened Grammar
  import opened Compiler
  import opened Musts
  import opened Regex
  import opened Leftmost
  import StateSets

  // ----- Matching depends on nothing but the characters matched -----

  /** The characters of t from i to p are those of u from i + d to p + d. */
  predicate Same(t: seq<char>, i: int, p: int, u: seq<char>, d: int) {
    0 <= i <= p <= |t| && 0 <= i + d && p + d <= |u| && forall k :: i <= k < p ==> t[k] == u[k + d]
  }

  lemma {:induction false} MSame(xs: seq<Node>, t: seq<char>, i: int, p: int, u: seq<char>, d: int)
    requires Same(t, i, p, u, d) && M(xs, t, i, p)
    ensures M(xs, u, i + d, p + d)
    decreases xs, 0, 0
  {
    if xs != [] {
      var k := MSplit(xs, t, i, p);
      NodeSame(xs[0], t, i, k, u, d);
      MSame(xs[1..], t, k, p, u, d);
    }
  }

  lemma {:induction false} NodeSame(x: Node, t: seq<char>, i: int, p: int, u: seq<char>, d: int)
    requires Same(t, i, p, u, d) && MNode(x, t, i, p)
    ensures MNode(x, u, i + d, p + d)
    decreases x, 0, 0
  {
    match x
    case Plus(body) =>
      var n: nat :| n >= 1 && MPow(body, n, t, i, p);
      PowSame(body, n, t, i, p, u, d);
    case Quest(body) => if i != p { MSame(body, t, i, p, u, d); }
    case Choice(f, m, l) =>
      if M(f, t, i, p) { MSame(f, t, i, p, u, d); }
      else if MMid(m, t, i, p) { MidSame(m, t, i, p, u, d); }
      else { MSame(l, t, i, p, u, d); }
    case _ =>
  }

  lemma {:induction false} MidSame(m: seq<Strip.Branch>, t: seq<char>, i: int, p: int, u: seq<char>, d: int)
    requires Same(t, i, p, u, d) && MMid(m, t, i, p)
    ensures MMid(m, u, i + d, p + d)
    decreases m, 0, 0
  {
    if M(m[0].items, t, i, p) { MSame(m[0].items, t, i, p, u, d); } else { MidSame(m[1..], t, i, p, u, d); }
  }

  lemma {:induction false} PowSame(xs: seq<Node>, n: nat, t: seq<char>, i: int, p: int, u: seq<char>, d: int)
    requires Same(t, i, p, u, d) && MPow(xs, n, t, i, p)
    ensures MPow(xs, n, u, i + d, p + d)
    decreases xs, 1, n
  {
    if n > 0 {
      var k := PowSplit(xs, n, t, i, p);
      PowSame(xs, n - 1, t, i, k, u, d);
      MSame(xs, t, k, p, u, d);
      assert MPow(xs, n - 1, u, i + d, k + d) && M(xs, u, k + d, p + d);
    }
  }

  lemma {:induction false} AtSame(xs: seq<Node>, b: int, pc: int, t: seq<char>, i: int, p: int, u: seq<char>, d: int)
    requires Same(t, i, p, u, d) && At(xs, b, pc, t, i, p)
    ensures At(xs, b, pc, u, i + d, p + d)
    decreases xs, 0
  {
    if xs != [] {
      var n := NodeLen(xs[0]);
      if pc < b + n {
        NodeAtSame(xs[0], b, pc, t, i, p, u, d);
      } else {
        var k :| i <= k <= p && MNode(xs[0], t, i, k) && At(xs[1..], b + n, pc, t, k, p);
        NodeSame(xs[0], t, i, k, u, d);
        AtSame(xs[1..], b + n, pc, t, k, p, u, d);
        assert MNode(xs[0], u, i + d, k + d) && At(xs[1..], b + n, pc, u, k + d, p + d);
      }
    }
  }

  lemma {:induction false} NodeAtSame(x: Node, b: int, pc: int, t: seq<char>, i: int, p: int, u: seq<char>, d: int)
    requires Same(t, i, p, u, d) && NodeAt(x, b, pc, t, i, p)
    ensures NodeAt(x, b, pc, u, i + d, p + d)
    decreases x, 0
  {
    match x
    case Plus(body) => PlusAtSame(body, b, pc, t, i, p, u, d);
    case Quest(body) =>
      if pc != b && At(body, b + 1, pc, t, i, p) { AtSame(body, b + 1, pc, t, i, p, u, d); }
    case Choice(f, m, l) =>
      var c, e := b + 2 + Len(f), b + 2 + Len(f) + MidLen(m);
      if pc == b || pc == e {
      } else if pc <= b + 1 + Len(f) {
        AtSame(f, b + 1, pc, t, i, p, u, d);
      } else if pc < e {
        MidAtSame(m, c, pc, t, i, p, u, d);
      } else if pc < e + 1 + Len(l) {
        AtSame(l, e + 1, pc, t, i, p, u, d);
      } else {
        NodeSame(x, t, i, p, u, d);
      }
    case _ =>
  }

  lemma {:induction false} PlusAtSame(body: seq<Node>, b: int, pc: int, t: seq<char>, i: int, p: int, u: seq<char>,
                                      d: int)
    requires Same(t, i, p, u, d) && NodeAt(Plus(body), b, pc, t, i, p)
    ensures NodeAt(Plus(body), b, pc, u, i + d, p + d)
    decreases body, 2
  {
    if pc == b {
      var n: nat :| MPow(body, n, t, i, p);
      PowSame(body, n, t, i, p, u, d);
    } else {
      var n: nat, k :| i <= k <= p && MPow(body, n, t, i, k) && At(body, b + 1, pc, t, k, p);
      PowSame(body, n, t, i, k, u, d);
      AtSame(body, b + 1, pc, t, k, p, u, d);
      assert MPow(body, n, u, i + d, k + d) && At(body, b + 1, pc, u, k + d, p + d);
    }
  }

  lemma {:induction false} MidAtSame(m: seq<Strip.Branch>, b: int, pc: int, t: seq<char>, i: int, p: int,
                                     u: seq<char>, d: int)
    requires Same(t, i, p, u, d) && MidAt(m, b, pc, t, i, p)
    ensures MidAt(m, b, pc, u, i + d, p + d)
    decreases m, 0
  {
    var F := Len(m[0].items);
    if pc == b {
    } else if pc <= b + 1 + F {
      AtSame(m[0].items, b + 1, pc, t, i, p, u, d);
    } else {
      MidAtSame(m[1..], b + 2 + F, pc, t, i, p, u, d);
    }
  }

  // ----- Texts on which regexec does not return -----

  /** A loop begins at h, out of an int's reach. */
  predicate FarHead(xs: seq<Node>, h: nat) {
    StateSets.INT_BITS <= h <= Len(xs) && StripOf(xs)[h].OPLUS_?
  }

  /** Reading all of w leads to state h. */
  ghost predicate LeadsTo(xs: seq<Node>, h: int, w: seq<char>) {
    At(xs, 1, h, w, 0, |w|)
  }

  /** A text that leads to such a loop, or the end of it, with the mandatory string after it,
      is never done with. */
  lemma {:induction false} FarHangs(xs: seq<Node>, h: nat, w: seq<char>, nmatch: nat) returns (t: seq<char>)
    requires |StripOf(xs)| <= WORD_BITS && FarHead(xs, h) && LeadsTo(xs, h, w) && nmatch > 0
    ensures Hangs(xs, t, 0, |t|, nmatch)
    decreases |w|
  {
    t := w + Mandatory(xs);
    MandatoryThere(xs, w, t);
    AtSame(xs, 1, h, w, 0, |w|, t, 0);
    assert LiveAt(xs, 1, h, t, 0, 0, |w|) && LiveAt(xs, 1, h, t, 0, |w|, |w|);
    var f := FirstEnd(xs, t, 0, 0, |t|);
    FirstEndSpec(xs, t, 0, 0, |t|);
    if f == NULL || f >= |w| {
      FarHeadJams(xs, h, LiveSet(xs, 1, t, 0, |w|, |w|));
      assert Jammed(xs, t, 0, |w|, |w|);
    } else {
      EndsFromCold(xs, t, 0, |t|);
      var cold := ColdAt(xs, t, 0, f);
      StartFromSpec(xs, t, cold, |t|);
      if cold == 0 {
        FarHeadJams(xs, h, LiveSet(xs, 1, t, 0, 0, |w|));
        var k :| cold <= k <= f && M(xs, t, k, f);
        MaxEndIs(xs, t, k, |t|);
        assert Jammed(xs, t, 0, 0, |w|);
      } else {
        var i := LaterStart(xs, h, t, cold, |w|);
        t := FarHangs(xs, h, t[i..|w|], nmatch);
      }
    }
  }

  lemma MandatoryThere(xs: seq<Node>, w: seq<char>, t: seq<char>)
    requires t == w + Mandatory(xs)
    ensures Mandatory(xs) == [] || Within(Mandatory(xs), t, 0, |t|)
  {
    assert t[|w|..|w| + |Mandatory(xs)|] == Mandatory(xs);
    assert Mandatory(xs) != [] ==> StandsAt(Mandatory(xs), t, |w|);
  }

  /** A head live at q, the start having been as good as fresh at cold, is live for a later start. */
  lemma {:induction false} LaterStart(xs: seq<Node>, h: nat, t: seq<char>, cold: nat, q: nat) returns (i: nat)
    requires cold <= q <= |t| && LiveSet(xs, 1, t, 0, cold, cold) == Fresh(xs, 1)
    requires h in LiveSet(xs, 1, t, 0, q, q)
    ensures cold <= i <= q && LeadsTo(xs, h, t[i..q])
  {
    StripLaid(StripOf(xs), xs);
    Forget(StripOf(xs), 1, xs, t, 0, cold, q);
    i :| cold <= i <= q && i <= q && At(xs, 1, h, t, i, q);
    AtSame(xs, 1, h, t, i, q, t[i..q], 0 - i);
  }

  /** There is a text on which regexec does not return exactly if the states fit a word and some
      text leads to a loop that begins out of an int's reach. */
  lemma {:induction false} HangsExactly(xs: seq<Node>, nmatch: nat)
    requires nmatch > 0
    ensures (exists t: seq<char>, start, stop :: 0 <= start <= stop <= |t| && Hangs(xs, t, start, stop, nmatch)) <==>
            |StripOf(xs)| <= WORD_BITS && exists h: nat, w: seq<char> :: FarHead(xs, h) && LeadsTo(xs, h, w)
  {
    if t: seq<char>, start, stop :| 0 <= start <= stop <= |t| && Hangs(xs, t, start, stop, nmatch) {
      var h, w := JammedHead(xs, t, start, stop, nmatch);
    }
    if |StripOf(xs)| <= WORD_BITS {
      if h: nat, w: seq<char> :| FarHead(xs, h) && LeadsTo(xs, h, w) {
        var t := FarHangs(xs, h, w, nmatch);
        assert 0 <= 0 <= |t| <= |t| && Hangs(xs, t, 0, |t|, nmatch);
      }
    }
  }

  lemma {:induction false} JammedHead(xs: seq<Node>, t: seq<char>, start: int, stop: int, nmatch: nat)
    returns (h: nat, w: seq<char>)
    requires 0 <= start <= stop <= |t| && Hangs(xs, t, start, stop, nmatch)
    ensures FarHead(xs, h) && LeadsTo(xs, h, w) && |w| <= |t|
  {
    var i0, i1, p := JammedWhere(xs, t, start, stop, nmatch);
    h := FarHeadOf(xs, LiveSet(xs, 1, t, i0, i1, p));
    var i :| i0 <= i <= i1 && i <= p && At(xs, 1, h, t, i, p);
    w := t[i..p];
    AtSame(xs, 1, h, t, i, p, w, -i);
  }

  lemma {:induction false} JammedWhere(xs: seq<Node>, t: seq<char>, start: int, stop: int, nmatch: nat)
    returns (i0: int, i1: int, p: int)
    requires 0 <= start <= stop <= |t| && Hangs(xs, t, start, stop, nmatch)
    ensures 0 <= i0 <= p <= stop && Jammed(xs, t, i0, i1, p)
  {
    if FastJams(xs, t, start, stop) {
      p :| start <= p <= stop && Jammed(xs, t, start, p, p) && forall e :: start <= e < p ==> !Ends(xs, t, start, e, e);
      i0, i1 := start, p;
    } else {
      var cold := ColdAt(xs, t, start, FirstEnd(xs, t, start, start, stop));
      ColdAtFrom(xs, t, start, FirstEnd(xs, t, start, start, stop));
      i0, p :| cold <= i0 <= StartFrom(xs, t, cold, stop) && i0 <= p <= stop && Jammed(xs, t, i0, i0, p);
      i1 := i0;
    }
  }

  lemma {:induction false} ColdAtFrom(xs: seq<Node>, t: seq<char>, i0: int, p: int)
    ensures ColdAt(xs, t, i0, p) >= i0
    decreases p - i0
  {
    if p > i0 && LiveSet(xs, 1, t, i0, p, p) != Fresh(xs, 1) { ColdAtFrom(xs, t, i0, p - 1); }
  }

  // ----- Every state can be reached, unless an empty set is in the way -----

  /** No item of xs is an empty set of characters. */
  predicate Inhabited(xs: seq<Node>) {
    xs != [] ==> NodeInhabited(xs[0]) && Inhabited(xs[1..])
  }

  predicate NodeInhabited(x: Node) {
    match x
    case AnyOf(cs) => cs != {}
    case Plus(body) => Inhabited(body)
    case Quest(body) => Inhabited(body)
    case Choice(f, m, l) => Inhabited(f) && MidInhabited(m) && Inhabited(l)
    case _ => true
  }

  predicate MidInhabited(m: seq<Strip.Branch>) {
    m != [] ==> Inhabited(m[0].items) && MidInhabited(m[1..])
  }

  lemma {:induction false} SomeWord(xs: seq<Node>) returns (w: seq<char>)
    requires Inhabited(xs)
    ensures M(xs, w, 0, |w|)
    decreases xs, 0
  {
    if xs == [] {
      w := [];
    } else {
      var v := NodeWord(xs[0]);
      var tl := SomeWord(xs[1..]);
      w := v + tl;
      NodeSame(xs[0], v, 0, |v|, w, 0);
      MSame(xs[1..], tl, 0, |tl|, w, |v|);
    }
  }

  lemma {:induction false} NodeWord(x: Node) returns (w: seq<char>)
    requires NodeInhabited(x)
    ensures MNode(x, w, 0, |w|)
    decreases x, 0
  {
    match x
    case Char(c) => w := [c];
    case Any => w := ['a'];
    case AnyOf(cs) => var c :| c in cs; w := [c];
    case Plus(body) =>
      w := SomeWord(body);
      assert MPow(body, 0, w, 0, 0);
      assert MPow(body, 1, w, 0, |w|);
    case Choice(f, m, l) => w := SomeWord(f);
    case _ => w := [];
  }

  lemma {:induction false} Reaching(xs: seq<Node>, b: int, pc: int) returns (w: seq<char>)
    requires Inhabited(xs) && b <= pc <= b + Len(xs)
    ensures At(xs, b, pc, w, 0, |w|)
    decreases xs, 1
  {
    if xs == [] {
      w := [];
    } else if pc < b + NodeLen(xs[0]) {
      w := NodeReaching(xs[0], b, pc);
    } else {
      var v := NodeWord(xs[0]);
      var tl := Reaching(xs[1..], b + NodeLen(xs[0]), pc);
      w := v + tl;
      NodeSame(xs[0], v, 0, |v|, w, 0);
      AtSame(xs[1..], b + NodeLen(xs[0]), pc, tl, 0, |tl|, w, |v|);
    }
  }

  lemma {:induction false} NodeReaching(x: Node, b: int, pc: int) returns (w: seq<char>)
    requires NodeInhabited(x) && b <= pc < b + NodeLen(x)
    ensures NodeAt(x, b, pc, w, 0, |w|)
    decreases x, 1
  {
    if pc == b {
      w := [];
      if x.Plus? { assert MPow(x.body, 0, w, 0, 0); }
    } else {
      match x
      case Plus(body) =>
        w := Reaching(body, b + 1, pc);
        assert MPow(body, 0, w, 0, 0);
      case Quest(body) => w := Reaching(body, b + 1, pc);
      case Choice(f, m, l) => w := ChoiceReaching(f, m, l, b, pc);
    }
  }

  lemma {:induction false} ChoiceReaching(f: seq<Node>, m: seq<Strip.Branch>, l: seq<Node>, b: int, pc: int)
    returns (w: seq<char>)
    requires NodeInhabited(Choice(f, m, l)) && b < pc < b + NodeLen(Choice(f, m, l))
    ensures NodeAt(Choice(f, m, l), b, pc, w, 0, |w|)
    decreases Choice(f, m, l), 0
  {
    var c, e := b + 2 + Len(f), b + 2 + Len(f) + MidLen(m);
    if pc <= b + 1 + Len(f) {
      w := Reaching(f, b + 1, pc);
    } else if pc < e {
      w := MidReaching(m, c, pc);
    } else if pc == e {
      w := [];
    } else if pc < e + 1 + Len(l) {
      w := Reaching(l, e + 1, pc);
    } else {
      w := SomeWord(f);
    }
  }

  lemma {:induction false} MidReaching(m: seq<Strip.Branch>, b: int, pc: int) returns (w: seq<char>)
    requires MidInhabited(m) && b <= pc < b + MidLen(m)
    ensures MidAt(m, b, pc, w, 0, |w|)
    decreases m, 1
  {
    var F := Len(m[0].items);
    if pc == b {
      w := [];
    } else if pc <= b + 1 + F {
      w := Reaching(m[0].items, b + 1, pc);
    } else {
      w := MidReaching(m[1..], b + 2 + F, pc);
    }
  }

  /** Without empty sets, regexec returns on all texts exactly if the strip is too long for a
      word or all its loops begin within an int's reach. */
  lemma {:induction false} ReturnsExactly(xs: seq<Node>, nmatch: nat)
    requires nmatch > 0 && Inhabited(xs)
    ensures Near(xs) <==>
            forall t: seq<char>, start, stop :: 0 <= start <= stop <= |t| ==> !Hangs(xs, t, start, stop, nmatch)
  {
    if Near(xs) {
      forall t: seq<char>, start, stop ensures !Hangs(xs, t, start, stop, nmatch) {
        NearReturns(xs, t, start, stop, nmatch);
      }
    } else {
      var s := StripOf(xs);
      var h :| StateSets.INT_BITS <= h < |s| && s[h].OPLUS_?;
      var w := Reaching(xs, 1, h);
      var t := FarHangs(xs, h, w, nmatch);
      assert 0 <= 0 <= |t| <= |t| && Hangs(xs, t, 0, |t|, nmatch);
    }
  }

  // ----- A pattern: .{31}a* -----

  function Anys(n: nat): seq<Node> {
    if n == 0 then [] else [Any] + Anys(n - 1)
  }

  function Dots(n: nat): seq<Sop> { seq(n, _ => OANY) }

  lemma {:induction false} RepAnys(n: nat)
    requires 1 <= n <= DUPMAX
    ensures Rep([Any], n, n) == Anys(n)
  {
    if n == 1 { assert Anys(0) == []; } else { RepAnys(n - 1); }
  }

  lemma {:induction false} AnysCode(n: nat)
    ensures Code(Anys(n)) == Dots(n)
  {
    if n > 0 {
      AnysCode(n - 1);
      assert ([Any] + Anys(n - 1))[1..] == Anys(n - 1);
      assert [OANY] + Dots(n - 1) == Dots(n);
    }
  }

  /** After n characters, any at all, the items ys begin. */
  lemma {:induction false} AnysAt(n: nat, ys: seq<Node>, b: int, pc: int, t: seq<char>, i: nat, p: int)
    requires pc >= b + n && i <= p <= |t|
    ensures At(Anys(n) + ys, b, pc, t, i, p) <==> i + n <= p && At(ys, b + n, pc, t, i + n, p)
    decreases n
  {
    var xs := Anys(n) + ys;
    if n == 0 {
      assert xs == ys;
    } else {
      assert xs[0] == Any && xs[1..] == Anys(n - 1) + ys;
      if i < p { AnysAt(n - 1, ys, b + 1, pc, t, i + 1, p); }
      assert i < |t| ==> MNode(Any, t, i, i + 1);
    }
  }

  /** The items that follow: a*. */
  function Trailing(): Node { Quest([Plus([Char('a')])]) }

  function ManyItems(): seq<Node> { Anys(31) + [Trailing()] }

  lemma {:induction false} TrailingCode(x: Node)
    requires x == Trailing()
    ensures Code([x]) == [OQUEST_(4), OPLUS_(2), OCHAR('a'), O_PLUS(2), O_QUEST(4)]
  {
    CodeOne(Char('a'));
    CodeOne(x.body[0]);
    CodeOne(x);
  }

  /** The strip, whose one loop begins at 33. */
  lemma {:induction false} ManyStrip(xs: seq<Node>, n: nat)
    requires n == 31 && xs == Anys(n) + [Trailing()]
    ensures |StripOf(xs)| == 38 && Len(xs) == 36
    ensures forall k :: 0 <= k < 38 ==> (StripOf(xs)[k].OPLUS_? <==> k == 33)
  {
    CodeConcat(Anys(n), [Trailing()]);
    AnysCode(n);
    TrailingCode(Trailing());
    var s := [OEND] + (Dots(n) + Code([Trailing()])) + [OEND];
    assert StripOf(xs) == s && |Dots(n)| == n;
  }

  lemma {:induction false} ManyLowered(e: Ere, x: Ere, y: Ere, n: nat)
    requires 1 <= n <= DUPMAX && x == Bound(Dot, n, AtMost(n)) && y == Star(Chr('a')) && e == Cat(Cat(Eps, x), y)
    ensures Ok(e) && Lower(e) == Anys(n) + [Trailing()]
  {
    RepAnys(n);
    assert Ok(Dot) && !Dropped(Dot) && Ok(x) && Ok(y);
    assert Lower(x) == Anys(n) && Lower(y) == [Trailing()];
    assert Lower(Cat(Eps, x)) == [] + Anys(n);
  }

  lemma {:induction false} ManySpelled(r: Reader, p: seq<char>)
    requires p == ".{31}a*"
    ensures Spells(r, p, Cat(Cat(Eps, Bound(Dot, 31, AtMost(31))), Star(Chr('a'))))
  {
    var x := Bound(Dot, 31, AtMost(31));
    assert |p| == 7 && Atom(r, p, 0, 1, 0, Dot);
    assert Numeral(p, 2, 3, 3) && Numeral(p, 2, 4, 31);
    assert Counted(p, 1, 5, 31, AtMost(31));
    assert Piece(r, p, 0, 5, 0, x);
    OnePiece(r, p, 0, 5, 0, x);
    assert Atom(r, p, 5, 6, 0, Chr('a'));
    assert Piece(r, p, 5, 7, 0, Star(Chr('a')));
    OneMorePiece(r, p, 0, 5, 7, 0, Cat(Eps, x), Star(Chr('a')));
  }

  /** The loop's head is reached exactly after 31 characters. */
  lemma {:induction false} ManyAt(xs: seq<Node>, n: nat, t: seq<char>, i: nat, p: int)
    requires n == 31 && xs == Anys(n) + [Trailing()] && i <= p <= |t|
    ensures At(xs, 1, 33, t, i, p) ==> i + n <= p
    ensures i + n == p ==> At(xs, 1, 33, t, i, p) && M(xs, t, i, p)
    ensures M(xs, t, i, p) ==> i + n <= p
  {
    var ys := [Trailing()];
    AnysAt(n, ys, 1, 33, t, i, p);
    AnysAt(n, ys, 1, 37, t, i, p);
    AtEnd(xs, 1, t, i, p);
    AnysLen(n);
    LenConcat(Anys(n), ys);
    if i + n == p {
      LoopAt(ys, t, p);
    }
  }

  lemma {:induction false} AnysLen(n: nat)
    ensures Len(Anys(n)) == n
  {
    if n > 0 {
      assert ([Any] + Anys(n - 1))[1..] == Anys(n - 1);
      AnysLen(n - 1);
    }
  }

  lemma {:induction false} LoopAt(ys: seq<Node>, t: seq<char>, p: int)
    requires ys == [Trailing()]
    ensures At(ys, 32, 33, t, p, p) && At(ys, 32, 37, t, p, p) && Len(ys) == 5
  {
    var q := Trailing();
    LenSingle(Char('a'));
    LenSingle(q.body[0]);
    LenSingle(q);
    assert q.body == [q.body[0]] && q.body[0].body == [Char('a')];
    AtStart(q.body, 33, t, p);
    MSingle(q, t, p, p);
    AtEnd(ys, 32, t, p, p);
  }

  /** regexec with .{31}a* returns exactly on the texts of less than 31 characters. */
  lemma {:induction false} HangsOnMany(r: Reader, p: seq<char>, e: Ere, t: seq<char>, nmatch: nat)
    requires p == ".{31}a*" && e == Cat(Cat(Eps, Bound(Dot, 31, AtMost(31))), Star(Chr('a')))
    ensures Spells(r, p, e) && Ok(e)
    ensures Hangs(Lower(e), t, 0, |t|, nmatch) <==> |t| >= 31
    ensures Matches(e, t, 0, |t|) <==> |t| >= 31
  {
    ManySpelled(r, p);
    ManyLowered(e, Bound(Dot, 31, AtMost(31)), Star(Chr('a')), 31);
    var xs := Lower(e);
    ManyStrip(xs, 31);
    forall i: nat, q | i <= q <= |t|
      ensures (At(xs, 1, 33, t, i, q) ==> i + 31 <= q) && (M(xs, t, i, q) ==> i + 31 <= q)
      ensures M(xs, t, i, q) <==> Occurs(e, t, i, q)
    {
      ManyAt(xs, 31, t, i, q);
      LowerIs(e, t, i, q);
    }
    if |t| >= 31 { ManyHangs(xs, t, nmatch); }
    if Hangs(xs, t, 0, |t|, nmatch) {
      var h, w := JammedHead(xs, t, 0, |t|, nmatch);
      ManyAt(xs, 31, w, 0, |w|);
    }
  }

  lemma {:induction false} ManyHangs(xs: seq<Node>, t: seq<char>, nmatch: nat)
    requires xs == ManyItems() && |StripOf(xs)| == 38 && FarHead(xs, 33) && |t| >= 31
    ensures Hangs(xs, t, 0, |t|, nmatch) && M(xs, t, 0, 31)
  {
    ManyAt(xs, 31, t, 0, 31);
    MandatoryWithin(xs, t, 0, 31);
    assert LiveAt(xs, 1, 33, t, 0, 31, 31);
    FarHeadJams(xs, 33, LiveSet(xs, 1, t, 0, 31, 31));
    forall e | 0 <= e < 31 ensures !Ends(xs, t, 0, e, e) {
      forall i | 0 <= i <= e ensures !M(xs, t, i, e) { ManyAt(xs, 31, t, i, e); }
    }
    assert Jammed(xs, t, 0, 31, 31);
  }
}
