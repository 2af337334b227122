/** Moves over the strip, and the states in which a reader of t[i..p] can be
    (src/common/regex_engine.cpp, step). */
module Reach {
  import opened Strip

  // ----- Moves of the machine, read off the strip alone -----

  /** Distance an operator's operand spans; 0 for operators without one. */
  function Opnd(s: Sop): nat {
    match s
    case OPLUS_(n) => n
    case O_PLUS(n) => n
    case OQUEST_(n) => n
    case O_QUEST(n) => n
    case OLPAREN(n) => n
    case ORPAREN(n) => n
    case OCH_(n) => n
    case OOR1(n) => n
    case OOR2(n) => n
    case O_CH(n) => n
    case _ => 0
  }

  /** The O_CH that closes the choice whose OOR2 (or O_CH) is at q; q itself when the
      chain of OOR2 offsets is broken. */
  function ChoiceEnd(s: seq<Sop>, q: nat): nat
    decreases |s| - q
  {
    if q < |s| && s[q].OOR2? && s[q].n > 0 then ChoiceEnd(s, q + s[q].n) else q
  }

  /** Where the machine may go from q without reading a character. */
  function EpsTo(s: seq<Sop>, q: nat): set<int>
    requires q < |s|
  {
    match s[q]
    case OEND => {}
    case OCHAR(_) => {}
    case OANY => {}
    case OANYOF(_) => {}
    case OPLUS_(_) => {q + 1}
    case O_PLUS(n) => {q + 1, q - n}
    case OQUEST_(n) => {q + 1, q + n}
    case O_QUEST(_) => {q + 1}
    case OLPAREN(_) => {q + 1}
    case ORPAREN(_) => {q + 1}
    case OCH_(n) => {q + 1, q + n}
    case OOR1(_) => {ChoiceEnd(s, q + 1)}
    case OOR2(n) => if q + n < |s| && s[q + n].O_CH? then {q + 1} else {q + 1, q + n}
    case O_CH(_) => {q + 1}
  }

  /** Does the operator consume character c? */
  predicate Eats(s: Sop, c: char) {
    match s
    case OCHAR(d) => c == d
    case OANY => true
    case OANYOF(cs) => c in cs
    case _ => false
  }

  ghost predicate Closed(s: seq<Sop>, lo: nat, hi: nat, T: set<int>)
    requires hi <= |s|
  {
    forall q {:trigger EpsTo(s, q)} :: lo <= q < hi && q in T ==> EpsTo(s, q) <= T
  }

  /** States one character further on. */
  ghost function Eaten(s: seq<Sop>, lo: nat, hi: nat, T: set<int>, c: char): set<int>
    requires hi <= |s|
  {
    set q | q in T && lo <= q < hi && Eats(s[q], c) :: q + 1
  }

  /** T is the least closed set holding all of base. */
  ghost predicate Least(s: seq<Sop>, lo: nat, hi: nat, base: set<int>, T: set<int>)
    requires hi <= |s|
  {
    && base <= T
    && Closed(s, lo, hi, T)
    && forall U: set<int> :: base <= U && Closed(s, lo, hi, U) ==> T <= U
  }

  // ----- Where compiled code stands -----

  function Len(xs: seq<Node>): nat {
    if xs == [] then 0 else NodeLen(xs[0]) + Len(xs[1..])
  }

  function NodeLen(x: Node): (n: nat)
    ensures n > 0
  {
    match x
    case Plus(body) => Len(body) + 2
    case Quest(body) => Len(body) + 2
    case Choice(f, m, l) => Len(f) + MidLen(m) + Len(l) + 4
    case _ => 1
  }

  lemma {:induction false} LenSingle(x: Node)
    ensures Len([x]) == NodeLen(x)
  {
    assert [x][1..] == [];
  }

  lemma {:induction false} LenConcat(xs: seq<Node>, ys: seq<Node>)
    ensures Len(xs + ys) == Len(xs) + Len(ys)
    decreases |xs|
  {
    if xs == [] {
      assert xs + ys == ys;
    } else {
      assert (xs + ys)[0] == xs[0] && (xs + ys)[1..] == xs[1..] + ys;
      LenConcat(xs[1..], ys);
    }
  }

  function MidLen(m: seq<Branch>): nat {
    if m == [] then 0 else Len(m[0].items) + 2 + MidLen(m[1..])
  }

  /** The code of xs stands at b. */
  predicate Laid(s: seq<Sop>, b: nat, xs: seq<Node>)
    decreases xs, 0
  {
    b + Len(xs) <= |s| &&
    (xs != [] ==> NodeLaid(s, b, xs[0]) && Laid(s, b + NodeLen(xs[0]), xs[1..]))
  }

  predicate NodeLaid(s: seq<Sop>, b: nat, x: Node)
    decreases x, 0
  {
    && b + NodeLen(x) <= |s|
    && match x
       case Char(c) => s[b] == OCHAR(c)
       case Any => s[b] == OANY
       case AnyOf(cs) => s[b] == OANYOF(cs)
       case LPar(i) => s[b] == OLPAREN(i)
       case RPar(i) => s[b] == ORPAREN(i)
       case Plus(body) =>
         var n := Len(body) + 1;
         s[b] == OPLUS_(n) && Laid(s, b + 1, body) && s[b + n] == O_PLUS(n)
       case Quest(body) =>
         var n := Len(body) + 1;
         s[b] == OQUEST_(n) && Laid(s, b + 1, body) && s[b + n] == O_QUEST(n)
       case Choice(f, m, l) =>
         && HeadLaid(s, b, f)
         && MidLaid(s, b + 2 + Len(f), m)
         && LastLaid(s, b + 2 + Len(f) + MidLen(m), l)
  }

  predicate HeadLaid(s: seq<Sop>, b: nat, f: seq<Node>)
    decreases f, 1
  {
    && b + Len(f) + 2 <= |s|
    && s[b] == OCH_(Len(f) + 2) && Laid(s, b + 1, f) && s[b + 1 + Len(f)] == OOR1(Len(f) + 1)
  }

  predicate LastLaid(s: seq<Sop>, b: nat, l: seq<Node>)
    decreases l, 1
  {
    && b + Len(l) + 2 <= |s|
    && s[b] == OOR2(Len(l) + 1) && Laid(s, b + 1, l) && s[b + 1 + Len(l)] == O_CH(Len(l) + 2)
  }

  predicate MidLaid(s: seq<Sop>, b: nat, m: seq<Branch>)
    decreases m, 0
  {
    b + MidLen(m) <= |s| &&
    (m != [] ==>
       var F := Len(m[0].items);
       && s[b] == OOR2(F + 2) && Laid(s, b + 1, m[0].items) && s[b + 1 + F] == OOR1(F + 2)
       && MidLaid(s, b + 2 + F, m[1..]))
  }

  lemma {:induction false} CodeLen(xs: seq<Node>)
    ensures |Code(xs)| == Len(xs)
    decreases xs, 0
  {
    if xs != [] { NodeCodeLen(xs[0]); CodeLen(xs[1..]); }
  }

  lemma {:induction false} NodeCodeLen(x: Node)
    ensures |NodeCode(x)| == NodeLen(x)
    decreases x, 0
  {
    match x
    case Plus(body) => CodeLen(body);
    case Quest(body) => CodeLen(body);
    case Choice(f, m, l) => CodeLen(f); MidCodeLen(m); CodeLen(l);
    case _ =>
  }

  lemma {:induction false} MidCodeLen(m: seq<Branch>)
    ensures |MidCode(m)| == MidLen(m)
    decreases m, 0
  {
    if m != [] { CodeLen(m[0].items); MidCodeLen(m[1..]); }
  }

  ghost predicate Holds(s: seq<Sop>, b: nat, c: seq<Sop>) {
    b + |c| <= |s| && s[b..b + |c|] == c
  }

  lemma HoldsSplit(s: seq<Sop>, b: nat, c: seq<Sop>, d: seq<Sop>)
    ensures Holds(s, b, c + d) <==> Holds(s, b, c) && Holds(s, b + |c|, d)
  {
    if Holds(s, b, c + d) {
      assert s[b..b + |c|] == (c + d)[..|c|];
      assert s[b + |c|..b + |c| + |d|] == (c + d)[|c|..];
    }
    if Holds(s, b, c) && Holds(s, b + |c|, d) {
      assert s[b..b + |c| + |d|] == s[b..b + |c|] + s[b + |c|..b + |c| + |d|];
    }
  }

  lemma HoldsParts(s: seq<Sop>, b: nat, c: seq<Sop>, d: seq<Sop>, e: seq<Sop>)
    requires Holds(s, b, c + d + e)
    ensures Holds(s, b, c) && Holds(s, b + |c|, d) && Holds(s, b + |c| + |d|, e)
  {
    HoldsSplit(s, b, c + d, e);
    HoldsSplit(s, b, c, d);
  }

  lemma HoldsOne(s: seq<Sop>, b: nat, x: Sop)
    ensures Holds(s, b, [x]) <==> b < |s| && s[b] == x
  {
    if b < |s| { assert s[b..b + 1] == [s[b]]; }
  }

  lemma HoldsThree(s: seq<Sop>, b: nat, x: Sop, c: seq<Sop>, y: Sop)
    ensures Holds(s, b, [x] + c + [y]) <==>
            b + |c| + 1 < |s| && s[b] == x && Holds(s, b + 1, c) && s[b + 1 + |c|] == y
  {
    HoldsSplit(s, b, [x] + c, [y]);
    HoldsSplit(s, b, [x], c);
    HoldsOne(s, b, x);
    HoldsOne(s, b + 1 + |c|, y);
  }

  /** Code copied into the strip stands there, wherever that is. */
  lemma {:induction false} CodeLaid(s: seq<Sop>, b: nat, xs: seq<Node>)
    requires Holds(s, b, Code(xs))
    ensures Laid(s, b, xs)
    decreases xs, 0
  {
    CodeLen(xs);
    if xs != [] {
      NodeCodeLen(xs[0]);
      HoldsSplit(s, b, NodeCode(xs[0]), Code(xs[1..]));
      NodeCodeLaid(s, b, xs[0]);
      CodeLaid(s, b + NodeLen(xs[0]), xs[1..]);
    }
  }

  lemma {:induction false} NodeCodeLaid(s: seq<Sop>, b: nat, x: Node)
    requires Holds(s, b, NodeCode(x))
    ensures NodeLaid(s, b, x)
    decreases x, 1
  {
    NodeCodeLen(x);
    if x.Plus? || x.Quest? { CodeLen(x.body); }
    match x
    case Char(c) => HoldsOne(s, b, OCHAR(c));
    case Any => HoldsOne(s, b, OANY);
    case AnyOf(cs) => HoldsOne(s, b, OANYOF(cs));
    case LPar(n) => HoldsOne(s, b, OLPAREN(n));
    case RPar(n) => HoldsOne(s, b, ORPAREN(n));
    case Plus(body) => LoopCodeLaid(s, b, body, OPLUS_(Len(body) + 1), O_PLUS(Len(body) + 1));
    case Quest(body) => LoopCodeLaid(s, b, body, OQUEST_(Len(body) + 1), O_QUEST(Len(body) + 1));
    case Choice(f, m, l) => ChoiceWholeLaid(s, b, f, m, l);
  }

  lemma {:induction false} ChoiceWholeLaid(s: seq<Sop>, b: nat, f: seq<Node>, m: seq<Branch>, l: seq<Node>)
    requires Holds(s, b, HeadCode(Code(f)) + MidCode(m) + LastCode(Code(l)))
    ensures NodeLaid(s, b, Choice(f, m, l))
    decreases Choice(f, m, l), 0
  {
    ChoiceCodeHolds(s, b, f, m, Code(l));
    ChoiceCodeLaid(s, b, f, m, l, b + 2 + Len(f), b + 2 + Len(f) + MidLen(m));
    ChoiceLaid(s, b, f, m, l);
  }

  lemma {:induction false} ChoiceLaid(s: seq<Sop>, b: nat, f: seq<Node>, m: seq<Branch>, l: seq<Node>)
    requires HeadLaid(s, b, f) && MidLaid(s, b + 2 + Len(f), m) && LastLaid(s, b + 2 + Len(f) + MidLen(m), l)
    ensures NodeLaid(s, b, Choice(f, m, l))
  {
  }

  lemma {:induction false} LoopCodeLaid(s: seq<Sop>, b: nat, body: seq<Node>, x: Sop, y: Sop)
    requires Holds(s, b, [x] + Code(body) + [y])
    ensures b + Len(body) + 2 <= |s| && s[b] == x && Laid(s, b + 1, body) && s[b + 1 + Len(body)] == y
    decreases body, 1
  {
    CodeLen(body);
    HoldsThree(s, b, x, Code(body), y);
    CodeLaid(s, b + 1, body);
  }

  lemma {:induction false} ChoiceCodeLaid(s: seq<Sop>, b: nat, f: seq<Node>, m: seq<Branch>, l: seq<Node>, b1: nat,
                                          b2: nat)
    requires b1 == b + 2 + Len(f) && b2 == b1 + MidLen(m)
    requires Holds(s, b, HeadCode(Code(f))) && Holds(s, b1, MidCode(m)) && Holds(s, b2, LastCode(Code(l)))
    ensures HeadLaid(s, b, f) && MidLaid(s, b1, m) && LastLaid(s, b2, l)
    decreases Choice(f, m, l), -1
  {
    HeadCodeLaid(s, b, f);
    MidCodeLaid(s, b1, m);
    LastCodeLaid(s, b2, l);
  }

  lemma {:induction false} ChoiceCodeHolds(s: seq<Sop>, b: nat, f: seq<Node>, m: seq<Branch>, c: seq<Sop>)
    requires Holds(s, b, HeadCode(Code(f)) + MidCode(m) + LastCode(c))
    ensures Holds(s, b, HeadCode(Code(f))) && Holds(s, b + 2 + Len(f), MidCode(m))
    ensures Holds(s, b + 2 + Len(f) + MidLen(m), LastCode(c))
  {
    CodeLen(f);
    MidCodeLen(m);
    var h, d := HeadCode(Code(f)), MidCode(m);
    assert |h| == Len(f) + 2 && |d| == MidLen(m);
    HoldsParts(s, b, h, d, LastCode(c));
  }

  lemma {:induction false} HeadCodeLaid(s: seq<Sop>, b: nat, f: seq<Node>)
    requires Holds(s, b, HeadCode(Code(f)))
    ensures HeadLaid(s, b, f)
    decreases f, 1
  {
    CodeLen(f);
    HoldsThree(s, b, OCH_(Len(f) + 2), Code(f), OOR1(Len(f) + 1));
    CodeLaid(s, b + 1, f);
  }

  lemma {:induction false} LastCodeLaid(s: seq<Sop>, b: nat, l: seq<Node>)
    requires Holds(s, b, LastCode(Code(l)))
    ensures LastLaid(s, b, l)
    decreases l, 1
  {
    CodeLen(l);
    HoldsThree(s, b, OOR2(Len(l) + 1), Code(l), O_CH(Len(l) + 2));
    CodeLaid(s, b + 1, l);
  }

  lemma {:induction false} MidCodeLaid(s: seq<Sop>, b: nat, m: seq<Branch>)
    requires Holds(s, b, MidCode(m))
    ensures MidLaid(s, b, m)
    decreases m, 0
  {
    if m != [] {
      var c := b + 2 + Len(m[0].items);
      MidCodeHolds(s, b, m[0].items, m[1..]);
      SegCodeLaid(s, b, m[0].items);
      MidCodeLaid(s, c, m[1..]);
      MidLaidMore(s, b, m, c);
    }
  }

  lemma {:induction false} MidLaidMore(s: seq<Sop>, b: nat, m: seq<Branch>, c: nat)
    requires m != [] && c == b + 2 + Len(m[0].items) <= |s| && MidLaid(s, c, m[1..])
    requires s[b] == OOR2(c - b) && Laid(s, b + 1, m[0].items) && s[c - 1] == OOR1(c - b)
    ensures MidLaid(s, b, m)
  {
  }

  lemma {:induction false} MidCodeHolds(s: seq<Sop>, b: nat, x: seq<Node>, m: seq<Branch>)
    requires Holds(s, b, SegCode(Code(x)) + MidCode(m))
    ensures Holds(s, b, SegCode(Code(x))) && Holds(s, b + 2 + Len(x), MidCode(m))
  {
    CodeLen(x);
    HoldsSplit(s, b, SegCode(Code(x)), MidCode(m));
  }

  lemma {:induction false} SegCodeLaid(s: seq<Sop>, b: nat, x: seq<Node>)
    requires Holds(s, b, SegCode(Code(x)))
    ensures b + Len(x) + 2 <= |s|
    ensures s[b] == OOR2(Len(x) + 2) && Laid(s, b + 1, x) && s[b + 1 + Len(x)] == OOR1(Len(x) + 2)
    decreases x, 1
  {
    CodeLen(x);
    HoldsThree(s, b, OOR2(Len(x) + 2), Code(x), OOR1(Len(x) + 2));
    CodeLaid(s, b + 1, x);
  }

  // ----- Which states a reader of t[i..p] can be in -----

  ghost predicate At(xs: seq<Node>, b: int, pc: int, t: seq<char>, i: int, p: int)
    decreases xs, 0
  {
    if xs == [] then pc == b && i == p
    else
      var n := NodeLen(xs[0]);
      if pc < b + n then NodeAt(xs[0], b, pc, t, i, p)
      else exists k :: i <= k <= p && MNode(xs[0], t, i, k) && At(xs[1..], b + n, pc, t, k, p)
  }

  ghost predicate NodeAt(x: Node, b: int, pc: int, t: seq<char>, i: int, p: int)
    decreases x, 0
  {
    match x
    case Plus(body) =>
      if pc == b then exists n: nat :: MPow(body, n, t, i, p)
      else exists n: nat, k :: i <= k <= p && MPow(body, n, t, i, k) && At(body, b + 1, pc, t, k, p)
    case Quest(body) =>
      if pc == b then i == p
      else At(body, b + 1, pc, t, i, p) || (pc == b + 1 + Len(body) && i == p)
    case Choice(f, m, l) =>
      var F, D, L := Len(f), MidLen(m), Len(l);
      var u := b + 2 + F + D;
      if pc == b then i == p
      else if pc <= b + 1 + F then At(f, b + 1, pc, t, i, p)
      else if pc < u then MidAt(m, b + 2 + F, pc, t, i, p)
      else if pc == u then i == p
      else if pc < u + 1 + L then At(l, u + 1, pc, t, i, p)
      else MNode(x, t, i, p)
    case _ => i == p
  }

  ghost predicate MidAt(m: seq<Branch>, b: int, pc: int, t: seq<char>, i: int, p: int)
    decreases m, 0
  {
    if m == [] then false
    else
      var F := Len(m[0].items);
      if pc == b then i == p
      else if pc <= b + 1 + F then At(m[0].items, b + 1, pc, t, i, p)
      else MidAt(m[1..], b + 2 + F, pc, t, i, p)
  }

  lemma {:induction false} AtStart(xs: seq<Node>, b: int, t: seq<char>, i: int)
    ensures At(xs, b, b, t, i, i)
  {
    if xs != [] && xs[0].Plus? { assert MPow(xs[0].body, 0, t, i, i); }
  }

  /** Being at the end of the code is having matched. */
  lemma {:induction false} AtEnd(xs: seq<Node>, b: int, t: seq<char>, i: int, p: int)
    ensures At(xs, b, b + Len(xs), t, i, p) <==> M(xs, t, i, p)
    decreases |xs|
  {
    if xs != [] {
      var n := NodeLen(xs[0]);
      assert Len(xs) == n + Len(xs[1..]);
      if At(xs, b, b + Len(xs), t, i, p) {
        var k :| i <= k <= p && MNode(xs[0], t, i, k) && At(xs[1..], b + n, b + Len(xs), t, k, p);
        AtEnd(xs[1..], b + n, t, k, p);
        assert M(xs, t, i, p);
      }
      if M(xs, t, i, p) {
        var k := MSplit(xs, t, i, p);
        AtEnd(xs[1..], b + n, t, k, p);
        assert At(xs[1..], b + n, b + Len(xs), t, k, p);
      }
    }
  }
}
