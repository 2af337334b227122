/** Which offsets are reported, in terms of expressions and the words they have: what dissect
    records, read off the expression (src/common/regex_engine.cpp, dissect). */
module Offsets {
  import opened Strip
  import opened Capturing
  import opened Captured
  import opened Ere
  import opened Grammar
  import opened Leftmost
  import opened Numbering
  import opened Regex
  import opened Reporting
  import opened Wrappers

  // ----- Where the parts of an expression end -----

  type Places = iset<int>

  ghost const ANYWHERE: Places := iset k: int | true

  /** The end, at k or before, of the longest word of e from i that ends at one of the places C. */
  ghost function Longest(e: Ere, C: Places, t: seq<char>, i: int, k: int): int
    decreases k - i
  {
    if k < i then NULL else if k in C && Occurs(e, t, i, k) then k else Longest(e, C, t, i, k - 1)
  }

  lemma {:induction false} LongestIs(e: Ere, C: Places, t: seq<char>, i: nat, j: int)
    ensures var k := Longest(e, C, t, i, j);
            && (k == NULL || (i <= k <= j && k in C && Occurs(e, t, i, k)))
            && (forall m :: i <= m <= j && m in C && Occurs(e, t, i, m) ==> m <= k)
    decreases j - i
  {
    if j >= i && !(j in C && Occurs(e, t, i, j)) { LongestIs(e, C, t, i, j - 1); }
  }

  ghost predicate Leads(e: Ere, C: Places, t: seq<char>, k: int) {
    exists m :: m in C && Occurs(e, t, k, m)
  }

  /** Where a word of e may begin that ends at one of the places C. */
  ghost function Before(e: Ere, C: Places, t: seq<char>): Places {
    iset k: int | Leads(e, C, t, k)
  }

  function Less(hi: Limit): Limit {
    match hi case AtMost(n) => if n > 0 then AtMost(n - 1) else hi case Unlimited => Unlimited
  }

  /** Where e ends, begun at i, if what follows it can begin at the places C: a repetition, an
      option and a choice go as far as they can, the first of several going first. */
  ghost function End(e: Ere, C: Places, t: seq<char>, i: int, j: int): int
    decreases e, 0, 0, 0
  {
    match e
    case Eps => i
    case Group(_, b) => End(b, C, t, i, j)
    case Cat(l, r) => End(r, C, t, End(l, Before(r, C, t), t, i, j), j)
    case Bound(b, lo, hi) => EndCounted(b, lo, hi, C, t, i, j)
    case Star(_) => Longest(e, C, t, i, j)
    case More(_) => Longest(e, C, t, i, j)
    case Opt(_) => Longest(e, C, t, i, j)
    case Alt(_) => Longest(e, C, t, i, j)
    case _ => i + 1
  }

  /** The same for b repeated lo to hi times: copies that may be missing are options, before
      those that may not. */
  ghost function EndCounted(b: Ere, lo: nat, hi: Limit, C: Places, t: seq<char>, i: int, j: int): int
    decreases b, 1, if lo == 0 then 1 else 0, if hi.AtMost? then hi.n else lo
  {
    if hi == AtMost(0) then i
    else if lo == 0 then Longest(Opt(Bound(b, 1, hi)), C, t, i, j)
    else if hi == AtMost(1) then End(b, C, t, i, j)
    else if lo == 1 && hi.Unlimited? then Longest(More(b), C, t, i, j)
    else EndCounted(b, if lo == 1 then 1 else lo - 1, Less(hi), C, t, FirstCopy(b, lo, hi, C, t, i, j), j)
  }

  /** Where the first of several copies ends. */
  ghost function FirstCopy(b: Ere, lo: nat, hi: Limit, C: Places, t: seq<char>, i: int, j: int): int
    decreases b, 0, 1, 0
  {
    if lo == 1 then Longest(Opt(b), Before(Bound(b, 1, Less(hi)), C, t), t, i, j)
    else if lo > 1 then End(b, Before(Bound(b, lo - 1, Less(hi)), C, t), t, i, j)
    else i
  }

  /** The last word of b that longest words lead to, from i, rest being the end. */
  ghost function LastWord(b: Ere, t: seq<char>, before: int, i: int, rest: int): (int, int)
    decreases rest - i
  {
    var k := Longest(b, ANYWHERE, t, i, rest);
    if k == NULL then (before, i) else if k <= i then (i, i) else LastWord(b, t, i, k, rest)
  }

  // ----- Which subexpressions it goes through -----

  /** The stretch of subexpression g of e, begun at i, if it goes through g: n parentheses have
      been opened before e, and what follows e can begin at the places C. */
  ghost function Found(e: Ere, n: nat, C: Places, t: seq<char>, i: int, j: int, g: nat): Option<Span>
    decreases e, 0, 0, 0
  {
    match e
    case Group(_, b) => if g == n + 1 then Some(Span(i, End(b, C, t, i, j))) else Found(b, n + 1, C, t, i, j, g)
    case Cat(l, r) =>
      if g <= n + Groups(l) then Found(l, n, Before(r, C, t), t, i, j, g)
      else Found(r, n + Groups(l), C, t, End(l, Before(r, C, t), t, i, j), j, g)
    case Star(b) =>
      var k := Longest(e, C, t, i, j);
      if Occurs(More(b), t, i, k) then FoundLast(b, n, t, i, k, g) else None
    case More(b) => FoundLast(b, n, t, i, Longest(e, C, t, i, j), g)
    case Opt(b) =>
      var k := Longest(e, C, t, i, j);
      if Occurs(b, t, i, k) then Found(b, n, iset{k}, t, i, k, g) else None
    case Bound(b, lo, hi) => FoundCounted(b, lo, hi, n, C, t, i, j, g)
    case Alt(bs) => FoundAny(bs, n, t, i, Longest(e, C, t, i, j), g)
    case _ => None
  }

  /** In the last word of a repetition of b from i to k. */
  ghost function FoundLast(b: Ere, n: nat, t: seq<char>, i: int, k: int, g: nat): Option<Span>
    decreases b, 0, 1, 0
  {
    var (a, z) := LastWord(b, t, i, i, k);
    Found(b, n, iset{z}, t, a, z, g)
  }

  /** In the first alternative that has the stretch i..k. */
  ghost function FoundAny(bs: seq<Ere>, n: nat, t: seq<char>, i: int, k: int, g: nat): Option<Span>
    decreases bs, 0, 0, 0
  {
    if bs == [] then None
    else if Occurs(bs[0], t, i, k) then
      if n < g <= n + Groups(bs[0]) then Found(bs[0], n, iset{k}, t, i, k, g) else None
    else FoundAny(bs[1..], n + Groups(bs[0]), t, i, k, g)
  }

  /** In the last of the copies of b that goes through it. */
  ghost function FoundCounted(b: Ere, lo: nat, hi: Limit, n: nat, C: Places, t: seq<char>, i: int, j: int, g: nat)
    : Option<Span>
    decreases b, 1, if lo == 0 then 1 else 0, if hi.AtMost? then hi.n else lo
  {
    if hi == AtMost(0) then None
    else if lo == 0 then
      var k := Longest(Opt(Bound(b, 1, hi)), C, t, i, j);
      if Occurs(Bound(b, 1, hi), t, i, k) then FoundCounted(b, 1, hi, n, iset{k}, t, i, k, g) else None
    else if hi == AtMost(1) then Found(b, n, C, t, i, j, g)
    else if lo == 1 && hi.Unlimited? then FoundLast(b, n, t, i, Longest(More(b), C, t, i, j), g)
    else
      var k := FirstCopy(b, lo, hi, C, t, i, j);
      var later := FoundCounted(b, if lo == 1 then 1 else lo - 1, Less(hi), n, C, t, k, j, g);
      if later.Some? then later
      else if lo > 1 then Found(b, n, Before(Bound(b, lo - 1, Less(hi)), C, t), t, i, j, g)
      else if Occurs(b, t, i, k) then Found(b, n, iset{k}, t, i, k, g)
      else None
  }

  // ----- dissect records that -----

  /** The places from which the items ys match up to j. */
  ghost function After(ys: seq<Node>, t: seq<char>, j: int): Places {
    iset k: int | 0 <= k <= j && M(ys, t, k, j)
  }

  lemma AfterNothing(t: seq<char>, j: int)
    requires 0 <= j
    ensures After([], t, j) == iset{j}
  {
  }

  lemma {:induction false} AfterMore(e: Ere, ys: seq<Node>, t: seq<char>, j: int)
    requires Ok(e) && 0 <= j <= |t|
    ensures After(Lower(e) + ys, t, j) == Before(e, After(ys, t, j), t)
  {
    forall k: int ensures k in After(Lower(e) + ys, t, j) <==> k in Before(e, After(ys, t, j), t) {
      MConcat(Lower(e), ys, t, k, j);
      forall m | 0 <= k <= m <= j ensures M(Lower(e), t, k, m) <==> Occurs(e, t, k, m) { LowerIs(e, t, k, m); }
      if k in After(Lower(e) + ys, t, j) {
        var m :| k <= m <= j && M(Lower(e), t, k, m) && M(ys, t, m, j);
        assert m in After(ys, t, j) && Occurs(e, t, k, m);
      }
      if Leads(e, After(ys, t, j), t, k) {
        var m :| m in After(ys, t, j) && Occurs(e, t, k, m);
        assert M(Lower(e), t, k, m) && M(ys, t, m, j);
      }
    }
  }

  /** Shares, longest matches and last passes of items are those of their expression. */
  lemma {:induction false} ShareIsLongest(e: Ere, x: Node, ys: seq<Node>, t: seq<char>, i: nat, j: int, k: int)
    requires Ok(e) && Lower(e) == [x] && k <= j <= |t|
    ensures Share(x, ys, t, i, j, k) == Longest(e, After(ys, t, j), t, i, k)
    decreases k - i
  {
    if k >= i {
      MSingle(x, t, i, k);
      LowerIs(e, t, i, k);
      ShareIsLongest(e, x, ys, t, i, j, k - 1);
    }
  }

  lemma {:induction false} MaxEndIsLongest(e: Ere, t: seq<char>, i: nat, k: int)
    requires Ok(e) && k <= |t|
    ensures MaxEnd(Lower(e), t, i, k) == Longest(e, ANYWHERE, t, i, k)
    decreases k - i
  {
    if k >= i {
      LowerIs(e, t, i, k);
      MaxEndIsLongest(e, t, i, k - 1);
    }
  }

  lemma {:induction false} LastPassIsWord(b: Ere, t: seq<char>, before: nat, i: nat, rest: int)
    requires Ok(b) && rest <= |t|
    ensures LastPass(Lower(b), t, before, i, rest) == LastWord(b, t, before, i, rest)
    decreases rest - i
  {
    MaxEndIsLongest(b, t, i, rest);
    var k := MaxEnd(Lower(b), t, i, rest);
    LongestIs(b, ANYWHERE, t, i, rest);
    if i < k <= rest { LastPassIsWord(b, t, i, k, rest); }
  }

  function Or(f: Option<Span>, s: Span): Span {
    if f.Some? then f.value else s
  }

  /** pm' is pm with the stretches of what e has gone through. */
  ghost predicate Noted(pm: seq<Span>, pm': seq<Span>, e: Ere, n: nat, C: Places, t: seq<char>, i: int, j: int) {
    |pm'| == |pm| && forall g: nat :: g < |pm| ==>
      pm'[g] == if n < g <= n + Groups(e) then Or(Found(e, n, C, t, i, j, g), pm[g]) else pm[g]
  }

  /** With e taken from i to k, and ys still to come, pm has become pm'. */
  ghost predicate Taken(e: Ere, n: nat, ys: seq<Node>, C: Places, t: seq<char>, i: int, j: int, k: int,
                        pm: seq<Span>, pm': seq<Span>)
    requires Ok(e)
  {
    && i <= k <= j && k in C && Noted(pm, pm', e, n, C, t, i, j)
    && Captures(Lower(e) + ys, t, i, j, pm) == Captures(ys, t, k, j, pm')
  }

  /** dissect takes e apart as far as End says, and notes what Found says. */
  lemma {:induction false} TakenApart(e: Ere, n: nat, ys: seq<Node>, t: seq<char>, i: nat, j: int, pm: seq<Span>,
                                      C: Places)
    returns (k: int, pm': seq<Span>)
    requires C == After(ys, t, j) && Ok(e) && Numbered(e, n) && i <= j <= |t| && M(Lower(e) + ys, t, i, j)
    ensures k == End(e, C, t, i, j) && Taken(e, n, ys, C, t, i, j, k, pm, pm')
    decreases e, 0, 0, 0
  {
    match e
    case Eps => k, pm' := i, pm; assert Lower(e) + ys == ys;
    case Group(_, b) => k, pm' := GroupTaken(b, n, ys, t, i, j, pm, C);
    case Cat(l, r) => k, pm' := CatTaken(e, l, r, n, ys, t, i, j, pm, C);
    case Bound(b, lo, hi) => k, pm' := CountedTaken(b, lo, hi, n, ys, t, i, j, pm, C);
    case Star(b) => k, pm' := StarTaken(b, n, ys, t, i, j, pm, C);
    case More(b) => k, pm' := MoreTaken(b, n, ys, t, i, j, pm, C);
    case Opt(b) => k, pm' := OptTaken(b, n, ys, t, i, j, pm, C);
    case Alt(bs) => k, pm' := AltTaken(bs, n, ys, t, i, j, pm, C);
    case _ => k, pm' := i + 1, pm; AtomTaken(Lower(e)[0], ys, t, i, j, pm);
  }

  lemma AtomTaken(x: Node, ys: seq<Node>, t: seq<char>, i: nat, j: int, pm: seq<Span>)
    requires (x.Char? || x.Any? || x.AnyOf?) && M([x] + ys, t, i, j)
    ensures i + 1 in After(ys, t, j) && Captures([x] + ys, t, i, j, pm) == Captures(ys, t, i + 1, j, pm)
  {
    MUnfold(x, ys, t, i, j);
    assert ([x] + ys)[1..] == ys;
  }

  /** The items of a parenthesis. */
  lemma {:induction false} ParTaken(x: Node, ys: seq<Node>, t: seq<char>, i: nat, j: int, pm: seq<Span>)
    requires (x.LPar? || x.RPar?) && M([x] + ys, t, i, j) && i <= j
    ensures M(ys, t, i, j)
    ensures Captures([x] + ys, t, i, j, pm) == Captures(ys, t, i, j,
              if x.i >= |pm| then pm
              else if x.LPar? then pm[x.i := pm[x.i].(so := i)] else pm[x.i := pm[x.i].(eo := i)])
  {
    MUnfold(x, ys, t, i, j);
    assert ([x] + ys)[1..] == ys;
  }

  lemma AfterPar(x: Node, ys: seq<Node>, t: seq<char>, j: int)
    requires x.LPar? || x.RPar?
    ensures After([x] + ys, t, j) == After(ys, t, j)
  {
    forall k: int ensures M([x] + ys, t, k, j) <==> M(ys, t, k, j) {
      MUnfold(x, ys, t, k, j);
      if M(ys, t, k, j) { MOrder(ys, t, k, j); }
    }
  }

  lemma NotedGroup(pm: seq<Span>, pm1: seq<Span>, pm2: seq<Span>, pm': seq<Span>, b: Ere, n: nat, C: Places,
                   t: seq<char>, i: int, k: int, j: int)
    requires pm1 == (if n + 1 < |pm| then pm[n + 1 := pm[n + 1].(so := i)] else pm)
    requires Noted(pm1, pm2, b, n + 1, C, t, i, j) && k == End(b, C, t, i, j)
    requires pm' == if n + 1 < |pm| then pm2[n + 1 := pm2[n + 1].(eo := k)] else pm2
    ensures Noted(pm, pm', Group(n + 1, b), n, C, t, i, j)
  {
  }

  lemma {:induction false} GroupTaken(b: Ere, n: nat, ys: seq<Node>, t: seq<char>, i: nat, j: int, pm: seq<Span>,
                                      C: Places)
    returns (k: int, pm': seq<Span>)
    requires C == After(ys, t, j) && Ok(b) && Numbered(b, n + 1)
    requires i <= j <= |t| && M(Lower(Group(n + 1, b)) + ys, t, i, j)
    ensures k == End(Group(n + 1, b), C, t, i, j) && Taken(Group(n + 1, b), n, ys, C, t, i, j, k, pm, pm')
    decreases b, 2, 0, 0
  {
    var g := n + 1;
    var zs := [RPar(g)] + ys;
    assert Lower(Group(g, b)) + ys == [LPar(g)] + (Lower(b) + zs);
    ParTaken(LPar(g), Lower(b) + zs, t, i, j, pm);
    AfterPar(RPar(g), ys, t, j);
    var pm1 := if g < |pm| then pm[g := pm[g].(so := i)] else pm;
    var pm2;
    k, pm2 := TakenApart(b, n + 1, zs, t, i, j, pm1, C);
    ParTaken(RPar(g), ys, t, k, j, pm2);
    pm' := if g < |pm| then pm2[g := pm2[g].(eo := k)] else pm2;
    NotedGroup(pm, pm1, pm2, pm', b, n, C, t, i, k, j);
  }

  lemma NotedCat(pm: seq<Span>, pm1: seq<Span>, pm': seq<Span>, l: Ere, r: Ere, n: nat, C: Places, D: Places,
                 t: seq<char>, i: int, m: int, j: int)
    requires D == Before(r, C, t) && m == End(l, D, t, i, j)
    requires Noted(pm, pm1, l, n, D, t, i, j) && Noted(pm1, pm', r, n + Groups(l), C, t, m, j)
    ensures Noted(pm, pm', Cat(l, r), n, C, t, i, j)
  {
    var e := Cat(l, r);
    forall g: nat | g < |pm|
      ensures pm'[g] == if n < g <= n + Groups(e) then Or(Found(e, n, C, t, i, j, g), pm[g]) else pm[g]
    {
    }
  }

  lemma {:induction false} CatItems(e: Ere, l: Ere, r: Ere, n: nat, ys: seq<Node>, zs: seq<Node>, t: seq<char>, j: int)
    requires e == Cat(l, r) && Ok(e) && Numbered(e, n) && 0 <= j <= |t|
    requires Ok(r) && zs == Lower(r) + ys
    ensures Ok(l) && Numbered(l, n) && Numbered(r, n + Groups(l)) && Lower(e) + ys == Lower(l) + zs
    ensures After(zs, t, j) == Before(r, After(ys, t, j), t)
  {
    AfterMore(r, ys, t, j);
  }

  lemma {:induction false} CatTaken(e: Ere, l: Ere, r: Ere, n: nat, ys: seq<Node>, t: seq<char>, i: nat, j: int,
                                    pm: seq<Span>, C: Places)
    returns (k: int, pm': seq<Span>)
    requires e == Cat(l, r) && C == After(ys, t, j) && Ok(e) && Numbered(e, n)
    requires i <= j <= |t| && M(Lower(e) + ys, t, i, j)
    ensures k == End(e, C, t, i, j) && Taken(e, n, ys, C, t, i, j, k, pm, pm')
    decreases e, 0, 0, -1
  {
    var zs, D := Lower(r) + ys, Before(r, C, t);
    CatItems(e, l, r, n, ys, zs, t, j);
    var m, pm1 := TakenApart(l, n, zs, t, i, j, pm, D);
    assert M(zs, t, m, j) by { assert m in D; }
    k, pm' := TakenApart(r, n + Groups(l), ys, t, m, j, pm1, C);
    NotedCat(pm, pm1, pm', l, r, n, C, D, t, i, m, j);
  }

  /** A single item that may take several stretches takes the longest. */
  lemma {:induction false} ItemTaken(e: Ere, x: Node, ys: seq<Node>, t: seq<char>, i: nat, j: int, pm: seq<Span>)
    requires Ok(e) && Lower(e) == [x] && (x.Plus? || x.Quest? || x.Choice?)
    requires i <= j <= |t| && M(Lower(e) + ys, t, i, j)
    ensures var C := After(ys, t, j); var k := Longest(e, C, t, i, j);
            && i <= k <= j && k in C && Occurs(e, t, i, k) && MNode(x, t, i, k)
            && Captures(Lower(e) + ys, t, i, j, pm) == Captures(ys, t, k, j, Inner(x, t, i, k, pm))
  {
    var C := After(ys, t, j);
    ShareIsLongest(e, x, ys, t, i, j, j);
    LongestIs(e, C, t, i, j);
    MUnfold(x, ys, t, i, j);
    ShareIs(x, ys, t, i, j, j);
    assert ([x] + ys)[1..] == ys;
  }

  /** What the last word of a repetition notes. */
  lemma {:induction false} LastTaken(b: Ere, n: nat, t: seq<char>, i: nat, k: int, pm: seq<Span>)
    requires Ok(b) && Numbered(b, n) && i <= k <= |t| && MNode(Plus(Lower(b)), t, i, k)
    ensures var pm' := Inner(Plus(Lower(b)), t, i, k, pm);
            forall g: nat :: g < |pm| ==>
              pm'[g] == if n < g <= n + Groups(b) then Or(FoundLast(b, n, t, i, k, g), pm[g]) else pm[g]
    decreases b, 1, 0, 0
  {
    LastPassIsWord(b, t, i, i, k);
    PlusLastPass(Lower(b), t, i, k);
    var (a, z) := LastPass(Lower(b), t, i, i, k);
    var pm' := Alone(b, n, t, a, z, pm);
  }

  /** b taken apart with nothing after it. */
  lemma {:induction false} Alone(b: Ere, n: nat, t: seq<char>, a: nat, z: int, pm: seq<Span>) returns (pm': seq<Span>)
    requires Ok(b) && Numbered(b, n) && a <= z <= |t| && M(Lower(b), t, a, z)
    ensures pm' == Captures(Lower(b), t, a, z, pm) && Noted(pm, pm', b, n, iset{z}, t, a, z)
    decreases b, 0, 1, 0
  {
    assert Lower(b) + [] == Lower(b);
    AfterNothing(t, z);
    var k;
    k, pm' := TakenApart(b, n, [], t, a, z, pm, iset{z});
  }

  lemma {:induction false} MoreTaken(b: Ere, n: nat, ys: seq<Node>, t: seq<char>, i: nat, j: int, pm: seq<Span>,
                                     C: Places)
    returns (k: int, pm': seq<Span>)
    requires C == After(ys, t, j) && Ok(b) && Numbered(b, n) && i <= j <= |t| && M(Lower(More(b)) + ys, t, i, j)
    ensures k == Longest(More(b), C, t, i, j) && Taken(More(b), n, ys, C, t, i, j, k, pm, pm')
    decreases b, 1, 1, 0
  {
    var x := Plus(Lower(b));
    k := Longest(More(b), C, t, i, j);
    ItemTaken(More(b), x, ys, t, i, j, pm);
    LastTaken(b, n, t, i, k, pm);
    pm' := Inner(x, t, i, k, pm);
  }

  lemma {:induction false} StarTaken(b: Ere, n: nat, ys: seq<Node>, t: seq<char>, i: nat, j: int, pm: seq<Span>,
                                     C: Places)
    returns (k: int, pm': seq<Span>)
    requires C == After(ys, t, j) && Ok(b) && Numbered(b, n) && i <= j <= |t| && M(Lower(Star(b)) + ys, t, i, j)
    ensures k == End(Star(b), C, t, i, j) && Taken(Star(b), n, ys, C, t, i, j, k, pm, pm')
    decreases b, 1, 1, 0
  {
    var p := Plus(Lower(b));
    ItemTaken(Star(b), Quest([p]), ys, t, i, j, pm);
    k := Longest(Star(b), C, t, i, j);
    LowerIs(More(b), t, i, k);
    MaxEndIs([p], t, i, k);
    MSingle(p, t, i, k);
    if M([p], t, i, k) {
      CapturesOne(p, t, i, k, pm);
      LastTaken(b, n, t, i, k, pm);
    }
    pm' := Inner(Quest([p]), t, i, k, pm);
  }

  lemma {:induction false} OptTaken(b: Ere, n: nat, ys: seq<Node>, t: seq<char>, i: nat, j: int, pm: seq<Span>,
                                    C: Places)
    returns (k: int, pm': seq<Span>)
    requires C == After(ys, t, j) && Ok(b) && Numbered(b, n) && i <= j <= |t| && M(Lower(Opt(b)) + ys, t, i, j)
    ensures k == Longest(Opt(b), C, t, i, j) && Taken(Opt(b), n, ys, C, t, i, j, k, pm, pm')
    decreases b, 1, 1, 0
  {
    var x := Choice(Lower(b), [], []);
    ItemTaken(Opt(b), x, ys, t, i, j, pm);
    k := Longest(Opt(b), C, t, i, j);
    LowerIs(b, t, i, k);
    pm' := Inner(x, t, i, k, pm);
    if M(Lower(b), t, i, k) { var _ := Alone(b, n, t, i, k, pm); }
  }

  lemma {:induction false} CountedTaken(b: Ere, lo: nat, hi: Limit, n: nat, ys: seq<Node>, t: seq<char>, i: nat, j: int,
                                        pm: seq<Span>, C: Places)
    returns (k: int, pm': seq<Span>)
    requires C == After(ys, t, j) && Ok(Bound(b, lo, hi)) && Numbered(b, n)
    requires i <= j <= |t| && M(Lower(Bound(b, lo, hi)) + ys, t, i, j)
    ensures k == EndCounted(b, lo, hi, C, t, i, j) && Taken(Bound(b, lo, hi), n, ys, C, t, i, j, k, pm, pm')
    decreases b, 2, if lo == 0 then 1 else 0, if hi.AtMost? then hi.n else lo
  {
    var e := Bound(b, lo, hi);
    if hi == AtMost(0) {
      assert Lower(e) + ys == ys;
      k, pm' := i, pm;
    } else if lo == 0 {
      k, pm' := AnyCopiesTaken(b, hi, n, ys, t, i, j, pm, C);
    } else if hi == AtMost(1) {
      assert Lower(e) == Lower(b);
      k, pm' := TakenApart(b, n, ys, t, i, j, pm, C);
    } else if lo == 1 && hi.Unlimited? {
      assert Lower(e) == Lower(More(b));
      k, pm' := MoreTaken(b, n, ys, t, i, j, pm, C);
    } else {
      k, pm' := CopiesTaken(b, lo, hi, n, ys, t, i, j, pm, C);
    }
  }

  /** Copies all of which may be missing. */
  lemma {:induction false} AnyCopiesTaken(b: Ere, hi: Limit, n: nat, ys: seq<Node>, t: seq<char>, i: nat, j: int,
                                          pm: seq<Span>, C: Places)
    returns (k: int, pm': seq<Span>)
    requires C == After(ys, t, j) && Ok(Bound(b, 0, hi)) && hi != AtMost(0) && Numbered(b, n)
    requires i <= j <= |t| && M(Lower(Bound(b, 0, hi)) + ys, t, i, j)
    ensures k == EndCounted(b, 0, hi, C, t, i, j) && Taken(Bound(b, 0, hi), n, ys, C, t, i, j, k, pm, pm')
    decreases b, 2, 0, if hi.AtMost? then hi.n + 1 else 2
  {
    var f := Bound(b, 1, hi);
    var x := Choice(Lower(f), [], []);
    assert Lower(Bound(b, 0, hi)) == [x] == Lower(Opt(f));
    ItemTaken(Opt(f), x, ys, t, i, j, pm);
    k := Longest(Opt(f), C, t, i, j);
    LowerIs(f, t, i, k);
    pm' := Inner(x, t, i, k, pm);
    if M(Lower(f), t, i, k) {
      assert Lower(f) + [] == Lower(f);
      AfterNothing(t, k);
      var _, _ := CountedTaken(b, 1, hi, n, [], t, i, k, pm, iset{k});
    }
  }

  /** The items of the first copy and of those after it. */
  lemma {:induction false} CopiesLowered(b: Ere, lo: nat, hi: Limit, first: Ere, rest: Ere)
    requires Ok(Bound(b, lo, hi)) && lo >= 1 && hi != AtMost(1) && !(lo == 1 && hi.Unlimited?)
    requires first == (if lo == 1 then Opt(b) else b) && rest == Bound(b, if lo == 1 then 1 else lo - 1, Less(hi))
    ensures Ok(first) && Ok(rest) && Lower(Bound(b, lo, hi)) == Lower(first) + Lower(rest)
  {
  }

  lemma NotedCopies(pm: seq<Span>, pm1: seq<Span>, pm': seq<Span>, b: Ere, lo: nat, hi: Limit, first: Ere, rest: Ere,
                    n: nat, C: Places, t: seq<char>, i: int, m: int, j: int)
    requires lo >= 1 && hi != AtMost(1) && !(lo == 1 && hi.Unlimited?) && (hi.AtMost? ==> lo <= hi.n)
    requires first == (if lo == 1 then Opt(b) else b) && rest == Bound(b, if lo == 1 then 1 else lo - 1, Less(hi))
    requires m == FirstCopy(b, lo, hi, C, t, i, j)
    requires Noted(pm, pm1, first, n, Before(rest, C, t), t, i, j) && Noted(pm1, pm', rest, n, C, t, m, j)
    ensures Noted(pm, pm', Bound(b, lo, hi), n, C, t, i, j)
  {
  }

  /** Several copies: the first, which may be missing if one is enough, and the others. */
  lemma {:induction false} CopiesTaken(b: Ere, lo: nat, hi: Limit, n: nat, ys: seq<Node>, t: seq<char>, i: nat, j: int,
                                       pm: seq<Span>, C: Places)
    returns (k: int, pm': seq<Span>)
    requires C == After(ys, t, j) && Ok(Bound(b, lo, hi)) && Numbered(b, n)
    requires lo >= 1 && hi != AtMost(1) && !(lo == 1 && hi.Unlimited?)
    requires i <= j <= |t| && M(Lower(Bound(b, lo, hi)) + ys, t, i, j)
    ensures k == EndCounted(b, lo, hi, C, t, i, j) && Taken(Bound(b, lo, hi), n, ys, C, t, i, j, k, pm, pm')
    decreases b, 2, 0, if hi.AtMost? then hi.n else lo, 0
  {
    var lo' := if lo == 1 then 1 else lo - 1;
    var first, rest := if lo == 1 then Opt(b) else b, Bound(b, lo', Less(hi));
    var zs := Lower(rest) + ys;
    CopiesLowered(b, lo, hi, first, rest);
    assert Lower(Bound(b, lo, hi)) + ys == Lower(first) + zs;
    AfterMore(rest, ys, t, j);
    var D, m, pm1 := Before(rest, C, t), i, pm;
    if lo == 1 {
      m, pm1 := OptTaken(b, n, zs, t, i, j, pm, D);
    } else {
      m, pm1 := TakenApart(b, n, zs, t, i, j, pm, D);
    }
    k, pm' := CountedTaken(b, lo', Less(hi), n, ys, t, m, j, pm1, C);
    NotedCopies(pm, pm1, pm', b, lo, hi, first, rest, n, C, t, i, m, j);
  }

  lemma MidTail(bs: seq<Ere>, tl: seq<Ere>)
    requires |bs| >= 3 && OkAll(bs) && tl == bs[1..]
    ensures LowerMid(bs[1..|bs| - 1]) == [Strip.Branch(Lower(tl[0]))] + LowerMid(tl[1..|tl| - 1])
  {
    var m := bs[1..|bs| - 1];
    var u := tl[1..|tl| - 1];
    assert m == [tl[0]] + u;
    assert ([tl[0]] + u)[1..] == u;
  }

  /** The first alternative that has the stretch is the one dissect takes. */
  lemma {:induction false} ChosenFirst(bs: seq<Ere>, t: seq<char>, i: nat, k: int) returns (c: nat)
    requires |bs| >= 2 && OkAll(bs) && i <= k <= |t| && LangAny(bs, t[i..k])
    ensures c < |bs| && Occurs(bs[c], t, i, k) && forall d :: 0 <= d < c ==> !Occurs(bs[d], t, i, k)
    ensures Chosen(Lower(bs[0]), LowerMid(bs[1..|bs| - 1]), Lower(bs[|bs| - 1]), t, i, k) == Lower(bs[c])
    decreases |bs|
  {
    LowerIs(bs[0], t, i, k);
    if Occurs(bs[0], t, i, k) {
      c := 0;
    } else if |bs| == 2 {
      assert bs[1..1] == [];
      assert LangAny(bs[1..], t[i..k]) && bs[1..][0] == bs[1] && !LangAny(bs[1..][1..], t[i..k]);
      c := 1;
    } else {
      var tl := bs[1..];
      MidTail(bs, tl);
      var d := ChosenFirst(tl, t, i, k);
      c := d + 1;
      assert bs[c] == tl[d];
      forall x | 0 <= x < c ensures !Occurs(bs[x], t, i, k) {
        if x > 0 { assert bs[x] == tl[x - 1]; }
      }
    }
  }

  lemma {:induction false} AnyTaken(bs: seq<Ere>, c: nat, n: nat, t: seq<char>, i: nat, k: int, pm: seq<Span>)
    returns (pm': seq<Span>)
    requires OkAll(bs) && NumberedAll(bs, n) && c < |bs| && i <= k <= |t|
    requires Occurs(bs[c], t, i, k) && forall d :: 0 <= d < c ==> !Occurs(bs[d], t, i, k)
    ensures pm' == Captures(Lower(bs[c]), t, i, k, pm)
    ensures forall g: nat :: g < |pm| ==>
      pm'[g] == if n < g <= n + GroupsAll(bs) then Or(FoundAny(bs, n, t, i, k, g), pm[g]) else pm[g]
    ensures forall g: nat :: g <= n ==> FoundAny(bs, n, t, i, k, g) == None
    decreases bs, 0, 0, 0
  {
    if c == 0 {
      LowerIs(bs[0], t, i, k);
      pm' := Alone(bs[0], n, t, i, k, pm);
    } else {
      assert !Occurs(bs[0], t, i, k);
      pm' := AnyTaken(bs[1..], c - 1, n + Groups(bs[0]), t, i, k, pm);
    }
  }

  lemma {:induction false} AltTaken(bs: seq<Ere>, n: nat, ys: seq<Node>, t: seq<char>, i: nat, j: int, pm: seq<Span>,
                                    C: Places)
    returns (k: int, pm': seq<Span>)
    requires C == After(ys, t, j) && Ok(Alt(bs)) && NumberedAll(bs, n)
    requires i <= j <= |t| && M(Lower(Alt(bs)) + ys, t, i, j)
    ensures k == End(Alt(bs), C, t, i, j) && Taken(Alt(bs), n, ys, C, t, i, j, k, pm, pm')
    decreases bs, 1, 0, 0
  {
    var f, m, l := Lower(bs[0]), LowerMid(bs[1..|bs| - 1]), Lower(bs[|bs| - 1]);
    var x := Choice(f, m, l);
    assert Lower(Alt(bs)) == [x];
    ItemTaken(Alt(bs), x, ys, t, i, j, pm);
    k := Longest(Alt(bs), C, t, i, j);
    var c := ChosenFirst(bs, t, i, k);
    ChosenInner(f, m, l, t, i, k, pm);
    pm' := AnyTaken(bs, c, n, t, i, k, pm);
  }

  lemma {:induction false} ReportAt(e: Ere, t: seq<char>, i: nat, j: nat, nmatch: nat, g: nat)
    requires Ok(e) && Numbered(e, 0) && Occurs(e, t, i, j) && 0 < g < nmatch && g <= Groups(e)
    ensures Report(Lower(e), t, i, j, nmatch, Groups(e))[g] == Or(Found(e, 0, iset{j}, t, i, j, g), Span(-1, -1))
  {
    LowerIs(e, t, i, j);
    var pm := seq(Groups(e) + 1, _ => Span(-1, -1));
    var pm' := Alone(e, 0, t, i, j, pm);
    assert pm[g] == Span(-1, -1);
  }

  /** What regexec reports of a match i..j: itself, the stretches of the subexpressions it goes
      through, and nothing for the others. */
  lemma {:induction false} ReportIs(e: Ere, t: seq<char>, i: nat, j: nat, nmatch: nat)
    requires Ok(e) && Numbered(e, 0) && Occurs(e, t, i, j)
    ensures var r := Report(Lower(e), t, i, j, nmatch, Groups(e));
            && |r| == nmatch && (nmatch > 0 ==> r[0] == Span(i, j))
            && forall g: nat :: 0 < g < nmatch ==>
                 r[g] == if g <= Groups(e) then Or(Found(e, 0, iset{j}, t, i, j, g), Span(-1, -1)) else Span(-1, -1)
  {
    forall g: nat | 0 < g < nmatch && g <= Groups(e)
      ensures Report(Lower(e), t, i, j, nmatch, Groups(e))[g] == Or(Found(e, 0, iset{j}, t, i, j, g), Span(-1, -1))
    {
      ReportAt(e, t, i, j, nmatch, g);
    }
  }

  // ----- What that amounts to -----

  /** A stretch found is a word of the subexpression, and one that every word goes through is found. */
  lemma {:induction false} FoundIs(e: Ere, n: nat, t: seq<char>, i: nat, j: nat, g: nat)
    requires Ok(e) && Numbered(e, n) && Occurs(e, t, i, j) && n < g <= n + Groups(e)
    ensures var f := Found(e, n, iset{j}, t, i, j, g);
            && (f.Some? ==> i <= f.value.so <= f.value.eo <= j && Occurs(Body(e, n, g), t, f.value.so, f.value.eo))
            && (Required(e, n, g) ==> f.Some?)
  {
    LowerIs(e, t, i, j);
    LowerSound(e, n, t, i, j);
    var pm1, pm2 := seq(g + 1, _ => Span(-1, -1)), seq(g + 1, _ => Span(-2, -2));
    var r1 := Alone(e, n, t, i, j, pm1);
    var r2 := Alone(e, n, t, i, j, pm2);
    assert pm1[g] == Span(-1, -1) && pm2[g] == Span(-2, -2);
    assert Records(Stretches(e, n, t, i, j), pm1, r1) && Records(Stretches(e, n, t, i, j), pm2, r2);
    if Required(e, n, g) {
      RequiredSure(e, n, t, g);
      assert Known(r1, g, i, j);
    }
  }

  /** A subexpression is reported as absent exactly if the match does not go through it. */
  lemma {:induction false} AbsentExactly(e: Ere, t: seq<char>, i: nat, j: nat, nmatch: nat, g: nat)
    requires Ok(e) && Numbered(e, 0) && Occurs(e, t, i, j) && 0 < g < nmatch && g <= Groups(e)
    ensures Report(Lower(e), t, i, j, nmatch, Groups(e))[g] == Span(-1, -1) <==> Found(e, 0, iset{j}, t, i, j, g).None?
  {
    ReportAt(e, t, i, j, nmatch, g);
    FoundIs(e, 0, t, i, j, g);
  }

  /** The longest word of b from p that ends at q or before. */
  ghost predicate LongestWord(b: Ere, t: seq<char>, p: int, q: int, rest: int) {
    p <= q <= rest && Occurs(b, t, p, q) && forall m :: q < m <= rest ==> !Occurs(b, t, p, m)
  }

  /** ps cuts t from i on into longest words of b, none of them empty, as far as they go. */
  ghost predicate Cuts(b: Ere, t: seq<char>, i: int, rest: int, ps: seq<int>) {
    && ps != [] && ps[0] == i
    && (forall m :: 1 <= m < |ps| ==> ps[m - 1] < ps[m] && LongestWord(b, t, ps[m - 1], ps[m], rest))
    && NoWord(b, t, ps[|ps| - 1], rest)
  }

  /** No word of b but the empty one leads on from p. */
  ghost predicate NoWord(b: Ere, t: seq<char>, p: int, rest: int) {
    forall q :: p < q <= rest ==> !Occurs(b, t, p, q)
  }

  /** The last word is the last one cut off; or the empty one there, if b has it. */
  lemma {:induction false} LastWordIs(b: Ere, t: seq<char>, before: int, i: nat, rest: nat) returns (ps: seq<int>)
    requires i <= rest <= |t|
    ensures Cuts(b, t, i, rest, ps)
    ensures var p := ps[|ps| - 1];
            LastWord(b, t, before, i, rest) ==
              if Occurs(b, t, p, p) then (p, p) else if |ps| == 1 then (before, p) else (ps[|ps| - 2], p)
    decreases rest - i
  {
    var k := Longest(b, ANYWHERE, t, i, rest);
    LongestIs(b, ANYWHERE, t, i, rest);
    if k > i {
      var qs := LastWordIs(b, t, i, k, rest);
      ps := [i] + qs;
      forall m | 1 <= m < |ps| ensures ps[m - 1] < ps[m] && LongestWord(b, t, ps[m - 1], ps[m], rest) {
        if m > 1 { assert qs[m - 1] == ps[m] && qs[m - 2] == ps[m - 1]; }
      }
    } else {
      ps := [i];
    }
  }

  /** A repetition that may be missing, but has a stretch that is not empty, reports what every
      word of its body goes through: within the last of the words that longest words lead to. */
  lemma {:induction false} StarGone(b: Ere, n: nat, C: Places, t: seq<char>, i: nat, k: nat, j: nat, g: nat)
    requires Ok(b) && Numbered(b, n) && n < g <= n + Groups(b) && i <= j <= |t|
    requires k == Longest(Star(b), C, t, i, j) && (i < k || Occurs(b, t, i, i))
    ensures var (a, z) := LastWord(b, t, i, i, k); var f := Found(Star(b), n, C, t, i, j, g);
            && i <= a <= z <= k && Occurs(b, t, a, z) && f == Found(b, n, iset{z}, t, a, z, g)
            && (Required(b, n, g) ==> f.Some?)
  {
    LongestIs(Star(b), C, t, i, j);
    MoreOccurs(b, t, i, k);
    LowerIs(More(b), t, i, k);
    MSingle(Plus(Lower(b)), t, i, k);
    LastPassIsWord(b, t, i, i, k);
    PlusLastPass(Lower(b), t, i, k);
    var (a, z) := LastWord(b, t, i, i, k);
    LowerIs(b, t, a, z);
    FoundIs(b, n, t, a, z, g);
  }

  lemma {:induction false} MoreOccurs(b: Ere, t: seq<char>, i: nat, k: nat)
    requires Occurs(Star(b), t, i, k) && (i < k || Occurs(b, t, i, i))
    ensures Occurs(More(b), t, i, k)
  {
    var w := t[i..k];
    assert Lang(Star(b), w);
    var n: nat :| Power(b, n, w);
    if n == 0 {
      assert w[..0] == [] && w[0..] == w == t[i..i];
      assert Power(b, 0, w[..0]) && Lang(b, w[0..]);
      assert Power(b, 1, w);
    }
  }

  lemma {:induction false} OptionGone(b: Ere, n: nat, C: Places, t: seq<char>, i: nat, k: nat, j: nat, g: nat)
    requires Ok(b) && Numbered(b, n) && n < g <= n + Groups(b) && i <= j <= |t|
    requires k == Longest(Opt(b), C, t, i, j) && (i < k || Occurs(b, t, i, i))
    ensures var f := Found(Opt(b), n, C, t, i, j, g);
            f == Found(b, n, iset{k}, t, i, k, g) && (Required(b, n, g) ==> f.Some?)
  {
    LongestIs(Opt(b), C, t, i, j);
    FoundIs(b, n, t, i, k, g);
  }

  /** Copies all of which may be missing, but that have a stretch that is not empty. */
  lemma {:induction false} CopiesGone(b: Ere, hi: Limit, n: nat, C: Places, t: seq<char>, i: nat, k: nat, j: nat,
                                      g: nat)
    requires Ok(Bound(b, 0, hi)) && Numbered(b, n) && n < g <= n + Groups(b) && i <= j <= |t| && Required(b, n, g)
    requires k == End(Bound(b, 0, hi), C, t, i, j) && i < k
    ensures Found(Bound(b, 0, hi), n, C, t, i, j, g).Some?
  {
    var f := Bound(b, 1, hi);
    assert k == EndCounted(b, 0, hi, C, t, i, j) == Longest(Opt(f), C, t, i, j);
    LongestIs(Opt(f), C, t, i, j);
    FoundIs(f, n, t, i, k, g);
  }

  /** Of a choice, the first alternative that has the stretch reports, and no other. */
  lemma {:induction false} ChoiceGone(bs: seq<Ere>, c: nat, n: nat, t: seq<char>, i: nat, k: nat, g: nat)
    requires OkAll(bs) && NumberedAll(bs, n) && c < |bs| && Occurs(bs[c], t, i, k)
    requires forall d :: 0 <= d < c ==> !Occurs(bs[d], t, i, k)
    ensures var m := n + GroupsAll(bs[..c]); var f := FoundAny(bs, n, t, i, k, g);
            && f == (if m < g <= m + Groups(bs[c]) then Found(bs[c], m, iset{k}, t, i, k, g) else None)
            && (Required(bs[c], m, g) ==> f.Some?)
    decreases c
  {
    var m := n + GroupsAll(bs[..c]);
    if c == 0 {
      if Required(bs[0], n, g) { RequiredThere(bs[0], n, g); FoundIs(bs[0], n, t, i, k, g); }
    } else {
      assert bs[..c][0] == bs[0] && bs[..c][1..] == bs[1..][..c - 1];
      ChoiceGone(bs[1..], c - 1, n + Groups(bs[0]), t, i, k, g);
    }
  }

  lemma EndThere(b: Ere, n: nat, t: seq<char>, a: nat, z: nat)
    requires Ok(b) && Numbered(b, n) && Occurs(b, t, a, z)
    ensures End(b, iset{z}, t, a, z) == z
  {
    LowerIs(b, t, a, z);
    assert Lower(b) + [] == Lower(b);
    AfterNothing(t, z);
    var k, _ := TakenApart(b, n, [], t, a, z, [], iset{z});
  }

  /** What a pattern x*y reports of x: nothing exactly if x* got nothing, k being the last place
      where it can end; otherwise what the last of the longest words gives. */
  lemma {:induction false} StarReported(b: Ere, r: Ere, e: Ere, t: seq<char>, i: nat, k: nat, j: nat, nmatch: nat,
                                        g: nat)
    requires e == Cat(Cat(Eps, Star(b)), r) && Ok(e) && Numbered(e, 0) && 0 < g < nmatch && g <= Groups(b)
    requires Occurs(Star(b), t, i, k) && Occurs(r, t, k, j) && Occurs(e, t, i, j)
    requires forall m :: k < m <= j ==> !Occurs(Star(b), t, i, m) || !Occurs(r, t, m, j)
    ensures var s := Report(Lower(e), t, i, j, nmatch, Groups(e))[g]; var (a, z) := LastWord(b, t, i, i, k);
            && (i == k && !Occurs(b, t, i, i) ==> s == Span(-1, -1))
            && (i < k || Occurs(b, t, i, i) ==>
                 && i <= a <= z <= k && Occurs(b, t, a, z)
                 && (s == Span(-1, -1) || (a <= s.so <= s.eo <= z && Occurs(Body(b, 0, g), t, s.so, s.eo)))
                 && (Required(b, 0, g) ==> s != Span(-1, -1)) && (b.Group? && g == 1 ==> s == Span(a, z)))
  {
    var C, f, c := Before(r, iset{j}, t), Star(b), Cat(Eps, Star(b));
    assert Ok(c) && Ok(f) && Numbered(c, 0) && Numbered(f, 0) && Groups(c) == Groups(f) == Groups(b);
    forall m: int ensures m in C <==> Occurs(r, t, m, j) {
      if Occurs(r, t, m, j) { assert j in iset{j} && Leads(r, iset{j}, t, m); }
    }
    LongestIs(Star(b), C, t, i, j);
    assert k == Longest(Star(b), C, t, i, j);
    ReportAt(e, t, i, j, nmatch, g);
    StarFound(b, 0, C, t, i, k, j, g);
    assert Found(e, 0, iset{j}, t, i, j, g) == Found(c, 0, C, t, i, j, g) == Found(f, 0, C, t, i, j, g);
  }

  lemma {:induction false} StarFound(b: Ere, n: nat, C: Places, t: seq<char>, i: nat, k: nat, j: nat, g: nat)
    requires Ok(b) && Numbered(b, n) && n < g <= n + Groups(b) && i <= j <= |t| && k == Longest(Star(b), C, t, i, j)
    ensures var f := Found(Star(b), n, C, t, i, j, g); var (a, z) := LastWord(b, t, i, i, k);
            && (i == k && !Occurs(b, t, i, i) ==> f.None?)
            && (i < k || Occurs(b, t, i, i) ==>
                 && i <= a <= z <= k && Occurs(b, t, a, z)
                 && (f.Some? ==> a <= f.value.so <= f.value.eo <= z && Occurs(Body(b, n, g), t, f.value.so, f.value.eo))
                 && (Required(b, n, g) ==> f.Some?) && (b.Group? && g == n + 1 ==> f == Some(Span(a, z))))
  {
    if i < k || Occurs(b, t, i, i) {
      StarGone(b, n, C, t, i, k, j, g);
      var (a, z) := LastWord(b, t, i, i, k);
      FoundIs(b, n, t, a, z, g);
      if b.Group? { EndThere(b.e, n + 1, t, a, z); }
    } else {
      NothingRepeated(b, t, i);
    }
  }

  lemma {:induction false} NothingRepeated(b: Ere, t: seq<char>, i: nat)
    requires i <= |t| && !Occurs(b, t, i, i)
    ensures !Occurs(More(b), t, i, i)
  {
    var w := t[i..i];
    forall n: nat | n >= 1 ensures !Power(b, n, w) {
      assert forall k :: 0 <= k <= |w| ==> w[k..] == w;
    }
    assert !Lang(More(b), w);
  }

  /** What regexec returns for a text with a match: the stretch Reported says, which is a word of
      the expression, the longest from where it begins, and the stretches of what that goes through. */
  lemma {:induction false} OutcomeReports(e: Ere, t: seq<char>, start: nat, stop: nat, nmatch: nat, i: int, j: int)
    requires Ok(e) && Numbered(e, 0) && start <= stop <= |t| && Matches(e, t, start, stop)
    requires (i, j) == Reported(e, t, start, stop)
    ensures start <= i <= j <= stop && Occurs(e, t, i, j) && forall m :: j < m <= stop ==> !Occurs(e, t, i, m)
    ensures var o := OutcomeOf(Lower(e), t, start, stop, nmatch, Groups(e));
            && o.Matched? && |o.pmatch| == nmatch && (nmatch > 0 ==> o.pmatch[0] == Span(i, j))
            && forall g: nat :: 0 < g < nmatch ==>
                 o.pmatch[g] == if g <= Groups(e) then Or(Found(e, 0, iset{j}, t, i, j, g), Span(-1, -1))
                                else Span(-1, -1)
  {
    ReportedIsLongest(e, t, start, stop);
    OutcomeIsMatch(e, t, start, stop, nmatch);
    ReportIs(e, t, i, j, nmatch);
  }
}
