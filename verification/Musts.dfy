/** The prescreen: a literal string every match must contain
    (src/common/regcomp.cpp, findmust; src/common/regex_engine.cpp, matcher). */
module Musts {
  import opened Strip
  import opened Reach
  import opened Closure
  import opened Live

  /** The longest run of literals so far, and the one being gathered. */
  datatype Runs = Runs(best: seq<char>, run: seq<char>)

  /** Something that ends a run; of equally long ones the first is kept. */
  function Broken(r: Runs): Runs {
    Runs(if |r.run| > |r.best| then r.run else r.best, [])
  }

  /** Runs through the items xs: parentheses and the start of a repetition do not end one. */
  function Scan(xs: seq<Node>, r: Runs): Runs
    decreases xs, 0
  {
    if xs == [] then r else Scan(xs[1..], ScanNode(xs[0], r))
  }

  function ScanNode(x: Node, r: Runs): Runs
    decreases x, 0
  {
    match x
    case Char(c) => r.(run := r.run + [c])
    case LPar(_) => r
    case RPar(_) => r
    case Plus(body) => Broken(Scan(body, r))
    case _ => Broken(r)
  }

  /** The mandatory string of xs, empty if there is none. */
  function Mandatory(xs: seq<Node>): seq<char> {
    Broken(Scan(xs, Runs([], []))).best
  }

  // ----- Every match contains it -----

  predicate StandsAt(w: seq<char>, t: seq<char>, k: int) {
    0 <= k && k + |w| <= |t| && t[k..k + |w|] == w
  }

  /** w stands somewhere in t[i..j]. */
  predicate Within(w: seq<char>, t: seq<char>, i: int, j: int) {
    exists k :: i <= k && k + |w| <= j && StandsAt(w, t, k)
  }

  /** The best run is somewhere in t[i..p], the current one ends at p. */
  predicate Witnessed(r: Runs, t: seq<char>, i: int, p: int) {
    0 <= i <= p - |r.run| && p <= |t| && StandsAt(r.run, t, p - |r.run|) && Within(r.best, t, i, p)
  }

  lemma BrokenWitnessed(r: Runs, t: seq<char>, i: int, p: int, q: int)
    requires Witnessed(r, t, i, p) && p <= q <= |t|
    ensures Witnessed(Broken(r), t, i, q)
  {
    assert StandsAt([], t, q);
  }

  lemma {:induction false} ScanSound(xs: seq<Node>, r: Runs, t: seq<char>, i: int, p: int, j: int)
    requires Witnessed(r, t, i, p) && M(xs, t, p, j)
    ensures Witnessed(Scan(xs, r), t, i, j)
    decreases xs, 0
  {
    if xs != [] {
      var k := MSplit(xs, t, p, j);
      ScanNodeSound(xs[0], r, t, i, p, k);
      ScanSound(xs[1..], ScanNode(xs[0], r), t, i, k, j);
    }
  }

  lemma {:induction false} ScanNodeSound(x: Node, r: Runs, t: seq<char>, i: int, p: int, j: int)
    requires Witnessed(r, t, i, p) && MNode(x, t, p, j)
    ensures Witnessed(ScanNode(x, r), t, i, j)
    decreases x, 0
  {
    MNodeBounds(x, t, p, j);
    match x
    case Char(c) =>
      assert t[p - |r.run|..j] == t[p - |r.run|..p] + [t[p]];
    case LPar(_) =>
    case RPar(_) =>
    case Plus(body) =>
      var n: nat :| n >= 1 && MPow(body, n, t, p, j);
      var k := FirstPass(body, n, t, p, j);
      ScanSound(body, r, t, i, p, k);
      BrokenWitnessed(Scan(body, r), t, i, k, j);
    case _ => BrokenWitnessed(r, t, i, p, j);
  }

  /** Whatever xs matches contains the mandatory string of xs. */
  lemma MandatoryWithin(xs: seq<Node>, t: seq<char>, i: nat, j: nat)
    requires i <= |t| && M(xs, t, i, j)
    ensures Within(Mandatory(xs), t, i, j)
  {
    assert StandsAt([], t, i);
    assert Witnessed(Runs([], []), t, i, i);
    ScanSound(xs, Runs([], []), t, i, i, j);
    MBounds(xs, t, i, j);
    BrokenWitnessed(Scan(xs, Runs([], [])), t, i, j, j);
  }

  // ----- None longer is missed -----

  lemma {:induction false} ScanConcat(xs: seq<Node>, ys: seq<Node>, r: Runs)
    ensures Scan(xs + ys, r) == Scan(ys, Scan(xs, r))
    decreases |xs|
  {
    if xs == [] {
      assert xs + ys == ys;
    } else {
      assert (xs + ys)[0] == xs[0] && (xs + ys)[1..] == xs[1..] + ys;
      ScanConcat(xs[1..], ys, ScanNode(xs[0], r));
    }
  }

  /** Items that are literals and parentheses only. */
  predicate Plain(xs: seq<Node>) {
    forall k :: 0 <= k < |xs| ==> xs[k].Char? || xs[k].LPar? || xs[k].RPar?
  }

  /** Their literals. */
  function LiteralsOf(xs: seq<Node>): seq<char> {
    if xs == [] then [] else (if xs[0].Char? then [xs[0].c] else []) + LiteralsOf(xs[1..])
  }

  lemma {:induction false} ScanPlain(xs: seq<Node>, r: Runs)
    requires Plain(xs)
    ensures Scan(xs, r) == r.(run := r.run + LiteralsOf(xs))
    decreases |xs|
  {
    if xs != [] { ScanPlain(xs[1..], ScanNode(xs[0], r)); }
  }

  /** The runs r are no longer than those of q. */
  predicate NoLonger(r: Runs, q: Runs) {
    |r.run| <= |q.run| && |Broken(r).best| <= |Broken(q).best|
  }

  lemma {:induction false} ScanLonger(xs: seq<Node>, r: Runs, q: Runs)
    requires NoLonger(r, q)
    ensures NoLonger(Scan(xs, r), Scan(xs, q)) && |Broken(q).best| <= |Broken(Scan(xs, q)).best|
    decreases xs, 0
  {
    if xs != [] {
      if xs[0].Plus? { ScanLonger(xs[0].body, r, q); }
      ScanLonger(xs[1..], ScanNode(xs[0], r), ScanNode(xs[0], q));
    }
  }

  /** The mandatory string is as long as any run of literals that every match goes through, in xs
      or in the body of a repetition of xs; of literals and parentheses alone it is all literals. */
  lemma {:induction false} MandatoryLongest(a: seq<Node>, xs: seq<Node>, b: seq<Node>)
    ensures Plain(xs) ==> |Mandatory(a + xs + b)| >= |LiteralsOf(xs)| && Mandatory(xs) == LiteralsOf(xs)
    ensures |Mandatory(a + [Plus(xs)] + b)| >= |Mandatory(xs)|
  {
    var none := Runs([], []);
    ScanConcat(a, xs, none);
    ScanConcat(a + xs, b, none);
    ScanConcat(a, [Plus(xs)], none);
    ScanConcat(a + [Plus(xs)], b, none);
    var r := Scan(a, none);
    ScanLonger(xs, none, r);
    ScanLonger(b, Scan(xs, r), Scan(xs, r));
    ScanLonger(b, Broken(Scan(xs, r)), Broken(Scan(xs, r)));
    assert Scan([Plus(xs)], r) == Broken(Scan(xs, r)) by { assert [Plus(xs)][1..] == []; }
    if Plain(xs) {
      ScanPlain(xs, none);
      ScanPlain(xs, r);
    }
  }

  // ----- The scan over the strip -----

  /** Where the scan goes on after an OQUEST_ or OCH_ at k: at the closing O_QUEST or O_CH. */
  function SkipTo(s: seq<Sop>, k: nat): nat
    requires k < |s|
  {
    if s[k].OQUEST_? then k + s[k].n else if s[k].OCH_? then ChoiceEnd(s, k + s[k].n) else k
  }

  /** The runs of s from k on. */
  function Flat(s: seq<Sop>, k: nat, r: Runs): Runs
    decreases |s| - k
  {
    if k >= |s| || s[k].OEND? then Broken(r)
    else if s[k].OCHAR? then Flat(s, k + 1, r.(run := r.run + [s[k].c]))
    else if s[k].OPLUS_? || s[k].OLPAREN? || s[k].ORPAREN? then Flat(s, k + 1, r)
    else if (s[k].OQUEST_? || s[k].OCH_?) && k < SkipTo(s, k) then Flat(s, SkipTo(s, k), Broken(r))
    else Flat(s, k + 1, Broken(r))
  }

  lemma {:induction false} FlatCode(s: seq<Sop>, b: nat, xs: seq<Node>, r: Runs)
    requires Laid(s, b, xs)
    ensures Flat(s, b, r) == Flat(s, b + Len(xs), Scan(xs, r))
    decreases xs, 0
  {
    if xs != [] {
      FlatNode(s, b, xs[0], r);
      FlatCode(s, b + NodeLen(xs[0]), xs[1..], ScanNode(xs[0], r));
    }
  }

  lemma {:induction false} FlatNode(s: seq<Sop>, b: nat, x: Node, r: Runs)
    requires NodeLaid(s, b, x)
    ensures Flat(s, b, r) == Flat(s, b + NodeLen(x), ScanNode(x, r))
    decreases x, 0
  {
    if x.Plus? {
      FlatPlus(s, b, x.body, r);
    } else if x.Quest? {
      FlatOver(s, b, b + NodeLen(x) - 1, r);
    } else if x.Choice? {
      ChoiceSkip(s, b, x);
      FlatOver(s, b, b + NodeLen(x) - 1, r);
    }
  }

  lemma {:induction false} FlatPlus(s: seq<Sop>, b: nat, body: seq<Node>, r: Runs)
    requires Laid(s, b + 1, body) && b + 1 + Len(body) < |s| && s[b].OPLUS_? && s[b + 1 + Len(body)].O_PLUS?
    ensures Flat(s, b, r) == Flat(s, b + Len(body) + 2, Broken(Scan(body, r)))
    decreases body, 1
  {
    FlatCode(s, b + 1, body, r);
  }

  lemma {:induction false} ChoiceSkip(s: seq<Sop>, b: nat, x: Node)
    requires x.Choice? && NodeLaid(s, b, x)
    ensures s[b].OCH_? && SkipTo(s, b) == b + NodeLen(x) - 1 && s[SkipTo(s, b)].O_CH?
  {
    ChainMid(s, b + 2 + Len(x.first), x.mid);
    LastEnd(s, b + 2 + Len(x.first) + MidLen(x.mid), x.last);
  }

  lemma FlatOver(s: seq<Sop>, k: nat, e: nat, r: Runs)
    requires k < e < |s| && (s[k].OQUEST_? || s[k].OCH_?) && SkipTo(s, k) == e && (s[e].O_QUEST? || s[e].O_CH?)
    ensures Flat(s, k, r) == Flat(s, e + 1, Broken(r))
  {
    FlatBreak(s, e, Broken(r));
  }

  lemma FlatBreak(s: seq<Sop>, e: nat, r: Runs)
    requires e < |s| && (s[e].O_QUEST? || s[e].O_CH?)
    ensures Flat(s, e, r) == Flat(s, e + 1, Broken(r))
  {
  }

  /** The literals among s[a..b]. */
  function Literals(s: seq<Sop>, a: nat, b: nat): seq<char>
    requires a <= b <= |s|
  {
    if a == b then [] else Literals(s, a, b - 1) + if s[b - 1].OCHAR? then [s[b - 1].c] else []
  }

  lemma {:induction false} LiteralsGrow(s: seq<Sop>, a: nat, b: nat, c: nat)
    requires a <= b <= c <= |s|
    ensures Literals(s, a, b) <= Literals(s, a, c)
    decreases c
  {
    if b < c { LiteralsGrow(s, a, b, c - 1); }
  }

  /** Runs kept as the scan keeps them: by where they start and how long they are. */
  ghost predicate Kept(s: seq<Sop>, scan: nat, r: Runs, mlen: nat, start: nat, newlen: nat, newstart: nat)
    requires scan <= |s|
  {
    && mlen == |r.best| && newlen == |r.run|
    && (newlen > 0 ==> newstart <= scan && r.run == Literals(s, newstart, scan))
    && (mlen > 0 ==> start <= scan && r.best <= Literals(s, start, scan))
  }

  /** The scan stands at scan; what it comes to is what the whole strip comes to. */
  lemma KeptBroken(s: seq<Sop>, scan: nat, to: nat, r: Runs, mlen: nat, start: nat, newlen: nat, newstart: nat)
    requires scan <= to <= |s| && Kept(s, scan, r, mlen, start, newlen, newstart)
    ensures var longer := newlen > mlen;
            Kept(s, to, Broken(r), if longer then newlen else mlen, if longer then newstart else start, 0, newstart)
  {
    if newlen > 0 { LiteralsGrow(s, newstart, scan, to); }
    if mlen > 0 { LiteralsGrow(s, start, scan, to); }
  }

  lemma KeptChar(s: seq<Sop>, scan: nat, r: Runs, mlen: nat, start: nat, newlen: nat, newstart: nat)
    requires scan < |s| && s[scan].OCHAR? && Kept(s, scan, r, mlen, start, newlen, newstart)
    ensures Kept(s, scan + 1, r.(run := r.run + [s[scan].c]), mlen, start, newlen + 1,
                 if newlen == 0 then scan else newstart)
  {
    assert Literals(s, scan, scan) == [];
    if mlen > 0 { LiteralsGrow(s, start, scan, scan + 1); }
  }

  lemma KeptOther(s: seq<Sop>, scan: nat, r: Runs, mlen: nat, start: nat, newlen: nat, newstart: nat)
    requires scan < |s| && !s[scan].OCHAR? && Kept(s, scan, r, mlen, start, newlen, newstart)
    ensures Kept(s, scan + 1, r, mlen, start, newlen, newstart)
  {
  }

  /** Over something optional, from its OQUEST_ or OCH_ to its O_QUEST or O_CH. */
  method Skip(s: seq<Sop>, k: nat, ghost end: nat) returns (scan: nat)
    requires 1 <= k < end <= |s| && AllPaired(s, 1, end) && (s[k].OQUEST_? || s[k].OCH_?)
    ensures scan == SkipTo(s, k) && k < scan < end
  {
    assert k in Pairs(s, 1, end);
    scan := k + Opnd(s[k]);
    while !s[scan].O_QUEST? && !s[scan].O_CH?
      invariant k < scan < end
      invariant s[k].OQUEST_? ==> s[scan].O_QUEST? && scan == SkipTo(s, k)
      invariant s[k].OCH_? ==> (s[scan].OOR2? || s[scan].O_CH?) && ChoiceEnd(s, scan) == SkipTo(s, k)
      decreases end - scan
    {
      assert scan in Pairs(s, 1, end);
      scan := scan + Opnd(s[scan]);
    }
  }

  /** The mlen literals from start on. */
  method Collect(s: seq<Sop>, start: nat, mlen: nat, ghost best: seq<char>) returns (must: seq<char>)
    requires start <= |s| && mlen == |best| && best <= Literals(s, start, |s|)
    ensures must == best
  {
    must := [];
    var scan, i := start, mlen;
    while i > 0
      invariant start <= scan <= |s| && i + |must| == mlen
      invariant must == Literals(s, start, scan) && must <= best
      decreases i
    {
      LiteralsEnd(s, start, scan, best);
      while !s[scan].OCHAR?
        invariant start <= scan < |s| && must == Literals(s, start, scan)
        decreases |s| - scan
      {
        scan := scan + 1;
        LiteralsEnd(s, start, scan, best);
      }
      LiteralsGrow(s, start, scan + 1, |s|);
      must := must + [s[scan].c];
      scan := scan + 1;
      i := i - 1;
    }
  }

  lemma LiteralsEnd(s: seq<Sop>, start: nat, scan: nat, best: seq<char>)
    requires start <= scan <= |s| && best <= Literals(s, start, |s|) && |Literals(s, start, scan)| < |best|
    ensures scan < |s|
  {
  }

  /** findmust: the longest literal string every match must contain. */
  method FindMust(s: seq<Sop>, ghost xs: seq<Node>) returns (must: seq<char>)
    requires s == [OEND] + Code(xs) + [OEND]
    ensures must == Mandatory(xs)
  {
    ghost var end, r := |s| - 1, Runs([], []);
    StripLaid(s, xs);
    StripScanned(s, xs);
    var scan: nat, mlen: nat, start: nat, newlen: nat, newstart: nat := 1, 0, 0, 0, 0;
    while s[scan] != OEND
      invariant 1 <= scan <= end && Broken(Scan(xs, Runs([], []))) == Flat(s, scan, r)
      invariant Kept(s, scan, r, mlen, start, newlen, newstart)
      decreases end - scan
    {
      assert scan < end;
      if s[scan].OCHAR? {
        KeptChar(s, scan, r, mlen, start, newlen, newstart);
        if newlen == 0 { newstart := scan; }
        newlen := newlen + 1;
        r := r.(run := r.run + [s[scan].c]);
        scan := scan + 1;
      } else if s[scan].OPLUS_? || s[scan].OLPAREN? || s[scan].ORPAREN? {
        KeptOther(s, scan, r, mlen, start, newlen, newstart);
        scan := scan + 1;
      } else {
        var to := scan + 1;
        if s[scan].OQUEST_? || s[scan].OCH_? { to := Skip(s, scan, end); }
        KeptBroken(s, scan, to, r, mlen, start, newlen, newstart);
        if newlen > mlen { start, mlen := newstart, newlen; }
        newlen := 0;
        r := Broken(r);
        scan := to;
      }
    }
    KeptBroken(s, scan, |s|, r, mlen, start, newlen, newstart);
    if newlen > mlen { start, mlen := newstart, newlen; }
    must := [];
    if mlen > 0 { must := Collect(s, start, mlen, Mandatory(xs)); }
  }

  lemma StripLaid(s: seq<Sop>, xs: seq<Node>)
    requires s == [OEND] + Code(xs) + [OEND]
    ensures |s| == Len(xs) + 2 && s[|s| - 1] == OEND && Laid(s, 1, xs)
  {
    CodeLen(xs);
    assert Holds(s, 1, Code(xs));
    CodeLaid(s, 1, xs);
  }

  /** The OEND after the code is the first one after the strip's start. */
  lemma StripScanned(s: seq<Sop>, xs: seq<Node>)
    requires |s| == Len(xs) + 2 && s[|s| - 1] == OEND && Laid(s, 1, xs)
    ensures AllPaired(s, 1, |s| - 1)
    ensures forall k :: 1 <= k < |s| - 1 ==> s[k] != OEND
    ensures Flat(s, 1, Runs([], [])) == Broken(Scan(xs, Runs([], [])))
  {
    CodePaired(s, 1, xs);
    forall k | 1 <= k < |s| - 1 ensures s[k] != OEND {
      assert k in Pairs(s, 1, |s| - 1);
    }
    FlatCode(s, 1, xs, Runs([], []));
  }
}
