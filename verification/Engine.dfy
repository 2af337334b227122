/** The matching engine (src/common/regex_engine.cpp): slow, fast, dissect and matcher. */
module Engine {
  import opened Strip
  import opened Reach
  import opened Closure
  import opened Live
  import opened Search
  import opened StateSets
  import opened Stepping
  import opened Capturing
  import opened Wrappers

  /** What the operator a node begins with tells about the node. */
  lemma {:induction false} FirstOp(s: seq<Sop>, b: nat, x: Node)
    requires NodeLaid(s, b, x)
    ensures s[b].OPLUS_? <==> x.Plus?
    ensures s[b].OQUEST_? <==> x.Quest?
    ensures s[b].OCH_? <==> x.Choice?
    ensures x.Plus? || x.Quest? ==> s[b].n == NodeLen(x) - 1
    ensures x.Choice? ==> s[b].n == Len(x.first) + 2
    ensures !x.Plus? && !x.Quest? && !x.Choice? ==> NodeLen(x) == 1
  {
  }

  lemma {:induction false} ChoiceEndAhead(s: seq<Sop>, q: nat)
    ensures ChoiceEnd(s, q) >= q
    decreases |s| - q
  {
    if q < |s| && s[q].OOR2? && s[q].n > 0 { ChoiceEndAhead(s, q + s[q].n); }
  }

  /** cold is the last position up to p at which the live states were a fresh start's. */
  ghost predicate Cold(xs: seq<Node>, startst: nat, str: seq<char>, start: int, cold: int, p: int) {
    && start <= cold <= p
    && LiveSet(xs, startst, str, start, cold, cold) == Fresh(xs, startst)
    && forall q :: cold < q <= p ==> LiveSet(xs, startst, str, start, q, q) != Fresh(xs, startst)
  }

  // ----- A compiled expression, and a match in progress -----

  datatype Guts = Guts(strip: seq<Sop>, firststate: nat, laststate: nat, must: seq<char>, nsub: nat)

  /** Which characters make up words, and what counts as a line's edge. */
  datatype Flags = Flags(isword: char -> bool, newline: bool, notbol: bool, noteol: bool)

  class Match {
    const g: Guts
    const str: seq<char>
    const beginp: nat
    const endp: nat
    const flags: Flags
    const small: bool
    var coldp: int
    var pmatch: seq<Span>

    ghost predicate Ready()
    {
      && beginp <= endp <= |str|
      && (small ==> |g.strip| <= 64)
    }

    /** The stretch startst..stopst of the strip is the code of xs. */
    ghost predicate Range(startst: nat, stopst: nat, xs: seq<Node>)
    {
      && 1 <= startst && stopst == startst + Len(xs) < |g.strip|
      && Laid(g.strip, startst, xs)
    }

    constructor (g: Guts, str: seq<char>, beginp: nat, endp: nat, flags: Flags, small: bool)
      requires beginp <= endp <= |str| && (small ==> |g.strip| <= 64)
      ensures this.g == g && this.str == str && this.beginp == beginp && this.endp == endp
      ensures this.flags == flags && this.small == small && Ready()
      ensures pmatch == []
    {
      this.g, this.str, this.beginp, this.endp, this.flags, this.small := g, str, beginp, endp, flags, small;
      coldp, pmatch := NULL, [];
    }

    /** A cleared set of states. */
    function Setup(): (st: States)
      ensures Bits(st) == {} && Size(st) == (if small then 64 else |g.strip|) && st.Small? == small
    {
      if small then Clear(Small(Zero())) else Clear(Large(seq(|g.strip|, _ => false)))
    }

    function CharAt(p: nat): Option<char>
      requires p < |str| || p == endp
    {
      if p == endp then None else Some(str[p])
    }

    function Before(p: nat): Option<char>
      requires p <= |str|
    {
      if p == beginp || p == 0 then None else Some(str[p - 1])
    }

    /** The kind of boundary between lastc and c, if any (no anchors: lines' edges only
        matter as edges of words). */
    function Boundary(lastc: Option<char>, c: Option<char>): Input {
      var bol := (lastc == Some('\n') && flags.newline) || (lastc.None? && !flags.notbol);
      var eol := (c == Some('\n') && flags.newline) || (c.None? && !flags.noteol);
      var bow := ((bol && !eol) || (lastc.Some? && !flags.isword(lastc.value))) && c.Some? && flags.isword(c.value);
      var eow := lastc.Some? && flags.isword(lastc.value) &&
                 ((eol && !bol && !bow) || (c.Some? && !flags.isword(c.value)));
      if eow then EOW else if bow then BOW else NOTHING
    }

    /** With the states live at p, of matches begun at i0 to i1, the word engine does not get
        through its step. */
    ghost predicate Jams(xs: seq<Node>, startst: nat, i0: int, i1: int, p: int)
      requires startst + Len(xs) <= |g.strip|
    {
      small && Far(g.strip, startst, startst + Len(xs), LiveSet(xs, startst, str, i0, i1, p))
    }

    /** Stepping over a word boundary changes nothing in a strip without anchors. */
    method Cross(st: States, lastc: Option<char>, c: Option<char>, startst: nat, stopst: nat, ghost xs: seq<Node>)
      returns (r: States)
      requires Ready() && Range(startst, stopst, xs) && Alike(st, Setup())
      requires Closed(g.strip, startst, stopst, Bits(st)) && (small ==> !Far(g.strip, startst, stopst, Bits(st)))
      ensures Alike(r, Setup()) && Bits(r) == Bits(st)
    {
      r := st;
      var flagch := Boundary(lastc, c);
      if flagch != NOTHING {
        CodePaired(g.strip, startst, xs);
        var stepped := Step(g.strip, startst, stopst, st, flagch, st);
        assert Base(g.strip, startst, stopst, Bits(st), flagch, Bits(st)) == Bits(st);
        assert Least(g.strip, startst, stopst, Bits(st), Bits(st));
        r := stepped.value;
      }
    }

    /** The set of states of a fresh start. */
    method Start(startst: nat, stopst: nat, ghost xs: seq<Node>) returns (r: Course<States>)
      requires Ready() && Range(startst, stopst, xs)
      ensures r.Returned? ==> Alike(r.value, Setup()) && Bits(r.value) == Fresh(xs, startst)
      ensures r.Endless? <==> small && Far(g.strip, startst, stopst, Fresh(xs, startst))
    {
      CodePaired(g.strip, startst, xs);
      var st := Set1(Setup(), startst);
      assert Base(g.strip, startst, stopst, Bits(st), NOTHING, Bits(st)) == {startst};
      r := Step(g.strip, startst, stopst, st, NOTHING, st);
      FreshAnywhere(g.strip, startst, xs, [], 0);
    }

    /** Reading str[p] from the states st, onto seed: nothing for slow, a fresh start for fast. */
    method ReadOn(st: States, seed: States, p: nat, startst: nat, stopst: nat, ghost xs: seq<Node>, ghost i0: int)
      returns (r: Course<States>)
      requires Ready() && Range(startst, stopst, xs) && Alike(st, Setup()) && Alike(seed, Setup()) && p < endp
      requires 0 <= i0 <= p
      requires Bits(seed) == {} || Bits(seed) == Fresh(xs, startst)
      requires Bits(st) == LiveSet(xs, startst, str, i0, if Bits(seed) == {} then i0 else p, p)
      ensures r.Returned? ==> Alike(r.value, Setup())
      ensures r.Returned? ==>
        Bits(r.value) == LiveSet(xs, startst, str, i0, if Bits(seed) == {} then i0 else p + 1, p + 1)
      ensures r.Returned? && Bits(seed) != {} ==>
        forall k :: 0 <= k <= p && Bits(st) == LiveSet(xs, startst, str, k, p, p) ==>
          Bits(r.value) == LiveSet(xs, startst, str, k, p + 1, p + 1)
      ensures r.Endless? <==> Jams(xs, startst, i0, if Bits(seed) == {} then i0 else p + 1, p + 1)
    {
      var s := g.strip;
      CodePaired(s, startst, xs);
      r := Step(s, startst, stopst, st, Chr(str[p]), seed);
      ghost var base := Bits(seed) + Eaten(s, startst, stopst, Bits(st), str[p]);
      assert Base(s, startst, stopst, Bits(st), Chr(str[p]), Bits(seed)) == base;
      if Bits(seed) == {} {
        StepLeast(s, startst, xs, str, i0, i0, i0, p, {});
      } else {
        forall k | 0 <= k <= p && Bits(st) == LiveSet(xs, startst, str, k, p, p)
          ensures Least(s, startst, stopst, base, LiveSet(xs, startst, str, k, p + 1, p + 1))
        {
          StepLeast(s, startst, xs, str, k, p, p + 1, p, Bits(seed));
        }
      }
    }

    /** slow: the longest match from start that ends by stop.  It does not return exactly if on
        its way the word engine jams. */
    method Slow(start: nat, stop: nat, startst: nat, stopst: nat, ghost xs: seq<Node>) returns (r: Course<int>)
      requires Ready() && beginp <= start <= stop <= endp && Range(startst, stopst, xs)
      ensures r.Returned? ==> r.value == MaxEnd(xs, str, start, stop)
      ensures r.Endless? <==> exists p :: start <= p <= stop && Jams(xs, startst, start, start, p)
    {
      var begun := Start(startst, stopst, xs);
      FreshAnywhere(g.strip, startst, xs, str, start);
      if begun.Endless? {
        assert Jams(xs, startst, start, start, start);
        return Endless;
      }
      var st := begun.value;
      var empty := Setup();
      var matchp := NULL;
      var p, c := start, Before(start);
      while true
        invariant start <= p <= stop && Alike(st, Setup())
        invariant Bits(st) == LiveSet(xs, startst, str, start, start, p)
        invariant matchp == MaxEnd(xs, str, start, p - 1)
        invariant forall q :: start <= q <= p ==> !Jams(xs, startst, start, start, q)
        decreases stop - p
      {
        var lastc := c;
        c := CharAt(p);
        LiveClosed(g.strip, startst, xs, str, start, start, p);
        assert !Jams(xs, startst, start, start, p);
        st := Cross(st, lastc, c, startst, stopst, xs);
        EndLive(xs, startst, str, start, start, p);
        if IsSet(st, stopst) { matchp := p; }
        if Eq(st, empty) || p == stop { break; }
        var tmp := st;
        var read := ReadOn(tmp, empty, p, startst, stopst, xs, start);
        if read.Endless? { return Endless; }
        st := read.value;
        p := p + 1;
      }
      if p < stop { NoLater(startst, xs, start, p, stop); }
      r := Returned(matchp);
    }

    /** With no state live at p, the longest match has ended by then, and no state is live later. */
    lemma NoLater(startst: nat, xs: seq<Node>, start: nat, p: nat, stop: nat)
      requires Ready() && Range(startst, startst + Len(xs), xs) && start <= p <= stop <= endp
      requires LiveSet(xs, startst, str, start, start, p) == {}
      ensures MaxEnd(xs, str, start, stop) == MaxEnd(xs, str, start, p)
      ensures forall q :: p <= q <= stop ==> LiveSet(xs, startst, str, start, start, q) == {}
      decreases stop
    {
      if p < stop {
        DeadLive(g.strip, startst, xs, str, start, p, stop);
        NoLater(startst, xs, start, p, stop - 1);
        StepLeast(g.strip, startst, xs, str, start, start, start, stop - 1, {});
        assert Least(g.strip, startst, startst + Len(xs), {}, LiveSet(xs, startst, str, start, start, stop));
        assert LiveSet(xs, startst, str, start, start, stop) <= {};
      }
    }

    /** What fast does at p before it reads: it notes whether the start is as good as fresh, and
        crosses the boundary before the next character. */
    method Arrive(st0: States, anew: States, start: nat, p: nat, cold0: int, lastc: Option<char>, c: Option<char>,
                  startst: nat, stopst: nat, ghost xs: seq<Node>)
      returns (st: States, cold: int)
      requires Ready() && Range(startst, stopst, xs) && beginp <= start <= p <= endp
      requires Alike(st0, Setup()) && Alike(anew, Setup()) && Bits(anew) == Fresh(xs, startst)
      requires Bits(st0) == LiveSet(xs, startst, str, start, p, p) && !Jams(xs, startst, start, p, p)
      requires if cold0 == NULL then p == start
               else Cold(xs, startst, str, start, cold0, p - 1) && Bits(st0) == LiveSet(xs, startst, str, cold0, p, p)
      ensures Alike(st, Setup()) && Bits(st) == Bits(st0) && startst in Bits(anew)
      ensures Cold(xs, startst, str, start, cold, p) && Bits(st) == LiveSet(xs, startst, str, cold, p, p)
      ensures stopst in Bits(st) <==> Ends(xs, str, start, p, p)
      ensures stopst in Bits(st) <==> Ends(xs, str, cold, p, p)
    {
      FreshAnywhere(g.strip, startst, xs, str, p);
      AtStart(xs, startst, str, p);
      cold := if Eq(st0, anew) then p else cold0;
      LiveClosed(g.strip, startst, xs, str, start, p, p);
      st := Cross(st0, lastc, c, startst, stopst, xs);
      EndLive(xs, startst, str, start, p, p);
      EndLive(xs, startst, str, cold, p, p);
    }

    /** fast: is there a match between start and stop?  The result is one past the earliest
        end of a match, NULL if there is none; coldp becomes the last position, up to that
        end, at which the live states were those of a fresh start.  It does not return exactly
        if by then the word engine jams. */
    method Fast(start: nat, stop: nat, startst: nat, stopst: nat, ghost xs: seq<Node>) returns (r: Course<int>)
      requires Ready() && beginp <= start <= stop <= endp && Range(startst, stopst, xs)
      modifies this`coldp
      ensures r.Returned? && r.value != NULL ==>
        start < r.value <= stop + 1 && Ends(xs, str, coldp, r.value - 1, r.value - 1)
      ensures r.Returned? ==>
        forall e :: start <= e <= stop && (r.value == NULL || e < r.value - 1) ==> !Ends(xs, str, start, e, e)
      ensures r.Returned? ==> Cold(xs, startst, str, start, coldp, if r.value == NULL then stop else r.value - 1)
      ensures r.Returned? ==>
        forall p :: start <= p <= (if r.value == NULL then stop else r.value - 1) ==> !Jams(xs, startst, start, p, p)
      ensures r.Endless? ==> exists p :: start <= p <= stop && Jams(xs, startst, start, p, p) &&
                                         forall e :: start <= e < p ==> !Ends(xs, str, start, e, e)
    {
      var begun := Start(startst, stopst, xs);
      FreshAnywhere(g.strip, startst, xs, str, start);
      if begun.Endless? {
        assert Jams(xs, startst, start, start, start);
        return Endless;
      }
      var st := begun.value;
      var anew := st;
      var cold: int := NULL;
      var p, c := start, Before(start);
      while true
        invariant start <= p <= stop && Alike(st, Setup()) && Alike(anew, Setup())
        invariant Bits(anew) == Fresh(xs, startst)
        invariant Bits(st) == LiveSet(xs, startst, str, start, p, p)
        invariant cold == NULL ==> p == start
        invariant cold != NULL ==>
          Cold(xs, startst, str, start, cold, p - 1) && Bits(st) == LiveSet(xs, startst, str, cold, p, p)
        invariant forall e :: start <= e < p ==> !Ends(xs, str, start, e, e)
        invariant forall q :: start <= q <= p ==> !Jams(xs, startst, start, q, q)
        decreases stop - p
      {
        var lastc := c;
        c := CharAt(p);
        st, cold := Arrive(st, anew, start, p, cold, lastc, c, startst, stopst, xs);
        if IsSet(st, stopst) || p == stop { break; }
        var tmp := st;
        st := anew;
        var read := ReadOn(tmp, st, p, startst, stopst, xs, start);
        if read.Endless? { return Endless; }
        st := read.value;
        p := p + 1;
      }
      coldp := cold;
      r := Returned(if IsSet(st, stopst) then p + 1 else NULL);
    }

    // ----- Taking a match apart -----

    /** What the engine has been through without jamming: sets of states that follow the text. */
    ghost predicate Quiet(r: Family) {
      && r.s == g.strip && r.t == str
      && (small ==> forall k :: 0 <= k < |r.F| ==> !Far(r.s, r.lo, r.hi, r.F[k]))
    }

    /** The stretch startst..stopst of the strip was gone through from p on, up to stop at least. */
    ghost predicate Passed(r: Family, startst: nat, stopst: nat, p: nat, stop: nat) {
      Quiet(r) && r.lo <= startst && stopst <= r.hi && p <= stop < |r.F| && startst in r.F[p]
    }

    lemma {:induction false} Unjammed(r: Family, startst: nat, stopst: nat, xs: seq<Node>, start: nat, stop: nat,
                                      p: nat)
      requires Range(startst, stopst, xs) && Passed(r, startst, stopst, start, stop) && start <= p <= stop
      ensures !Jams(xs, startst, start, start, p)
    {
      var L := LiveSet(xs, startst, str, start, start, p);
      forall pc | pc in L ensures pc in r.F[p] {
        assert At(xs, startst, pc, str, start, p);
        AtIn(r, startst, xs, pc, start, p);
      }
      if Far(g.strip, startst, stopst, L) {
        var q :| startst <= q < stopst && FarAt(g.strip, q, L);
        assert FarAt(g.strip, q, r.F[p]);
      }
    }

    /** slow, over ground that was gone through before. */
    method SlowAgain(start: nat, stop: nat, startst: nat, stopst: nat, ghost xs: seq<Node>, ghost r: Family)
      returns (matchp: int)
      requires Ready() && beginp <= start <= stop <= endp && Range(startst, stopst, xs)
      requires Passed(r, startst, stopst, start, stop)
      ensures matchp == MaxEnd(xs, str, start, stop)
    {
      var found := Slow(start, stop, startst, stopst, xs);
      forall p | start <= p <= stop ensures !Jams(xs, startst, start, start, p) {
        Unjammed(r, startst, stopst, xs, start, stop, p);
      }
      matchp := found.value;
    }

    /** Having matched x, the engine is past it. */
    lemma {:induction false} PassedOn(r: Family, ss: nat, es: nat, x: Node, sp: nat, rest: nat, stop: nat)
      requires 1 <= ss && es == ss + NodeLen(x) && NodeLaid(g.strip, ss, x)
      requires Passed(r, ss, es, sp, stop) && sp <= rest <= stop && MNode(x, str, sp, rest)
      ensures es in r.F[rest]
    {
      NodeIn(r, ss, x, es, sp, rest);
    }

    /** One past the end of the subexpression that starts at ss. */
    method EndOf(ss: nat, stopst: nat, ghost xs: seq<Node>) returns (es: nat)
      requires xs != [] && Range(ss, stopst, xs)
      ensures es == ss + NodeLen(xs[0])
    {
      FirstOp(g.strip, ss, xs[0]);
      es := ss;
      match g.strip[es] {
        case OPLUS_(n) => es := es + n;
        case OQUEST_(n) => es := es + n;
        case OCH_(_) => es := ChoiceEndOf(ss, xs[0].first, xs[0].mid, xs[0].last);
        case _ =>
      }
      es := es + 1;
    }

    method ChoiceEndOf(ss: nat, ghost f: seq<Node>, ghost m: seq<Branch>, ghost l: seq<Node>) returns (es: nat)
      requires NodeLaid(g.strip, ss, Choice(f, m, l))
      ensures es == ss + NodeLen(Choice(f, m, l)) - 1
    {
      ghost var c, u := ss + 2 + Len(f), ss + 2 + Len(f) + MidLen(m);
      ghost var end := u + 1 + Len(l);
      ChainMid(g.strip, c, m);
      LastEnd(g.strip, u, l);
      ghost var s := g.strip;
      es := ss + Opnd(g.strip[ss]);
      while !g.strip[es].O_CH?
        invariant c <= es <= end && ChoiceEnd(s, es) == end
        decreases end - es
      {
        es := es + Opnd(g.strip[es]);
        ChoiceEndAhead(s, es);
      }
    }

    /** How much of sp..stop the subexpression ss..es can take so that what follows, es..stopst,
        still matches the rest: as much as possible. */
    method ShareOf(sp: nat, stop: nat, ss: nat, es: nat, stopst: nat, ghost x: Node, ghost tl: seq<Node>,
                   ghost f: Family)
      returns (rest: nat)
      requires Ready() && beginp <= sp <= stop <= endp && Range(ss, es, [x]) && Range(es, stopst, tl)
      requires Passed(f, ss, stopst, sp, stop)
      requires M([x] + tl, str, sp, stop)
      ensures sp <= rest <= stop && rest == Share(x, tl, str, sp, stop, stop)
      ensures MNode(x, str, sp, rest) && M(tl, str, rest, stop) && es in f.F[rest]
    {
      LenSingle(x);
      MUnfold(x, tl, str, sp, stop);
      ghost var k0 :| sp <= k0 <= stop && MNode(x, str, sp, k0) && M(tl, str, k0, stop);
      ShareIs(x, tl, str, sp, stop, stop);
      var stp := stop;
      while true
        invariant sp <= stp <= stop
        invariant Share(x, tl, str, sp, stop, stop) <= stp
        decreases stp
      {
        var r := SlowAgain(sp, stp, ss, es, [x], f);
        ghost var w := Share(x, tl, str, sp, stop, stop);
        MaxEndIs([x], str, sp, stp);
        MSingle(x, str, sp, w);
        assert w <= r <= stp;
        rest := r;
        MSingle(x, str, sp, rest);
        PassedOn(f, ss, es, x, sp, rest, stop);
        var tail := SlowAgain(rest, stop, es, stopst, tl, f);
        MaxEndIs(tl, str, rest, stop);
        if tail == stop { break; }
        assert rest != w;
        stp := rest - 1;
      }
    }

    /** Goes through a repetition's share by longest matches of its body; the last pass. */
    method LastPassOf(sp: nat, rest: nat, ssub: nat, esub: nat, ghost body: seq<Node>, ghost f: Family)
      returns (ssp: nat, sep: nat)
      requires Ready() && beginp <= sp <= rest <= endp && Range(ssub, esub, body)
      requires 1 < ssub && NodeLaid(g.strip, ssub - 1, Plus(body))
      requires MNode(Plus(body), str, sp, rest) && Passed(f, ssub - 1, esub + 1, sp, rest)
      ensures (ssp, sep) == LastPass(body, str, sp, sp, rest)
      ensures sp <= ssp <= sep <= rest && M(body, str, ssp, sep) && ssub in f.F[ssp]
    {
      PlusLastPass(body, str, sp, rest);
      StepIn(f, ssub - 1, sp);
      ssp := sp;
      var oldssp := ssp;
      var end: int;
      while true
        invariant sp <= oldssp <= ssp <= rest && ssub in f.F[ssp] && ssub in f.F[oldssp]
        invariant LastPass(body, str, oldssp, ssp, rest) == LastPass(body, str, sp, sp, rest)
        decreases rest - ssp
      {
        end := SlowAgain(ssp, rest, ssub, esub, body, f);
        MaxEndIs(body, str, ssp, rest);
        if end == NULL || end == ssp { break; }
        RoundAgain(ssub, esub, body, f, ssp, end);
        oldssp := ssp;
        ssp := end;
      }
      if end == NULL {
        sep := ssp;
        ssp := oldssp;
      } else {
        sep := end;
      }
    }

    /** Having gone through the body, the engine is at its start again. */
    lemma {:induction false} RoundAgain(ssub: nat, esub: nat, body: seq<Node>, f: Family, ssp: nat, end: nat)
      requires 1 < ssub && NodeLaid(g.strip, ssub - 1, Plus(body)) && Range(ssub, esub, body)
      requires Passed(f, ssub, esub, ssp, end) && f.lo < ssub && esub < f.hi && M(body, str, ssp, end)
      ensures ssub in f.F[end]
    {
      MIn(f, ssub, body, ssp, end);
      StepIn(f, esub, end);
      StepIn(f, ssub - 1, end);
    }

    /** An OOR1 at at, with the alternatives m and l after it, up to the O_CH at end. */
    ghost predicate Alternatives(at: nat, m: seq<Branch>, l: seq<Node>, end: nat) {
      && 1 <= at && at + 1 + MidLen(m) + Len(l) + 1 == end < |g.strip|
      && g.strip[at].OOR1? && MidLaid(g.strip, at + 1, m) && LastLaid(g.strip, at + 1 + MidLen(m), l)
    }

    /** The first alternative of the choice at ss that matches sp..rest exactly. */
    method Pick(sp: nat, rest: nat, ss: nat, ghost f: seq<Node>, ghost m: seq<Branch>, ghost l: seq<Node>,
                ghost fam: Family)
      returns (ssub: nat, esub: nat)
      requires Ready() && beginp <= sp <= rest <= endp
      requires 1 <= ss && ss + NodeLen(Choice(f, m, l)) < |g.strip| && NodeLaid(g.strip, ss, Choice(f, m, l))
      requires MNode(Choice(f, m, l), str, sp, rest)
      requires Passed(fam, ss, ss + NodeLen(Choice(f, m, l)), sp, rest)
      ensures ss < ssub && esub < ss + NodeLen(Choice(f, m, l))
      ensures Range(ssub, esub, Chosen(f, m, l, str, sp, rest)) && ssub in fam.F[sp]
    {
      StepIn(fam, ss, sp);
      ssub := ss + 1;
      esub := ss + Opnd(g.strip[ss]) - 1;
      ghost var b, m', last := f, m, false;
      ghost var end := ss + NodeLen(Choice(f, m, l)) - 1;
      ghost var chosen := Chosen(f, m, l, str, sp, rest);
      ChosenIs(f, m, l, str, sp, rest);
      while true
        invariant ss < ssub && Range(ssub, esub, b) && esub <= end < |g.strip|
        invariant if last then b == chosen
                  else Alternatives(esub, m', l, end) && Chosen(b, m', l, str, sp, rest) == chosen
        invariant ssub in fam.F[sp] && (!last ==> esub + 1 in fam.F[sp])
        decreases end - esub
      {
        var r := SlowAgain(sp, rest, ssub, esub, b, fam);
        MaxEndIs(b, str, sp, rest);
        if r == rest { break; }
        StepIn(fam, esub + 1, sp);
        ssub, esub := NextBranch(esub, m', l, end);
        if m' == [] {
          b, last := l, true;
        } else {
          b, m' := m'[0].items, m'[1..];
        }
      }
    }

    /** The alternative after the OOR1 at at. */
    method NextBranch(at: nat, ghost m: seq<Branch>, ghost l: seq<Node>, ghost end: nat) returns (ssub: nat, esub: nat)
      requires Alternatives(at, m, l, end)
      ensures ssub == at + 2 && at < esub <= end
      ensures m != [] ==> EpsTo(g.strip, at + 1) == {ssub, esub + 1}
      ensures m == [] ==> EpsTo(g.strip, at + 1) == {ssub}
      ensures m == [] ==> Range(ssub, esub, l)
      ensures m != [] ==> Range(ssub, esub, m[0].items) && Alternatives(esub, m[1..], l, end)
    {
      esub := at + 1;
      ssub := esub + 1;
      esub := esub + Opnd(g.strip[esub]);
      assert m != [] ==> MidLaid(g.strip, esub, m[1..]) && g.strip[esub].OOR2?;
      if g.strip[esub].OOR2? { esub := esub - 1; }
    }

    /** dissect: records in pmatch what the parentheses in startst..stopst matched, given that
        it matches start..stop. */
    method Dissect(start: nat, stop: nat, startst: nat, stopst: nat, ghost xs: seq<Node>, ghost f: Family)
      returns (sp: nat)
      requires Ready() && beginp <= start <= stop <= endp && Range(startst, stopst, xs)
      requires M(xs, str, start, stop) && GroupsBelow(xs, |pmatch|) && Passed(f, startst, stopst, start, stop)
      modifies this`pmatch
      ensures sp == stop
      ensures pmatch == Captures(xs, str, start, stop, old(pmatch))
      decreases stopst - startst, 1
    {
      sp := start;
      var ss := startst;
      ghost var tl := xs;
      while ss < stopst
        invariant startst <= ss <= stopst && Range(ss, stopst, tl) && start <= sp <= stop
        invariant Passed(f, ss, stopst, sp, stop)
        invariant M(tl, str, sp, stop) && |pmatch| == |old(pmatch)| && GroupsBelow(tl, |pmatch|)
        invariant Captures(xs, str, start, stop, old(pmatch)) == Captures(tl, str, sp, stop, pmatch)
        decreases stopst - ss
      {
        var es := EndOf(ss, stopst, tl);
        ghost var x, rest := tl[0], tl[1..];
        assert tl == [x] + rest;
        FirstOp(g.strip, ss, x);
        if g.strip[ss].OPLUS_? || g.strip[ss].OQUEST_? || g.strip[ss].OCH_? {
          sp := DissectPart(sp, stop, ss, es, stopst, x, rest, f);
        } else {
          sp := DissectItem(sp, stop, ss, es, x, rest, f);
        }
        ss, tl := es, rest;
      }
    }

    /** A parenthesis, or an item that takes one character. */
    method DissectItem(sp: nat, stop: nat, ss: nat, es: nat, ghost x: Node, ghost tl: seq<Node>, ghost f: Family)
      returns (rest: nat)
      requires Ready() && sp <= stop && 1 <= ss && es == ss + NodeLen(x) < |g.strip| && NodeLaid(g.strip, ss, x)
      requires !x.Plus? && !x.Quest? && !x.Choice?
      requires M([x] + tl, str, sp, stop) && NodeGroupsBelow(x, |pmatch|) && Passed(f, ss, es, sp, stop)
      modifies this`pmatch
      ensures sp <= rest <= stop && M(tl, str, rest, stop) && es in f.F[rest] && |pmatch| == |old(pmatch)|
      ensures Captures([x] + tl, str, sp, stop, old(pmatch)) == Captures(tl, str, rest, stop, pmatch)
    {
      MUnfold(x, tl, str, sp, stop);
      assert ([x] + tl)[1..] == tl;
      rest := sp;
      if g.strip[ss].OLPAREN? {
        var i := Opnd(g.strip[ss]);
        pmatch := pmatch[i := pmatch[i].(so := sp)];
      } else if g.strip[ss].ORPAREN? {
        var i := Opnd(g.strip[ss]);
        pmatch := pmatch[i := pmatch[i].(eo := sp)];
      } else {
        rest := sp + 1;
      }
      PassedOn(f, ss, es, x, sp, rest, stop);
    }

    /** A repeated, optional or alternated piece ss..es, and the items tl after it. */
    method DissectPart(sp: nat, stop: nat, ss: nat, es: nat, stopst: nat, ghost x: Node, ghost tl: seq<Node>,
                       ghost f: Family)
      returns (rest: nat)
      requires Ready() && beginp <= sp <= stop <= endp && Range(ss, es, [x]) && Range(es, stopst, tl)
      requires Passed(f, ss, stopst, sp, stop)
      requires x.Plus? || x.Quest? || x.Choice?
      requires M([x] + tl, str, sp, stop) && NodeGroupsBelow(x, |pmatch|)
      modifies this`pmatch
      ensures sp <= rest <= stop && rest == Share(x, tl, str, sp, stop, stop) && M(tl, str, rest, stop)
      ensures es in f.F[rest]
      ensures pmatch == Inner(x, str, sp, rest, old(pmatch))
      decreases es - ss, 0
    {
      rest := ShareOf(sp, stop, ss, es, stopst, x, tl, f);
      LenSingle(x);
      assert NodeLaid(g.strip, ss, x);
      FirstOp(g.strip, ss, x);
      var dp;
      if g.strip[ss].OQUEST_? {
        StepIn(f, ss, sp);
        var sub := SlowAgain(sp, rest, ss + 1, es - 1, x.body, f);
        MaxEndIs(x.body, str, sp, rest);
        if sub != NULL { dp := Dissect(sp, rest, ss + 1, es - 1, x.body, f); }
      } else if g.strip[ss].OPLUS_? {
        var ssp, sep := LastPassOf(sp, rest, ss + 1, es - 1, x.body, f);
        dp := Dissect(ssp, sep, ss + 1, es - 1, x.body, f);
      } else {
        var ssub, esub := Pick(sp, rest, ss, x.first, x.mid, x.last, f);
        ghost var b := Chosen(x.first, x.mid, x.last, str, sp, rest);
        ChosenIs(x.first, x.mid, x.last, str, sp, rest);
        ChosenBelow(x.first, x.mid, x.last, str, sp, rest, |pmatch|);
        ChosenInner(x.first, x.mid, x.last, str, sp, rest, pmatch);
        dp := Dissect(sp, rest, ssub, esub, b, f);
      }
    }
  }
}
