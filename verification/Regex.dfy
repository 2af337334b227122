/** Compiling a pattern and matching a text against it (src/common/regcomp.cpp, regcomp;
    src/common/regex_engine.cpp, matcher; src/common/regexec.cpp, regexec). */
module Regex {
  import opened Strip
  import opened Reach
  import opened Closure
  import opened Live
  import opened Search
  import StateSets
  import Stepping
  import opened Capturing
  import opened Engine
  import opened Ere
  import opened Grammar
  import opened Reading
  import opened Compiler
  import opened Musts
  import opened Numbering
  import opened Wrappers

  datatype Compilation = Compiled(g: Guts) | Invalid(error: Error)

  /** The strip of the items xs. */
  function StripOf(xs: seq<Node>): (s: seq<Sop>)
    ensures |s| == Len(xs) + 2
  {
    CodeLen(xs);
    [OEND] + Code(xs) + [OEND]
  }

  /** What an expression is compiled to. */
  ghost function GutsOf(e: Ere): Guts
    requires Ok(e)
  {
    var s := StripOf(Lower(e));
    Guts(s, 0, |s| - 1, Mandatory(Lower(e)), Groups(e))
  }

  /** regcomp: the pattern is compiled exactly when it is an extended regular expression. */
  method Regcomp(pattern: seq<char>, reader: Reader) returns (r: Compilation)
    ensures forall e :: Spells(reader, pattern, e) ==> Ok(e) && r == Compiled(GutsOf(e))
    ensures (forall e :: !Spells(reader, pattern, e)) ==> r.Invalid?
    ensures Parse(reader, pattern).Failed? ==> r == Invalid(Parse(reader, pattern).error)
  {
    var p := new Parser(pattern, reader);
    p.Emit(OEND);
    p.ParseWhole('|');
    p.Emit(OEND);
    ghost var a := Parse(reader, pattern);
    forall e ensures a == Got(|pattern|, e) <==> Spells(reader, pattern, e) {
      ParseIs(reader, pattern, e);
    }
    if p.error.Some? {
      r := Invalid(p.error.value);
    } else {
      var must := FindMust(p.strip, Lower(a.e));
      r := Compiled(Guts(p.strip, 0, p.Here() - 1, must, p.nsub));
      assert Spells(reader, pattern, a.e) by { ParseIs(reader, pattern, a.e); }
    }
  }

  // ----- Which match is reported -----

  /** The earliest position from p on at which a match begun at i0 or later ends. */
  ghost function FirstEnd(xs: seq<Node>, t: seq<char>, i0: int, p: int, stop: int): int
    decreases stop - p
  {
    if p > stop then NULL else if Ends(xs, t, i0, p, p) then p else FirstEnd(xs, t, i0, p + 1, stop)
  }

  /** The last position up to p at which the live states were those of a fresh start. */
  ghost function ColdAt(xs: seq<Node>, t: seq<char>, i0: int, p: int): int
    decreases p - i0
  {
    if p <= i0 then i0 else if LiveSet(xs, 1, t, i0, p, p) == Fresh(xs, 1) then p else ColdAt(xs, t, i0, p - 1)
  }

  /** The first position from k on at which a match begins. */
  ghost function StartFrom(xs: seq<Node>, t: seq<char>, k: int, stop: int): int
    decreases stop - k
  {
    if k > stop then NULL else if MaxEnd(xs, t, k, stop) != NULL then k else StartFrom(xs, t, k + 1, stop)
  }

  datatype Outcome = Matched(pmatch: seq<Span>) | NOMATCH | INVARG

  /** Offsets reported for a match i..j: nmatch of them, -1 for what took no part. */
  ghost function Report(xs: seq<Node>, t: seq<char>, i: int, j: int, nmatch: nat, nsub: nat): (r: seq<Span>)
    ensures |r| == nmatch
  {
    var pm := Captures(xs, t, i, j, seq(nsub + 1, _ => Span(-1, -1)));
    seq(nmatch, k => if k == 0 then Span(i, j) else if 0 < k <= nsub then pm[k] else Span(-1, -1))
  }

  /** The outcome, a function of the expression and the text alone. */
  ghost function OutcomeOf(xs: seq<Node>, t: seq<char>, start: int, stop: int, nmatch: nat, nsub: nat): Outcome {
    if stop < start then INVARG
    else
      var f := FirstEnd(xs, t, start, start, stop);
      if f == NULL then NOMATCH
      else
        var i := StartFrom(xs, t, ColdAt(xs, t, start, f), stop);
        Matched(Report(xs, t, i, MaxEnd(xs, t, i, stop), nmatch, nsub))
  }

  // ----- When the word engine does not return -----

  /** With the states live at p, of matches begun at i0 to i1, a word's step has no end. */
  ghost predicate Jammed(xs: seq<Node>, t: seq<char>, i0: int, i1: int, p: int) {
    Stepping.Far(StripOf(xs), 1, 1 + Len(xs), LiveSet(xs, 1, t, i0, i1, p))
  }

  /** fast comes to such a position before any match ends. */
  ghost predicate FastJams(xs: seq<Node>, t: seq<char>, start: int, stop: int) {
    exists p :: start <= p <= stop && Jammed(xs, t, start, p, p) &&
                forall e :: start <= e < p ==> !Ends(xs, t, start, e, e)
  }

  /** slow comes to such a position, from one of the starts that are tried. */
  ghost predicate SlowJams(xs: seq<Node>, t: seq<char>, cold: int, stop: int) {
    exists i, p :: cold <= i <= StartFrom(xs, t, cold, stop) && i <= p <= stop && Jammed(xs, t, i, i, p)
  }

  /** The word engine, having found the mandatory string, gets caught in a step. */
  ghost predicate Jams(xs: seq<Node>, t: seq<char>, start: int, stop: int, nmatch: nat) {
    && start <= stop && (Mandatory(xs) == [] || Within(Mandatory(xs), t, start, stop))
    && (FastJams(xs, t, start, stop) ||
        (nmatch > 0 && var f := FirstEnd(xs, t, start, start, stop);
         f != NULL && SlowJams(xs, t, ColdAt(xs, t, start, f), stop)))
  }

  lemma {:induction false} FirstEndIs(xs: seq<Node>, t: seq<char>, i0: int, p: int, stop: int, f: int)
    requires 0 <= i0 <= p
    requires forall e :: p <= e <= stop && (f == NULL || e < f) ==> !Ends(xs, t, i0, e, e)
    requires f != NULL ==> p <= f <= stop && Ends(xs, t, i0, f, f)
    ensures FirstEnd(xs, t, i0, p, stop) == f
    decreases stop - p
  {
    if p <= stop && p != f { FirstEndIs(xs, t, i0, p + 1, stop, f); }
  }

  lemma {:induction false} ColdAtIs(xs: seq<Node>, t: seq<char>, i0: int, cold: int, p: int)
    requires Cold(xs, 1, t, i0, cold, p)
    ensures ColdAt(xs, t, i0, p) == cold
    decreases p - i0
  {
    if cold < p { ColdAtIs(xs, t, i0, cold, p - 1); }
  }

  // ----- Matching -----

  /** The first occurrence of must in str[start..stop], or stop. */
  method Prescreen(must: seq<char>, str: seq<char>, start: nat, stop: nat) returns (dp: nat)
    requires must != [] && start <= stop <= |str|
    ensures start <= dp <= stop && (dp == stop <==> !Within(must, str, start, stop))
  {
    dp := start;
    while dp < stop
      invariant start <= dp <= stop
      invariant forall k :: start <= k < dp && k + |must| <= stop ==> !StandsAt(must, str, k)
    {
      if str[dp] == must[0] && stop - dp >= |must| && str[dp..dp + |must|] == must {
        assert StandsAt(must, str, dp);
        return;
      }
      dp := dp + 1;
    }
  }

  /** The start of the reported match: the first one from cold on. */
  method FindStart(m: Match, stop: nat, ghost xs: seq<Node>) returns (r: Course<nat>)
    requires m.Ready() && m.Range(1, m.g.laststate, xs) && stop == m.endp && m.g.strip == StripOf(xs)
    requires m.beginp <= m.coldp <= stop
    requires exists i, j :: m.coldp <= i <= j <= stop && M(xs, m.str, i, j)
    modifies m`coldp
    ensures r.Returned? ==> old(m.coldp) <= m.coldp <= r.value <= stop
    ensures r.Returned? ==> m.coldp == StartFrom(xs, m.str, old(m.coldp), stop)
    ensures r.Returned? ==> r.value == MaxEnd(xs, m.str, m.coldp, stop) && M(xs, m.str, m.coldp, r.value)
    ensures r.Returned? && m.small ==> forall p :: m.coldp <= p <= stop ==> !Jammed(xs, m.str, m.coldp, m.coldp, p)
    ensures r.Endless? <==> m.small && SlowJams(xs, m.str, old(m.coldp), stop)
  {
    ghost var cold := m.coldp;
    ghost var i, j :| m.coldp <= i <= j <= stop && M(xs, m.str, i, j);
    while true
      invariant cold <= m.coldp <= i
      invariant StartFrom(xs, m.str, m.coldp, stop) == StartFrom(xs, m.str, cold, stop)
      invariant m.small ==> forall k, p :: cold <= k < m.coldp && k <= p <= stop ==> !Jammed(xs, m.str, k, k, p)
      decreases i - m.coldp
    {
      var e := m.Slow(m.coldp, stop, 1, m.g.laststate, xs);
      forall p ensures m.Jams(xs, 1, m.coldp, m.coldp, p) <==> m.small && Jammed(xs, m.str, m.coldp, m.coldp, p) {
      }
      MaxEndIs(xs, m.str, m.coldp, stop);
      MaxEndIs(xs, m.str, i, stop);
      StartFromUp(xs, m.str, m.coldp, i, stop);
      if e.Endless? { return Endless; }
      if e.value != NULL {
        r := Returned(e.value);
        break;
      }
      m.coldp := m.coldp + 1;
    }
  }

  lemma {:induction false} StartFromUp(xs: seq<Node>, t: seq<char>, k: int, i: int, stop: int)
    requires k <= i <= stop && MaxEnd(xs, t, i, stop) != NULL
    ensures k <= StartFrom(xs, t, k, stop) <= i
    decreases stop - k
  {
    if MaxEnd(xs, t, k, stop) == NULL { StartFromUp(xs, t, k + 1, i, stop); }
  }

  /** matcher, over either representation of state sets: it returns unless the word engine
      gets caught in a step. */
  method Matcher(g: Guts, str: seq<char>, start: nat, stop: nat, nmatch: nat, flags: Flags, small: bool, ghost e: Ere)
    returns (r: Course<Outcome>)
    requires Ok(e) && Numbered(e, 0) && g == GutsOf(e) && (small ==> |g.strip| <= 64)
    requires start <= |str| && stop <= |str|
    ensures r.Returned? ==> r.value == OutcomeOf(Lower(e), str, start, stop, nmatch, g.nsub)
    ensures r.Endless? <==> small && Jams(Lower(e), str, start, stop, nmatch)
  {
    if stop < start { return Returned(INVARG); }
    ghost var xs := Lower(e);
    ghost var f := FirstEnd(xs, str, start, start, stop);
    if g.must != [] {
      var dp := Prescreen(g.must, str, start, stop);
      if dp == stop {
        NoMandatory(xs, str, start, start, stop);
        return Returned(NOMATCH);
      }
    }
    StripLaid(g.strip, xs);
    var m := new Match(g, str, start, stop, flags, small);
    var fast := Quickly(m, start, stop, e);
    if fast.Endless? { return Endless; }
    if fast.value == NULL { return Returned(NOMATCH); }
    if nmatch == 0 {
      return Returned(Matched([]));
    }
    var to := FindStart(m, stop, xs);
    if to.Endless? { return Endless; }
    var described := Describe(m, to.value, nmatch, e);
    r := Returned(described);
  }

  /** fast, and what it comes to for the whole expression. */
  method Quickly(m: Match, start: nat, stop: nat, ghost e: Ere) returns (r: Course<int>)
    requires Ok(e) && m.g == GutsOf(e) && m.Ready() && m.Range(1, m.g.laststate, Lower(e))
    requires m.beginp == start <= stop == m.endp
    modifies m`coldp
    ensures r.Returned? ==> (r.value == NULL <==> FirstEnd(Lower(e), m.str, start, start, stop) == NULL)
    ensures r.Returned? && r.value != NULL ==>
      var f := FirstEnd(Lower(e), m.str, start, start, stop);
      start <= m.coldp <= stop && m.coldp == ColdAt(Lower(e), m.str, start, f)
    ensures r.Returned? && r.value != NULL ==> exists i, j :: m.coldp <= i <= j <= stop && M(Lower(e), m.str, i, j)
    ensures r.Endless? <==> m.small && FastJams(Lower(e), m.str, start, stop)
  {
    ghost var xs := Lower(e);
    r := m.Fast(start, stop, 1, m.g.laststate, xs);
    forall p ensures m.Jams(xs, 1, start, p, p) <==> m.small && Jammed(xs, m.str, start, p, p) {
    }
    if r.Returned? {
      ghost var f: int := if r.value == NULL then NULL else r.value - 1;
      FirstEndIs(xs, m.str, start, start, stop, f);
      if r.value != NULL {
        ColdAtIs(xs, m.str, start, m.coldp, f);
        ghost var i :| m.coldp <= i <= f && M(xs, m.str, i, f);
        assert Ends(xs, m.str, start, f, f);
      }
      assert forall p :: start <= p <= stop && (f == NULL || p <= f) ==> !m.Jams(xs, 1, start, p, p);
    } else {
      ghost var p :| start <= p <= stop && m.Jams(xs, 1, start, p, p) &&
                     forall e :: start <= e < p ==> !Ends(xs, m.str, start, e, e);
      assert Jammed(xs, m.str, start, p, p);
    }
  }

  /** The details of the match from coldp to to, as far as they are wanted. */
  method Describe(m: Match, to: nat, nmatch: nat, ghost e: Ere) returns (r: Outcome)
    requires Ok(e) && Numbered(e, 0) && m.g == GutsOf(e) && m.Ready() && m.Range(1, m.g.laststate, Lower(e))
    requires m.beginp <= m.coldp <= to <= m.endp && M(Lower(e), m.str, m.coldp, to)
    requires m.small ==> forall p :: m.coldp <= p <= m.endp ==> !Jammed(Lower(e), m.str, m.coldp, m.coldp, p)
    modifies m`pmatch
    ensures r == Matched(Report(Lower(e), m.str, m.coldp, to, nmatch, m.g.nsub))
  {
    var from, nsub := m.coldp, m.g.nsub;
    m.pmatch := seq(nsub + 1, _ => Span(-1, -1));
    if nmatch > 1 {
      LowerBelow(e, 0, nsub + 1);
      TakeApart(m, to, Lower(e));
    }
    var pm := m.pmatch;
    r := Matched(seq(nmatch, k => if k == 0 then Span(from, to) else if 0 < k <= nsub then pm[k] else Span(-1, -1)));
  }

  method TakeApart(m: Match, to: nat, ghost xs: seq<Node>)
    requires m.Ready() && m.Range(1, m.g.laststate, xs) && m.g.strip == StripOf(xs)
    requires m.beginp <= m.coldp <= to <= m.endp && M(xs, m.str, m.coldp, to) && GroupsBelow(xs, |m.pmatch|)
    requires m.small ==> forall p :: m.coldp <= p <= m.endp ==> !Jammed(xs, m.str, m.coldp, m.coldp, p)
    modifies m`pmatch
    ensures m.pmatch == Captures(xs, m.str, m.coldp, to, old(m.pmatch))
  {
    ghost var f := Ground(m, m.coldp, to, xs);
    var _ := m.Dissect(m.coldp, to, 1, m.g.laststate, xs, f);
  }

  /** The ground slow has been over from from on. */
  lemma {:induction false} Ground(m: Match, from: nat, to: nat, xs: seq<Node>) returns (f: Family)
    requires m.Ready() && m.Range(1, m.g.laststate, xs) && m.g.strip == StripOf(xs) && from <= to <= m.endp
    requires m.small ==> forall p :: from <= p <= m.endp ==> !Jammed(xs, m.str, from, from, p)
    ensures m.Passed(f, 1, m.g.laststate, from, to)
  {
    var s, t := m.g.strip, m.str;
    var L := LiveSet(xs, 1, t, from, from, to);
    LiveClosed(s, 1, xs, t, from, from, to);
    if to > 0 { LiveEats(s, 1, xs, t, from, from, to - 1); }
    f := History(s, 1, xs, t, from, from, to, L);
    AtStart(xs, 1, t, from);
    forall k | 0 <= k <= to ensures f.F[k] == LiveSet(xs, 1, t, from, from, k) {
    }
    forall k | 0 <= k <= to && m.small ensures !Stepping.Far(s, 1, 1 + Len(xs), f.F[k]) {
      if k < from { assert f.F[k] == {}; } else { assert !Jammed(xs, t, from, from, k); }
    }
    assert LiveAt(xs, 1, 1, t, from, from, from);
  }

  /** A text without the mandatory string has no match. */
  lemma {:induction false} NoMandatory(xs: seq<Node>, t: seq<char>, i0: nat, p: nat, stop: nat)
    requires i0 <= p && stop <= |t| && !Within(Mandatory(xs), t, i0, stop)
    ensures FirstEnd(xs, t, i0, p, stop) == NULL
    decreases stop - p
  {
    if p <= stop {
      if Ends(xs, t, i0, p, p) {
        var i: nat :| i0 <= i <= p && M(xs, t, i, p);
        MandatoryWithin(xs, t, i, p);
      }
      NoMandatory(xs, t, i0, p + 1, stop);
    }
  }

  const WORD_BITS: nat := 64

  /** The word representation is chosen, and gets caught in a step. */
  ghost predicate Hangs(xs: seq<Node>, t: seq<char>, start: int, stop: int, nmatch: nat) {
    |StripOf(xs)| <= WORD_BITS && Jams(xs, t, start, stop, nmatch)
  }

  /** regexec: the word representation when all states fit, byte arrays otherwise.  window is
      the stretch to search (REG_STARTEND), if not all of str; nosub is REG_NOSUB. */
  method Regexec(g: Guts, str: seq<char>, nmatch: nat, nosub: bool, window: Option<(nat, nat)>, flags: Flags,
                 ghost e: Ere)
    returns (r: Course<Outcome>)
    requires Ok(e) && Numbered(e, 0) && g == GutsOf(e)
    requires window.Some? ==> window.value.0 <= |str| && window.value.1 <= |str|
    ensures var (start, stop) := if window.Some? then window.value else (0, |str|);
            var wanted := if nosub then 0 else nmatch;
            && (r.Returned? ==> r.value == OutcomeOf(Lower(e), str, start, stop, wanted, Groups(e)))
            && (r.Endless? <==> Hangs(Lower(e), str, start, stop, wanted))
  {
    var (start, stop) := if window.Some? then window.value else (0, |str|);
    r := Matcher(g, str, start, stop, if nosub then 0 else nmatch, flags, |g.strip| <= WORD_BITS, e);
  }

  /** No loop is out of an int's reach: the strip is too long for a word, or none of its loops
      begins at state 32 or later. */
  predicate Near(xs: seq<Node>) {
    var s := StripOf(xs);
    |s| > WORD_BITS || forall k :: StateSets.INT_BITS <= k < |s| ==> !s[k].OPLUS_?
  }

  /** Then regexec returns on every text. */
  lemma {:induction false} NearReturns(xs: seq<Node>, t: seq<char>, start: int, stop: int, nmatch: nat)
    requires Near(xs)
    ensures !Hangs(xs, t, start, stop, nmatch)
  {
    if |StripOf(xs)| <= WORD_BITS {
      forall i0, i1, p ensures !Jammed(xs, t, i0, i1, p) {
        if Jammed(xs, t, i0, i1, p) { var h := FarHeadOf(xs, LiveSet(xs, 1, t, i0, i1, p)); }
      }
    }
  }

  /** So a strip no longer than an int is wide always does. */
  lemma ShortNear(xs: seq<Node>)
    requires Len(xs) + 2 <= StateSets.INT_BITS
    ensures Near(xs)
  {
  }

  /** The loop's head that is out of reach. */
  lemma {:induction false} FarHeadOf(xs: seq<Node>, L: set<int>) returns (h: nat)
    requires Stepping.Far(StripOf(xs), 1, 1 + Len(xs), L)
    ensures StateSets.INT_BITS <= h <= Len(xs) && h in L && StripOf(xs)[h].OPLUS_?
  {
    var s := StripOf(xs);
    StripLaid(s, xs);
    CodePaired(s, 1, xs);
    var q :| 1 <= q < 1 + Len(xs) && Stepping.FarAt(s, q, L);
    assert q in Pairs(s, 1, 1 + Len(xs));
    h := q - s[q].n;
  }

  /** A live head out of reach jams the step. */
  lemma {:induction false} FarHeadJams(xs: seq<Node>, h: nat, L: set<int>)
    requires StateSets.INT_BITS <= h <= Len(xs) && h in L && StripOf(xs)[h].OPLUS_?
    ensures Stepping.Far(StripOf(xs), 1, 1 + Len(xs), L)
  {
    var s := StripOf(xs);
    StripLaid(s, xs);
    CodePaired(s, 1, xs);
    assert h in Pairs(s, 1, 1 + Len(xs));
    assert Stepping.FarAt(s, h + s[h].n, L);
  }

  // ----- What the outcome means -----

  ghost predicate Matches(e: Ere, t: seq<char>, start: int, stop: int) {
    exists i, j :: start <= i <= j <= stop && Occurs(e, t, i, j)
  }

  /** t[i..j] is a word of e. */
  ghost predicate Occurs(e: Ere, t: seq<char>, i: int, j: int) {
    0 <= i <= j <= |t| && Lang(e, t[i..j])
  }

  lemma {:induction false} FirstEndSpec(xs: seq<Node>, t: seq<char>, i0: int, p: int, stop: int)
    requires 0 <= i0 <= p
    ensures var f := FirstEnd(xs, t, i0, p, stop);
            && (f != NULL ==> p <= f <= stop && Ends(xs, t, i0, f, f))
            && (forall e :: p <= e <= stop && (f == NULL || e < f) ==> !Ends(xs, t, i0, e, e))
    decreases stop - p
  {
    if p <= stop && !Ends(xs, t, i0, p, p) { FirstEndSpec(xs, t, i0, p + 1, stop); }
  }

  /** The matcher succeeds exactly when some stretch of the text is a word of the expression. */
  lemma {:induction false} OutcomeIsMatch(e: Ere, t: seq<char>, start: nat, stop: nat, nmatch: nat)
    requires Ok(e) && start <= stop <= |t|
    ensures var r := OutcomeOf(Lower(e), t, start, stop, nmatch, Groups(e));
            r != INVARG && (r.Matched? <==> Matches(e, t, start, stop))
  {
    var xs := Lower(e);
    var f := FirstEnd(xs, t, start, start, stop);
    FirstEndSpec(xs, t, start, start, stop);
    forall i, j | 0 <= i <= j <= |t| ensures M(xs, t, i, j) <==> Occurs(e, t, i, j) { LowerIs(e, t, i, j); }
    if f != NULL {
      var i :| start <= i <= f && M(xs, t, i, f);
      assert Occurs(e, t, i, f);
    }
    if Matches(e, t, start, stop) {
      var i, j :| start <= i <= j <= stop && Occurs(e, t, i, j);
      assert M(xs, t, i, j) && Ends(xs, t, start, j, j);
    }
  }

  /** regcomp, then regexec: a valid pattern matches exactly the texts with a stretch that is
      a word of the expression it spells. */
  method CompileAndMatch(pattern: seq<char>, reader: Reader, str: seq<char>, nmatch: nat, flags: Flags)
    returns (r: Option<Course<Outcome>>)
    ensures r.Some? <==> exists e :: Spells(reader, pattern, e)
    ensures forall e :: Spells(reader, pattern, e) ==> r.Some? && Ok(e) && r.value != Returned(INVARG)
    ensures forall e :: Spells(reader, pattern, e) ==>
      if Hangs(Lower(e), str, 0, |str|, nmatch) then r.value.Endless?
      else r.value.Returned? && (r.value.value.Matched? <==> Matches(e, str, 0, |str|))
  {
    var c := Regcomp(pattern, reader);
    if c.Invalid? {
      assert forall e :: !Spells(reader, pattern, e);
      return None;
    }
    ghost var e :| Spells(reader, pattern, e);
    WholeNumbered(reader, pattern, 0, |pattern|, 0, e);
    var o := Regexec(c.g, str, nmatch, false, None, flags, e);
    OutcomeIsMatch(e, str, 0, |str|, nmatch);
    forall e' | Spells(reader, pattern, e') ensures e' == e {
      ParseIs(reader, pattern, e);
      ParseIs(reader, pattern, e');
    }
    r := Some(o);
    assert Spells(reader, pattern, e);
  }
}
