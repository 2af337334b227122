/** One step of the set-of-states machine (src/common/regex_engine.cpp, step). */
module Stepping {
  import opened Strip
  import opened Reach
  import opened Closure
  import opened StateSets
  import opened Wrappers

  /** What a step is taken over: a character, or one of the codes that are not characters. */
  datatype Input = Chr(c: char) | NOTHING | BOW | EOW

  predicate Takes(s: Sop, ch: Input) {
    ch.Chr? && Eats(s, ch.c)
  }

  /** What a step must hold before closing: aft, and what bef reads. */
  ghost function Base(s: seq<Sop>, lo: nat, hi: nat, bef: set<int>, ch: Input, aft: set<int>): set<int>
    requires hi <= |s|
  {
    aft + if ch.Chr? then Eaten(s, lo, hi, bef, ch.c) else {}
  }

  /** Everything below q is done: closed, and its characters read. */
  ghost predicate Swept(s: seq<Sop>, lo: nat, bef: set<int>, ch: Input, q: int, B: set<int>)
    requires q <= |s|
  {
    forall k :: lo <= k < q ==>
      (k in B ==> EpsTo(s, k) <= B) && (k in bef && Takes(s[k], ch) ==> k + 1 in B)
  }

  /** B together with everything the operator at q contributes. */
  ghost function Moved(s: seq<Sop>, bef: set<int>, ch: Input, q: nat, B: set<int>): set<int>
    requires q < |s|
  {
    B + (if q in B then EpsTo(s, q) else {}) + (if q in bef && Takes(s[q], ch) then {q + 1} else {})
  }

  // ----- The sweep as a machine -----

  /** Where the sweep stands: at an operator, with these states live. */
  datatype Sweep = Sweep(pc: int, live: set<int>)

  /** The O_PLUS at q sends the sweep back: its loop's head is live and was not, or for words
      was so unnoticed. */
  predicate GoesBack(s: seq<Sop>, small: bool, q: int, B: set<int>, B': set<int>)
    requires 0 <= q < |s|
  {
    s[q].O_PLUS? && var h := q - s[q].n; h in B' && (h !in B || (small && h >= INT_BITS))
  }

  /** One turn of the loop. */
  ghost function Turn(s: seq<Sop>, small: bool, bef: set<int>, ch: Input, c: Sweep): Sweep
    requires 0 <= c.pc < |s|
  {
    var B := Moved(s, bef, ch, c.pc, c.live);
    Sweep(if GoesBack(s, small, c.pc, c.live, B) then c.pc - s[c.pc].n else c.pc + 1, B)
  }

  /** The sweep after n turns, or where it stopped. */
  ghost function Turns(s: seq<Sop>, stop: nat, small: bool, bef: set<int>, ch: Input, c: Sweep, n: nat): Sweep
    requires stop <= |s|
  {
    if n == 0 then c
    else
      var d := Turns(s, stop, small, bef, ch, c, n - 1);
      if 0 <= d.pc < stop then Turn(s, small, bef, ch, d) else d
  }

  /** The operator at q ends a loop whose head is live and out of an int's reach. */
  predicate FarAt(s: seq<Sop>, q: int, B: set<int>)
    requires 0 <= q < |s|
  {
    s[q].O_PLUS? && q - s[q].n >= INT_BITS && q - s[q].n in B
  }

  ghost predicate Far(s: seq<Sop>, lo: nat, hi: nat, B: set<int>)
    requires hi <= |s|
  {
    exists q :: lo <= q < hi && FarAt(s, q, B)
  }

  /** From before such a loop's end the sweep of a word never gets beyond it. */
  lemma {:induction false} NeverBeyond(s: seq<Sop>, stop: nat, bef: set<int>, ch: Input, c: Sweep, n: nat, m: nat,
                                       q: nat)
    requires q < stop <= |s| && n <= m
    requires var d := Turns(s, stop, true, bef, ch, c, n); d.pc <= q && FarAt(s, q, d.live)
    ensures var d := Turns(s, stop, true, bef, ch, c, m); d.pc <= q && FarAt(s, q, d.live)
    decreases m
  {
    if n < m { NeverBeyond(s, stop, bef, ch, c, n, m - 1, q); }
  }

  /** Having done q, the sweep may go on at any r that nothing new lies below. */
  lemma Advance(s: seq<Sop>, lo: nat, bef: set<int>, ch: Input, q: nat, r: nat, B: set<int>, B': set<int>)
    requires lo <= q < |s| && r <= q + 1 && Swept(s, lo, bef, ch, q, B)
    requires B' == Moved(s, bef, ch, q, B) && forall k :: k in B' && k !in B ==> k >= r
    ensures Swept(s, lo, bef, ch, r, B')
    ensures q !in EpsTo(s, q) ==> q in B' ==> EpsTo(s, q) <= B'
  {
  }

  /** A contribution stays within every closed set that holds the base. */
  lemma Within(s: seq<Sop>, lo: nat, hi: nat, bef: set<int>, ch: Input, aft: set<int>, q: nat, B: set<int>, U: set<int>)
    requires lo <= q < hi <= |s| && B <= U
    requires Base(s, lo, hi, bef, ch, aft) <= U && Closed(s, lo, hi, U)
    ensures Moved(s, bef, ch, q, B) <= U
  {
    if q in bef && Takes(s[q], ch) { assert q + 1 in Eaten(s, lo, hi, bef, ch.c); }
  }

  lemma SweptAll(s: seq<Sop>, lo: nat, hi: nat, bef: set<int>, ch: Input, aft: set<int>, B: set<int>)
    requires hi <= |s| && aft <= B && Swept(s, lo, bef, ch, hi, B)
    requires forall U: set<int> :: Base(s, lo, hi, bef, ch, aft) <= U && Closed(s, lo, hi, U) ==> B <= U
    ensures Least(s, lo, hi, Base(s, lo, hi, bef, ch, aft), B)
  {
  }

  /** Where an OOR1's state goes: past the OOR2s to the O_CH. */
  method Look(s: seq<Sop>, lo: nat, hi: nat, pc: nat) returns (look: nat)
    requires lo <= pc < hi <= |s| && AllPaired(s, lo, hi) && s[pc].OOR1?
    ensures pc + look == ChoiceEnd(s, pc + 1) < hi
  {
    assert pc in Pairs(s, lo, hi);
    look := 1;
    while !s[pc + look].O_CH?
      invariant look >= 1 && pc + look < hi && ChoiceEnd(s, pc + look) == ChoiceEnd(s, pc + 1)
      decreases hi - look
    {
      assert s[pc + look].OOR2? && s[pc + look].n > 0;
      assert pc + look in Pairs(s, lo, hi);
      look := look + Opnd(s[pc + look]);
    }
  }

  /** An operator that reads: from bef to aft, under a character it takes. */
  method Read(s: seq<Sop>, pc: nat, bef: States, ch: Input, aft0: States, here: OneState) returns (aft: States)
    requires pc < |s| && (s[pc].OCHAR? || s[pc].OANY? || s[pc].OANYOF?)
    requires Alike(bef, aft0) && pc + 1 < Size(aft0) && Denotes(here, aft0, pc)
    ensures Alike(aft, aft0)
    ensures Bits(aft) == Bits(aft0) + if pc in Bits(bef) && Takes(s[pc], ch) then {pc + 1} else {}
  {
    aft := aft0;
    match s[pc] {
      case OCHAR(c) => if ch == Chr(c) { aft := Fwd(aft, bef, here, 1, pc); }
      case OANY => if ch.Chr? { aft := Fwd(aft, bef, here, 1, pc); }
      case OANYOF(cs) => if ch.Chr? && ch.c in cs { aft := Fwd(aft, bef, here, 1, pc); }
      case _ =>
    }
  }

  /** A loop's end leads on, and back to the loop's head; back tells whether the body must be
      gone through again: when the head has just become live, and, for words, also when it is
      live already but out of the reach of the int in which the engine keeps that. */
  method Again(s: seq<Sop>, start: nat, stop: nat, pc: nat, aft0: States, here: OneState)
    returns (aft: States, back: bool)
    requires start <= pc < stop <= |s| && AllPaired(s, start, stop) && s[pc].O_PLUS?
    requires stop < Size(aft0) && Denotes(here, aft0, pc)
    ensures Alike(aft, aft0)
    ensures Bits(aft) == Bits(aft0) + if pc in Bits(aft0) then EpsTo(s, pc) else {}
    ensures back <==> GoesBack(s, aft0.Small?, pc, Bits(aft0), Bits(aft))
    ensures start <= pc - Opnd(s[pc])
  {
    assert pc in Pairs(s, start, stop) && Paired(s, start, stop, pc);
    var n := Opnd(s[pc]);
    aft := Fwd(aft0, aft0, here, 1, pc);
    var i := IsSetBackInt(aft, here, n, pc);
    aft := Back(aft, aft, here, n, pc);
    back := !i && IsSetBack(aft, here, n, pc);
  }

  /** Between two alternatives: a finished one leads past the others, an unstarted one to
      itself and to the next. */
  method Between(s: seq<Sop>, start: nat, stop: nat, pc: nat, aft0: States, here: OneState) returns (aft: States)
    requires start <= pc < stop <= |s| && AllPaired(s, start, stop)
    requires s[pc].OOR1? || s[pc].OOR2?
    requires stop < Size(aft0) && Denotes(here, aft0, pc)
    ensures Alike(aft, aft0)
    ensures Bits(aft) == Bits(aft0) + if pc in Bits(aft0) then EpsTo(s, pc) else {}
  {
    assert pc in Pairs(s, start, stop) && Paired(s, start, stop, pc);
    aft := aft0;
    if s[pc].OOR1? {
      if IsStateIn(aft, here, pc) {
        var look := Look(s, start, stop, pc);
        aft := Fwd(aft, aft, here, look, pc);
      }
    } else {
      aft := Fwd(aft, aft, here, 1, pc);
      if !s[pc + Opnd(s[pc])].O_CH? { aft := Fwd(aft, aft, here, Opnd(s[pc]), pc); }
    }
  }

  /** Any other operator that reads nothing: from aft to aft, forward. */
  method Lead(s: seq<Sop>, start: nat, stop: nat, pc: nat, aft0: States, here: OneState) returns (aft: States)
    requires start <= pc < stop <= |s| && AllPaired(s, start, stop)
    requires !(s[pc].OCHAR? || s[pc].OANY? || s[pc].OANYOF? || s[pc].O_PLUS? || s[pc].OOR1? || s[pc].OOR2?)
    requires stop < Size(aft0) && Denotes(here, aft0, pc)
    ensures Alike(aft, aft0)
    ensures Bits(aft) == Bits(aft0) + if pc in Bits(aft0) then EpsTo(s, pc) else {}
  {
    assert pc in Pairs(s, start, stop) && Paired(s, start, stop, pc);
    aft := aft0;
    aft := Fwd(aft, aft, here, 1, pc);
    if s[pc].OQUEST_? || s[pc].OCH_? { aft := Fwd(aft, aft, here, Opnd(s[pc]), pc); }
  }

  /** Operators lead forward, but for O_PLUS. */
  lemma Ahead(s: seq<Sop>, start: nat, stop: nat, pc: nat, k: int)
    requires start <= pc < stop <= |s| && AllPaired(s, start, stop) && k in EpsTo(s, pc)
    ensures k > pc || (s[pc].O_PLUS? && k == pc - Opnd(s[pc]))
  {
    assert pc in Pairs(s, start, stop) && Paired(s, start, stop, pc);
  }

  /** The operator at pc, executed. */
  method Execute(s: seq<Sop>, start: nat, stop: nat, pc: nat, bef: States, ch: Input, aft0: States, here: OneState)
    returns (aft: States, back: bool)
    requires start <= pc < stop <= |s| && AllPaired(s, start, stop)
    requires Alike(bef, aft0) && stop < Size(aft0) && Denotes(here, aft0, pc)
    ensures Alike(aft, aft0)
    ensures Bits(aft) == Moved(s, Bits(bef), ch, pc, Bits(aft0))
    ensures back <==> GoesBack(s, aft0.Small?, pc, Bits(aft0), Bits(aft))
    ensures back ==> start <= pc - Opnd(s[pc])
    ensures forall k :: k in Bits(aft) && k !in Bits(aft0) ==> k >= if back then pc - Opnd(s[pc]) else pc + 1
  {
    forall k | k in EpsTo(s, pc) ensures k > pc || (s[pc].O_PLUS? && k == pc - Opnd(s[pc])) {
      Ahead(s, start, stop, pc, k);
    }
    if s[pc].OCHAR? || s[pc].OANY? || s[pc].OANYOF? {
      aft := Read(s, pc, bef, ch, aft0, here);
      back := false;
    } else if s[pc].O_PLUS? {
      aft, back := Again(s, start, stop, pc, aft0, here);
    } else if s[pc].OOR1? || s[pc].OOR2? {
      aft := Between(s, start, stop, pc, aft0, here);
      back := false;
    } else {
      aft := Lead(s, start, stop, pc, aft0, here);
      back := false;
    }
  }

  /** No loop's end below q has left its head live out of an int's reach. */
  ghost predicate NoneFar(s: seq<Sop>, small: bool, lo: nat, q: int, B: set<int>)
    requires q <= |s|
  {
    small ==> forall k :: lo <= k < q ==> !FarAt(s, k, B)
  }

  /** What holds of the sweep after n turns: everything below pc is done, nothing has become
      live without need, and pc has not yet been stop. */
  ghost predicate Sweeping(s: seq<Sop>, start: nat, stop: nat, small: bool, bef: set<int>, ch: Input, aft0: set<int>,
                           n: nat, pc: nat, B: set<int>)
    requires start <= stop <= |s|
  {
    && pc <= stop && aft0 <= B && Swept(s, start, bef, ch, pc, B) && NoneFar(s, small, start, pc, B)
    && (forall U: set<int> :: Base(s, start, stop, bef, ch, aft0) <= U && Closed(s, start, stop, U) ==> B <= U)
    && Turns(s, stop, small, bef, ch, Sweep(start, aft0), n) == Sweep(pc, B)
    && forall k: nat :: k < n ==> Turns(s, stop, small, bef, ch, Sweep(start, aft0), k).pc < stop
  }

  lemma {:induction false} SweepOn(s: seq<Sop>, start: nat, stop: nat, small: bool, bef: set<int>, ch: Input,
                                   aft0: set<int>, n: nat, pc: nat, B: set<int>, B': set<int>, pc': nat)
    requires start <= pc < stop <= |s| && AllPaired(s, start, stop)
    requires Sweeping(s, start, stop, small, bef, ch, aft0, n, pc, B) && B' == Moved(s, bef, ch, pc, B)
    requires pc' == if GoesBack(s, small, pc, B, B') then pc - s[pc].n else pc + 1
    requires forall k :: k in B' && k !in B ==> k >= pc'
    ensures Sweeping(s, start, stop, small, bef, ch, aft0, n + 1, pc', B')
  {
    Advance(s, start, bef, ch, pc, pc', B, B');
    forall U: set<int> | Base(s, start, stop, bef, ch, aft0) <= U && Closed(s, start, stop, U) ensures B' <= U {
      Within(s, start, stop, bef, ch, aft0, pc, B, U);
    }
    FarOn(s, start, stop, small, pc, B, B', pc');
  }

  lemma {:induction false} FarOn(s: seq<Sop>, start: nat, stop: nat, small: bool, pc: nat, B: set<int>, B': set<int>,
                                 pc': nat)
    requires start <= pc < stop <= |s| && AllPaired(s, start, stop) && NoneFar(s, small, start, pc, B)
    requires pc' == if GoesBack(s, small, pc, B, B') then pc - s[pc].n else pc + 1
    requires forall k :: k in B' && k !in B ==> k >= pc'
    ensures NoneFar(s, small, start, pc', B')
  {
    forall k | start <= k < pc' && small ensures !FarAt(s, k, B') {
      assert k in Pairs(s, start, stop);
      if k < pc { assert !FarAt(s, k, B); }
    }
  }

  /** Going back with nothing new is going back for ever. */
  lemma {:induction false} SameAgain(s: seq<Sop>, start: nat, stop: nat, small: bool, bef: set<int>, ch: Input,
                                     aft0: set<int>, n: nat, pc: nat, B: set<int>)
    requires start <= pc < stop <= |s| && GoesBack(s, small, pc, B, B)
    requires Sweeping(s, start, stop, small, bef, ch, aft0, n, pc, B)
    ensures small && forall m: nat :: Turns(s, stop, small, bef, ch, Sweep(start, aft0), m).pc < stop
    ensures forall L: set<int> :: Least(s, start, stop, Base(s, start, stop, bef, ch, aft0), L) ==>
              Far(s, start, stop, L)
  {
    forall m: nat ensures Turns(s, stop, small, bef, ch, Sweep(start, aft0), m).pc < stop {
      if m >= n { NeverBeyond(s, stop, bef, ch, Sweep(start, aft0), n, m, pc); }
    }
    forall L: set<int> | Least(s, start, stop, Base(s, start, stop, bef, ch, aft0), L) ensures Far(s, start, stop, L) {
      assert FarAt(s, pc, L);
    }
  }

  /** All states there is room for. */
  ghost function All(st: States): set<int> { Bits(Large(seq(Size(st), _ => true))) }

  /** One turn; same tells that it went back with nothing new. */
  method OneTurn(s: seq<Sop>, start: nat, stop: nat, pc: nat, bef: States, ch: Input, aft0: States, here: OneState)
    returns (aft: States, pc': nat, here': OneState, same: bool)
    requires 1 <= start <= pc < stop <= |s| && AllPaired(s, start, stop)
    requires Alike(bef, aft0) && stop < Size(aft0) && Denotes(here, aft0, pc)
    ensures Alike(aft, aft0) && Denotes(here', aft, pc')
    ensures Bits(aft) == Moved(s, Bits(bef), ch, pc, Bits(aft0))
    ensures start <= pc' == if GoesBack(s, aft0.Small?, pc, Bits(aft0), Bits(aft)) then pc - s[pc].n else pc + 1
    ensures forall k :: k in Bits(aft) && k !in Bits(aft0) ==> k >= pc'
    ensures same <==> GoesBack(s, aft0.Small?, pc, Bits(aft0), Bits(aft)) && Bits(aft) == Bits(aft0)
    ensures All(aft0) - Bits(aft) <= All(aft0) - Bits(aft0)
    ensures same || pc' > pc || All(aft0) - Bits(aft) < All(aft0) - Bits(aft0)
  {
    var back;
    aft, back := Execute(s, start, stop, pc, bef, ch, aft0, here);
    same := back && Eq(aft, aft0);
    pc', here' := pc, here;
    if back {
      // the loop's body must be reconsidered; the increment below goes to its head
      pc' := pc' - (Opnd(s[pc']) + 1);
      here' := Init(aft, pc');
    }
    pc' := pc' + 1;
    here' := Inc(here');
    assert Bits(aft) <= All(aft0);
  }

  /** The same, with what it does to the sweep. */
  method TurnOn(s: seq<Sop>, start: nat, stop: nat, pc: nat, bef: States, ch: Input, was: States, here: OneState,
                ghost A0: set<int>, ghost n: nat)
    returns (aft: States, pc': nat, here': OneState, same: bool, ghost n': nat)
    requires 1 <= start <= pc < stop <= |s| && AllPaired(s, start, stop)
    requires Alike(bef, was) && stop < Size(was) && Denotes(here, was, pc)
    requires Sweeping(s, start, stop, was.Small?, Bits(bef), ch, A0, n, pc, Bits(was))
    ensures Alike(aft, was) && Denotes(here', aft, pc') && start <= pc'
    ensures if same then aft == was && n' == n && GoesBack(s, aft.Small?, pc, Bits(aft), Bits(aft))
            else Sweeping(s, start, stop, aft.Small?, Bits(bef), ch, A0, n', pc', Bits(aft))
    ensures All(was) - Bits(aft) <= All(was) - Bits(was)
    ensures same || pc' > pc || All(was) - Bits(aft) < All(was) - Bits(was)
  {
    aft, pc', here', same := OneTurn(s, start, stop, pc, bef, ch, was, here);
    n' := n;
    if same {
      BitsInjective(aft, was);
    } else {
      SweepOn(s, start, stop, was.Small?, Bits(bef), ch, A0, n, pc, Bits(was), Bits(aft), pc');
      n' := n + 1;
    }
  }

  /** The loop: up the strip, and back to a loop's head as the loop's end says.  Going back with
      nothing new, it would do so for ever, and the model stops: same. */
  method SweepUp(s: seq<Sop>, start: nat, stop: nat, bef: States, ch: Input, aft0: States)
    returns (aft: States, same: bool, ghost n: nat, ghost q: nat)
    requires 1 <= start <= stop <= |s| && AllPaired(s, start, stop)
    requires Alike(bef, aft0) && stop < Size(aft0)
    ensures Alike(aft, aft0) && start <= q <= stop
    ensures Sweeping(s, start, stop, aft0.Small?, Bits(bef), ch, Bits(aft0), n, q, Bits(aft))
    ensures if same then q < stop && GoesBack(s, aft0.Small?, q, Bits(aft), Bits(aft)) else q == stop
  {
    aft := aft0;
    var pc: nat := start;
    var here := Init(aft, pc);
    n := 0;
    ghost var A0 := Bits(aft0);
    while pc != stop
      invariant start <= pc <= stop && Alike(aft, aft0) && Denotes(here, aft, pc)
      invariant Sweeping(s, start, stop, aft.Small?, Bits(bef), ch, A0, n, pc, Bits(aft))
      decreases All(aft0) - Bits(aft), stop - pc
    {
      q := pc;
      aft, pc, here, same, n := TurnOn(s, start, stop, pc, bef, ch, aft, here, A0, n);
      if same { return; }
    }
    same, q := false, stop;
  }

  /** The least closed set that holds aft and the successors of bef under ch, if the loop ends. */
  method Step(s: seq<Sop>, start: nat, stop: nat, bef: States, ch: Input, aft0: States) returns (r: Course<States>)
    requires 1 <= start <= stop <= |s| && AllPaired(s, start, stop)
    requires Alike(bef, aft0) && stop < Size(aft0)
    ensures r.Returned? ==> Alike(r.value, aft0)
    ensures r.Returned? ==> Least(s, start, stop, Base(s, start, stop, Bits(bef), ch, Bits(aft0)), Bits(r.value))
    ensures r.Returned? && aft0.Small? ==> !Far(s, start, stop, Bits(r.value))
    ensures r.Endless? ==> aft0.Small? && forall L: set<int> ::
      Least(s, start, stop, Base(s, start, stop, Bits(bef), ch, Bits(aft0)), L) ==> Far(s, start, stop, L)
    ensures r.Returned? ==> exists n: nat ::
      Turns(s, stop, aft0.Small?, Bits(bef), ch, Sweep(start, Bits(aft0)), n) == Sweep(stop, Bits(r.value))
    ensures r.Endless? ==> forall n: nat ::
      Turns(s, stop, aft0.Small?, Bits(bef), ch, Sweep(start, Bits(aft0)), n).pc < stop
  {
    var aft, same;
    ghost var n, q;
    aft, same, n, q := SweepUp(s, start, stop, bef, ch, aft0);
    if same {
      SameAgain(s, start, stop, aft0.Small?, Bits(bef), ch, Bits(aft0), n, q, Bits(aft));
      r := Endless;
    } else {
      SweptAll(s, start, stop, Bits(bef), ch, Bits(aft0), Bits(aft));
      r := Returned(aft);
    }
  }

  /** A further step over nothing changes nothing. */
  lemma Settled(s: seq<Sop>, lo: nat, hi: nat, base: set<int>, B: set<int>, T: set<int>)
    requires hi <= |s| && Least(s, lo, hi, base, B) && Least(s, lo, hi, Base(s, lo, hi, B, NOTHING, B), T)
    ensures T == B
  {
  }
}
