/** How pops and pushes of the lock-free container end, over whole runs, and that they do when
    nobody gets in their way (src/fc/atomic_container.h). */
module Pops {
  import opened Container

  // ----- Whole operations in a run -----

  /** t begins operation a at i, and has not come back to Idle by j. */
  ghost predicate Under(ss: seq<State>, ms: seq<Move>, i: nat, j: nat, t: Thread, a: Action) {
    && Run(ss, ms) && i < j < |ss| && ms[i] == Move(t, a)
    && forall k :: i < k <= j ==> t in ss[k].pc && ss[k].pc[t] != Idle
  }

  predicate Stays(s: State, s': State, t: Thread) {
    && t in s.pc && t in s'.pc && s'.pc[t] == s.pc[t]
    && (t in s.ret <==> t in s'.ret) && (t in s.ret ==> s'.ret[t] == s.ret[t])
  }

  /** The steps of others leave t where it stands. */
  lemma {:induction false} OthersLeave(s: State, u: Thread, a: Action, t: Thread)
    requires Enabled(s, u, a) && t in s.pc && u != t
    ensures Stays(s, Step(s, u, a), t)
  {
    if a == Go {
      if s.pc[u].PopStart? || s.pc[u].PopLoop? || s.pc[u].PopCas? {
        PoppersLeave(s, u, t);
      } else if IsSlow(s.pc[u]) {
        SlowLeave(s, u, t);
      }
    }
  }

  lemma PoppersLeave(s: State, u: Thread, t: Thread)
    requires Enabled(s, u, Go) && (s.pc[u].PopStart? || s.pc[u].PopLoop? || s.pc[u].PopCas?) && t in s.pc && u != t
    ensures Stays(s, Step(s, u, Go), t)
  {
  }

  lemma SlowLeave(s: State, u: Thread, t: Thread)
    requires Enabled(s, u, Go) && IsSlow(s.pc[u]) && t in s.pc && u != t
    ensures Stays(s, Step(s, u, Go), t)
  {
    if InLock(s.pc[u]) { LockedLeave(s, u, t); }
  }

  lemma LockedLeave(s: State, u: Thread, t: Thread)
    requires Enabled(s, u, Go) && InLock(s.pc[u]) && t in s.pc && u != t
    ensures Stays(s, Step(s, u, Go), t)
  {
  }

  predicate Pushing(pc: PC) {
    pc.PushStart? || pc.PushLink? || pc.PushCas?
  }

  /** Step k made t the holder of x, the first item of the list it had cut loose. */
  ghost predicate Installs(ss: seq<State>, ms: seq<Move>, k: nat, t: Thread, x: Item) {
    && k < |ms| && k < |ss| - 1 && ms[k].t == t && t in ss[k].pc && ss[k].pc[t].SlowInstall?
    && TakesHead(ss[k], ms[k], ss[k + 1], x)
  }

  /** At step k t has looked for a list to cut loose while both lists are empty. */
  ghost predicate FindsNothing(ss: seq<State>, ms: seq<Move>, k: nat, t: Thread) {
    && k < |ms| && k < |ss| && ms[k] == Move(t, Go) && t in ss[k].pc && ss[k].pc[t] == SlowSwap
    && ss[k].actives == [] && ss[k].backups == []
  }

  /** What t, under way with a pop begun at i, is about to return at j it has just found out. */
  ghost predicate Found(ss: seq<State>, ms: seq<Move>, i: nat, j: nat, t: Thread)
    requires j < |ss| && t in ss[j].pc
  {
    var pc := ss[j].pc[t];
    && !Pushing(pc)
    && (pc.SlowRelease? && pc.r.To? ==> exists k: nat :: i < k < j && Installs(ss, ms, k, t, pc.r.x))
    && (pc == SlowRelease(NULL) ==> exists k: nat :: i < k < j && FindsNothing(ss, ms, k, t) &&
                                       forall m :: k < m <= j ==> t in ss[m].pc && ss[m].pc[t] == pc)
  }

  lemma {:induction false} PopPath(ss: seq<State>, ms: seq<Move>, i: nat, j: nat, t: Thread)
    requires Under(ss, ms, i, j, t, Pop)
    ensures Found(ss, ms, i, j, t)
    decreases j
  {
    var k := j - 1;
    assert Follows(ss[k], ms[k], ss[k + 1]);
    if k > i {
      PopPath(ss, ms, i, k, t);
      if ms[k].t == t {
        PopOn(ss, ms, i, k, t);
      } else {
        OthersLeave(ss[k], ms[k].t, ms[k].a, t);
        FoundStill(ss, ms, i, k, t);
      }
    }
  }

  lemma {:induction false} FoundStill(ss: seq<State>, ms: seq<Move>, i: nat, k: nat, t: Thread)
    requires k + 1 < |ss| && t in ss[k].pc && t in ss[k + 1].pc && ss[k + 1].pc[t] == ss[k].pc[t]
    requires Found(ss, ms, i, k, t)
    ensures Found(ss, ms, i, k + 1, t)
  {
    var pc := ss[k].pc[t];
    if pc == SlowRelease(NULL) {
      var l: nat :| i < l < k && FindsNothing(ss, ms, l, t) &&
                    forall m :: l < m <= k ==> t in ss[m].pc && ss[m].pc[t] == pc;
      assert i < l < k + 1 && FindsNothing(ss, ms, l, t);
    }
  }

  lemma {:induction false} PopOn(ss: seq<State>, ms: seq<Move>, i: nat, k: nat, t: Thread)
    requires Under(ss, ms, i, k + 1, t, Pop) && i < k && ms[k].t == t && Found(ss, ms, i, k, t)
    ensures Found(ss, ms, i, k + 1, t)
  {
    RunInv(ss, ms, k);
    assert Follows(ss[k], ms[k], ss[k + 1]) && ms[k].a == Go;
    PopGoes(ss[k], t);
    var pc := ss[k + 1].pc[t];
    if pc == SlowRelease(NULL) {
      assert FindsNothing(ss, ms, k, t);
    } else if pc.SlowRelease? {
      assert Installs(ss, ms, k, t, pc.r.x);
    }
  }

  /** What a step of a pop under way may come to. */
  lemma {:induction false} PopGoes(s: State, t: Thread)
    requires Inv(s) && Enabled(s, t, Go) && !Pushing(s.pc[t])
    ensures var s' := Step(s, t, Go);
            && t in s'.pc && !Pushing(s'.pc[t])
            && (s'.pc[t] == SlowRelease(NULL) ==> s.pc[t] == SlowSwap && s.actives == [] && s.backups == [])
            && (s'.pc[t].SlowRelease? && s'.pc[t].r.To? ==>
                  s.pc[t].SlowInstall? && TakesHead(s, Move(t, Go), s', s'.pc[t].r.x))
  {
    StillPopping(s, t);
    if s.pc[t].SlowInstall? {
      InstallGoes(s, t);
    } else if s.pc[t].SlowSwap? {
      SwapGoes(s, t);
    }
  }

  lemma StillPopping(s: State, t: Thread)
    requires Enabled(s, t, Go) && !Pushing(s.pc[t])
    ensures t in Step(s, t, Go).pc && !Pushing(Step(s, t, Go).pc[t])
  {
    if InLock(s.pc[t]) { LockedStill(s, t); }
  }

  lemma LockedStill(s: State, t: Thread)
    requires Enabled(s, t, Go) && InLock(s.pc[t])
    ensures t in Step(s, t, Go).pc && !Pushing(Step(s, t, Go).pc[t])
  {
  }

  lemma {:induction false} SwapGoes(s: State, t: Thread)
    requires Inv(s) && Enabled(s, t, Go) && s.pc[t].SlowSwap?
    ensures s.actives == [] && (s.backup == NULL <==> s.backups == [])
  {
    assert Local(s, t);
    ChainHead(s.next, s.backup, s.backups);
  }

  lemma {:induction false} InstallGoes(s: State, t: Thread)
    requires Inv(s) && Enabled(s, t, Go) && s.pc[t].SlowInstall?
    ensures var s' := Step(s, t, Go);
            t in s'.pc && s'.pc[t].SlowRelease? && s'.pc[t].r.To? && TakesHead(s, Move(t, Go), s', s'.pc[t].r.x)
  {
    assert Local(s, t);
  }

  /** However a pop comes to its end, it returns the item at the head of a list, which it has
      just taken, or nothing, having found both lists empty when it last looked. */
  lemma {:induction false} PopEnds(ss: seq<State>, ms: seq<Move>, i: nat, j: nat, t: Thread)
    requires Under(ss, ms, i, j, t, Pop) && j < |ms| && t in ss[j + 1].pc && ss[j + 1].pc[t] == Idle
    ensures ms[j] == Move(t, Go) && t in ss[j + 1].ret
    ensures var r := ss[j + 1].ret[t];
            if r.To? then
              && Holds(ss[j + 1], t, r.x)
              && (TakesHead(ss[j], ms[j], ss[j + 1], r.x) || exists k: nat :: i < k < j && Installs(ss, ms, k, t, r.x))
            else
              exists k: nat :: i < k < j && FindsNothing(ss, ms, k, t) &&
                 forall m :: k < m <= j ==> t in ss[m].pc && ss[m].pc[t] == SlowRelease(NULL)
  {
    PopPath(ss, ms, i, j, t);
    RunInv(ss, ms, j);
    assert Follows(ss[j], ms[j], ss[j + 1]);
    if ms[j].t != t { OthersLeave(ss[j], ms[j].t, ms[j].a, t); }
    LastStep(ss[j], t, ms[j].a);
  }

  /** A pop comes to its end by a CAS that takes effect, or by releasing the lock. */
  lemma {:induction false} LastStep(s: State, t: Thread, a: Action)
    requires Inv(s) && Timely(s, t) && Enabled(s, t, a) && s.pc[t] != Idle && !Pushing(s.pc[t])
    requires t in Step(s, t, a).pc && Step(s, t, a).pc[t] == Idle
    ensures var s' := Step(s, t, a);
            && a == Go && t in s'.ret && (s'.ret[t].To? ==> Holds(s', t, s'.ret[t].x))
            && (|| s.pc[t] == SlowRelease(s'.ret[t])
                || (s.pc[t].PopCas? && s'.ret[t].To? && TakesHead(s, Move(t, Go), s', s'.ret[t].x)))
  {
    assert Local(s, t);
    if s.pc[t].PopCas? { Unswapped(s, t); }
  }

  /** A push comes to its end only by putting its item on top of the backup list. */
  lemma {:induction false} PushPath(ss: seq<State>, ms: seq<Move>, i: nat, j: nat, t: Thread, x: Item)
    requires Under(ss, ms, i, j, t, Push(x))
    ensures Pushing(ss[j].pc[t]) && ss[j].pc[t].x == x
    decreases j
  {
    var k := j - 1;
    assert Follows(ss[k], ms[k], ss[k + 1]);
    if k > i {
      PushPath(ss, ms, i, k, t, x);
      if ms[k].t != t { OthersLeave(ss[k], ms[k].t, ms[k].a, t); }
    }
  }

  lemma {:induction false} PushEnds(ss: seq<State>, ms: seq<Move>, i: nat, j: nat, t: Thread, x: Item)
    requires Under(ss, ms, i, j, t, Push(x)) && j < |ms| && t in ss[j + 1].pc && ss[j + 1].pc[t] == Idle
    ensures ms[j] == Move(t, Go) && Holds(ss[j], t, x)
    ensures ss[j + 1].backups == [x] + ss[j].backups && ss[j + 1].place == ss[j].place[x := InBackup]
    ensures ss[j + 1].actives == ss[j].actives && ss[j + 1].ret == ss[j].ret
  {
    PushPath(ss, ms, i, j, t, x);
    RunInv(ss, ms, j);
    assert Follows(ss[j], ms[j], ss[j + 1]) && Local(ss[j], t);
    if ms[j].t != t { OthersLeave(ss[j], ms[j].t, ms[j].a, t); }
  }

  // ----- A thread that nobody gets in the way of -----

  /** More than the steps t still has to take, nobody else moving. */
  function Rank(s: State, t: Thread): (r: nat)
    requires t in s.pc
    ensures r <= 11
  {
    var empty := s.active.p == NULL;
    match s.pc[t]
    case Idle => 0
    case PopStart => if empty then 10 else 3
    case PopLoop(prior, _, _) =>
      if prior.p == NULL then (if empty then 9 else 6)
      else if empty then 11 else if prior == s.active then 2 else 4
    case PopCas(prior, _, _, _) => if s.active == prior then 1 else if empty then 10 else 3
    case SlowStart => if empty then 8 else 5
    case SlowSpin(a) => if a != NULL then (if empty then 11 else 4) else 7
    case SlowReread => if empty then 8 else 5
    case SlowLock => 6
    case SlowCheck => 5
    case SlowUnlock => if empty then 11 else 4
    case SlowSwap => 4
    case SlowNext(_) => 3
    case SlowInstall(_, _) => 2
    case SlowRelease(_) => 1
    case PushStart(_) => 3
    case PushLink(_, top) => if top == s.backup then 2 else 4
    case PushCas(_, top) => if top == s.backup then 1 else 3
  }

  predicate Free(s: State, t: Thread) {
    s.holder == [] || s.holder == [t]
  }

  ghost predicate NearerBy(s: State, s': State, t: Thread) {
    t in s.pc && t in s'.pc && Rank(s', t) < Rank(s, t) && Free(s', t)
  }

  /** Each step of a thread brings it nearer to its end, unless another one holds the lock. */
  lemma {:induction false} Nearer(s: State, t: Thread)
    requires Inv(s) && Enabled(s, t, Go) && Free(s, t)
    ensures NearerBy(s, Step(s, t, Go), t)
  {
    if InLock(s.pc[t]) {
      assert Local(s, t);
      LockedNearer(s, t);
    } else if IsSlow(s.pc[t]) {
      SlowNearer(s, t);
    } else if !Pushing(s.pc[t]) {
      PopNearer(s, t);
    }
  }

  lemma LockedNearer(s: State, t: Thread)
    requires Enabled(s, t, Go) && s.holder == [t] && InLock(s.pc[t]) && (s.pc[t].SlowInstall? ==> s.pc[t].list != [])
    ensures NearerBy(s, Step(s, t, Go), t)
  {
  }

  lemma SlowNearer(s: State, t: Thread)
    requires Inv(s) && Enabled(s, t, Go) && Free(s, t) && IsSlow(s.pc[t]) && !InLock(s.pc[t])
    ensures NearerBy(s, Step(s, t, Go), t)
  {
    assert s.holder != [t] && !s.locked;
  }

  lemma PopNearer(s: State, t: Thread)
    requires Inv(s) && Enabled(s, t, Go) && Free(s, t) && (s.pc[t].PopStart? || s.pc[t].PopLoop? || s.pc[t].PopCas?)
    ensures NearerBy(s, Step(s, t, Go), t)
  {
  }

  /** s' is what a step of t makes of s. */
  ghost predicate Goes(s: State, t: Thread, s': State) {
    Enabled(s, t, Go) && s' == Step(s, t, Go)
  }

  /** t alone moves. */
  ghost predicate Solo(ss: seq<State>, t: Thread) {
    ss != [] && forall i :: 0 < i < |ss| ==> Goes(ss[i - 1], t, ss[i])
  }

  /** A popper that has not slept through eight swaps since it read _active. */
  predicate Awake(s: State, t: Thread) {
    t in s.pc && (s.pc[t].PopLoop? || s.pc[t].PopCas?) ==> s.epoch - s.pc[t].since < VERSIONS
  }

  lemma {:induction false} StaysAwake(s: State, t: Thread)
    requires Enabled(s, t, Go) && Awake(s, t)
    ensures Awake(Step(s, t, Go), t)
  {
  }

  lemma {:induction false} StepAlone(s: State, t: Thread) returns (s': State)
    requires Inv(s) && Enabled(s, t, Go) && Awake(s, t) && Free(s, t)
    ensures Goes(s, t, s') && Inv(s') && NearerBy(s, s', t) && Awake(s', t)
  {
    s' := Step(s, t, Go);
    Nearer(s, t);
    assert Inv(s') by {
      TimelyCurrent(s, t);
      StepInv(s, t, Go);
    }
    StaysAwake(s, t);
  }

  /** Left alone, a thread comes to its end within eleven steps, unless another one holds the
      lock; a popper that has not slept through eight swaps. */
  lemma {:induction false} EndsAlone(s: State, t: Thread) returns (ss: seq<State>)
    requires Inv(s) && t in s.pc && Awake(s, t) && Free(s, t)
    ensures Solo(ss, t) && ss[0] == s && |ss| <= Rank(s, t) + 1 <= 12
    ensures var s' := ss[|ss| - 1]; Inv(s') && t in s'.pc && s'.pc[t] == Idle
    decreases Rank(s, t)
  {
    ss := [s];
    if s.pc[t] != Idle {
      var s' := StepAlone(s, t);
      var ss' := EndsAlone(s', t);
      ss := [s] + ss';
      SoloOn(s, t, ss');
    }
  }

  lemma {:induction false} SoloOn(s: State, t: Thread, ss: seq<State>)
    requires Solo(ss, t) && Goes(s, t, ss[0])
    ensures Solo([s] + ss, t)
  {
    var r := [s] + ss;
    forall i | 0 < i < |r| ensures Goes(r[i - 1], t, r[i]) {
      if i > 1 { assert Goes(ss[i - 2], t, ss[i - 1]); }
    }
  }
}
