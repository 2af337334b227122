/** Eight swaps are too many: a run in which a popper sleeps through eight swaps of the lists,
    finds the word it read, and puts an item in a client's hands back on the active list. */
module Sleeping {
  import opened Container

  /** A trace leads from s to s'. */
  ghost predicate Leads(s: State, s': State) {
    exists ss, ms :: Trace(ss, ms) && ss[0] == s && ss[|ms|] == s'
  }

  lemma {:induction false} LeadsNowhere(s: State)
    ensures Leads(s, s)
  {
    assert Trace([s], []) && [s][0] == s;
  }

  lemma {:induction false} LeadsOn(s0: State, s: State, t: Thread, a: Action)
    requires Leads(s0, s) && Enabled(s, t, a) && Timely(s, t)
    ensures Leads(s0, Step(s, t, a))
  {
    var ss, ms :| Trace(ss, ms) && ss[0] == s0 && ss[|ms|] == s;
    var s', m := Step(s, t, a), Move(t, a);
    var ss', ms' := ss + [s'], ms + [m];
    forall i | 0 <= i < |ms'| ensures Follows(ss'[i], ms'[i], ss'[i + 1]) {
      if i < |ms| { assert Follows(ss[i], ms[i], ss[i + 1]); } else { assert ss'[i] == s; }
    }
    assert Trace(ss', ms') && ss'[0] == s0 && ss'[|ms'|] == s';
  }

  // ----- Whole operations of a thread nobody gets in the way of -----

  function Pushed(s: State, t: Thread, x: Item): State {
    s.(next := s.next[x := s.backup], backup := To(x), backups := [x] + s.backups, place := s.place[x := InBackup])
  }

  lemma {:induction false} PushAlone(s0: State, s: State, t: Thread, x: Item)
    requires Leads(s0, s) && Enabled(s, t, Push(x))
    ensures Leads(s0, Pushed(s, t, x))
  {
    LeadsOn(s0, s, t, Push(x));
    var s1 := Step(s, t, Push(x));
    LeadsOn(s0, s1, t, Go);
    var s2 := Step(s1, t, Go);
    LeadsOn(s0, s2, t, Go);
    var s3 := Step(s2, t, Go);
    LeadsOn(s0, s3, t, Go);
    assert s3.pc[t := Idle] == s.pc;
    assert Step(s3, t, Go) == Pushed(s, t, x);
  }

  function Popped(s: State, t: Thread): State
    requires s.actives != []
  {
    var x := s.actives[0];
    s.(active := Tagged(if x in s.next then s.next[x] else NULL, s.active.version), actives := s.actives[1..],
       place := s.place[x := Held(t)], ret := s.ret[t := To(x)])
  }

  lemma {:induction false} PopAlone(s0: State, s: State, t: Thread)
    requires Leads(s0, s) && Enabled(s, t, Pop) && s.actives != [] && s.active.p == To(s.actives[0])
    ensures Leads(s0, Popped(s, t))
  {
    LeadsOn(s0, s, t, Pop);
    var s1 := Step(s, t, Pop);
    LeadsOn(s0, s1, t, Go);
    var s2 := Step(s1, t, Go);
    LeadsOn(s0, s2, t, Go);
    var s3 := Step(s2, t, Go);
    LeadsOn(s0, s3, t, Go);
    assert s3.pc[t := Idle] == s.pc;
    assert Step(s3, t, Go) == Popped(s, t);
  }

  predicate Drained(s: State) {
    && s.active.p == NULL && s.actives == [] && !s.locked && s.holder == []
    && s.backups != [] && s.backup == To(s.backups[0])
  }

  function Swapped(s: State, t: Thread): State
    requires s.backups != []
  {
    var x := s.backups[0];
    s.(active := Tagged(if x in s.next then s.next[x] else NULL, (s.active.version + 1) % VERSIONS),
       actives := s.backups[1..], epoch := s.epoch + 1, backup := NULL, backups := [],
       place := Moved(Moved(s.place, s.backups, Detached(t)), s.backups, InActive)[x := Held(t)],
       ret := s.ret[t := To(x)])
  }

  /** pop by way of slow_pop, as far as the lock. */
  lemma {:induction false} LockAlone(s0: State, s: State, t: Thread)
    requires Leads(s0, s) && Enabled(s, t, Pop) && Drained(s)
    ensures Leads(s0, At(s, t, SlowSwap).(locked := true, holder := [t]))
  {
    SlowAlone(s0, s, t);
    var s3 := At(s, t, SlowStart);
    LeadsOn(s0, s3, t, Go);
    var s4 := Step(s3, t, Go);
    LeadsOn(s0, s4, t, Go);
    var s5 := Step(s4, t, Go);
    LeadsOn(s0, s5, t, Go);
    var s6 := Step(s5, t, Go);
    LeadsOn(s0, s6, t, Go);
    assert Step(s6, t, Go).pc == s.pc[t := SlowSwap];
  }

  lemma {:induction false} SlowAlone(s0: State, s: State, t: Thread)
    requires Leads(s0, s) && Enabled(s, t, Pop) && Drained(s)
    ensures Leads(s0, At(s, t, SlowStart))
  {
    LeadsOn(s0, s, t, Pop);
    var s1 := Step(s, t, Pop);
    LeadsOn(s0, s1, t, Go);
    var s2 := Step(s1, t, Go);
    LeadsOn(s0, s2, t, Go);
    assert Step(s2, t, Go).pc == s.pc[t := SlowStart];
  }

  /** The backup list cut loose. */
  function Cut(s: State, t: Thread): State {
    At(s, t, SlowNext(s.backups)).(locked := true, holder := [t], backup := NULL, backups := [],
                                   place := Moved(s.place, s.backups, Detached(t)))
  }

  lemma {:induction false} CutAlone(s0: State, s: State, t: Thread)
    requires Leads(s0, s) && Enabled(s, t, Pop) && Drained(s)
    ensures Leads(s0, Cut(s, t))
  {
    LockAlone(s0, s, t);
    var s1 := At(s, t, SlowSwap).(locked := true, holder := [t]);
    LeadsOn(s0, s1, t, Go);
    assert s1.pc[t := SlowNext(s.backups)] == s.pc[t := SlowNext(s.backups)];
    assert Step(s1, t, Go) == Cut(s, t);
  }

  /** The cut list but its first item made the active one. */
  function Installed(s: State, t: Thread, list: seq<Item>): State
    requires list != []
  {
    s.(active := Tagged(if list[0] in s.next then s.next[list[0]] else NULL, (s.active.version + 1) % VERSIONS),
       actives := list[1..], epoch := s.epoch + 1, locked := false, holder := [], pc := s.pc[t := Idle],
       place := Moved(s.place, list, InActive)[list[0] := Held(t)], ret := s.ret[t := To(list[0])])
  }

  lemma {:induction false} InstallAlone(s0: State, s: State, t: Thread, list: seq<Item>)
    requires Leads(s0, s) && t in s.pc && list != [] && s.pc[t] == SlowNext(list)
    ensures Leads(s0, Installed(s, t, list))
  {
    LeadsOn(s0, s, t, Go);
    var s1 := Step(s, t, Go);
    LeadsOn(s0, s1, t, Go);
    var s2 := Step(s1, t, Go);
    LeadsOn(s0, s2, t, Go);
    assert s2.pc[t := Idle] == s.pc[t := Idle];
    assert Step(s2, t, Go) == Installed(s, t, list);
  }

  lemma {:induction false} SwapAlone(s0: State, s: State, t: Thread)
    requires Leads(s0, s) && Enabled(s, t, Pop) && Drained(s)
    ensures Leads(s0, Swapped(s, t))
  {
    CutAlone(s0, s, t);
    InstallAlone(s0, Cut(s, t), t, s.backups);
    assert Cut(s, t).pc[t := Idle] == s.pc;
    assert Installed(Cut(s, t), t, s.backups) == Swapped(s, t);
  }

  // ----- The run -----

  /** Three items in the hands of thread 1. */
  function AtFirst(): State {
    State(Tagged(NULL, 0), NULL, false, map[1 := NULL, 2 := NULL, 3 := NULL], map[0 := Idle, 1 := Idle],
          [], [], map[1 := Held(1), 2 := Held(1), 3 := Held(1)], 0, [], map[])
  }

  /** Thread 0 about to do its CAS, having seen items 1 and 2 after the first swap. */
  const ASLEEP := PopCas(Tagged(To(1), 1), To(2), [1, 2], 1)

  /** All items in the hands of thread 1, which has popped last, thread 0 asleep, after e swaps. */
  function Sleeper(e: nat, first: Ptr, last: Item): State {
    State(Tagged(NULL, e % VERSIONS), NULL, false, map[1 := first, 2 := NULL, 3 := To(1)], map[0 := ASLEEP, 1 := Idle],
          [], [], map[1 := Held(1), 2 := Held(1), 3 := Held(1)], e, [], map[1 := To(last)])
  }

  lemma {:induction false} SwapBack(s: State, e: nat, first: Ptr, last: Item)
    requires s == Pushed(Sleeper(e, first, last), 1, 1)
    ensures Swapped(s, 1) == Sleeper(e + 1, NULL, 1)
  {
    assert s.next == Sleeper(e + 1, NULL, 1).next;
    assert s.backups == [1] && [1][1..] == [];
    BackPlaces(s.place, s.backups);
  }

  lemma {:induction false} BackPlaces(place: map<Item, Place>, list: seq<Item>)
    requires list == [1] && place == map[1 := InBackup, 2 := Held(1), 3 := Held(1)]
    ensures Moved(Moved(place, list, Detached(1)), list, InActive)[1 := Held(1)] ==
            map[1 := Held(1), 2 := Held(1), 3 := Held(1)]
  {
  }

  /** Pushing item 1 and popping it again swaps the lists once. */
  lemma {:induction false} OneMoreSwap(s0: State, e: nat, first: Ptr, last: Item)
    requires Leads(s0, Sleeper(e, first, last))
    ensures Leads(s0, Sleeper(e + 1, NULL, 1))
  {
    var s := Pushed(Sleeper(e, first, last), 1, 1);
    PushAlone(s0, Sleeper(e, first, last), 1, 1);
    SwapAlone(s0, s, 1);
    SwapBack(s, e, first, last);
  }

  lemma {:induction false} MoreSwaps(s0: State, e: nat, first: Ptr, last: Item, n: nat)
    requires Leads(s0, Sleeper(e, first, last)) && n > 0
    ensures Leads(s0, Sleeper(e + n, NULL, 1))
  {
    if n == 1 {
      OneMoreSwap(s0, e, first, last);
    } else {
      MoreSwaps(s0, e, first, last, n - 1);
      OneMoreSwap(s0, e + n - 1, NULL, 1);
    }
  }

  /** Items 1 and 2 on the active list after one swap, item 3 in the hands of thread 1. */
  function Stacked(pc: PC): State {
    State(Tagged(To(1), 1), NULL, false, map[1 := To(2), 2 := NULL, 3 := To(1)], map[0 := pc, 1 := Idle],
          [1, 2], [], map[1 := InActive, 2 := InActive, 3 := Held(1)], 1, [], map[1 := To(3)])
  }

  /** What thread 1 has pushed, all else as at first. */
  function Loaded(list: seq<Item>, next: map<Item, Ptr>, place: map<Item, Place>): State {
    AtFirst().(backup := Head(list), backups := list, next := next, place := place)
  }

  lemma {:induction false} Stacking(s: State)
    requires s == AtFirst()
    ensures Leads(s, Stacked(Idle))
  {
    LeadsNowhere(s);
    PushAlone(s, s, 1, 2);
    var s1 := Loaded([2], map[1 := NULL, 2 := NULL, 3 := NULL], map[1 := Held(1), 2 := InBackup, 3 := Held(1)]);
    assert Pushed(s, 1, 2) == s1;
    PushAlone(s, s1, 1, 1);
    var s2 := Loaded([1, 2], map[1 := To(2), 2 := NULL, 3 := NULL], map[1 := InBackup, 2 := InBackup, 3 := Held(1)]);
    assert Pushed(s1, 1, 1) == s2;
    PushAlone(s, s2, 1, 3);
    var s3 := Loaded([3, 1, 2], Stacked(Idle).next, map[1 := InBackup, 2 := InBackup, 3 := InBackup]);
    assert Pushed(s2, 1, 3) == s3;
    SwapAlone(s, s3, 1);
    StackedIs(s3);
  }

  lemma {:induction false} StackedIs(s: State)
    requires s == Loaded([3, 1, 2], Stacked(Idle).next, map[1 := InBackup, 2 := InBackup, 3 := InBackup])
    ensures Swapped(s, 1) == Stacked(Idle)
  {
    assert s.backups[1..] == [1, 2];
    StackedPlaces(s.place, s.backups);
  }

  lemma {:induction false} StackedPlaces(place: map<Item, Place>, list: seq<Item>)
    requires list == [3, 1, 2] && place == map[1 := InBackup, 2 := InBackup, 3 := InBackup]
    ensures Moved(Moved(place, list, Detached(1)), list, InActive)[3 := Held(1)] == Stacked(Idle).place
  {
  }

  /** Thread 0 falls asleep before its CAS; thread 1 pops both items. */
  lemma {:induction false} FallsAsleep(s0: State)
    requires Leads(s0, Stacked(Idle))
    ensures Leads(s0, Stacked(ASLEEP))
  {
    var s := Stacked(Idle);
    LeadsOn(s0, s, 0, Pop);
    var s1 := Step(s, 0, Pop);
    LeadsOn(s0, s1, 0, Go);
    var s2 := Step(s1, 0, Go);
    LeadsOn(s0, s2, 0, Go);
    assert Step(s2, 0, Go) == Stacked(ASLEEP);
  }

  lemma {:induction false} PopsBoth(s0: State)
    requires Leads(s0, Stacked(ASLEEP))
    ensures Leads(s0, Sleeper(1, To(2), 2))
  {
    PopAlone(s0, Stacked(ASLEEP), 1);
    var s := Popped(Stacked(ASLEEP), 1);
    assert s.actives == [2];
    PopAlone(s0, s, 1);
    assert Popped(s, 1).actives == [] && Popped(s, 1).place == Sleeper(1, To(2), 2).place;
  }

  /** Item 1 back on the active list after the eighth swap since, item 2 in the hands of thread 1. */
  function Woken(): State {
    State(Tagged(To(1), 1), NULL, false, map[1 := NULL, 2 := NULL, 3 := To(1)], map[0 := ASLEEP, 1 := Idle],
          [1], [], map[1 := InActive, 2 := Held(1), 3 := Held(1)], 9, [], map[1 := To(3)])
  }

  lemma {:induction false} LastSwap(s0: State)
    requires Leads(s0, Sleeper(8, NULL, 1))
    ensures Leads(s0, Woken())
  {
    var s := Sleeper(8, NULL, 1);
    PushAlone(s0, s, 1, 1);
    var s1 := Pushed(s, 1, 1);
    PushAlone(s0, s1, 1, 3);
    var s2 := Pushed(s1, 1, 3);
    SwapAlone(s0, s2, 1);
    WokenIs(s2);
  }

  lemma {:induction false} WokenIs(s: State)
    requires s == Pushed(Pushed(Sleeper(8, NULL, 1), 1, 1), 1, 3)
    ensures Drained(s) && Swapped(s, 1) == Woken()
  {
    assert s.backups == [3, 1] && s.backups[1..] == [1];
    WokenPlaces(s.place, s.backups);
    assert s.next == Woken().next;
  }

  lemma {:induction false} WokenPlaces(place: map<Item, Place>, list: seq<Item>)
    requires list == [3, 1] && place == map[1 := InBackup, 2 := Held(1), 3 := InBackup]
    ensures Moved(Moved(place, list, Detached(1)), list, InActive)[3 := Held(1)] == Woken().place
  {
  }

  /** Seven is the most: a run, all of whose steps are timely, comes to a state where thread 0,
      eight swaps after its read, is about to make item 2 the head of the active list, though
      item 2 is in the hands of thread 1. */
  lemma {:induction false} EightSwapsBreakIt() returns (ss: seq<State>, ms: seq<Move>)
    ensures Run(ss, ms)
    ensures var s := ss[|ms|];
      && Enabled(s, 0, Go) && s.pc[0].PopCas? && s.epoch - s.pc[0].since == VERSIONS
      && 2 in s.place && s.place[2] == Held(1)
      && Step(s, 0, Go).active.p == To(2) && Step(s, 0, Go).place == s.place[1 := Held(0)]
      && !Inv(Step(s, 0, Go))
  {
    var s0 := AtFirst();
    ComesAbout(s0);
    ss, ms :| Trace(ss, ms) && ss[0] == s0 && ss[|ms|] == Woken();
    RunInv(ss, ms, |ms|);
    Breaks(ss[|ms|]);
  }

  lemma {:induction false} ComesAbout(s0: State)
    requires s0 == AtFirst()
    ensures Leads(s0, Woken())
  {
    Stacking(s0);
    FallsAsleep(s0);
    PopsBoth(s0);
    MoreSwaps(s0, 1, To(2), 2, 7);
    LastSwap(s0);
  }

  lemma {:induction false} Breaks(s: State)
    requires s == Woken() && Inv(s)
    ensures Enabled(s, 0, Go) && !Inv(Step(s, 0, Go))
    ensures Step(s, 0, Go).active.p == To(2) && Step(s, 0, Go).place == s.place[1 := Held(0)]
  {
    StepExactly(s, 0, Go);
  }
}
