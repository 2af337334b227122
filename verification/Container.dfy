/** The lock-free container: two lists, a lock taken only to swap them, and a three-bit
    version in the head of the active one (src/fc/atomic_container.h).  Threads interleave
    at single reads and writes of shared memory. */
module Container {
  import opened Sequences

  type Thread = nat
  type Item = nat

  datatype Ptr = NULL | To(x: Item)

  /** _active: a pointer with a version in its low bits. */
  datatype Tagged = Tagged(p: Ptr, version: nat)

  const VERSIONS: nat := 8

  /** Where a thread stands: what it does next, and the local variables it needs.
      seen and since are auxiliary: the active list and the epoch when prior was read. */
  datatype PC =
    | Idle
    | PopStart                                                        // read _active
    | PopLoop(prior: Tagged, seen: seq<Item>, since: nat)               // test prior, read its next
    | PopCas(prior: Tagged, nxt: Ptr, seen: seq<Item>, since: nat)      // CAS _active
    | SlowStart                                                       // read _active
    | SlowSpin(a: Ptr)                                                // read _locked
    | SlowReread                                                      // read _active
    | SlowLock                                                        // swap _locked
    | SlowCheck                                                       // read _active, holding the lock
    | SlowUnlock                                                      // release the lock, pop again
    | SlowSwap                                                        // swap _backup
    | SlowNext(list: seq<Item>)                                       // read the next of the first item
    | SlowInstall(list: seq<Item>, nxt: Ptr)                          // write _active
    | SlowRelease(r: Ptr)                                             // release the lock, return r
    | PushStart(x: Item)                                              // read _backup
    | PushLink(x: Item, top: Ptr)                                     // write x's next
    | PushCas(x: Item, top: Ptr)                                      // CAS _backup

  datatype Place = InActive | InBackup | Detached(t: Thread) | Held(t: Thread)

  /** Shared memory and threads, with what each thread's last pop has returned; actives, backups,
      place, epoch and holder are auxiliary. */
  datatype State = State(
    active: Tagged,
    backup: Ptr,
    locked: bool,
    next: map<Item, Ptr>,
    pc: map<Thread, PC>,
    actives: seq<Item>,
    backups: seq<Item>,
    place: map<Item, Place>,
    epoch: nat,
    holder: seq<Thread>,
    ret: map<Thread, Ptr>)

  /** What a thread may begin when idle; otherwise it goes on. */
  datatype Action = Go | Pop | Push(x: Item) | Scribble(x: Item, v: Ptr) | Give(x: Item, to: Thread)

  predicate Holds(s: State, t: Thread, x: Item) {
    x in s.place && x in s.next && s.place[x] == Held(t)
  }

  predicate Enabled(s: State, t: Thread, a: Action) {
    && t in s.pc
    && match a
       case Go => s.pc[t] != Idle
       case Pop => s.pc[t] == Idle
       case Push(x) => s.pc[t] == Idle && Holds(s, t, x)
       case Scribble(x, _) => s.pc[t] == Idle && Holds(s, t, x)
       case Give(x, to) => s.pc[t] == Idle && Holds(s, t, x) && to in s.pc
  }

  function Head(list: seq<Item>): Ptr {
    if list == [] then NULL else To(list[0])
  }

  function At(s: State, t: Thread, pc: PC): State {
    s.(pc := s.pc[t := pc])
  }

  function Rest(list: seq<Item>): seq<Item> {
    if list == [] then [] else list[1..]
  }

  /** Moves all items of a list. */
  function Moved(place: map<Item, Place>, list: seq<Item>, p: Place): map<Item, Place> {
    map x | x in place :: if x in list then p else place[x]
  }

  /** One atomic step of thread t. */
  function Step(s: State, t: Thread, a: Action): State
    requires Enabled(s, t, a)
  {
    match a
    case Pop => At(s, t, PopStart)
    case Push(x) => At(s, t, PushStart(x))
    case Scribble(x, v) => s.(next := s.next[x := v])
    case Give(x, to) => s.(place := s.place[x := Held(to)])
    case Go =>
      match s.pc[t]
      case Idle => s
      case PopStart => At(s, t, PopLoop(s.active, s.actives, s.epoch))
      case PopLoop(prior, seen, since) =>
        if prior.p == NULL then At(s, t, SlowStart)
        else At(s, t, PopCas(prior, if prior.p.x in s.next then s.next[prior.p.x] else NULL, seen, since))
      case PopCas(prior, nxt, seen, since) =>
        if s.active == prior then
          At(s, t, Idle).(active := Tagged(nxt, prior.version), actives := Rest(s.actives),
                          place := if prior.p.To? then s.place[prior.p.x := Held(t)] else s.place,
                          ret := s.ret[t := prior.p])
        else At(s, t, PopLoop(s.active, s.actives, s.epoch))
      case SlowStart => At(s, t, SlowSpin(s.active.p))
      case SlowSpin(p) =>
        if s.locked && p == NULL then At(s, t, SlowReread)
        else if p != NULL then At(s, t, PopStart)
        else At(s, t, SlowLock)
      case SlowReread => At(s, t, SlowSpin(s.active.p))
      case SlowLock =>
        if s.locked then At(s, t, SlowSpin(NULL))
        else At(s, t, SlowCheck).(locked := true, holder := [t])
      case SlowCheck => At(s, t, if s.active.p == NULL then SlowSwap else SlowUnlock)
      case SlowUnlock => At(s, t, PopStart).(locked := false, holder := [])
      case SlowSwap =>
        if s.backup == NULL then At(s, t, SlowRelease(NULL))
        else At(s, t, SlowNext(s.backups)).(backup := NULL, backups := [],
                                             place := Moved(s.place, s.backups, Detached(t)))
      case SlowNext(list) =>
        At(s, t, SlowInstall(list, if list != [] && list[0] in s.next then s.next[list[0]] else NULL))
      case SlowInstall(list, nxt) =>
        if list == [] then s
        else
          At(s, t, SlowRelease(To(list[0]))).(
            active := Tagged(nxt, (s.active.version + 1) % VERSIONS), actives := list[1..], epoch := s.epoch + 1,
            place := Moved(s.place, list, InActive)[list[0] := Held(t)])
      case SlowRelease(r) => At(s, t, Idle).(locked := false, holder := [], ret := s.ret[t := r])
      case PushStart(x) => At(s, t, PushLink(x, s.backup))
      case PushLink(x, top) => At(s, t, PushCas(x, top)).(next := s.next[x := top])
      case PushCas(x, top) =>
        if s.backup == top then
          At(s, t, Idle).(backup := To(x), backups := [x] + s.backups, place := s.place[x := InBackup])
        else At(s, t, PushLink(x, s.backup))
  }

  // ----- What every reachable state satisfies -----

  ghost predicate Chain(next: map<Item, Ptr>, p: Ptr, list: seq<Item>)
    decreases |list|
  {
    if list == [] then p == NULL
    else p == To(list[0]) && list[0] in next && Chain(next, next[list[0]], list[1..])
  }

  predicate Suffix(a: seq<Item>, b: seq<Item>) {
    |a| <= |b| && b[|b| - |a|..] == a
  }

  /** The items of list are those with place p. */
  ghost predicate Lists(s: State, list: seq<Item>, p: Place) {
    NoDup(list) && forall x :: x in list <==> x in s.place && s.place[x] == p
  }

  ghost predicate Chains(s: State) {
    && Chain(s.next, s.active.p, s.actives) && Chain(s.next, s.backup, s.backups)
    && s.active.version == s.epoch % VERSIONS
  }

  ghost predicate Listed(s: State) {
    Lists(s, s.actives, InActive) && Lists(s, s.backups, InBackup)
  }

  ghost predicate Shared(s: State) {
    && Chains(s) && Listed(s) && s.place.Keys == s.next.Keys
    && forall x :: x in s.place ==> Placed(s, s.place[x])
  }

  /** Every item is on a list, or with a thread: in its hands, or taken off the backup list. */
  predicate Placed(s: State, p: Place) {
    match p
    case InActive => true
    case InBackup => true
    case Held(t) => t in s.pc
    case Detached(t) => t in s.pc && (s.pc[t].SlowNext? || s.pc[t].SlowInstall?)
  }

  predicate InLock(pc: PC) {
    pc.SlowCheck? || pc.SlowUnlock? || pc.SlowSwap? || pc.SlowNext? || pc.SlowInstall? || pc.SlowRelease?
  }

  ghost predicate Locking(s: State) {
    && (s.locked <==> s.holder != []) && |s.holder| <= 1
    && (forall t :: t in s.pc ==> (InLock(s.pc[t]) <==> s.holder == [t]))
    && forall t :: t in s.holder ==> t in s.pc
  }

  /** What a popper saw: unless the lists have been swapped since, the active list has only shrunk. */
  predicate Sighting(s: State, prior: Tagged, seen: seq<Item>, since: nat) {
    && since <= s.epoch && prior == Tagged(Head(seen), since % VERSIONS) && NoDup(seen)
    && (forall x :: x in seen ==> x in s.next)
    && (since == s.epoch ==> Suffix(s.actives, seen))
  }

  ghost predicate Taken(s: State, t: Thread, list: seq<Item>) {
    s.actives == [] && list != [] && Chain(s.next, Head(list), list) && Lists(s, list, Detached(t))
  }

  ghost predicate Local(s: State, t: Thread)
    requires t in s.pc
  {
    match s.pc[t]
    case PopLoop(prior, seen, since) => Sighting(s, prior, seen, since)
    case PopCas(prior, nxt, seen, since) =>
      && Sighting(s, prior, seen, since) && seen != []
      && (since == s.epoch && s.actives == seen ==> nxt == Head(seen[1..]))
    case SlowSwap => s.actives == []
    case SlowNext(list) => Taken(s, t, list)
    case SlowInstall(list, nxt) => Taken(s, t, list) && nxt == Head(list[1..])
    case SlowRelease(r) => r.To? ==> Holds(s, t, r.x)
    case PushStart(x) => Holds(s, t, x)
    case PushLink(x, _) => Holds(s, t, x)
    case PushCas(x, top) => Holds(s, t, x) && s.next[x] == top
    case _ => true
  }

  ghost predicate Inv(s: State) {
    Shared(s) && Locking(s) && forall t :: t in s.pc ==> Local(s, t)
  }

  /** At most seven swaps of the lists between a popper's read of _active and its CAS. */
  predicate Timely(s: State, t: Thread) {
    t in s.pc && s.pc[t].PopCas? ==> s.epoch - s.pc[t].since < VERSIONS
  }

  // ----- Every step keeps it -----

  lemma {:induction false} ChainFrame(next: map<Item, Ptr>, next': map<Item, Ptr>, p: Ptr, list: seq<Item>)
    requires Chain(next, p, list) && forall x :: x in list ==> x in next' && (x in next ==> next'[x] == next[x])
    ensures Chain(next', p, list)
    decreases |list|
  {
    if list != [] { ChainFrame(next, next', next[list[0]], list[1..]); }
  }

  lemma {:induction false} ChainHead(next: map<Item, Ptr>, p: Ptr, list: seq<Item>)
    requires Chain(next, p, list)
    ensures p == Head(list)
    ensures list != [] ==> list[0] in next && next[list[0]] == Head(list[1..]) && Chain(next, next[list[0]], list[1..])
  {
  }

  /** What a step of another thread may not disturb. */
  ghost predicate Undisturbed(s: State, s': State, u: Thread) {
    && u in s.pc && u in s'.pc && s'.pc[u] == s.pc[u]
    && s.next.Keys == s'.next.Keys && s.epoch <= s'.epoch
    && (s'.epoch == s.epoch ==> Suffix(s'.actives, s.actives))
    && (forall x :: Holds(s, u, x) ==> Holds(s', u, x) && s'.next[x] == s.next[x])
    && (s.pc[u].SlowSwap? || s.pc[u].SlowNext? || s.pc[u].SlowInstall? ==>
          && s'.actives == s.actives && s'.place.Keys == s.place.Keys
          && (forall x :: x in s.place ==> (s.place[x] == Detached(u) <==> s'.place[x] == Detached(u)))
          && (forall x :: x in s.place && x in s.next && s.place[x] == Detached(u) ==> s'.next[x] == s.next[x]))
  }

  lemma {:induction false} Frame(s: State, s': State, u: Thread)
    requires u in s.pc && Local(s, u) && s.place.Keys == s.next.Keys && Undisturbed(s, s', u)
    ensures Local(s', u)
  {
    match s.pc[u]
    case SlowNext(list) => ChainFrame(s.next, s'.next, Head(list), list);
    case SlowInstall(list, _) => ChainFrame(s.next, s'.next, Head(list), list);
    case _ =>
  }

  /** A step that leaves the lock alone and disturbs no other thread. */
  lemma {:induction false} Compose(s: State, s': State, t: Thread)
    requires Inv(s) && t in s.pc && s'.pc.Keys == s.pc.Keys && Shared(s') && Local(s', t)
    requires s'.holder == s.holder && s'.locked == s.locked && InLock(s'.pc[t]) == InLock(s.pc[t])
    requires forall u :: u in s.pc && u != t ==> Undisturbed(s, s', u)
    ensures Inv(s')
  {
    forall u | u in s'.pc ensures Local(s', u) {
      if u != t { Frame(s, s', u); }
    }
  }

  /** A step that changes no more than where its thread stands. */
  lemma {:induction false} OnlyPc(s: State, t: Thread, pc: PC)
    requires Inv(s) && t in s.pc && InLock(pc) == InLock(s.pc[t]) && !s.pc[t].SlowNext? && !s.pc[t].SlowInstall?
    requires Local(At(s, t, pc), t)
    ensures Inv(At(s, t, pc))
  {
    var s' := At(s, t, pc);
    forall u | u in s'.pc ensures Local(s', u) {
      if u != t { assert Local(s, u); }
    }
  }

  /** With fewer than eight swaps in between, the same word means the same list. */
  lemma Unswapped(s: State, t: Thread)
    requires Inv(s) && t in s.pc && s.pc[t].PopCas? && Timely(s, t) && s.active == s.pc[t].prior
    ensures s.pc[t].since == s.epoch && s.actives == s.pc[t].seen
  {
    assert Local(s, t);
    var seen, since := s.pc[t].seen, s.pc[t].since;
    assert s.epoch % VERSIONS == since % VERSIONS;
    ChainHead(s.next, s.active.p, s.actives);
    var d := |seen| - |s.actives|;
    assert s.actives[0] == seen[d];
  }

  /** The popper t has read the version and pointer that are there, and what it took for the
      next of the first item is. */
  predicate Current(s: State, t: Thread) {
    t in s.pc && s.pc[t].PopCas? && s.active == s.pc[t].prior ==> s.actives != [] && s.pc[t].nxt == Head(s.actives[1..])
  }

  lemma TimelyCurrent(s: State, t: Thread)
    requires Inv(s) && Timely(s, t)
    ensures Current(s, t)
  {
    if t in s.pc && s.pc[t].PopCas? && s.active == s.pc[t].prior {
      Unswapped(s, t);
      assert Local(s, t);
    }
  }

  lemma {:induction false} PopShared(s: State, t: Thread)
    requires Inv(s) && t in s.pc && s.pc[t].PopCas? && Current(s, t) && s.active == s.pc[t].prior
    ensures Step(s, t, Go).actives == s.actives[1..] && Shared(Step(s, t, Go))
  {
    assert Local(s, t);
    ChainHead(s.next, s.active.p, s.actives);
    TailItems(s.actives);
    var s' := Step(s, t, Go);
    assert s'.actives == s.actives[1..];
  }

  lemma {:induction false} PopOthers(s: State, t: Thread)
    requires Inv(s) && t in s.pc && s.pc[t].PopCas? && Current(s, t) && s.active == s.pc[t].prior
    ensures forall u :: u in s.pc && u != t ==> Undisturbed(s, Step(s, t, Go), u)
  {
    var s' := Step(s, t, Go);
    forall u | u in s.pc && u != t ensures Undisturbed(s, s', u) {
      assert Local(s, u);
    }
  }

  lemma {:induction false} PopInv(s: State, t: Thread)
    requires Inv(s) && t in s.pc && s.pc[t].PopCas? && Current(s, t) && s.active == s.pc[t].prior
    ensures Inv(Step(s, t, Go))
  {
    PopShared(s, t);
    PopOthers(s, t);
    Compose(s, Step(s, t, Go), t);
  }

  /** A CAS that takes effect leaves the lists well formed only if the popper is current. */
  lemma {:induction false} PopStale(s: State, t: Thread)
    requires Inv(s) && t in s.pc && s.pc[t].PopCas? && !Current(s, t)
    ensures !Chains(Step(s, t, Go))
  {
    assert Local(s, t);
    ChainHead(s.next, s.active.p, s.actives);
    var s' := Step(s, t, Go);
    if Chain(s'.next, s'.active.p, s'.actives) { ChainHead(s'.next, s'.active.p, s'.actives); }
  }

  lemma {:induction false} SwapShared(s: State, t: Thread)
    requires Inv(s) && t in s.pc && s.pc[t].SlowSwap? && s.backup != NULL
    ensures s.backups != [] && Shared(Step(s, t, Go))
  {
    ChainHead(s.next, s.backup, s.backups);
  }

  lemma {:induction false} SwapInv(s: State, t: Thread)
    requires Inv(s) && t in s.pc && s.pc[t].SlowSwap? && s.backup != NULL
    ensures Inv(Step(s, t, Go))
  {
    assert Local(s, t);
    SwapShared(s, t);
    ChainHead(s.next, s.backup, s.backups);
    var s' := Step(s, t, Go);
    Compose(s, s', t);
  }

  lemma {:induction false} InstallChains(s: State, t: Thread)
    requires Inv(s) && t in s.pc && s.pc[t].SlowInstall?
    ensures s.pc[t].list != [] && Chain(s.next, s.pc[t].nxt, s.pc[t].list[1..])
    ensures (s.active.version + 1) % VERSIONS == (s.epoch + 1) % VERSIONS
  {
    assert Local(s, t);
    ChainHead(s.next, Head(s.pc[t].list), s.pc[t].list);
  }

  lemma {:induction false} InstallShared(s: State, t: Thread)
    requires Inv(s) && t in s.pc && s.pc[t].SlowInstall?
    ensures Shared(Step(s, t, Go))
  {
    InstallChains(s, t);
    InstallListed(s, t);
    InstallPlaces(s, t);
  }

  lemma {:induction false} InstallPlaces(s: State, t: Thread)
    requires Inv(s) && t in s.pc && s.pc[t].SlowInstall?
    ensures var s' := Step(s, t, Go);
            s'.place.Keys == s'.next.Keys && forall x :: x in s'.place ==> Placed(s', s'.place[x])
  {
    assert Local(s, t);
  }

  lemma {:induction false} InstallListed(s: State, t: Thread)
    requires Inv(s) && t in s.pc && s.pc[t].SlowInstall?
    ensures Listed(Step(s, t, Go))
  {
    assert Local(s, t);
    TailItems(s.pc[t].list);
    assert Lists(Step(s, t, Go), s.pc[t].list[1..], InActive);
  }

  lemma {:induction false} InstallInv(s: State, t: Thread)
    requires Inv(s) && t in s.pc && s.pc[t].SlowInstall?
    ensures Inv(Step(s, t, Go))
  {
    InstallShared(s, t);
    assert Local(s, t);
    var s' := Step(s, t, Go);
    Compose(s, s', t);
  }

  lemma {:induction false} PushChains(s: State, t: Thread)
    requires Inv(s) && t in s.pc && s.pc[t].PushCas? && s.backup == s.pc[t].top
    ensures Chains(Step(s, t, Go))
  {
    assert Local(s, t);
    assert ([s.pc[t].x] + s.backups)[1..] == s.backups;
  }

  lemma {:induction false} PushListed(s: State, t: Thread)
    requires Inv(s) && t in s.pc && s.pc[t].PushCas? && s.backup == s.pc[t].top
    ensures Lists(Step(s, t, Go), [s.pc[t].x] + s.backups, InBackup)
  {
    assert Local(s, t);
    ConsItems(s.pc[t].x, s.backups);
  }

  lemma {:induction false} PushShared(s: State, t: Thread)
    requires Inv(s) && t in s.pc && s.pc[t].PushCas? && s.backup == s.pc[t].top
    ensures Shared(Step(s, t, Go))
  {
    PushChains(s, t);
    PushListed(s, t);
    PushPlaces(s, t);
  }

  lemma {:induction false} PushPlaces(s: State, t: Thread)
    requires Inv(s) && t in s.pc && s.pc[t].PushCas? && s.backup == s.pc[t].top
    ensures var s' := Step(s, t, Go);
            && Lists(s', s'.actives, InActive) && s'.place.Keys == s'.next.Keys
            && forall x :: x in s'.place ==> Placed(s', s'.place[x])
  {
    assert Local(s, t);
  }

  lemma {:induction false} PushOthers(s: State, t: Thread)
    requires Inv(s) && t in s.pc && s.pc[t].PushCas? && s.backup == s.pc[t].top
    ensures forall u :: u in s.pc && u != t ==> Undisturbed(s, Step(s, t, Go), u)
  {
    assert Local(s, t);
  }

  lemma {:induction false} PushInv(s: State, t: Thread)
    requires Inv(s) && t in s.pc && s.pc[t].PushCas? && s.backup == s.pc[t].top
    ensures Inv(Step(s, t, Go))
  {
    PushShared(s, t);
    PushOthers(s, t);
    Compose(s, Step(s, t, Go), t);
  }

  lemma {:induction false} WriteShared(s: State, t: Thread, x: Item, v: Ptr, pc: PC)
    requires Inv(s) && t in s.pc && Holds(s, t, x) && !InLock(s.pc[t]) && (pc == Idle || pc == PushCas(x, v))
    ensures Shared(At(s, t, pc).(next := s.next[x := v]))
  {
    var s' := At(s, t, pc).(next := s.next[x := v]);
    ChainFrame(s.next, s'.next, s.active.p, s.actives);
    ChainFrame(s.next, s'.next, s.backup, s.backups);
  }

  lemma {:induction false} WriteOthers(s: State, s': State, t: Thread, x: Item, v: Ptr, pc: PC)
    requires Inv(s) && t in s.pc && Holds(s, t, x) && s' == At(s, t, pc).(next := s.next[x := v])
    ensures forall u :: u in s.pc && u != t ==> Undisturbed(s, s', u)
  {
  }

  /** Writing the next of an item in a thread's hands disturbs no list. */
  lemma {:induction false} WriteInv(s: State, t: Thread, x: Item, v: Ptr, pc: PC)
    requires Inv(s) && t in s.pc && Holds(s, t, x) && !InLock(s.pc[t]) && (pc == Idle || pc == PushCas(x, v))
    ensures Inv(At(s, t, pc).(next := s.next[x := v]))
  {
    var s' := At(s, t, pc).(next := s.next[x := v]);
    WriteShared(s, t, x, v, pc);
    WriteOthers(s, s', t, x, v, pc);
    assert Local(s, t);
    Compose(s, s', t);
  }

  lemma {:induction false} GiveInv(s: State, t: Thread, x: Item, to: Thread)
    requires Inv(s) && Enabled(s, t, Give(x, to))
    ensures Inv(Step(s, t, Give(x, to)))
  {
    var s' := Step(s, t, Give(x, to));
    forall u | u in s'.pc ensures Local(s', u) {
      assert Local(s, u);
    }
  }

  /** Who holds the lock, and what was returned, is no matter to the others. */
  lemma {:induction false} LocalSame(s: State, s': State, u: Thread)
    requires u in s.pc && u in s'.pc && s'.pc[u] == s.pc[u] && Local(s, u)
    requires s' == s.(pc := s'.pc, locked := s'.locked, holder := s'.holder, ret := s'.ret)
    ensures Local(s', u)
  {
  }

  lemma {:induction false} LockInv(s: State, t: Thread)
    requires Inv(s) && t in s.pc && (s.pc[t].SlowUnlock? || s.pc[t].SlowRelease? || (s.pc[t].SlowLock? && !s.locked))
    ensures Inv(Step(s, t, Go))
  {
    var s' := Step(s, t, Go);
    LockLocking(s, t);
    forall u | u in s'.pc ensures Local(s', u) {
      if u != t { LocalSame(s, s', u); }
    }
  }

  lemma {:induction false} LockLocking(s: State, t: Thread)
    requires Inv(s) && t in s.pc && (s.pc[t].SlowUnlock? || s.pc[t].SlowRelease? || (s.pc[t].SlowLock? && !s.locked))
    ensures Locking(Step(s, t, Go)) && Shared(Step(s, t, Go))
  {
  }

  /** The invariant is kept by exactly the steps of threads that are current. */
  lemma {:induction false} StepExactly(s: State, t: Thread, a: Action)
    requires Inv(s) && Enabled(s, t, a)
    ensures Inv(Step(s, t, a)) <==> Current(s, t)
  {
    if Current(s, t) { StepInv(s, t, a); } else { PopStale(s, t); }
  }

  lemma {:induction false} StepInv(s: State, t: Thread, a: Action)
    requires Inv(s) && Enabled(s, t, a) && Current(s, t)
    ensures Inv(Step(s, t, a))
  {
    match a
    case Pop => OnlyPc(s, t, PopStart);
    case Push(x) => OnlyPc(s, t, PushStart(x));
    case Scribble(x, v) => WriteInv(s, t, x, v, Idle); assert s.pc[t := Idle] == s.pc;
    case Give(x, to) => GiveInv(s, t, x, to);
    case Go => GoInv(s, t);
  }

  lemma {:induction false} GoInv(s: State, t: Thread)
    requires Inv(s) && Enabled(s, t, Go) && Current(s, t)
    ensures Inv(Step(s, t, Go))
  {
    if s.pc[t].PopStart? || s.pc[t].PopLoop? || s.pc[t].PopCas? {
      PopGoInv(s, t);
    } else if s.pc[t].PushStart? || s.pc[t].PushLink? || s.pc[t].PushCas? {
      PushGoInv(s, t);
    } else {
      SlowGoInv(s, t);
    }
  }

  lemma {:induction false} PopGoInv(s: State, t: Thread)
    requires Inv(s) && Enabled(s, t, Go) && Current(s, t) && (s.pc[t].PopStart? || s.pc[t].PopLoop? || s.pc[t].PopCas?)
    ensures Inv(Step(s, t, Go))
  {
    ChainHead(s.next, s.active.p, s.actives);
    if s.pc[t].PopLoop? {
      LoopInv(s, t);
    } else if s.pc[t].PopCas? && s.active == s.pc[t].prior {
      PopInv(s, t);
    } else {
      OnlyPc(s, t, PopLoop(s.active, s.actives, s.epoch));
    }
  }

  lemma {:induction false} PushGoInv(s: State, t: Thread)
    requires Inv(s) && Enabled(s, t, Go) && (s.pc[t].PushStart? || s.pc[t].PushLink? || s.pc[t].PushCas?)
    ensures Inv(Step(s, t, Go))
  {
    assert Local(s, t);
    var x := s.pc[t].x;
    if s.pc[t].PushLink? {
      WriteInv(s, t, x, s.pc[t].top, PushCas(x, s.pc[t].top));
    } else if s.pc[t].PushCas? && s.backup == s.pc[t].top {
      PushInv(s, t);
    } else {
      OnlyPc(s, t, PushLink(x, s.backup));
    }
  }

  predicate IsSlow(pc: PC) {
    pc.SlowStart? || pc.SlowSpin? || pc.SlowReread? || pc.SlowLock? || InLock(pc)
  }

  lemma {:induction false} SlowGoInv(s: State, t: Thread)
    requires Inv(s) && Enabled(s, t, Go) && IsSlow(s.pc[t])
    ensures Inv(Step(s, t, Go))
  {
    if s.pc[t].SlowSwap? && s.backup != NULL {
      SwapInv(s, t);
    } else if s.pc[t].SlowNext? {
      NextInv(s, t);
    } else if s.pc[t].SlowInstall? {
      InstallInv(s, t);
    } else if s.pc[t].SlowUnlock? || s.pc[t].SlowRelease? || (s.pc[t].SlowLock? && !s.locked) {
      LockInv(s, t);
    } else {
      QuietInv(s, t);
    }
  }

  lemma {:induction false} QuietInv(s: State, t: Thread)
    requires Inv(s) && Enabled(s, t, Go)
    requires s.pc[t].SlowStart? || s.pc[t].SlowSpin? || s.pc[t].SlowReread? || s.pc[t].SlowCheck? ||
             (s.pc[t].SlowLock? && s.locked) || (s.pc[t].SlowSwap? && s.backup == NULL)
    ensures Inv(Step(s, t, Go))
  {
    ChainHead(s.next, s.active.p, s.actives);
    var pc := s.pc[t];
    var pc' := if pc.SlowStart? || pc.SlowReread? then SlowSpin(s.active.p)
      else if pc.SlowSpin? then (if pc.a != NULL then PopStart else if s.locked then SlowReread else SlowLock)
      else if pc.SlowCheck? then (if s.active.p == NULL then SlowSwap else SlowUnlock)
      else if pc.SlowLock? then SlowSpin(NULL) else SlowRelease(NULL);
    OnlyPc(s, t, pc');
    assert Step(s, t, Go) == At(s, t, pc');
  }

  lemma {:induction false} LoopInv(s: State, t: Thread)
    requires Inv(s) && t in s.pc && s.pc[t].PopLoop?
    ensures Inv(Step(s, t, Go))
  {
    assert Local(s, t);
    var prior, seen := s.pc[t].prior, s.pc[t].seen;
    if prior.p == NULL {
      OnlyPc(s, t, SlowStart);
    } else {
      if s.actives == seen { ChainHead(s.next, s.active.p, s.actives); }
      OnlyPc(s, t, PopCas(prior, s.next[prior.p.x], seen, s.pc[t].since));
    }
  }

  lemma {:induction false} NextInv(s: State, t: Thread)
    requires Inv(s) && t in s.pc && s.pc[t].SlowNext?
    ensures Inv(Step(s, t, Go))
  {
    assert Local(s, t);
    var list := s.pc[t].list;
    ChainHead(s.next, Head(list), list);
    Compose(s, Step(s, t, Go), t);
  }

  // ----- Whole runs -----

  /** All items in clients' hands, all threads idle, nothing swapped yet. */
  predicate Init(s: State) {
    && s.active == Tagged(NULL, 0) && s.backup == NULL && !s.locked
    && s.actives == [] && s.backups == [] && s.epoch == 0 && s.holder == []
    && s.place.Keys == s.next.Keys
    && (forall t :: t in s.pc ==> s.pc[t] == Idle)
    && forall x :: x in s.place ==> s.place[x].Held? && s.place[x].t in s.pc
  }

  datatype Move = Move(t: Thread, a: Action)

  /** Each state follows from the one before by the move between them. */
  ghost predicate Trace(ss: seq<State>, ms: seq<Move>) {
    |ss| == |ms| + 1 && forall i :: 0 <= i < |ms| ==> Follows(ss[i], ms[i], ss[i + 1])
  }

  ghost predicate Run(ss: seq<State>, ms: seq<Move>) {
    Trace(ss, ms) && Init(ss[0])
  }

  ghost predicate Follows(s: State, m: Move, s': State) {
    Enabled(s, m.t, m.a) && Timely(s, m.t) && s' == Step(s, m.t, m.a)
  }

  lemma {:induction false} RunInv(ss: seq<State>, ms: seq<Move>, i: nat)
    requires Run(ss, ms) && i < |ss|
    ensures Inv(ss[i])
  {
    if i > 0 {
      RunInv(ss, ms, i - 1);
      assert Follows(ss[i - 1], ms[i - 1], ss[i]);
      TimelyCurrent(ss[i - 1], ms[i - 1].t);
      StepInv(ss[i - 1], ms[i - 1].t, ms[i - 1].a);
    }
  }

  /** The lists reached through _active, _backup and what a thread has cut loose hold x at most
      once and only where its one place says; otherwise it is in the hands of the one client
      its place names. */
  ghost predicate InOnePlace(s: State, x: Item) {
    && x in s.place && Placed(s, s.place[x])
    && Chain(s.next, s.active.p, s.actives) && NoDup(s.actives) && (x in s.actives <==> s.place[x] == InActive)
    && Chain(s.next, s.backup, s.backups) && NoDup(s.backups) && (x in s.backups <==> s.place[x] == InBackup)
    && forall t :: t in s.pc ==> ListIn(s, t, x)
  }

  ghost predicate ListIn(s: State, t: Thread, x: Item)
    requires t in s.pc && x in s.place
  {
    s.pc[t].SlowNext? || s.pc[t].SlowInstall? ==>
      && Chain(s.next, Head(s.pc[t].list), s.pc[t].list) && NoDup(s.pc[t].list)
      && (x in s.pc[t].list <==> s.place[x] == Detached(t))
  }

  /** Each item is in exactly one place: on the active list, on the backup list, on a list a
      thread has cut loose, or in one thread's hands. */
  lemma {:induction false} OnePlace(ss: seq<State>, ms: seq<Move>, i: nat, x: Item)
    requires Run(ss, ms) && i < |ss| && x in ss[i].next
    ensures InOnePlace(ss[i], x)
  {
    RunInv(ss, ms, i);
    forall t | t in ss[i].pc ensures ListIn(ss[i], t, x) {
      assert Local(ss[i], t);
    }
  }

  /** A thread goes empty-handed only when both lists were empty at its swap. */
  lemma {:induction false} EmptyMeansEmpty(ss: seq<State>, ms: seq<Move>, i: nat)
    requires Run(ss, ms) && i < |ms| && ms[i].t in ss[i].pc && ss[i].pc[ms[i].t] == SlowSwap
    ensures ss[i + 1].pc[ms[i].t] == SlowRelease(NULL) <==> ss[i].backups == []
    ensures ss[i].actives == [] && ss[i].active.p == NULL
  {
    RunInv(ss, ms, i);
    assert Local(ss[i], ms[i].t) && Follows(ss[i], ms[i], ss[i + 1]);
    ChainHead(ss[i].next, ss[i].backup, ss[i].backups);
    ChainHead(ss[i].next, ss[i].active.p, ss[i].actives);
  }

  /** x is the item that pop returns, and it was the head of a list: of the active one, or of
      the one cut loose. */
  ghost predicate TakesHead(s: State, m: Move, s': State, x: Item) {
    && m.t in s.pc && m.a == Go && x in s'.place && s'.place[x] == Held(m.t)
    && var pc := s.pc[m.t];
       if pc.PopCas? then pc.prior.p == To(x) && s.actives != [] && x == s.actives[0] && s'.actives == s.actives[1..]
       else && pc.SlowInstall? && pc.list != [] && x == pc.list[0] && s'.actives == pc.list[1..]
            && m.t in s'.pc && s'.pc[m.t] == SlowRelease(To(x))
  }

  /** An item comes into a thread's hands only from the head of the active list, from the head
      of a list cut loose, or from another client. */
  lemma {:induction false} TakenFromHead(ss: seq<State>, ms: seq<Move>, i: nat, x: Item)
    requires Run(ss, ms) && i < |ms|
    requires Pops(ss[i], ss[i + 1], x)
    ensures TakesHead(ss[i], ms[i], ss[i + 1], x)
  {
    RunInv(ss, ms, i);
    assert Follows(ss[i], ms[i], ss[i + 1]) && Local(ss[i], ms[i].t);
  }

  /** Once popped, an item stays in clients' hands until one pushes it. */
  lemma {:induction false} HeldUntilPushed(ss: seq<State>, ms: seq<Move>, i: nat, j: nat, x: Item)
    requires Run(ss, ms) && i <= j < |ss| && x in ss[i].place && ss[i].place[x].Held?
    requires forall k :: i < k <= j && x in ss[k].place ==> ss[k].place[x] != InBackup
    ensures x in ss[j].place && ss[j].place[x].Held?
    decreases j
  {
    if i < j {
      HeldUntilPushed(ss, ms, i, j - 1, x);
      RunInv(ss, ms, j - 1);
      HeldFollows(ss, ms, j - 1, x);
    }
  }

  lemma {:induction false} HeldFollows(ss: seq<State>, ms: seq<Move>, i: nat, x: Item)
    requires Run(ss, ms) && i < |ms| && Inv(ss[i]) && x in ss[i].place && ss[i].place[x].Held?
    ensures x in ss[i + 1].place && (ss[i + 1].place[x].Held? || ss[i + 1].place[x] == InBackup)
  {
    assert Follows(ss[i], ms[i], ss[i + 1]);
    HeldStep(ss[i], ms[i].t, ms[i].a, x);
  }

  lemma {:induction false} HeldStep(s: State, t: Thread, a: Action, x: Item)
    requires Inv(s) && Enabled(s, t, a) && x in s.place && s.place[x].Held?
    ensures x in Step(s, t, a).place && (Step(s, t, a).place[x].Held? || Step(s, t, a).place[x] == InBackup)
  {
    assert Local(s, t);
  }

  predicate Pops(s: State, s': State, x: Item) {
    x in s.place && x in s'.place && !s.place[x].Held? && s'.place[x].Held?
  }

  /** No item goes to two poppers: between two pops of x somebody pushed it. */
  lemma {:induction false} NotPoppedTwice(ss: seq<State>, ms: seq<Move>, i: nat, j: nat, x: Item)
    requires Run(ss, ms) && i < j < |ms|
    requires Pops(ss[i], ss[i + 1], x) && Pops(ss[j], ss[j + 1], x)
    ensures exists k :: i + 1 < k <= j && x in ss[k].place && ss[k].place[x] == InBackup
  {
    if forall k :: i + 1 < k <= j && x in ss[k].place ==> ss[k].place[x] != InBackup {
      HeldUntilPushed(ss, ms, i + 1, j, x);
    }
  }
}
