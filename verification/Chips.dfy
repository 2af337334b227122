/** Chip bitmaps: one owner that acquires and recycles, any number of threads that release
    (src/fc/mem_block.cpp, block_bits; the three states of src/fc/mem_block.h). */
module Chips {
  import opened StateSets

  // ----- The lowest set bit -----

  function Not(a: seq<bool>): seq<bool> { seq(|a|, k requires 0 <= k < |a| => !a[k]) }

  function Both(a: seq<bool>, b: seq<bool>): seq<bool>
    requires |a| == |b|
  {
    seq(|a|, k requires 0 <= k < |a| => a[k] && b[k])
  }

  /** a + 1, the carry out of the top bit dropped. */
  function Plus1(a: seq<bool>): (r: seq<bool>)
    ensures |r| == |a|
  {
    if a == [] then [] else if a[0] then [false] + Plus1(a[1..]) else [true] + a[1..]
  }

  /** a - 1; from zero, all bits set. */
  function Minus1(a: seq<bool>): (r: seq<bool>)
    ensures |r| == |a|
  {
    if a == [] then [] else if a[0] then [false] + a[1..] else [true] + Minus1(a[1..])
  }

  function Negate(a: seq<bool>): (r: seq<bool>)
    ensures |r| == |a|
  {
    Plus1(Not(a))
  }

  function Popc(a: seq<bool>): nat {
    if a == [] then 0 else (if a[0] then 1 else 0) + Popc(a[1..])
  }

  /** The bit that is lowest among those set, alone. */
  function OneBit(a: seq<bool>): (r: seq<bool>)
    ensures |r| == |a|
  {
    Both(a, Negate(a))
  }

  /** Its index, as acquire computes it. */
  function Index(a: seq<bool>): nat {
    Popc(Minus1(OneBit(a)))
  }

  ghost predicate IsLowest(a: seq<bool>, k: nat) {
    k <= |a| && (k < |a| ==> a[k]) && forall i :: 0 <= i < k ==> !a[i]
  }

  /** Index is that of the lowest set bit, or the width if there is none. */
  lemma {:induction false} IndexIsLowest(a: seq<bool>)
    ensures IsLowest(a, Index(a))
    ensures forall i :: 0 <= i < |a| ==> (OneBit(a)[i] <==> i == Index(a))
    decreases |a|
  {
    if a != [] {
      var tl := a[1..];
      assert Not(a)[1..] == Not(tl);
      if a[0] {
        assert Negate(a)[1..] == Not(tl);
        assert OneBit(a)[1..] == seq(|tl|, _ => false) by {
          forall i | 0 <= i < |tl| ensures OneBit(a)[1..][i] == false {}
        }
        assert OneBit(a)[0];
        PopcNone(|tl|);
      } else {
        assert Negate(a)[1..] == Negate(tl);
        assert OneBit(a)[1..] == OneBit(tl);
        IndexIsLowest(tl);
        assert Minus1(OneBit(a))[1..] == Minus1(OneBit(tl));
        forall i | 0 <= i < |a| ensures OneBit(a)[i] <==> i == Index(a) {
          if i > 0 { assert OneBit(a)[i] == OneBit(tl)[i - 1]; }
        }
        forall i | 0 <= i < Index(a) ensures !a[i] {
          if i > 0 { assert a[i] == tl[i - 1]; }
        }
      }
    }
  }

  lemma {:induction false} PopcNone(n: nat)
    ensures Popc(seq(n, _ => false)) == 0
  {
    if n > 0 {
      assert seq(n, _ => false)[1..] == seq(n - 1, _ => false);
      PopcNone(n - 1);
    }
  }

  // ----- The protocol -----

  function Xor(a: Word, b: Word): Word { seq(64, k requires 0 <= k < 64 => a[k] != b[k]) }

  /** create_mask: the lowest n bits. */
  function Mask(n: nat): Word { seq(64, k => k < n) }

  function Set(a: Word): set<nat> { set k: nat | k < 64 && a[k] }

  type Thread = nat

  /** Where the owner stands: between calls, or somewhere in recycle. */
  datatype Owner =
    | Ready
    | Merge(newly: Word)                  // add newly to the usable chips
    | Fetch(newly: Word)                  // read the zombies again
    | Clear(newly: Word, seen: Word)      // CAS seen ^ newly over them

  /** Where a thread that releases chip c stands. */
  datatype Releaser =
    | Away
    | Begin(c: nat)                       // read the zombies
    | Try(c: nat, seen: Word)             // CAS seen | c over them

  /** held are the chips clients have; a chip being released stays held until it is a zombie. */
  datatype Block = Block(count: nat, usable: Word, zombie: Word, owner: Owner,
                         rel: map<Thread, Releaser>, held: set<nat>)

  datatype Action = Acquire | Recycle | Go | Release(t: Thread, c: nat) | Retry(t: Thread)

  predicate Busy(b: Block, t: Thread) {
    t in b.rel && b.rel[t] != Away
  }

  /** Clients release only chips they hold, and each of them once. */
  ghost predicate Enabled(b: Block, a: Action) {
    match a
    case Acquire => b.owner == Ready
    case Recycle => b.owner == Ready
    case Go => b.owner != Ready
    case Release(t, c) => t in b.rel && b.rel[t] == Away && c in b.held && forall u :: Busy(b, u) ==> b.rel[u].c != c
    case Retry(t) => Busy(b, t)
  }

  /** What acquire returns: the index of a chip, or 64 when none is usable. */
  function Acquired(b: Block): nat { Index(b.usable) }

  /** One atomic step. */
  function Step(b: Block, a: Action): Block {
    match a
    case Acquire =>
      if Acquired(b) < 64 then b.(usable := Xor(b.usable, OneBit(b.usable)), held := b.held + {Acquired(b)}) else b
    case Recycle => b.(owner := Merge(b.zombie))
    case Go => (
      match b.owner
      case Ready => b
      case Merge(newly) => b.(usable := Or(b.usable, newly), owner := Fetch(newly))
      case Fetch(newly) => b.(owner := Clear(newly, b.zombie))
      case Clear(newly, seen) =>
        if b.zombie == seen then b.(zombie := Xor(seen, newly), owner := Ready)
        else b.(owner := Clear(newly, b.zombie)))
    case Release(t, c) => b.(rel := b.rel[t := Begin(c)])
    case Retry(t) =>
      if t !in b.rel then b
      else
        match b.rel[t]
        case Away => b
        case Begin(c) => b.(rel := b.rel[t := Try(c, b.zombie)])
        case Try(c, seen) =>
          if b.zombie == seen then
            b.(zombie := Or(seen, One(c)), rel := b.rel[t := Away], held := b.held - {c})
          else b.(rel := b.rel[t := Try(c, b.zombie)])
  }

  /** Chips that are usable again but not yet off the zombies: recycle's window. */
  function Window(b: Block): set<nat> {
    if b.owner.Fetch? || b.owner.Clear? then Set(b.owner.newly) else {}
  }

  /** What recycle has read of the zombies is still there. */
  predicate Remembered(b: Block) {
    !b.owner.Ready? ==> Set(b.owner.newly) <= Set(b.zombie)
  }

  /** Every chip is usable, held or a zombie, in exactly one way but for recycle's window. */
  ghost predicate Inv(b: Block) {
    && b.count <= 64
    && (forall c: nat :: c < b.count <==> c in Set(b.usable) || c in Set(b.zombie) || c in b.held)
    && Set(b.usable) * Set(b.zombie) == Window(b)
    && Set(b.usable) !! b.held && Set(b.zombie) !! b.held
    && Remembered(b)
    && (forall t :: Busy(b, t) ==> b.rel[t].c in b.held)
    && forall t, u :: Busy(b, t) && Busy(b, u) && t != u ==> b.rel[t].c != b.rel[u].c
  }

  lemma {:induction false} StepInv(b: Block, a: Action)
    requires Inv(b) && Enabled(b, a)
    ensures Inv(Step(b, a))
  {
    match a
    case Acquire => AcquireInv(b);
    case Recycle =>
    case Go => RecycleInv(b);
    case Release(t, c) =>
    case Retry(t) => RetryInv(b, t);
  }

  lemma {:induction false} AcquireInv(b: Block)
    requires Inv(b) && b.owner == Ready
    ensures Inv(Step(b, Acquire))
    ensures Acquired(b) < 64 ==>
              && Acquired(b) in Set(b.usable) && Acquired(b) !in b.held
              && Set(Step(b, Acquire).usable) == Set(b.usable) - {Acquired(b)}
    ensures Acquired(b) >= 64 <==> Set(b.usable) == {}
  {
    IndexIsLowest(b.usable);
    var k := Acquired(b);
    if k < 64 {
      var u := Xor(b.usable, OneBit(b.usable));
      assert forall i: nat :: i < 64 ==> (u[i] <==> b.usable[i] && i != k);
      assert Set(u) == Set(b.usable) - {k};
    }
  }

  lemma {:induction false} RecycleInv(b: Block)
    requires Inv(b) && b.owner != Ready
    ensures Inv(Step(b, Go))
  {
    var n := b.owner.newly;
    if b.owner.Merge? {
      assert Set(Or(b.usable, n)) == Set(b.usable) + Set(n);
      assert forall c :: c in Set(b.usable) && c in Set(b.zombie) ==> c in Window(b);
      assert (Set(b.usable) + Set(n)) * Set(b.zombie) == Set(n);
    } else if b.owner.Clear? && b.zombie == b.owner.seen {
      assert forall i: nat :: i < 64 && n[i] ==> i in Set(n) && i in Set(b.zombie);
      assert Set(Xor(b.zombie, n)) == Set(b.zombie) - Set(n);
      assert Set(b.usable) * (Set(b.zombie) - Set(n)) == {};
    }
  }

  lemma {:induction false} RetryInv(b: Block, t: Thread)
    requires Inv(b) && Busy(b, t)
    ensures Inv(Step(b, Retry(t)))
  {
    var c := b.rel[t].c;
    if b.rel[t].Try? && b.zombie == b.rel[t].seen {
      assert c < b.count;
      assert Set(Or(b.zombie, One(c))) == Set(b.zombie) + {c};
      var b' := Step(b, Retry(t));
      forall u | Busy(b', u) ensures b'.rel[u].c in b'.held { assert Busy(b, u); }
      forall u, v | Busy(b', u) && Busy(b', v) && u != v ensures b'.rel[u].c != b'.rel[v].c {
        assert Busy(b, u) && Busy(b, v);
      }
    } else {
      forall u ensures Busy(b, u) <==> Busy(Step(b, Retry(t)), u) {}
    }
  }

  // ----- Whole runs -----

  /** A new block: all chips usable, nobody in it. */
  predicate Init(b: Block) {
    b.count <= 64 && b.usable == Mask(b.count) && b.zombie == Zero() && b.owner == Ready && b.held == {}
    && forall t :: t in b.rel ==> b.rel[t] == Away
  }

  ghost predicate Run(bs: seq<Block>, acts: seq<Action>) {
    && |bs| == |acts| + 1 && Init(bs[0])
    && forall i :: 0 <= i < |acts| ==> Follows(bs[i], acts[i], bs[i + 1])
  }

  ghost predicate Follows(b: Block, a: Action, b': Block) {
    Enabled(b, a) && b' == Step(b, a)
  }

  lemma {:induction false} RunInv(bs: seq<Block>, acts: seq<Action>, i: nat)
    requires Run(bs, acts) && i < |bs|
    ensures Inv(bs[i])
  {
    if i == 0 {
      assert forall c: nat :: c in Set(Mask(bs[0].count)) <==> c < bs[0].count && c < 64;
    } else {
      RunInv(bs, acts, i - 1);
      assert Follows(bs[i - 1], acts[i - 1], bs[i]);
      StepInv(bs[i - 1], acts[i - 1]);
    }
  }

  /** Between the owner's calls every chip is usable, held or a zombie, and only one of them. */
  lemma {:induction false} ThreeStates(bs: seq<Block>, acts: seq<Action>, i: nat, c: nat)
    requires Run(bs, acts) && i < |bs| && bs[i].owner == Ready && c < bs[i].count
    ensures var b := bs[i];
            || (c in Set(b.usable) && c !in Set(b.zombie) && c !in b.held)
            || (c !in Set(b.usable) && c in Set(b.zombie) && c !in b.held)
            || (c !in Set(b.usable) && c !in Set(b.zombie) && c in b.held)
  {
    RunInv(bs, acts, i);
    var b := bs[i];
    assert c in Set(b.usable) * Set(b.zombie) <==> c in Window(b);
  }

  /** A chip handed out was in nobody's hands, and is below the count; nothing else changes. */
  lemma {:induction false} NotHandedOutTwice(bs: seq<Block>, acts: seq<Action>, i: nat)
    requires Run(bs, acts) && i < |acts| && acts[i] == Acquire
    ensures var c := Acquired(bs[i]);
            if Set(bs[i].usable) == {} then c == 64 && bs[i + 1] == bs[i]
            else c < bs[i].count && c !in bs[i].held && bs[i + 1].held == bs[i].held + {c}
                 && c in Set(bs[i].usable) && Set(bs[i + 1].usable) == Set(bs[i].usable) - {c}
                 && (forall d: nat :: d < c ==> d !in Set(bs[i].usable))
                 && bs[i + 1] == bs[i].(usable := bs[i + 1].usable, held := bs[i + 1].held)
  {
    RunInv(bs, acts, i);
    assert Follows(bs[i], acts[i], bs[i + 1]);
    AcquireInv(bs[i]);
    IndexIsLowest(bs[i].usable);
  }

  /** A chip that has become a zombie stays one until the owner makes it usable: no release
      that races with recycle is lost. */
  lemma {:induction false} NoReleaseLost(bs: seq<Block>, acts: seq<Action>, i: nat, c: nat)
    requires Run(bs, acts) && i < |acts| && c in Set(bs[i].zombie)
    ensures c in Set(bs[i + 1].zombie) || c in Set(bs[i + 1].usable)
  {
    RunInv(bs, acts, i);
    var b := bs[i];
    assert Follows(b, acts[i], bs[i + 1]);
    if acts[i] == Go && b.owner.Clear? && b.zombie == b.owner.seen {
      if c in Window(b) {
        assert c in Set(b.usable) * Set(b.zombie);
      } else {
        assert Xor(b.zombie, b.owner.newly)[c];
      }
    }
  }

  // ----- Whole releases and recyclings -----

  /** This step of a releaser makes its chip a zombie. */
  predicate TakesEffect(b: Block, a: Action) {
    a.Retry? && Busy(b, a.t) && b.rel[a.t].Try? && b.zombie == b.rel[a.t].seen
  }

  /** The chips released by the steps from i up to j. */
  ghost function Released(bs: seq<Block>, acts: seq<Action>, i: nat, j: nat): set<nat>
    requires j <= |acts| < |bs|
    decreases j
  {
    if j <= i then {}
    else Released(bs, acts, i, j - 1) +
         if TakesEffect(bs[j - 1], acts[j - 1]) then {bs[j - 1].rel[acts[j - 1].t].c} else {}
  }

  lemma {:induction false} EffectIs(b: Block, t: Thread)
    requires Inv(b) && TakesEffect(b, Retry(t))
    ensures var b' := Step(b, Retry(t)); var c := b.rel[t].c;
            && Set(b'.zombie) == Set(b.zombie) + {c} && b'.held == b.held - {c} && c in b.held
            && b'.usable == b.usable && b'.owner == b.owner && !Busy(b', t)
  {
    assert Busy(b, t);
  }

  /** A release that has come to its end has made its chip a zombie, which the client had held
      up to then. */
  lemma {:induction false} ReleaseEnds(bs: seq<Block>, acts: seq<Action>, i: nat, j: nat, t: Thread, c: nat)
    requires Run(bs, acts) && i < j < |acts| && acts[i] == Release(t, c)
    requires (forall k :: i < k <= j ==> Busy(bs[k], t)) && !Busy(bs[j + 1], t)
    ensures acts[j] == Retry(t) && TakesEffect(bs[j], acts[j]) && bs[j].rel[t].c == c
    ensures Set(bs[j + 1].zombie) == Set(bs[j].zombie) + {c} && c in bs[j].held && bs[j + 1].held == bs[j].held - {c}
  {
    Releasing(bs, acts, i, j, t, c);
    RunInv(bs, acts, j);
    assert Follows(bs[j], acts[j], bs[j + 1]);
    EffectIs(bs[j], t);
  }

  lemma {:induction false} Releasing(bs: seq<Block>, acts: seq<Action>, i: nat, j: nat, t: Thread, c: nat)
    requires Run(bs, acts) && i < j < |bs| && acts[i] == Release(t, c) && forall k :: i < k <= j ==> Busy(bs[k], t)
    ensures Busy(bs[j], t) && bs[j].rel[t].c == c
    decreases j
  {
    assert Follows(bs[j - 1], acts[j - 1], bs[j]);
    if i < j - 1 { Releasing(bs, acts, i, j - 1, t, c); }
  }

  /** In the midst of recycling: what is usable, and which zombies there are. */
  ghost predicate Midway(bs: seq<Block>, acts: seq<Action>, i: nat, k: nat)
    requires i <= k <= |acts| < |bs|
  {
    var b, b0, R := bs[k], bs[i], Released(bs, acts, i, k);
    && !b.owner.Ready? && b.owner.newly == b0.zombie && b.held == b0.held - R
    && Set(b.usable) == (if b.owner.Merge? then Set(b0.usable) else Set(b0.usable) + Set(b0.zombie))
    && Set(b.zombie) == Set(b0.zombie) + R && R !! Set(b0.zombie)
  }

  ghost predicate Recycling(bs: seq<Block>, acts: seq<Action>, i: nat, j: nat) {
    && Run(bs, acts) && i < j < |bs| && acts[i] == Recycle
    && forall k :: i < k < j ==> bs[k].owner != Ready
  }

  lemma {:induction false} RecycleOn(bs: seq<Block>, acts: seq<Action>, i: nat, k: nat)
    requires Recycling(bs, acts, i, k + 1)
    requires if k == i then true else Midway(bs, acts, i, k)
    ensures if bs[k + 1].owner == Ready then Recycled(bs, acts, i, k + 1) else Midway(bs, acts, i, k + 1)
  {
    RunInv(bs, acts, k);
    assert Follows(bs[k], acts[k], bs[k + 1]);
    if acts[k] == Go {
      OwnerGoes(bs, acts, i, k);
    } else if TakesEffect(bs[k], acts[k]) {
      EffectIs(bs[k], acts[k].t);
    }
  }

  lemma {:induction false} OwnerGoes(bs: seq<Block>, acts: seq<Action>, i: nat, k: nat)
    requires Recycling(bs, acts, i, k + 1) && acts[k] == Go && k > i && Midway(bs, acts, i, k) && Inv(bs[k])
    ensures if bs[k + 1].owner == Ready then Recycled(bs, acts, i, k + 1) else Midway(bs, acts, i, k + 1)
  {
    var b := bs[k];
    assert Follows(b, acts[k], bs[k + 1]);
    var n := b.owner.newly;
    assert Set(Or(b.usable, n)) == Set(b.usable) + Set(n);
    if b.owner.Clear? && b.zombie == b.owner.seen {
      assert forall c: nat :: c < 64 && n[c] ==> c in Set(n) && c in Set(b.zombie);
      assert Set(Xor(b.zombie, n)) == Set(b.zombie) - Set(n);
    }
  }

  /** All that were zombies at i are usable at j; the zombies at j are those released in between. */
  ghost predicate Recycled(bs: seq<Block>, acts: seq<Action>, i: nat, j: nat)
    requires i <= j <= |acts| < |bs|
  {
    && Set(bs[j].usable) == Set(bs[i].usable) + Set(bs[i].zombie)
    && Set(bs[j].zombie) == Released(bs, acts, i, j) && bs[j].held == bs[i].held - Released(bs, acts, i, j)
  }

  /** What recycling comes to, whatever is released meanwhile. */
  lemma {:induction false} RecycleIs(bs: seq<Block>, acts: seq<Action>, i: nat, j: nat)
    requires Recycling(bs, acts, i, j) && bs[j].owner == Ready
    ensures Recycled(bs, acts, i, j)
  {
    assert Follows(bs[i], acts[i], bs[i + 1]);
    RecycleMidway(bs, acts, i, j - 1);
    RecycleOn(bs, acts, i, j - 1);
  }

  lemma {:induction false} RecycleMidway(bs: seq<Block>, acts: seq<Action>, i: nat, k: nat)
    requires Recycling(bs, acts, i, k + 1)
    ensures k > i ==> Midway(bs, acts, i, k)
    decreases k
  {
    if k > i {
      RecycleMidway(bs, acts, i, k - 1);
      RecycleOn(bs, acts, i, k - 1);
    }
  }

  /** With nobody releasing meanwhile, recycling ends in three steps and leaves no zombie. */
  lemma {:induction false} RecycleAlone(b: Block)
    requires Inv(b) && b.owner == Ready
    ensures var b' := Step(Step(Step(Step(b, Recycle), Go), Go), Go);
            && b' == b.(usable := b'.usable, zombie := b'.zombie)
            && Set(b'.usable) == Set(b.usable) + Set(b.zombie) && Set(b'.zombie) == {}
  {
    assert Set(Or(b.usable, b.zombie)) == Set(b.usable) + Set(b.zombie);
  }

  /** With nobody in its way, a release ends in two steps at most. */
  lemma {:induction false} ReleaseAlone(b: Block, t: Thread)
    requires Inv(b) && Busy(b, t)
    ensures var b1 := Step(b, Retry(t)); var b2 := if Busy(b1, t) then Step(b1, Retry(t)) else b1;
            !Busy(b2, t) && Set(b2.zombie) == Set(b.zombie) + {b.rel[t].c}
  {
    RetryInv(b, t);
    var b1 := Step(b, Retry(t));
    if Busy(b1, t) { EffectIs(b1, t); } else { EffectIs(b, t); }
  }
}
