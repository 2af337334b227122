/** The ring of blocks a thread allocates from, and the pool they come from
    (src/fc/mem_block.cpp, block_list; src/fc/mem_block.h, block_pool;
    src/fc/block_alloc.cpp, dynpool). */
module BlockRing {
  import opened Sequences

  /** The chips of a block: 0, 1, ..., count - 1. */
  function Chips(count: nat): set<nat> {
    if count == 0 then {} else Chips(count - 1) + {count - 1}
  }

  lemma {:induction false} ChipsBound(s: set<nat>, count: nat)
    requires s <= Chips(count)
    ensures |s| <= count
  {
    if count == 0 {
      assert s == {};
    } else {
      ChipsBound(s - {count - 1}, count - 1);
      if count - 1 in s { assert |s - {count - 1}| == |s| - 1; } else { assert s - {count - 1} == s; }
    }
  }

  lemma {:induction false} ChipsAre(c: nat, count: nat)
    requires c in Chips(count)
    ensures c < count
  {
    if c != count - 1 { ChipsAre(c, count - 1); }
  }

  lemma {:induction false} ZeroIn(count: nat)
    requires count > 0
    ensures 0 in Chips(count)
  {
    if count > 1 { ZeroIn(count - 1); }
  }

  /** A block: its chips that are usable and those freed since the last recycling. */
  class Slab {
    var usable: set<nat>
    var zombie: set<nat>
    var next: Slab?
    var owner: BlockList?

    constructor (count: nat)
      ensures usable == Chips(count) && zombie == {} && next == null && owner == null
    {
      usable, zombie, next, owner := Chips(count), {}, null, null;
    }

    method Recycle()
      modifies this`usable, this`zombie
      ensures usable == old(usable + zombie) && zombie == {}
    {
      usable, zombie := usable + zombie, {};
    }

    /** Takes the lowest usable chip; None when there is none. */
    method Acquire() returns (chip: nat, got: bool)
      modifies this`usable
      ensures got == (old(usable) != {})
      ensures got ==> chip in old(usable) && usable == old(usable) - {chip}
      ensures got ==> forall c :: c in old(usable) ==> chip <= c
      ensures !got ==> usable == old(usable)
    {
      if usable == {} { return 0, false; }
      chip := Lowest(usable);
      usable, got := usable - {chip}, true;
    }
  }

  method Lowest(s: set<nat>) returns (m: nat)
    requires s != {}
    ensures m in s && forall c :: c in s ==> m <= c
  {
    m :| m in s;
    var rest := s - {m};
    while rest != {}
      invariant m in s && rest <= s && forall c :: c in s ==> c in rest || m <= c
      decreases rest
    {
      var c :| c in rest;
      if c < m { m := c; }
      rest := rest - {c};
    }
  }

  ghost function Members(bs: seq<Slab>): set<Slab> { set b | b in bs }

  /** The chips of a block at some moment. */
  datatype Fill = Fill(usable: set<nat>, zombie: set<nat>)

  ghost function Fills(bs: seq<Slab>): (fs: seq<Fill>)
    reads bs
    ensures |fs| == |bs| && forall i :: 0 <= i < |bs| ==> fs[i] == Fill(bs[i].usable, bs[i].zombie)
  {
    if bs == [] then [] else [Fill(bs[0].usable, bs[0].zombie)] + Fills(bs[1..])
  }

  /** Ring and free list at some moment, with the chips of their blocks. */
  datatype Picture = Picture(ring: seq<Slab>, fills: seq<Fill>, free: seq<Slab>, stock: seq<Fill>)

  ghost function FillOf(b: Slab): Fill
    reads b
  {
    Fill(b.usable, b.zombie)
  }

  /** Place i of the ring, which comes round to the tail again. */
  function At<T>(rs: seq<T>, i: nat): T
    requires rs != [] && i <= |rs|
  {
    if i == |rs| then rs[0] else rs[i]
  }

  lemma MembersAppend(a: seq<Slab>, b: seq<Slab>)
    ensures Members(a + b) == Members(a) + Members(b)
  {
  }

  lemma MembersCut(a: seq<Slab>, p: Slab, c: Slab, b: seq<Slab>)
    ensures Members(a + [p] + [c] + b) == Members(a + [p] + b) + {c}
  {
  }

  ghost predicate Sized(b: Slab, count: nat)
    reads b
  {
    b.usable <= Chips(count) && b.zombie <= Chips(count)
  }

  /** dynpool: blocks nobody owns, first in first out; new ones are made when there is none. */
  class Pool {
    const count: nat
    var free: seq<Slab>

    constructor (count: nat)
      ensures this.count == count && free == []
    {
      this.count, free := count, [];
    }

    ghost predicate Valid()
      reads this, free
    {
      NoDup(free) && forall b :: b in free ==> b.owner == null && b.next == null && Sized(b, count)
    }

    method AcquireBlock(owner: BlockList) returns (b: Slab)
      requires Valid()
      modifies this`free, free
      ensures Valid() && b !in free && b.owner == owner && b.next == null && Sized(b, count) && b.zombie == {}
      ensures if old(free) == [] then free == [] && fresh(b) && b.usable == Chips(count)
              else b == old(free[0]) && free == old(free[1..]) && b.usable == old(free[0].usable + free[0].zombie)
      ensures forall c :: c in free ==> c in old(free) && c.usable == old(c.usable) && c.zombie == old(c.zombie)
      ensures old(Members(free)) <= Members(free) + {b} && (b in old(free) || fresh(b))
    {
      if free == [] {
        b := new Slab(count);
      } else {
        b := free[0];
        assert forall c :: c in free[1..] ==> c in free;
        free := free[1..];
      }
      b.owner, b.next := owner, null;
      b.Recycle();
    }

    /** Takes b back, and returns what was its next. */
    method ReleaseBlock(b: Slab) returns (next: Slab?)
      requires Valid() && b !in free && Sized(b, count)
      modifies this`free, b`next, b`owner
      ensures Valid() && free == old(free) + [b] && next == old(b.next) && b.next == null && b.owner == null
    {
      NoDupSnoc(free, b);
      next := b.next;
      b.next, b.owner := null, null;
      free := free + [b];
    }
  }

  class BlockList {
    const count: nat
    const pool: Pool
    const fake: Slab
    var tail: Slab
    var hitCount: nat
    var avgHitRate: real
    ghost var ring: seq<Slab>
    ghost var links: map<Slab, Slab>

    /** The blocks of the ring in order, from the tail; links says what their next is. */
    ghost predicate Cycle()
      reads this`tail, this`ring, this`links, ring
    {
      && NoDup(ring) && (forall b :: b in ring ==> b in links && b.next == links[b])
      && if ring == [] then tail == fake else tail == ring[0] && Segment<Slab>(links, ring, tail)
    }

    /** Every block is in one place: once in the ring, or once in the pool. */
    ghost predicate Shape()
      reads this`tail, this`ring, this`links, pool, pool.free, ring, fake
    {
      && pool.count == count > 0 && pool.Valid() && Cycle()
      && fake !in ring && fake !in pool.free && fake.usable == {} && fake.zombie == {}
      && forall b :: b in ring ==> b !in pool.free && b.owner == this && Sized(b, count)
    }

    /** No more hits than chips since the last change, and no higher rate; no chip of the tail
        is in two states. */
    ghost predicate Rates()
      reads this`hitCount, this`avgHitRate, this`tail, tail
    {
      && hitCount + |tail.usable| <= count && 0.0 <= avgHitRate <= count as real
      && (tail == fake ==> hitCount == 0 && avgHitRate == 0.0) && tail.usable !! tail.zombie
    }

    ghost predicate Valid()
      reads this, pool, pool.free, ring, fake, tail
    {
      Shape() && Rates()
    }

    constructor (pool: Pool)
      requires pool.Valid() && pool.count > 0
      ensures Valid() && this.pool == pool && ring == [] && fresh(fake) && pool.free == old(pool.free)
    {
      var f := new Slab(0);
      count, this.pool, fake, tail, hitCount, avgHitRate, ring, links := pool.count, pool, f, f, 0, 0.0, [], map[];
    }

    // ----- Changing blocks -----

    /** Below this many usable chips a recycled block is worth keeping. */
    function MaxAvailable(): nat
      requires count > 0
    {
      count - if count / 10 > 1 then count / 10 else 1
    }

    function MinAllocated(): nat { (count + 1) / 2 }

    /** The running average, over roughly the last five blocks. */
    function Average(hits: nat, avg: real): real { hits as real * 4.0 / 5.0 + avg / 5.0 }

    lemma AverageBound(hits: nat, avg: real)
      requires hits <= count && 0.0 <= avg <= count as real
      ensures 0.0 <= Average(hits, avg) <= count as real
      ensures count > 0 && hits == 0 ==> Average(hits, avg) < MinAllocated() as real
    {
      assert MinAllocated() as real >= count as real / 2.0;
    }

    /** A block goes back when it is empty, or when one chip more would still be a tenth at most. */
    lemma LightWhen(inUse: nat)
      requires 0 < count && inUse <= count
      ensures count - inUse > MaxAvailable() <==> inUse == 0 || 10 * (inUse + 1) <= count
    {
    }

    /** Blocks are used up too fast when less than half of their chips are handed out from them,
        by the last count and by four parts of it and one of the average before. */
    lemma TooFastWhen()
      ensures TooFast() <==>
                2 * hitCount < count && 4.0 * hitCount as real + avgHitRate < 5.0 * ((count + 1) / 2) as real
    {
    }

    /** Each change brings the average four fifths of the way to the count. */
    lemma AverageNears(hits: nat, avg: real)
      ensures 5.0 * (Average(hits, avg) - hits as real) == avg - hits as real
    {
    }

    /** The first block, for the fake one. */
    method FirstBlock()
      requires Valid() && tail == fake
      modifies this`tail, this`ring, this`links, pool`free, pool.free
      ensures Valid() && tail != fake && Grown(old(Now())) && Conserved(old(Now())) && OnlyNew()
    {
      var b := pool.AcquireBlock(this);
      BeginWith(b);
      ChipsBound(tail.usable, count);
    }

    method BeginWith(b: Slab)
      requires Shape() && ring == [] && b != fake && b !in pool.free && b.owner == this && Sized(b, count)
      modifies this`tail, this`ring, this`links, b`next
      ensures Shape() && tail == b && ring == [b]
    {
      tail := b;
      b.next := b;
      ring, links := [b], map[b := b];
    }

    /** The blocks and their chips as they are. */
    ghost function Now(): (p: Picture)
      reads this`ring, pool`free, ring, pool.free
      ensures |p.fills| == |p.ring| && |p.stock| == |p.free|
    {
      Picture(ring, Fills(ring), pool.free, Fills(pool.free))
    }

    /** The tail is a block that has come from the front of the pool, recycled, or a new one with
        all its chips usable. */
    ghost predicate Taken(p: Picture)
      requires |p.stock| == |p.free|
      reads this`tail, pool`free, tail
    {
      && tail.zombie == {}
      && if p.free == [] then pool.free == [] && tail.usable == Chips(count)
         else tail == p.free[0] && pool.free == p.free[1..] && tail.usable == p.stock[0].usable + p.stock[0].zombie
    }

    /** One more block than there was, after the tail, which it becomes; the others keep their chips. */
    ghost predicate Grown(p: Picture)
      requires |p.stock| == |p.free| && |p.fills| == |p.ring|
      reads this`tail, this`ring, pool`free, tail, p.ring
    {
      && Taken(p) && (forall i :: 0 <= i < |p.ring| ==> FillOf(p.ring[i]) == p.fills[i])
      && ring == if p.ring == [] then [tail] else [tail] + p.ring[1..] + [p.ring[0]]
    }

    /** One more block, after the tail; it becomes the tail. */
    method Grow()
      requires Shape() && tail != fake
      modifies this`tail, this`ring, this`links, pool`free, pool.free, tail`next
      ensures Shape() && tail != fake && Grown(old(Now())) && Conserved(old(Now())) && OnlyNew()
    {
      var b := pool.AcquireBlock(this);
      ghost var was := ring;
      LinkIn(b);
      Rotated(was, b);
      GrownBy(b);
    }

    static lemma Rotated(was: seq<Slab>, b: Slab)
      requires was != []
      ensures Members([b] + was[1..] + [was[0]]) == Members(was) + {b}
    {
      assert was == [was[0]] + was[1..];
      RotateItems<Slab>(b, was[1..], was[0]);
    }

    twostate lemma GrownBy(new b: Slab)
      requires Members(ring) == old(Members(ring)) + {b} && (b in old(pool.free) || fresh(b))
      requires old(Members(pool.free)) <= Members(pool.free) + {b}
      requires forall c :: c in pool.free ==> c in old(pool.free)
      requires forall c :: c in pool.free ==> c.usable == old(c.usable) && c.zombie == old(c.zombie)
      ensures Conserved(old(Now())) && OnlyNew()
    {
    }

    /** All blocks there are. */
    ghost function Blocks(): set<Slab>
      reads this`ring, pool`free
    {
      Members(ring) + Members(pool.free) + {fake}
    }

    /** No block is lost, and blocks in the pool keep their chips. */
    ghost predicate Conserved(p: Picture)
      requires |p.stock| == |p.free|
      reads this`ring, pool`free, p.free
    {
      && Members(p.ring) + Members(p.free) <= Members(ring) + Members(pool.free)
      && forall i :: 0 <= i < |p.free| && p.free[i] in pool.free ==> FillOf(p.free[i]) == p.stock[i]
    }

    /** Blocks that were not there before are new. */
    twostate predicate OnlyNew()
      reads this`ring, pool`free
    {
      forall b :: b in Blocks() ==> b in old(Blocks()) || fresh(b)
    }

    method LinkIn(b: Slab)
      requires Shape() && tail != fake && b !in ring && b != fake && b !in pool.free && b.owner == this &&
               Sized(b, count)
      modifies this`tail, this`ring, this`links, tail`next, b`next
      ensures Shape() && tail == b && ring == [b] + old(ring[1..]) + [old(tail)]
    {
      assert ring == [tail] + ring[1..];
      SegmentGrow<Slab>(links, tail, ring[1..], b);
      b.next := tail.next;
      tail.next := b;
      links := links[b := links[tail]][tail := b];
      ring := [b] + ring[1..] + [tail];
      tail := b;
    }

    /** What a block's next is, read off the ring. */
    method NextOf(cur: Slab, ghost front: seq<Slab>, ghost rest: seq<Slab>) returns (next: Slab)
      requires Shape() && tail != fake && ring == front + [cur] + rest
      ensures next == (if rest == [] then tail else rest[0]) && next in ring
      ensures next == tail || (next !in front && next != cur)
      ensures front != [] ==> cur != tail
    {
      NoDupAppend(front + [cur], rest);
      NoDupSnoc(front, cur);
      assert ring[0] == if front == [] then cur else front[0];
      assert rest != [] ==> rest[0] in rest && rest[0] !in front + [cur] && cur in front + [cur];
      assert rest != [] ==> forall b :: b in front ==> b in front + [cur];
      ghost var h: Slab := if rest == [] then tail else rest[0];
      SegmentAppend<Slab>(links, front + [cur], rest, h, tail);
      SegmentSnoc<Slab>(links, front, cur, h);
      assert ring[|front|] == cur;
      assert cur in ring && cur.next == links[cur];
      next := cur.next;
      assert ring[0] == tail && (rest != [] ==> ring[|front| + 1] == rest[0]);
    }

    /** Takes c, which follows p, out of the ring and gives it back. */
    method CutOut(p: Slab, c: Slab, next: Slab, ghost a: seq<Slab>, ghost b: seq<Slab>)
      requires Shape() && tail != fake && ring == a + [p] + [c] + b && next == if b == [] then tail else b[0]
      modifies this`ring, this`links, pool`free, p`next, c`next, c`owner
      ensures Shape() && ring == a + [p] + b && pool.free == old(pool.free) + [c]
    {
      Unlink(p, c, next, a, b);
      var _ := pool.ReleaseBlock(c);
    }

    method Unlink(p: Slab, ghost c: Slab, next: Slab, ghost a: seq<Slab>, ghost b: seq<Slab>)
      requires Shape() && tail != fake && ring == a + [p] + [c] + b && next == if b == [] then tail else b[0]
      modifies this`ring, this`links, p`next
      ensures Shape() && ring == a + [p] + b && c !in ring && c !in pool.free && c != fake && Sized(c, count)
    {
      SegmentCut<Slab>(links, a, p, c, b, tail);
      InRing(a, p, c, b);
      p.next := next;
      links := links[p := next];
      ring := a + [p] + b;
    }

    lemma InRing(a: seq<Slab>, p: Slab, c: Slab, b: seq<Slab>)
      requires Shape() && ring == a + [p] + [c] + b
      ensures p in ring && c in ring
      ensures forall x :: x in a + [p] + b ==> x in ring
      ensures (a + [p] + b)[0] == ring[0]
    {
      assert ring[|a|] == p && ring[|a| + 1] == c;
      CutItems<Slab>(a, p, c, b);
    }

    ghost predicate Light(b: Slab)
      requires count > 0
      reads b
    {
      |b.usable| > MaxAvailable()
    }

    /** Where the compression stands: cur, what is before it back to the tail, what is after it. */
    ghost predicate Walking(cur: Slab, front: seq<Slab>, rest: seq<Slab>)
      reads this`tail, this`ring, this`links, pool, pool.free, ring, fake, front, cur
    {
      Shape() && tail != fake && ring == front + [cur] + rest
    }

    static predicate Before(prev: Slab?, front: seq<Slab>) {
      if prev == null then front == [] else front != [] && prev == front[|front| - 1]
    }

    /** Gives cur back if both it and the block after it are light and it is not the first. */
    method CompressStep(prev: Slab?, cur: Slab, next: Slab, ghost front: seq<Slab>, ghost rest: seq<Slab>)
      returns (cur': Slab, ghost front': seq<Slab>, ghost given: seq<Slab>)
      requires Walking(cur, front, rest) && Before(prev, front) && next == (if rest == [] then tail else rest[0])
      modifies this`ring, this`links, pool`free, Members(ring)
      ensures Walking(cur', front', rest) && pool.free == old(pool.free) + given
      ensures old(Members(ring)) == Members(ring) + Members(given)
      ensures forall b :: b in old(Members(ring)) ==> Same(b)
      ensures if prev == null then cur' == cur && front' == front && given == []
              else cur' == prev && front' == front[..|front| - 1] && given == [cur]
    {
      cur', front', given := cur, front, [];
      if prev != null {
        front' := front[..|front| - 1];
        assert front == front' + [prev];
        assert ring[|front|] == cur && ring[|front| - 1] == prev;
        assert ring == front' + [prev] + ([cur] + rest) && ring[0] == tail;
        NotFirst<Slab>(front', prev, [cur] + rest);
        MembersCut(front', prev, cur, rest);
        assert front[|front| - 1] in front;
        CutOut(prev, cur, next, front', rest);
        given := [cur];
        cur' := prev;
      }
    }

    /** Going on to the next block, which is light and not the tail. */
    lemma WalkOn(cur: Slab, next: Slab, front: seq<Slab>, rest: seq<Slab>)
      requires Walking(cur, front, rest) && rest != [] && next == rest[0]
      ensures Walking(next, front + [cur], rest[1..])
    {
      assert ring == (front + [cur]) + [next] + rest[1..];
    }

    method RecycleNext(cur: Slab, ghost front: seq<Slab>, ghost rest: seq<Slab>) returns (next: Slab)
      requires Walking(cur, front, rest)
      modifies Members(ring)
      ensures Walking(cur, front, rest) && next == NextIn(rest) && (next == tail <==> rest == [])
      ensures OnlyRecycled(next, Members(ring))
      ensures |next.usable| <= MaxAvailable() <==> old(Heavy(FillOf(NextIn(rest))))
    {
      next := NextOf(cur, front, rest);
      if rest != [] { FirstOnce(front, cur, rest); }
      next.Recycle();
    }

    /** The block after cur: the first of the rest, or the tail again. */
    ghost function NextIn(rest: seq<Slab>): Slab
      reads this`tail
    {
      if rest == [] then tail else rest[0]
    }

    lemma FirstOnce(front: seq<Slab>, cur: Slab, rest: seq<Slab>)
      requires Shape() && tail != fake && ring == front + [cur] + rest && rest != []
      ensures rest[0] != tail
    {
      assert ring[0] == tail && ring[|front| + 1] == rest[0];
    }

    /** Where cur and front are once cur has been given back, if it is. */
    static ghost function Back(prev: Slab?, cur: Slab): Slab {
      if prev == null then cur else prev
    }

    static ghost function Given(prev: Slab?, cur: Slab): seq<Slab> {
      if prev == null then [] else [cur]
    }

    static ghost function FrontOf(prev: Slab?, front: seq<Slab>): seq<Slab>
      requires Before(prev, front)
    {
      if prev == null then front else front[..|front| - 1]
    }

    /** The outcome of a turn: stop at a heavy block; otherwise cur is given back, if there is a
        block to go back to, and the next one comes up, unless that is the tail. */
    static ghost predicate Turned(heavy: bool, prev: Slab?, cur: Slab, front: seq<Slab>, rest: seq<Slab>,
                                  stop: bool, prev': Slab?, cur': Slab, front': seq<Slab>, rest': seq<Slab>,
                                  given: seq<Slab>)
      requires Before(prev, front)
    {
      if heavy then stop && cur' == cur && front' == front && rest' == rest && given == []
      else
        && given == Given(prev, cur) && (stop <==> rest == [])
        && if stop then cur' == Back(prev, cur) && front' == FrontOf(prev, front) && rest' == []
           else prev' == Back(prev, cur) && cur' == rest[0] && front' == FrontOf(prev, front) + [prev'] &&
                rest' == rest[1..]
    }

    /** One turn of the compression: recycles the block after cur, and unless that is worth
        keeping, gives cur back, if there is a block to go back to, and moves on. */
    method CompressTurn(prev: Slab?, cur: Slab, ghost front: seq<Slab>, ghost rest: seq<Slab>)
      returns (stop: bool, prev': Slab?, cur': Slab, ghost front': seq<Slab>, ghost rest': seq<Slab>,
               ghost given: seq<Slab>)
      requires Walking(cur, front, rest) && Before(prev, front)
      modifies this`ring, this`links, pool`free, Members(ring)
      ensures Walking(cur', front', rest') && pool.free == old(pool.free) + given
      ensures old(Members(ring)) == Members(ring) + Members(given)
      ensures OnlyRecycled(NextIn(rest), old(Members(ring)))
      ensures Turned(old(Heavy(FillOf(NextIn(rest)))), prev, cur, front, rest, stop, prev', cur', front', rest', given)
    {
      stop, prev', cur', front', rest', given := true, prev, cur, front, rest, [];
      var next := RecycleNext(cur, front, rest);
      if |next.usable| > MaxAvailable() {
        stop, prev', cur', front', rest', given := GoOn(prev, cur, next, front, rest);
      }
    }

    /** The turn from a light block on. */
    method GoOn(prev: Slab?, cur: Slab, next: Slab, ghost front: seq<Slab>, ghost rest: seq<Slab>)
      returns (stop: bool, prev': Slab?, cur': Slab, ghost front': seq<Slab>, ghost rest': seq<Slab>,
               ghost given: seq<Slab>)
      requires Walking(cur, front, rest) && Before(prev, front)
      requires next == NextIn(rest) && (next == tail <==> rest == [])
      modifies this`ring, this`links, pool`free, Members(ring)
      ensures Walking(cur', front', rest') && pool.free == old(pool.free) + given
      ensures old(Members(ring)) == Members(ring) + Members(given)
      ensures forall b :: b in old(Members(ring)) ==> Same(b)
      ensures Turned(false, prev, cur, front, rest, stop, prev', cur', front', rest', given)
    {
      stop, prev', rest' := true, prev, rest;
      cur', front', given := CompressStep(prev, cur, next, front, rest);
      if next == tail { return; }
      stop := false;
      WalkOn(cur', next, front', rest);
      front', rest' := front' + [cur'], rest[1..];
      prev', cur' := cur', next;
    }

    /** What recycling leaves usable is too little to give the block back. */
    ghost predicate Heavy(f: Fill)
      requires count > 0
    {
      |f.usable + f.zombie| <= MaxAvailable()
    }

    twostate predicate Refreshed(b: Slab)
      reads b
    {
      b.usable == old(b.usable + b.zombie) && b.zombie == {}
    }

    twostate predicate Same(b: Slab)
      reads b
    {
      b.usable == old(b.usable) && b.zombie == old(b.zombie)
    }

    twostate predicate OnlyRecycled(next: Slab, bs: set<Slab>)
      reads bs
    {
      (next in bs ==> Refreshed(next)) && forall b :: b in bs && b != next ==> Same(b)
    }

    // ----- How far the compression goes -----

    /** The first heavy block from place k on, counted from the tail; one past the last place if none is. */
    ghost function FirstHeavy(fs: seq<Fill>, k: nat): (r: nat)
      requires count > 0 && fs != [] && k <= |fs| + 1
      ensures k <= r <= |fs| + 1
      decreases |fs| + 1 - k
    {
      if k > |fs| || Heavy(At(fs, k)) then k else FirstHeavy(fs, k + 1)
    }

    /** No block before it is heavy, and it is. */
    lemma {:induction false} FirstHeavyIs(fs: seq<Fill>, k: nat, i: nat)
      requires count > 0 && fs != [] && k <= i <= |fs|
      ensures i < FirstHeavy(fs, k) ==> !Heavy(At(fs, i))
      ensures i == FirstHeavy(fs, k) ==> Heavy(At(fs, i))
      decreases |fs| + 1 - k
    {
      if k < i && !Heavy(At(fs, k)) { FirstHeavyIs(fs, k + 1, i); }
    }

    /** Of the blocks rs, whose chips were fs, those after the tail up to place k have been
        recycled, and no others. */
    static ghost predicate Through(rs: seq<Slab>, fs: seq<Fill>, k: nat)
      requires |fs| == |rs|
      reads rs
    {
      forall i :: 0 <= i < |rs| ==> FillOf(rs[i]) == Then(fs, k, i)
    }

    static function Then(fs: seq<Fill>, k: nat, i: nat): Fill
      requires i < |fs|
    {
      if 1 <= i <= k || (i == 0 && k >= |fs|) then Fill(fs[i].usable + fs[i].zombie, {}) else fs[i]
    }

    static lemma ThroughNone(rs: seq<Slab>)
      ensures Through(rs, Fills(rs), 0)
    {
    }

    /** One more recycled. */
    twostate lemma ThroughOn(was: seq<Slab>, new fs: seq<Fill>, new j: nat)
      requires NoDup(was) && j < |was| == |fs| && old(Through(was, fs, j))
      requires OnlyRecycled(At(was, j + 1), Members(was))
      ensures Through(was, fs, j + 1)
    {
      forall i | 0 <= i < |was| ensures FillOf(was[i]) == Then(fs, j + 1, i) {
        assert old(FillOf(was[i])) == Then(fs, j, i);
        var m := if j + 1 == |was| then 0 else j + 1;
        if i == m {
          assert Refreshed(was[i]);
        } else {
          NoDupDistinct<Slab>(was, i, m);
          assert Same(was[i]);
        }
      }
    }

    /** After j turns that went on: all blocks between the tail and cur have been given back. */
    ghost predicate Walked(was: seq<Slab>, j: nat, prev: Slab?, cur: Slab, front: seq<Slab>, rest: seq<Slab>,
                           released: seq<Slab>)
      reads this`tail
    {
      && j < |was| && was[0] == tail && cur == was[j] && rest == was[j + 1..]
      && (if j == 0 then prev == null && front == [] && released == []
          else prev == tail && front == [tail] && released == was[1..j])
    }

    /** The walk has ended, k being the place of the first heavy block. */
    ghost predicate Ended(was: seq<Slab>, k: nat, cur: Slab, front: seq<Slab>, rest: seq<Slab>, released: seq<Slab>)
      reads this`tail
    {
      && was != [] && 1 <= k <= |was| + 1
      && if k <= |was| then Walked(was, k - 1, if k == 1 then null else tail, cur, front, rest, released)
         else cur == tail && front == [] && rest == [] && released == was[1..]
    }

    ghost predicate EndedAt(was: seq<Slab>, fs: seq<Fill>, k: nat,
                            cur: Slab, front: seq<Slab>, rest: seq<Slab>, released: seq<Slab>)
      requires |fs| == |was|
      reads this`tail, was
    {
      Through(was, fs, k) && Ended(was, k, cur, front, rest, released)
    }

    /** What has been given back, from the free list and the ring as they were before. */
    ghost predicate Released(released: seq<Slab>, free: seq<Slab>, members: set<Slab>)
      reads this`ring, pool`free
    {
      pool.free == free + released && members == Members(ring) + Members(released)
    }

    lemma WalkedOn(was: seq<Slab>, j: nat, prev: Slab?, cur: Slab, front: seq<Slab>, rest: seq<Slab>,
                   released: seq<Slab>)
      requires Walked(was, j, prev, cur, front, rest, released)
      ensures NextIn(rest) == At(was, j + 1) && Before(prev, front)
      ensures Back(prev, cur) == tail && FrontOf(prev, front) == []
      ensures rest != [] ==> Walked(was, j + 1, tail, rest[0], [tail], rest[1..], released + Given(prev, cur))
      ensures rest == [] ==> j + 1 == |was| && Ended(was, |was| + 1, tail, [], [], released + Given(prev, cur))
    {
      if j > 0 {
        assert was[1..j] + [was[j]] == was[1..j + 1];
        assert rest == [] ==> was[1..j + 1] == was[1..];
      }
    }

    lemma TurnedOn(was: seq<Slab>, fs: seq<Fill>, j: nat, released: seq<Slab>,
                   prev: Slab?, cur: Slab, front: seq<Slab>, rest: seq<Slab>,
                   stop: bool, prev': Slab?, cur': Slab, front': seq<Slab>, rest': seq<Slab>, given: seq<Slab>)
      requires count > 0 && |fs| == |was| && Walked(was, j, prev, cur, front, rest, released) && Before(prev, front)
      requires Turned(Heavy(At(fs, j + 1)), prev, cur, front, rest, stop, prev', cur', front', rest', given)
      ensures TurnTaken(was, fs, j, stop, prev', cur', front', rest', released + given)
    {
      WalkedOn(was, j, prev, cur, front, rest, released);
      assert released + [] == released;
    }

    /** After one more turn: on, or at an end. */
    ghost predicate TurnTaken(was: seq<Slab>, fs: seq<Fill>, j: nat, stop: bool,
                              prev: Slab?, cur: Slab, front: seq<Slab>, rest: seq<Slab>, released: seq<Slab>)
      requires count > 0 && j < |was| == |fs|
      reads this`tail
    {
      if Heavy(At(fs, j + 1)) then stop && Ended(was, j + 1, cur, front, rest, released)
      else if stop then j + 1 == |was| && Ended(was, |was| + 1, cur, front, rest, released)
      else Walked(was, j + 1, prev, cur, front, rest, released)
    }

    /** A turn, and how far the recycling has got. */
    method ThroughTurn(prev: Slab?, cur: Slab, ghost front: seq<Slab>, ghost rest: seq<Slab>,
                       ghost was: seq<Slab>, ghost fs: seq<Fill>, ghost j: nat)
      returns (stop: bool, prev': Slab?, cur': Slab, ghost front': seq<Slab>, ghost rest': seq<Slab>,
               ghost given: seq<Slab>)
      requires Walking(cur, front, rest) && Before(prev, front)
      requires NoDup(was) && j < |was| == |fs| && Through(was, fs, j) && NextIn(rest) == At(was, j + 1)
      modifies this`ring, this`links, pool`free, Members(ring)
      ensures Walking(cur', front', rest') && pool.free == old(pool.free) + given
      ensures old(Members(ring)) == Members(ring) + Members(given)
      ensures Through(was, fs, j + 1)
      ensures Turned(Heavy(At(fs, j + 1)), prev, cur, front, rest, stop, prev', cur', front', rest', given)
    {
      NextFill(was, fs, j, rest);
      stop, prev', cur', front', rest', given := CompressTurn(prev, cur, front, rest);
      assert OnlyRecycled(At(was, j + 1), Members(was));
      ThroughOn(was, fs, j);
    }

    method CompressMore(prev: Slab?, cur: Slab, ghost front: seq<Slab>, ghost rest: seq<Slab>,
                        ghost released: seq<Slab>, ghost free: seq<Slab>,
                        ghost was: seq<Slab>, ghost fs: seq<Fill>, ghost j: nat)
      returns (stop: bool, prev': Slab?, cur': Slab, ghost front': seq<Slab>, ghost rest': seq<Slab>,
               ghost released': seq<Slab>)
      requires Walking(cur, front, rest) && Released(released, free, Members(was))
      requires NoDup(was) && |fs| == |was| && Through(was, fs, j) && Walked(was, j, prev, cur, front, rest, released)
      modifies this`ring, this`links, pool`free, Members(ring)
      ensures Walking(cur', front', rest') && Released(released', free, Members(was))
      ensures if stop then EndedAt(was, fs, FirstHeavy(fs, j + 1), cur', front', rest', released')
              else Through(was, fs, j + 1) && Walked(was, j + 1, prev', cur', front', rest', released')
      ensures !stop ==> FirstHeavy(fs, j + 1) == FirstHeavy(fs, j + 2)
    {
      WalkedOn(was, j, prev, cur, front, rest, released);
      ghost var given;
      stop, prev', cur', front', rest', given := ThroughTurn(prev, cur, front, rest, was, fs, j);
      TurnedOn(was, fs, j, released, prev, cur, front, rest, stop, prev', cur', front', rest', given);
      Assoc<Slab>(free, released, given);
      MembersAppend(released, given);
      released' := released + given;
    }

    lemma NextFill(was: seq<Slab>, fs: seq<Fill>, j: nat, rest: seq<Slab>)
      requires j < |was| == |fs| && Through(was, fs, j) && NextIn(rest) == At(was, j + 1)
      ensures FillOf(NextIn(rest)) == At(fs, j + 1)
    {
      var m := if j + 1 == |was| then 0 else j + 1;
      assert FillOf(was[m]) == Then(fs, j, m);
    }

    method CompressWalk() returns (cur: Slab, ghost front: seq<Slab>, ghost rest: seq<Slab>, ghost released: seq<Slab>)
      requires Shape() && tail != fake
      modifies this`ring, this`links, pool`free, Members(ring)
      ensures Walking(cur, front, rest) && Released(released, old(pool.free), Members(old(ring)))
      ensures old(ring) != [] && Through(old(ring), old(Fills(ring)), FirstHeavy(old(Fills(ring)), 1))
      ensures Ended(old(ring), FirstHeavy(old(Fills(ring)), 1), cur, front, rest, released)
    {
      assert ring == [tail] + ring[1..] && ring == [] + [tail] + ring[1..];
      ThroughNone(ring);
      cur, front, rest, released := CompressAll(pool.free, ring, Fills(ring));
    }

    method CompressAll(ghost free: seq<Slab>, ghost was: seq<Slab>, ghost fs: seq<Fill>)
      returns (cur: Slab, ghost front: seq<Slab>, ghost rest: seq<Slab>, ghost released: seq<Slab>)
      requires was == ring != [] && NoDup(was) && |fs| == |was| && Through(was, fs, 0)
      requires Walking(tail, [], was[1..]) && Released([], free, Members(was)) &&
               Walked(was, 0, null, tail, [], was[1..], [])
      modifies this`ring, this`links, pool`free, Members(ring)
      ensures Walking(cur, front, rest) && Released(released, free, Members(was))
      ensures EndedAt(was, fs, FirstHeavy(fs, 1), cur, front, rest, released)
    {
      var prev: Slab? := null;
      cur, front, rest, released := tail, [], was[1..], [];
      ghost var j: nat, k := 0, FirstHeavy(fs, 1);
      while true
        invariant Walking(cur, front, rest) && Released(released, free, Members(was))
        invariant Walked(was, j, prev, cur, front, rest, released) && Through(was, fs, j)
        invariant k == FirstHeavy(fs, j + 1)
        modifies this`ring, this`links, pool`free, Members(was)
        decreases |was| - j
      {
        var stop;
        stop, prev, cur, front, rest, released := CompressMore(prev, cur, front, rest, released, free, was, fs, j);
        if stop { return; }
        j := j + 1;
      }
    }

    /** What compression comes to, from the ring was: all blocks between the tail and the one
        before the first heavy block have been given back, and that one is the new tail; with no
        heavy block, only the tail remains. */
    ghost predicate Compressed(was: seq<Slab>, fs: seq<Fill>, released: seq<Slab>)
      requires count > 0 && |was| == |fs| > 0
      reads this`ring, was
    {
      var k := FirstHeavy(fs, 1);
      Through(was, fs, k) && released == GivenBack(was, k) && ring == Remaining(was, k)
    }

    static function GivenBack(was: seq<Slab>, k: nat): seq<Slab>
      requires 1 <= k <= |was| + 1
    {
      if k == 1 then [] else was[1..k - 1]
    }

    static function Remaining(was: seq<Slab>, k: nat): seq<Slab>
      requires 1 <= k <= |was| + 1 && was != []
    {
      if k == 1 then was else if k <= |was| then [was[k - 1]] + was[k..] + [was[0]] else [was[0]]
    }

    /** Recycles blocks from the one after the tail on, up to one that is worth keeping, gives
        back those before it but for the last, and makes that the tail.  Coming round to the tail
        without having found one, it gives back all others. */
    method Compress() returns (ghost released: seq<Slab>)
      requires Shape() && tail != fake
      modifies this`tail, this`ring, this`links, pool`free, Members(ring)
      ensures Shape() && tail != fake && Shrunk(old(Now()), released)
      ensures tail != old(tail) <==> CanAdvance(old(Now()).fills)
      ensures Conserved(old(Now())) && OnlyNew()
    {
      released := WalkAndMove();
      assert forall b :: b in old(pool.free) ==> Same(b);
      ReleasedConserved(old(Now()), released);
      assert Blocks() == old(Blocks());
      TailMoves(old(Now()), released);
    }

    method WalkAndMove() returns (ghost released: seq<Slab>)
      requires Shape() && tail != fake
      modifies this`tail, this`ring, this`links, pool`free, Members(ring)
      ensures Shape() && tail != fake && Shrunk(old(Now()), released)
    {
      ghost var p := Now();
      var cur;
      ghost var front, rest;
      cur, front, rest, released := CompressWalk();
      RingAfter(p.ring, FirstHeavy(p.fills, 1), cur, front, rest, released);
      MoveTail(cur, front, rest);
      ShrunkAfter(p, released);
    }

    lemma ShrunkAfter(p: Picture, released: seq<Slab>)
      requires count > 0 && |p.ring| == |p.fills| > 0 && Through(p.ring, p.fills, FirstHeavy(p.fills, 1))
      requires released == GivenBack(p.ring, FirstHeavy(p.fills, 1)) &&
               ring == Remaining(p.ring, FirstHeavy(p.fills, 1))
      requires Released(released, p.free, Members(p.ring))
      ensures Shrunk(p, released)
    {
    }

    lemma RingAfter(was: seq<Slab>, k: nat, cur: Slab, front: seq<Slab>, rest: seq<Slab>, released: seq<Slab>)
      requires Ended(was, k, cur, front, rest, released) && was[0] == tail
      ensures released == GivenBack(was, k) && [cur] + rest + front == Remaining(was, k)
    {
      assert k == 1 ==> [was[0]] + was[1..] + [] == was;
    }

    /** Only light blocks have been given back, and the tail has moved, if at all, to one. */
    lemma ReleasedLight(was: seq<Slab>, fs: seq<Fill>, released: seq<Slab>)
      requires count > 0 && |was| == |fs| > 0 && Compressed(was, fs, released)
      ensures forall b :: b in released ==> Light(b)
      ensures ring[0] == was[0] || Light(ring[0])
    {
      var k := FirstHeavy(fs, 1);
      forall i | 1 <= i < k && i < |was| ensures Light(was[i]) {
        FirstHeavyIs(fs, 1, i);
        assert FillOf(was[i]) == Then(fs, k, i);
      }
    }

    /** There is another block, the one after the tail is light, and some block is heavy. */
    ghost predicate CanAdvance(fs: seq<Fill>)
      requires count > 0
    {
      |fs| >= 2 && !Heavy(fs[1]) && exists f :: f in fs && Heavy(f)
    }

    /** Exactly then compression moves the tail, which is the first block of the ring. */
    lemma TailMoves(p: Picture, released: seq<Slab>)
      requires count > 0 && Shrunk(p, released) && NoDup(p.ring)
      ensures ring[0] != p.ring[0] <==> CanAdvance(p.fills)
    {
      var fs, n := p.fills, |p.ring|;
      var k := FirstHeavy(fs, 1);
      FirstHeavyIs(fs, 1, 1);
      forall i | 1 <= i <= n ensures i < k ==> !Heavy(At(fs, i)) { FirstHeavyIs(fs, 1, i); }
      if f :| f in fs && Heavy(f) {
        var i :| 0 <= i < n && fs[i] == f;
        assert At(fs, if i == 0 then n else i) == f;
      }
      if k <= n {
        FirstHeavyIs(fs, 1, k);
        if k > 1 { NoDupDistinct<Slab>(p.ring, 0, k - 1); }
      }
    }

    lemma ReleasedConserved(p: Picture, released: seq<Slab>)
      requires |p.stock| == |p.free| && Released(released, p.free, Members(p.ring))
      requires forall i :: 0 <= i < |p.free| ==> FillOf(p.free[i]) == p.stock[i]
      ensures Conserved(p)
      ensures Members(ring) + Members(pool.free) == Members(p.ring) + Members(p.free)
    {
      MembersAppend(p.free, released);
    }

    method MoveTail(cur: Slab, ghost front: seq<Slab>, ghost rest: seq<Slab>)
      requires Walking(cur, front, rest)
      modifies this`tail, this`ring
      ensures Shape() && tail == cur && tail != fake && Members(ring) == old(Members(ring))
      ensures ring == [cur] + rest + front
    {
      assert ring == front + ([cur] + rest) && ring[|front|] == cur;
      SegmentRotate<Slab>(links, front, [cur] + rest);
      tail := cur;
      ring := [cur] + rest + front;
    }

    /** Blocks are used up too fast, now and on average. */
    predicate TooFast()
      reads this
    {
      hitCount < MinAllocated() && Average(hitCount, avgHitRate) < MinAllocated() as real
    }

    /** The tail has nothing left: another block, or fewer. */
    method ChangeBlocks() returns (ghost released: seq<Slab>)
      requires Valid()
      modifies this`tail, this`ring, this`links, this`hitCount, this`avgHitRate, pool`free, Blocks()
      ensures Valid() && tail != fake && hitCount == 0 && Conserved(old(Now())) && OnlyNew()
      ensures Changed(old(tail == fake || TooFast()), old(Now()), released)
      ensures avgHitRate == old(if tail == fake then 0.0 else Average(hitCount, avgHitRate))
    {
      released := [];
      if tail == fake { FirstBlock(); } else { released := Adapt(); }
    }

    method Adapt() returns (ghost released: seq<Slab>)
      requires Valid() && tail != fake
      modifies this`tail, this`ring, this`links, this`hitCount, this`avgHitRate, pool`free, Blocks()
      ensures Valid() && tail != fake && hitCount == 0 && Conserved(old(Now())) && OnlyNew()
      ensures Changed(old(tail == fake || TooFast()), old(Now()), released)
      ensures avgHitRate == old(Average(hitCount, avgHitRate))
    {
      ghost var p := Now();
      var fast := NewRate();
      assert Now() == p;
      released := [];
      if fast {
        Grow();
      } else {
        released := Compress();
        TailOnce(p, released);
      }
      TailBound();
    }

    /** The new average, and whether the blocks were used up too fast. */
    method NewRate() returns (fast: bool)
      requires Rates()
      modifies this`hitCount, this`avgHitRate
      ensures fast == old(TooFast()) && hitCount == 0 && 0.0 <= avgHitRate <= count as real
      ensures avgHitRate == old(Average(hitCount, avgHitRate))
    {
      AverageBound(hitCount, avgHitRate);
      avgHitRate := Average(hitCount, avgHitRate);
      fast := hitCount < MinAllocated() && avgHitRate < MinAllocated() as real;
      hitCount := 0;
    }

    /** Too fast, or the first time: one more block, after the tail.  Otherwise the ring is
        compressed. */
    ghost predicate Changed(fast: bool, p: Picture, released: seq<Slab>)
      requires count > 0 && |p.stock| == |p.free| && |p.fills| == |p.ring|
      reads this`tail, this`ring, pool`free, tail, p.ring
    {
      if fast then Grown(p) && released == [] else Shrunk(p, released)
    }

    ghost predicate Shrunk(p: Picture, released: seq<Slab>)
      requires count > 0
      reads this`ring, pool`free, p.ring
    {
      |p.ring| == |p.fills| > 0 && Compressed(p.ring, p.fills, released) && Released(released, p.free, Members(p.ring))
    }

    /** The tail that compression leaves has been recycled, or is the one there was. */
    lemma TailOnce(p: Picture, released: seq<Slab>)
      requires Shape() && tail != fake && Shrunk(p, released) && p.fills[0].usable !! p.fills[0].zombie
      ensures tail.usable !! tail.zombie
    {
      var k := FirstHeavy(p.fills, 1);
      var i := if k <= |p.ring| then k - 1 else 0;
      assert ring[0] == p.ring[i] && FillOf(p.ring[i]) == Then(p.fills, k, i);
    }

    lemma TailBound()
      requires Shape() && tail != fake
      ensures |tail.usable| <= count
    {
      assert tail in ring;
      ChipsBound(tail.usable, count);
    }

    // ----- Acquiring a chip -----

    /** How many more times the blocks may have to be changed before a chip is found. */
    ghost function Bound(): nat
      reads this, tail, pool, pool.free
    {
      if tail.usable != {} then 0 else if hitCount == 0 then 1 + Dry(pool.free) else 2 + |pool.free|
    }

    /** The free chips of all blocks. */
    ghost function Free(): map<Slab, set<nat>>
      reads this`ring, pool`free, ring, pool.free, fake
    {
      map b | b in Blocks() :: b.usable + b.zombie
    }

    /** The blocks have the free chips they had. */
    static ghost predicate ChipsKept(was: map<Slab, set<nat>>)
      reads was.Keys
    {
      forall b :: b in was ==> b.usable + b.zombie == was[b]
    }

    /** Block b, if it is not new, has one free chip less, this one; all other blocks have those
        they had. */
    static ghost predicate HandedOut(was: map<Slab, set<nat>>, b: Slab, chip: nat)
      reads was.Keys
    {
      forall c :: c in was ==>
        if c == b then chip in was[c] && c.usable + c.zombie == was[c] - {chip} else c.usable + c.zombie == was[c]
    }

    static lemma HandedOutBefore(was: map<Slab, set<nat>>, between: map<Slab, set<nat>>, b: Slab, chip: nat)
      requires forall c :: c in was ==> c in between && between[c] == was[c]
      requires HandedOut(between, b, chip)
      ensures HandedOut(was, b, chip)
    {
    }

    /** acquire: a chip of the tail, after changing blocks as often as it takes.  rounds counts
        the changes. */
    method Acquire() returns (chip: nat, ghost rounds: nat)
      requires Valid()
      modifies this`tail, this`ring, this`links, this`hitCount, this`avgHitRate, pool`free, Blocks()
      ensures Valid() && tail != fake && tail in ring && hitCount == if rounds == 0 then old(hitCount) + 1 else 1
      ensures chip < count && chip !in tail.usable && HandedOut(old(Free()), tail, chip)
      ensures rounds <= old(Bound()) <= |old(pool.free)| + 2
      ensures rounds == 0 ==> tail == old(tail) && tail.usable == old(tail.usable) - {chip} && chip in old(tail.usable)
      ensures rounds == 0 ==> avgHitRate == old(avgHitRate)
      ensures old(Blocks()) <= Blocks() && OnlyNew()
      decreases if tail.usable != {} then 0 else 1, if hitCount == 0 then 0 else 1, Dry(pool.free), 1
    {
      DryBound(pool.free);
      var got;
      chip, got := Hit();
      rounds := 0;
      if !got { chip, rounds := SlowAcquire(); }
    }

    /** A chip of the tail, if it has one. */
    method Hit() returns (chip: nat, got: bool)
      requires Valid()
      modifies this`hitCount, tail`usable
      ensures Valid() && got == (old(tail.usable) != {})
      ensures got ==> tail != fake && tail in ring && HandedOut(old(Free()), tail, chip)
      ensures got ==> chip < count && chip in old(tail.usable) && tail.usable == old(tail.usable) - {chip}
      ensures hitCount == old(hitCount) + if got then 1 else 0
      ensures !got ==> tail.usable == {} && Free() == old(Free())
    {
      ghost var free, was := Free(), FillOf(tail);
      FreeNow(free);
      chip, got := Take();
      if got { OneLess(free, was, chip); } else { FreeSame(free, was); }
    }

    method Take() returns (chip: nat, got: bool)
      requires Valid()
      modifies this`hitCount, tail`usable
      ensures Valid() && got == (old(tail.usable) != {})
      ensures got ==> tail != fake && tail in ring
      ensures got ==> chip < count && chip in old(tail.usable) && tail.usable == old(tail.usable) - {chip}
      ensures hitCount == old(hitCount) + if got then 1 else 0
      ensures !got ==> tail.usable == {}
    {
      chip, got := tail.Acquire();
      if got {
        ChipsAre(chip, count);
        hitCount := hitCount + 1;
      }
    }

    lemma FreeNow(free: map<Slab, set<nat>>)
      requires Valid() && free == Free()
      ensures ChipsKept(free - {tail}) && free.Keys == Blocks() && tail in free
      ensures free[tail] == tail.usable + tail.zombie && tail.usable !! tail.zombie
    {
    }

    lemma FreeSame(free: map<Slab, set<nat>>, was: Fill)
      requires ChipsKept(free - {tail}) && free.Keys == Blocks() && tail in free
      requires free[tail] == was.usable + was.zombie && FillOf(tail) == was
      ensures free == Free()
    {
      forall c | c in free && c != tail ensures c.usable + c.zombie == free[c] {
        assert c in free - {tail};
      }
    }

    lemma OneLess(free: map<Slab, set<nat>>, was: Fill, chip: nat)
      requires ChipsKept(free - {tail}) && tail in free && free[tail] == was.usable + was.zombie
      requires chip in was.usable && was.usable !! was.zombie
      requires tail.usable == was.usable - {chip} && tail.zombie == was.zombie
      ensures HandedOut(free, tail, chip)
    {
      forall c | c in free && c != tail ensures c.usable + c.zombie == free[c] {
        assert c in free - {tail};
      }
    }

    method SlowAcquire() returns (chip: nat, ghost rounds: nat)
      requires Valid() && tail.usable == {}
      modifies this`tail, this`ring, this`links, this`hitCount, this`avgHitRate, pool`free, Blocks()
      ensures Valid() && tail != fake && tail in ring && hitCount == 1
      ensures chip < count && chip !in tail.usable && HandedOut(old(Free()), tail, chip)
      ensures 0 < rounds <= old(Bound())
      ensures old(Blocks()) <= Blocks() && OnlyNew()
      decreases 1, if hitCount == 0 then 0 else 1, Dry(pool.free), 0
    {
      ghost var free := Free();
      ChangeOnce();
      ghost var free' := Free();
      chip, rounds := Acquire();
      HandedOutBefore(free, free', tail, chip);
      rounds := rounds + 1;
    }

    /** One change of blocks, as far as finding a chip goes. */
    method ChangeOnce()
      requires Valid() && tail.usable == {}
      modifies this`tail, this`ring, this`links, this`hitCount, this`avgHitRate, pool`free, Blocks()
      ensures Valid() && hitCount == 0 && Fewer() && ChipsKept(old(Free()))
      ensures old(Blocks()) <= Blocks() && OnlyNew()
    {
      ghost var p, free, fast := Now(), Free(), tail == fake || TooFast();
      ghost var released := ChangeBlocks();
      Nearer(released);
      ChangeKeeps(fast, p, released, free);
    }

    lemma ChangeKeeps(fast: bool, p: Picture, released: seq<Slab>, free: map<Slab, set<nat>>)
      requires Shape() && |p.stock| == |p.free| && |p.fills| == |p.ring|
      requires Conserved(p) && Changed(fast, p, released)
      requires free.Keys <= Members(p.ring) + Members(p.free) + {fake} && (fake in free ==> free[fake] == {})
      requires forall i :: 0 <= i < |p.ring| && p.ring[i] in free ==>
                 free[p.ring[i]] == p.fills[i].usable + p.fills[i].zombie
      requires forall i :: 0 <= i < |p.free| && p.free[i] in free ==>
                 free[p.free[i]] == p.stock[i].usable + p.stock[i].zombie
      ensures ChipsKept(free)
    {
      forall b | b in free ensures b.usable + b.zombie == free[b] {
        if b in p.ring {
          var i :| 0 <= i < |p.ring| && p.ring[i] == b;
          RingKept(fast, p, released, i);
        } else if b in p.free {
          var i :| 0 <= i < |p.free| && p.free[i] == b;
          FreeKept(fast, p, released, i);
        }
      }
    }

    /** Blocks of the ring, and those of the pool, keep their chips. */
    lemma RingKept(fast: bool, p: Picture, released: seq<Slab>, i: nat)
      requires count > 0 && |p.fills| == |p.ring| && |p.stock| == |p.free|
      requires Changed(fast, p, released) && i < |p.ring|
      ensures p.ring[i].usable + p.ring[i].zombie == p.fills[i].usable + p.fills[i].zombie
    {
      if fast {
        assert FillOf(p.ring[i]) == p.fills[i];
      } else {
        assert FillOf(p.ring[i]) == Then(p.fills, FirstHeavy(p.fills, 1), i);
      }
    }

    lemma FreeKept(fast: bool, p: Picture, released: seq<Slab>, i: nat)
      requires count > 0 && |p.fills| == |p.ring| && |p.stock| == |p.free|
      requires Conserved(p) && Changed(fast, p, released) && i < |p.free|
      ensures p.free[i].usable + p.free[i].zombie == p.stock[i].usable + p.stock[i].zombie
    {
      assert fast && p.free != [] ==> p.free == [p.free[0]] + pool.free;
    }

    /** Fewer changes are left than there were. */
    twostate predicate Fewer()
      reads this`tail, tail, pool`free, pool.free
    {
      tail.usable == {} ==>
        if old(hitCount) == 0 then Dry(pool.free) < old(Dry(pool.free)) else Dry(pool.free) <= |old(pool.free)|
    }

    /** A change leaves fewer changes to come. */
    twostate lemma Nearer(new released: seq<Slab>)
      requires old(Valid()) && Valid() && old(tail.usable) == {} && hitCount == 0
      requires Conserved(old(Now())) && Changed(old(tail == fake || TooFast()), old(Now()), released)
      ensures Fewer()
    {
      AverageBound(old(hitCount), old(avgHitRate));
      ZeroIn(count);
      if tail.usable == {} {
        if old(tail == fake || TooFast()) {
          if old(pool.free) != [] {
            DrySame(pool.free);
            DryBound(pool.free);
          }
        } else {
          DrySame(old(pool.free));
          ReleasedLight(old(Now()).ring, old(Now()).fills, released);
          DryAppend(old(pool.free), released);
        }
      }
    }
  }

  /** Blocks of one chip, all handed out, and none in the pool. */
  ghost predicate AllOut(l: BlockList)
    reads l, l.pool, l.pool.free, l.ring, l.fake, l.tail
  {
    && l.Valid() && l.count == 1 && l.pool.free == []
    && forall b :: b in l.ring ==> b.usable == {} && b.zombie == {}
  }

  /** A ring of two blocks of one chip, both handed out: a change of blocks leaves it as it is,
      the tail included. */
  method TailStays() returns (l: BlockList, ghost before: seq<Slab>)
    ensures AllOut(l) && |before| == 2 && l.ring == before && l.tail == before[0]
  {
    var pool := new Pool(1);
    l := new BlockList(pool);
    UseBlock(l);
    ChangeInVain(l);
    UseBlock(l);
    before := l.ring;
    ChangeInVain(l);
  }

  /** A new block, after the tail, and its chip handed out. */
  method UseBlock(l: BlockList)
    requires AllOut(l) && (l.tail == l.fake || l.TooFast())
    modifies l`tail, l`ring, l`links, l`hitCount, l`avgHitRate, l.pool`free, l.Blocks()
    ensures AllOut(l) && l.hitCount == 1 && |l.ring| == |old(l.ring)| + 1
    ensures forall b :: b in l.Blocks() ==> b in old(l.Blocks()) || fresh(b)
  {
    NewBlock(l);
    var _, _ := l.Hit();
  }

  method NewBlock(l: BlockList)
    requires AllOut(l) && (l.tail == l.fake || l.TooFast())
    modifies l`tail, l`ring, l`links, l`hitCount, l`avgHitRate, l.pool`free, l.Blocks()
    ensures l.Valid() && l.tail != l.fake && l.hitCount == 0 && l.pool.free == []
    ensures l.tail.usable == {0} && l.tail.zombie == {} && |l.ring| == |old(l.ring)| + 1
    ensures forall b :: b in l.ring ==> b == l.tail || (b.usable == {} && b.zombie == {})
    ensures l.OnlyNew()
  {
    ghost var was := l.Now();
    ghost var r := l.ChangeBlocks();
    assert Chips(1) == {0};
    forall b | b in was.ring ensures b.usable == {} && b.zombie == {} {
      var i :| 0 <= i < |was.ring| && was.ring[i] == b;
      assert FillOf(b) == was.fills[i];
    }
  }

  /** No block has a chip to give back, so none is worth giving back. */
  method ChangeInVain(l: BlockList)
    requires AllOut(l) && l.hitCount == 1
    modifies l`tail, l`ring, l`links, l`hitCount, l`avgHitRate, l.pool`free, l.Blocks()
    ensures AllOut(l) && l.ring == old(l.ring) && l.TooFast()
  {
    ghost var p := l.Now();
    ghost var r := l.ChangeBlocks();
    assert l.Heavy(At(p.fills, 1));
    l.AverageBound(0, l.avgHitRate);
  }

  /** How many blocks at the front of the pool have no chip to give. */
  ghost function Dry(free: seq<Slab>): nat
    reads free
  {
    if free == [] || free[0].usable + free[0].zombie != {} then 0 else 1 + Dry(free[1..])
  }

  lemma {:induction false} DryBound(free: seq<Slab>)
    ensures Dry(free) <= |free|
    decreases |free|
  {
    if free != [] { DryBound(free[1..]); }
  }

  twostate lemma {:induction false} DrySame(free: seq<Slab>)
    requires forall b :: b in free ==> b.usable == old(b.usable) && b.zombie == old(b.zombie)
    ensures Dry(free) == old(Dry(free))
    decreases |free|
  {
    if free != [] { DrySame(free[1..]); }
  }

  lemma {:induction false} DryAppend(a: seq<Slab>, b: seq<Slab>)
    requires forall x :: x in b ==> x.usable != {}
    ensures Dry(a + b) <= |a|
    decreases |a|
  {
    if a == [] {
      assert a + b == b;
    } else {
      assert (a + b)[0] == a[0] && (a + b)[1..] == a[1..] + b;
      DryAppend(a[1..], b);
    }
  }
}
