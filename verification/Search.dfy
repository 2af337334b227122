/** What the sets computed by the search loops are: the least closed sets that step
    computes, one per character, are the states of some partial match
    (src/common/regex_engine.cpp, fast and slow). */
module Search {
  import opened Strip
  import opened Reach
  import opened Closure
  import opened Live

  /** States of partial matches that start somewhere in i0..i1 and have read up to p. */
  ghost function LiveSet(xs: seq<Node>, b: nat, t: seq<char>, i0: int, i1: int, p: int): set<int> {
    set pc | b <= pc <= b + Len(xs) && LiveAt(xs, b, pc, t, i0, i1, p)
  }

  ghost predicate LiveAt(xs: seq<Node>, b: nat, pc: int, t: seq<char>, i0: int, i1: int, p: int) {
    exists i :: i0 <= i <= i1 && i <= p && At(xs, b, pc, t, i, p)
  }

  /** States of a fresh start. */
  ghost function Fresh(xs: seq<Node>, b: nat): set<int> {
    LiveSet(xs, b, [], 0, 0, 0)
  }

  lemma {:induction false} LiveClosed(s: seq<Sop>, b: nat, xs: seq<Node>, t: seq<char>, i0: int, i1: int, p: int)
    requires Laid(s, b, xs)
    ensures Closed(s, b, b + Len(xs), LiveSet(xs, b, t, i0, i1, p))
  {
    forall pc, q | b <= pc < b + Len(xs) && pc in LiveSet(xs, b, t, i0, i1, p) && q in EpsTo(s, pc)
      ensures q in LiveSet(xs, b, t, i0, i1, p)
    {
      var i :| i0 <= i <= i1 && i <= p && At(xs, b, pc, t, i, p);
      AtEps(s, b, xs, pc, t, i, p, q);
    }
  }

  lemma {:induction false} LiveEats(s: seq<Sop>, b: nat, xs: seq<Node>, t: seq<char>, i0: int, i1: int, p: int)
    requires Laid(s, b, xs) && 0 <= p < |t|
    ensures Eaten(s, b, b + Len(xs), LiveSet(xs, b, t, i0, i1, p), t[p]) <= LiveSet(xs, b, t, i0, i1, p + 1)
  {
    forall pc | pc in LiveSet(xs, b, t, i0, i1, p) && b <= pc < b + Len(xs) && Eats(s[pc], t[p])
      ensures pc + 1 in LiveSet(xs, b, t, i0, i1, p + 1)
    {
      var i :| i0 <= i <= i1 && i <= p && At(xs, b, pc, t, i, p);
      AtEats(s, b, xs, pc, t, i, p);
      assert i <= p + 1 && At(xs, b, pc + 1, t, i, p + 1);
    }
  }

  /** The search's own sets up to position n - 1, as a family; the last may be any T that
      takes what the one before reads. */
  ghost function History(s: seq<Sop>, b: nat, xs: seq<Node>, t: seq<char>, i0: int, i1: int, n: nat,
                         T: set<int>): (r: Family)
    requires Laid(s, b, xs) && n <= |t|
    requires Closed(s, b, b + Len(xs), T)
    requires n > 0 ==> Eaten(s, b, b + Len(xs), LiveSet(xs, b, t, i0, i1, n - 1), t[n - 1]) <= T
    ensures r == Run(s, b, b + Len(xs), t, seq(n + 1, k => if k < n then LiveSet(xs, b, t, i0, i1, k) else T))
  {
    var hi := b + Len(xs);
    var F := seq(n + 1, k => if k < n then LiveSet(xs, b, t, i0, i1, k) else T);
    assert forall k :: 0 <= k < n + 1 ==> Closed(s, b, hi, F[k]) by {
      forall k | 0 <= k < n ensures Closed(s, b, hi, F[k]) { LiveClosed(s, b, xs, t, i0, i1, k); }
    }
    assert forall k :: 0 <= k < n ==> Eaten(s, b, hi, F[k], t[k]) <= F[k + 1] by {
      forall k | 0 <= k < n ensures Eaten(s, b, hi, F[k], t[k]) <= F[k + 1] {
        if k < n - 1 { LiveEats(s, b, xs, t, i0, i1, k); }
      }
    }
    Run(s, b, hi, t, F)
  }

  /** The closure of the first state is the set of states of a match begun at i. */
  lemma {:induction false} InitLive(s: seq<Sop>, b: nat, xs: seq<Node>, t: seq<char>, i: nat, T: set<int>)
    requires Laid(s, b, xs) && i <= |t| && Least(s, b, b + Len(xs), {b}, T)
    ensures T == LiveSet(xs, b, t, i, i, i)
  {
    var L := LiveSet(xs, b, t, i, i, i);
    AtStart(xs, b, t, i);
    LiveClosed(s, b, xs, t, i, i, i);
    assert {b} <= L;
    if i > 0 {
      assert LiveSet(xs, b, t, i, i, i - 1) == {};
    }
    var r := History(s, b, xs, t, i, i, i, T);
    forall pc | pc in L ensures pc in T {
      AtIn(r, b, xs, pc, i, i);
    }
  }

  /** ... wherever the match begins and whatever the text. */
  lemma {:induction false} FreshAnywhere(s: seq<Sop>, b: nat, xs: seq<Node>, t: seq<char>, i: nat)
    requires Laid(s, b, xs) && i <= |t|
    ensures LiveSet(xs, b, t, i, i, i) == Fresh(xs, b)
    ensures Least(s, b, b + Len(xs), {b}, Fresh(xs, b))
  {
    var L := Fresh(xs, b);
    LiveClosed(s, b, xs, [], 0, 0, 0);
    AtStart(xs, b, [], 0);
    forall U: set<int> | {b} <= U && Closed(s, b, b + Len(xs), U) ensures L <= U {
      var r := History(s, b, xs, [], 0, 0, 0, U);
      forall pc | pc in L ensures pc in U { AtIn(r, b, xs, pc, 0, 0); }
    }
    InitLive(s, b, xs, t, i, L);
  }

  /** One character: the states live after it are the least closed set that holds what the live
      states read, with or without a fresh start. */
  lemma {:induction false} StepLeast(s: seq<Sop>, b: nat, xs: seq<Node>, t: seq<char>,
                                     i0: int, i1: int, i2: int, p: int, seed: set<int>)
    requires Laid(s, b, xs) && 0 <= i0 <= i1 <= p < |t|
    requires (i2 == i1 && seed == {}) || (i1 == p && i2 == p + 1 && seed == Fresh(xs, b))
    ensures Least(s, b, b + Len(xs), seed + Eaten(s, b, b + Len(xs), LiveSet(xs, b, t, i0, i1, p), t[p]),
                  LiveSet(xs, b, t, i0, i2, p + 1))
  {
    var L, hi := LiveSet(xs, b, t, i0, i2, p + 1), b + Len(xs);
    LiveClosed(s, b, xs, t, i0, i2, p + 1);
    LiveEats(s, b, xs, t, i0, i1, p);
    assert LiveSet(xs, b, t, i0, i1, p + 1) <= L;
    if i2 == p + 1 {
      FreshAnywhere(s, b, xs, t, p + 1);
      assert seed <= L;
    }
    forall U: set<int> | seed + Eaten(s, b, hi, LiveSet(xs, b, t, i0, i1, p), t[p]) <= U && Closed(s, b, hi, U)
      ensures L <= U
    {
      StepWithin(s, b, xs, t, i0, i1, i2, p, seed, U);
    }
  }

  lemma {:induction false} StepWithin(s: seq<Sop>, b: nat, xs: seq<Node>, t: seq<char>,
                                      i0: int, i1: int, i2: int, p: int, seed: set<int>, U: set<int>)
    requires Laid(s, b, xs) && 0 <= i0 <= i1 <= p < |t|
    requires (i2 == i1 && seed == {}) || (i1 == p && i2 == p + 1 && seed == Fresh(xs, b))
    requires seed + Eaten(s, b, b + Len(xs), LiveSet(xs, b, t, i0, i1, p), t[p]) <= U && Closed(s, b, b + Len(xs), U)
    ensures LiveSet(xs, b, t, i0, i2, p + 1) <= U
  {
    if i2 == p + 1 { FreshAnywhere(s, b, xs, t, p + 1); }
    var r := History(s, b, xs, t, i0, i1, p + 1, U);
    forall pc | pc in LiveSet(xs, b, t, i0, i2, p + 1) ensures pc in U {
      var i :| i0 <= i <= i2 && i <= p + 1 && At(xs, b, pc, t, i, p + 1);
      if i <= i1 {
        AtStart(xs, b, t, i);
        assert b in r.F[i];
        AtIn(r, b, xs, pc, i, p + 1);
      } else {
        assert pc in LiveSet(xs, b, t, p + 1, p + 1, p + 1);
      }
    }
  }

  /** Closing what the live states read gives the states live after it. */
  lemma StepLive(s: seq<Sop>, b: nat, xs: seq<Node>, t: seq<char>,
                 i0: int, i1: int, i2: int, p: int, seed: set<int>, T: set<int>)
    requires Laid(s, b, xs) && 0 <= i0 <= i1 <= p < |t|
    requires (i2 == i1 && seed == {}) || (i1 == p && i2 == p + 1 && seed == Fresh(xs, b))
    requires Least(s, b, b + Len(xs), seed + Eaten(s, b, b + Len(xs), LiveSet(xs, b, t, i0, i1, p), t[p]), T)
    ensures T == LiveSet(xs, b, t, i0, i2, p + 1)
  {
    StepLeast(s, b, xs, t, i0, i1, i2, p, seed);
  }

  ghost predicate Ends(xs: seq<Node>, t: seq<char>, i0: int, i1: int, p: int) {
    exists i :: i0 <= i <= i1 && i <= p && M(xs, t, i, p)
  }

  /** The final state is live exactly when some match ends here. */
  lemma {:induction false} EndLive(xs: seq<Node>, b: nat, t: seq<char>, i0: int, i1: int, p: int)
    ensures b + Len(xs) in LiveSet(xs, b, t, i0, i1, p) <==> Ends(xs, t, i0, i1, p)
  {
    forall i ensures At(xs, b, b + Len(xs), t, i, p) <==> M(xs, t, i, p) { AtEnd(xs, b, t, i, p); }
    if LiveAt(xs, b, b + Len(xs), t, i0, i1, p) {
      var i :| i0 <= i <= i1 && i <= p && At(xs, b, b + Len(xs), t, i, p);
      assert M(xs, t, i, p);
    }
    if i :| i0 <= i <= i1 && i <= p && M(xs, t, i, p) {
      assert At(xs, b, b + Len(xs), t, i, p);
    }
  }

  /** Once no state is live, no match begun earlier ends later. */
  lemma {:induction false} DeadLive(s: seq<Sop>, b: nat, xs: seq<Node>, t: seq<char>, i: nat, p: nat, j: nat)
    requires Laid(s, b, xs) && i <= p < j <= |t| && LiveSet(xs, b, t, i, i, p) == {}
    ensures !M(xs, t, i, j)
    decreases j - p
  {
    assert Eaten(s, b, b + Len(xs), LiveSet(xs, b, t, i, i, p), t[p]) == {};
    StepLive(s, b, xs, t, i, i, i, p, {}, {});
    if p + 1 < j {
      DeadLive(s, b, xs, t, i, p + 1, j);
    } else {
      EndLive(xs, b, t, i, i, j);
    }
  }
}
