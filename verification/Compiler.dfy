/** The compiler from extended regular expressions to strips: code is emitted, inserted,
    copied and patched in place (src/common/regcomp.cpp). */
module Compiler {
  import opened Strip
  import opened Ere
  import opened Grammar
  import opened Reading
  import opened Sequences
  import opened Wrappers

  // ----- What the edits amount to -----

  lemma CodeOne(x: Node)
    ensures Code([x]) == NodeCode(x)
  {
    assert [x][1..] == [];
  }

  lemma CodeThree(i: nat, xs: seq<Node>)
    ensures Code([LPar(i)] + xs + [RPar(i)]) == [OLPAREN(i)] + Code(xs) + [ORPAREN(i)]
  {
    CodeOne(LPar(i));
    CodeOne(RPar(i));
    CodeConcat([LPar(i)], xs);
    CodeConcat([LPar(i)] + xs, [RPar(i)]);
  }

  /** y? with c the code of y. */
  function OptCode(c: seq<Sop>): seq<Sop> {
    [OCH_(|c| + 2)] + c + [OOR1(|c| + 1), OOR2(1), O_CH(2)]
  }

  lemma OptCodeIs(xs: seq<Node>)
    ensures Code([Choice(xs, [], [])]) == OptCode(Code(xs))
  {
    CodeOne(Choice(xs, [], []));
  }

  lemma CatCode(pre: seq<Sop>, l: Ere, r: Ere)
    requires Ok(l) && Ok(r)
    ensures pre + Code(Lower(l)) + Code(Lower(r)) == pre + Code(Lower(Cat(l, r)))
  {
    CodeConcat(Lower(l), Lower(r));
    Assoc(pre, Code(Lower(l)), Code(Lower(r)));
  }

  lemma GroupCode(pre: seq<Sop>, i: nat, b: Ere)
    requires Ok(b)
    ensures pre + [OLPAREN(i)] + Code(Lower(b)) + [ORPAREN(i)] == pre + Code(Lower(Group(i, b)))
  {
    CodeThree(i, Lower(b));
    Assoc(pre, [OLPAREN(i)], Code(Lower(b)));
    Assoc(pre, [OLPAREN(i)] + Code(Lower(b)), [ORPAREN(i)]);
  }

  /** Alternatives still open: all but the last, from OCH_ to the last OOR1. */
  function HalfOf(f: seq<Node>, m: seq<Branch>): seq<Sop> {
    HeadCode(Code(f)) + MidCode(m)
  }

  lemma HalfOfSnoc(f: seq<Node>, m: seq<Branch>, b: seq<Node>)
    ensures HalfOf(f, m + [Strip.Branch(b)]) == HalfOf(f, m) + SegCode(Code(b))
  {
    MidCodeSnoc(m, b);
    Assoc(HeadCode(Code(f)), MidCode(m), SegCode(Code(b)));
  }

  /** An alternative that is not the last, from its OCH_ or OOR2 to its OOR1. */
  function AltHead(first: bool, c: seq<Sop>): seq<Sop> {
    if first then HeadCode(c) else SegCode(c)
  }

  ghost function HalfCode(done: seq<Ere>): seq<Sop>
    requires OkAll(done)
  {
    if done == [] then []
    else
      var k := |done| - 1;
      HalfCode(done[..k]) + AltHead(k == 0, Code(Lower(done[k])))
  }

  lemma {:induction false} LowerMidSnoc(m: seq<Ere>, b: Ere)
    requires OkAll(m) && Ok(b)
    ensures OkAll(m + [b]) && LowerMid(m + [b]) == LowerMid(m) + [Strip.Branch(Lower(b))]
    decreases |m|
  {
    if m == [] {
      assert (m + [b])[1..] == [];
    } else {
      assert (m + [b])[0] == m[0] && (m + [b])[1..] == m[1..] + [b];
      LowerMidSnoc(m[1..], b);
    }
  }

  lemma {:induction false} HalfIs(done: seq<Ere>)
    requires OkAll(done) && done != []
    ensures HalfCode(done) == HalfOf(Lower(done[0]), LowerMid(done[1..]))
    decreases |done|
  {
    var k := |done| - 1;
    var f, b := Lower(done[0]), Lower(done[k]);
    if k == 0 {
      assert done[1..] == [] && HalfCode(done[..0]) == [];
      assert HalfOf(f, []) == HeadCode(Code(f));
    } else {
      var m := done[1..k];
      assert done[..k][0] == done[0] && done[..k][1..] == m && done[1..] == m + [done[k]];
      HalfIs(done[..k]);
      LowerMidSnoc(m, done[k]);
      HalfOfSnoc(f, LowerMid(m), b);
      assert HalfCode(done) == HalfCode(done[..k]) + SegCode(Code(b));
    }
  }

  lemma HalfNext(pre: seq<Sop>, done: seq<Ere>, b: Ere)
    requires OkAll(done) && Ok(b)
    ensures OkAll(done + [b])
    ensures pre + HalfCode(done + [b]) == pre + HalfCode(done) + AltHead(done == [], Code(Lower(b)))
  {
    assert (done + [b])[..|done|] == done;
    Assoc(pre, HalfCode(done), AltHead(done == [], Code(Lower(b))));
  }

  lemma CodeSome(e: Ere)
    requires Ok(e)
    ensures Code(Lower(e)) == [] <==> Dropped(e)
  {
    DroppedIs(e);
  }

  lemma AltLower(done: seq<Ere>, b: Ere)
    requires OkAll(done) && done != [] && Ok(b)
    ensures Ok(Alt(done + [b]))
    ensures Lower(Alt(done + [b])) == [Choice(Lower(done[0]), LowerMid(done[1..]), Lower(b))]
  {
    var bs := done + [b];
    assert bs[0] == done[0] && bs[1..|bs| - 1] == done[1..] && bs[|bs| - 1] == b;
  }

  lemma AltCode(done: seq<Ere>, b: Ere)
    requires OkAll(done) && done != [] && Ok(b)
    ensures Ok(Alt(done + [b]))
    ensures Code(Lower(Alt(done + [b]))) == HalfCode(done) + LastCode(Code(Lower(b)))
  {
    AltLower(done, b);
    HalfIs(done);
    ChoiceCode(Lower(done[0]), LowerMid(done[1..]), Lower(b));
  }

  lemma ChoiceCode(f: seq<Node>, m: seq<Branch>, l: seq<Node>)
    ensures Code([Choice(f, m, l)]) == HalfOf(f, m) + LastCode(Code(l))
  {
    CodeOne(Choice(f, m, l));
  }

  /** The list with done before it. */
  ghost function Prepend(done: seq<Ere>, a: Listed): Listed {
    match a
    case List(j, bs) => List(j, done + bs)
    case Unlisted(e) => a
  }

  /** What comes of the alternatives done, which end at j. */
  ghost function Onward(r: Reader, p: seq<char>, j: nat, stop: char, n: nat, done: seq<Ere>): Listed
    requires j <= |p|
  {
    if j == |p| || p[j] != '|' then List(j, done)
    else Prepend(done, ReadAlternatives(r, p, j + 1, stop, n))
  }

  /** One more alternative read. */
  lemma ReadStep(r: Reader, p: seq<char>, i: nat, stop: char, n: nat, done: seq<Ere>, b: Ere, j: nat, k: nat)
    requires i <= |p| && ReadAlternative(r, p, i, stop, n) == Got(j, b) && k == n + Groups(b)
    ensures Prepend(done, ReadAlternatives(r, p, i, stop, n)) == Onward(r, p, j, stop, k, done + [b])
  {
    ReadNext(r, p, i, stop, n, done);
  }

  lemma ReadNext(r: Reader, p: seq<char>, i: nat, stop: char, n: nat, done: seq<Ere>)
    requires i <= |p|
    ensures var b := ReadAlternative(r, p, i, stop, n);
            b.Got? ==> Prepend(done, ReadAlternatives(r, p, i, stop, n)) ==
                       Onward(r, p, b.next, stop, n + Groups(b.e), done + [b.e])
  {
    var b := ReadAlternative(r, p, i, stop, n);
    if b.Got? && b.next < |p| && p[b.next] == '|' {
      var tl := ReadAlternatives(r, p, b.next + 1, stop, n + Groups(b.e));
      if tl.List? { assert done + ([b.e] + tl.bs) == done + [b.e] + tl.bs; }
    }
  }

  lemma AltOfList(r: Reader, p: seq<char>, i: nat, stop: char, n: nat, j: nat, bs: seq<Ere>)
    requires i <= |p| && bs != []
    ensures ReadAlternatives(r, p, i, stop, n) == List(j, bs) ==> ReadWhole(r, p, i, stop, n) == Got(j, AltOf(bs))
    ensures forall e :: ReadAlternatives(r, p, i, stop, n) == Unlisted(e) ==> ReadWhole(r, p, i, stop, n) == Failed(e)
  {
  }

  /** An operator inserted before c and one emitted after it. */
  lemma Around(pre: seq<Sop>, c: seq<Sop>, a: Sop, z: Sop)
    ensures (pre + c)[..|pre|] + [a] + (pre + c)[|pre|..] + [z] == pre + ([a] + c + [z])
  {
    assert (pre + c)[..|pre|] == pre && (pre + c)[|pre|..] == c;
  }

  lemma OptBody(pre: seq<Sop>, c: seq<Sop>)
    ensures (pre + OptCode(c))[|pre| + 1..|pre| + |c| + 1] == c
  {
  }

  class Parser {
    const pat: seq<char>
    const reader: Reader
    var next: nat
    var end: nat
    var error: Option<Error>
    var strip: seq<Sop>
    var nsub: nat

    /** An error puts the scanner past the end, so that nothing more is read. */
    ghost predicate Valid()
      reads this
    {
      && end == |pat|
      && if error.Some? then next >= end else next <= end
    }

    /** The parser has done what the reading a says, from code pre and n parentheses on. */
    ghost predicate Follows(a: Parsed, pre: seq<Sop>, n: nat)
      reads this
    {
      match a
      case Got(j, e) =>
        Ok(e) && error.None? && next == j && nsub == n + Groups(e) && strip == pre + Code(Lower(e))
      case Failed(err) => error == Some(err)
    }

    constructor (pat: seq<char>, reader: Reader)
      ensures this.pat == pat && this.reader == reader && Valid()
      ensures error.None? && next == 0 && strip == [] && nsub == 0
    {
      this.pat, this.reader := pat, reader;
      next, end, error, strip, nsub := 0, |pat|, None, [], 0;
    }

    // ----- The scanner -----

    predicate More() reads this { next < end }

    predicate More2() reads this { next + 1 < end }

    function Peek(): char reads this { if next < |pat| then pat[next] else '\0' }

    function Peek2(): char reads this { if next + 1 < |pat| then pat[next + 1] else '\0' }

    predicate See(c: char) reads this { More() && Peek() == c }

    method GetNext() returns (c: char)
      modifies this`next
      ensures c == old(Peek()) && next == old(next) + 1
    {
      c := Peek();
      next := next + 1;
    }

    method Eat(c: char) returns (eaten: bool)
      modifies this`next
      ensures eaten == old(See(c)) && next == old(next) + if eaten then 1 else 0
    {
      eaten := See(c);
      if eaten { next := next + 1; }
    }

    /** The earliest error is kept, and the scanner brought to a halt. */
    method SetError(e: Error)
      modifies this`error, this`next, this`end
      ensures Valid() && error == if old(error).None? then Some(e) else old(error)
    {
      if error.None? { error := Some(e); }
      next, end := |pat|, |pat|;
    }

    method Require(ok: bool, e: Error)
      requires Valid()
      modifies this`error, this`next, this`end
      ensures Valid()
      ensures ok ==> error == old(error) && next == old(next)
      ensures !ok ==> error == if old(error).None? then Some(e) else old(error)
    {
      if !ok { SetError(e); }
    }

    // ----- Emitting and editing code -----

    function Here(): nat reads this { |strip| }

    method Emit(s: Sop)
      modifies this`strip
      ensures strip == if error.None? then old(strip) + [s] else old(strip)
    {
      if error.Some? { return; }
      strip := strip + [s];
    }

    method Insert(s: Sop, pos: nat)
      requires pos <= |strip|
      modifies this`strip
      ensures strip == if error.None? then old(strip[..pos] + [s] + strip[pos..]) else old(strip)
    {
      if error.Some? { return; }
      var sn := Here();
      Emit(s);
      var last := strip[sn];
      strip := strip[..pos] + [last] + strip[pos..sn];
    }

    /** Completes the forward reference at pos. */
    method Forward(pos: nat, value: int)
      requires error.None? ==> value >= 0 && pos < |strip| && (strip[pos].OCH_? || strip[pos].OOR2?)
      modifies this`strip
      ensures strip == if error.None? then old(strip[pos := strip[pos].(n := value)]) else old(strip)
    {
      if error.Some? { return; }
      strip := strip[pos := strip[pos].(n := value)];
    }

    /** Copies start..finish to the end. */
    method Duplicate(start: nat, finish: nat) returns (copy: nat)
      requires start <= finish <= |strip|
      modifies this`strip
      ensures copy == |old(strip)| && strip == old(strip) + old(strip)[start..finish]
    {
      copy := Here();
      strip := strip + strip[start..finish];
    }

    /** Ends the y? whose OCH_ is at pos and whose y follows it. */
    method CloseOption(pos: nat, ghost pre: seq<Sop>, ghost wrong: nat, ghost c: seq<Sop>)
      requires error.None? && pos == |pre| && strip == pre + [OCH_(wrong)] + c
      modifies this`strip
      ensures strip == pre + OptCode(c)
    {
      Emit(OOR1(Here() - pos));
      Forward(pos, Here() - pos);
      Emit(OOR2(0));
      Forward(Here() - 1, 1);
      Emit(O_CH(2));
    }

    /** Makes the operand at pos optional. */
    method MakeOption(pos: nat, ghost pre: seq<Sop>, ghost c: seq<Sop>)
      requires error.None? && pos == |pre| && strip == pre + c
      modifies this`strip
      ensures strip == pre + OptCode(c)
    {
      Insert(OCH_(Here() - pos + 1), pos);
      assert strip == pre + [OCH_(|c| + 1)] + c;
      CloseOption(pos, pre, |c| + 1, c);
    }

    /** Makes the operand at pos a loop. */
    method MakeLoop(pos: nat, ghost pre: seq<Sop>, ghost x: seq<Node>)
      requires error.None? && pos == |pre| && strip == pre + Code(x)
      modifies this`strip
      ensures strip == pre + Code([Plus(x)])
    {
      Around(pre, Code(x), OPLUS_(|Code(x)| + 1), O_PLUS(|Code(x)| + 1));
      Insert(OPLUS_(Here() - pos + 1), pos);
      Emit(O_PLUS(Here() - pos));
      CodeOne(Plus(x));
    }

    /** Makes the operand at pos an optional loop. */
    method MakeStar(pos: nat, ghost pre: seq<Sop>, ghost x: seq<Node>)
      requires error.None? && pos == |pre| && strip == pre + Code(x)
      modifies this`strip
      ensures strip == pre + Code([Quest([Plus(x)])])
    {
      MakeLoop(pos, pre, x);
      MakeSkip(pos, pre, [Plus(x)]);
    }

    method MakeSkip(pos: nat, ghost pre: seq<Sop>, ghost xs: seq<Node>)
      requires error.None? && pos == |pre| && strip == pre + Code(xs)
      modifies this`strip
      ensures strip == pre + Code([Quest(xs)])
    {
      Around(pre, Code(xs), OQUEST_(|Code(xs)| + 1), O_QUEST(|Code(xs)| + 1));
      Insert(OQUEST_(Here() - pos + 1), pos);
      Emit(O_QUEST(Here() - pos));
      CodeOne(Quest(xs));
    }

    static function Map(n: nat): nat {
      if n <= 1 then n else if n == INFINITY then 3 else 2
    }

    /** repeat: the operand at start, the code of x, becomes that of its from- to to-fold repetition. */
    method Repeat(start: nat, from: nat, to: nat, ghost pre: seq<Sop>, ghost x: seq<Node>)
      requires error.None? ==> from <= to <= INFINITY && from <= DUPMAX
      requires error.None? ==> start == |pre| && strip == pre + Code(x)
      modifies this`strip
      ensures error.None? ==> strip == pre + Code(Rep(x, from, to))
      ensures error.Some? ==> strip == old(strip)
      decreases if from == 0 then 1 else 0, if to == INFINITY then from else to, 2
    {
      if error.Some? { return; }
      var f, t := Map(from), Map(to);
      if f == 0 && t == 0 {
        var finish := Here();
        strip := strip[..|strip| - (finish - start)];
      } else if f == 0 {
        RepeatOptional(start, to, pre, x);
      } else if f == 1 && t == 1 {
        // one copy, already there
      } else if f == 1 && t == 2 {
        RepeatOnce(start, to, pre, x);
      } else if f == 1 {
        MakeLoop(start, pre, x);
      } else {
        RepeatMore(start, from, to, pre, x);
      }
    }

    /** x{0,n} as x{1,n}?. */
    method RepeatOptional(start: nat, to: nat, ghost pre: seq<Sop>, ghost x: seq<Node>)
      requires error.None? && 1 <= to <= INFINITY && start == |pre| && strip == pre + Code(x)
      modifies this`strip
      ensures strip == pre + Code(Rep(x, 0, to))
      decreases 1, if to == INFINITY then 0 else to, 1
    {
      ghost var c := Code(x);
      Insert(OCH_(Here() - start + 1), start);
      ghost var pre' := pre + [OCH_(|c| + 1)];
      assert strip == pre' + c;
      Repeat(start + 1, 1, to, pre', x);
      CloseOption(start, pre, |c| + 1, Code(Rep(x, 1, to)));
      OptCodeIs(Rep(x, 1, to));
    }

    /** x{1,n} as x?x{1,n-1}. */
    method RepeatOnce(start: nat, to: nat, ghost pre: seq<Sop>, ghost x: seq<Node>)
      requires error.None? && 2 <= to <= DUPMAX && start == |pre| && strip == pre + Code(x)
      modifies this`strip
      ensures strip == pre + Code(Rep(x, 1, to))
      decreases 0, to, 0
    {
      var finish := Here();
      ghost var c, rest := Code(x), Rep(x, 1, to - 1);
      MakeOption(start, pre, c);
      OptBody(pre, c);
      var copy := Duplicate(start + 1, finish + 1);
      Repeat(copy, 1, to - 1, pre + OptCode(c), x);
      OptCodeIs(x);
      CodeConcat([Choice(x, [], [])], rest);
      Assoc(pre, OptCode(c), Code(rest));
    }

    /** x{m,n} as xx{m-1,n-1}. */
    method RepeatMore(start: nat, from: nat, to: nat, ghost pre: seq<Sop>, ghost x: seq<Node>)
      requires error.None? && 2 <= from <= to <= INFINITY && from <= DUPMAX && start == |pre| && strip == pre + Code(x)
      modifies this`strip
      ensures strip == pre + Code(Rep(x, from, to))
      decreases 0, if to == INFINITY then from else to, 0
    {
      var finish := Here();
      ghost var c := Code(x);
      assert strip[start..finish] == c;
      var copy := Duplicate(start, finish);
      var to' := if to == INFINITY then to else to - 1;
      Repeat(copy, from - 1, to', pre + c, x);
      CodeConcat(x, Rep(x, from - 1, to'));
      Assoc(pre, c, Code(Rep(x, from - 1, to')));
    }

    // ----- The parser -----

    /** A repetition count; it stops growing once beyond DUPMAX. */
    method ParseCount() returns (count: nat)
      requires Valid() && error.None? && DigitAt(pat, next)
      modifies this`error, this`next, this`end
      ensures Valid() && count == Count(pat, old(next), 0).0
      ensures count <= DUPMAX ==> error.None? && next == Count(pat, old(next), 0).1
      ensures count > DUPMAX ==> error == Some(BADBR)
    {
      count := 0;
      var ndigits := 0;
      while More() && IsDigit(Peek()) && count <= DUPMAX
        invariant Valid() && error.None? && old(next) <= next && ndigits == next - old(next)
        invariant Count(pat, old(next), 0) == Count(pat, next, count)
        decreases |pat| - next
      {
        var c := GetNext();
        count := count * 10 + Digit(c);
        ndigits := ndigits + 1;
      }
      Require(ndigits > 0 && count <= DUPMAX, BADBR);
    }

    /** What follows the first count: the second one, INFINITY, or the same again. */
    method ParseUpper(lo: nat) returns (hi: nat)
      requires Valid() && (error.None? ==> lo <= DUPMAX)
      modifies this`error, this`next, this`end
      ensures Valid() && (old(error).Some? ==> error == old(error))
      ensures old(error).None? ==>
        match ReadUpper(pat, lo, old(next))
        case Interval(_, limit, j) => error.None? && next == j && hi == LimitOf(limit) && lo <= hi <= INFINITY
        case Wrong(e) => error == Some(e)
    {
      var comma := Eat(',');
      if comma {
        if IsDigit(Peek()) {
          hi := ParseCount();
          Require(lo <= hi, BADBR);
        } else {
          hi := INFINITY;
        }
      } else {
        hi := lo;
      }
    }

    /** The end of an interval expression. */
    method ParseBrace()
      requires Valid()
      modifies this`error, this`next, this`end
      ensures Valid() && (old(error).Some? ==> error == old(error))
      ensures old(error).None? ==>
        var i := old(next);
        if i < |pat| && pat[i] == '}' then error.None? && next == i + 1
        else error == Some(if '}' in pat[i..] then BADBR else EBRACE)
    {
      var closed := Eat('}');
      if !closed {
        while More() && Peek() != '}'
          invariant Valid() && error == old(error)
          invariant error.None? ==> old(next) <= next && '}' !in pat[old(next)..next]
          decreases end - next
        {
          next := next + 1;
        }
        assert error.None? ==> pat[old(next)..] == pat[old(next)..next] + pat[next..];
        Require(More(), EBRACE);
        SetError(BADBR);
      }
    }

    /** The rest of an interval expression, whose '{' has been read. */
    method ParseInterval(pos: nat, ghost pre: seq<Sop>, ghost b: Ere)
      requires Valid() && error.None? && 0 < next && pat[next - 1] == '{' && DigitAt(pat, next)
      requires Ok(b) && !Dropped(b) && pos == |pre| && strip == pre + Code(Lower(b))
      modifies this`error, this`next, this`end, this`strip
      ensures Valid()
      ensures match ReadInterval(pat, old(next) - 1)
              case Interval(lo, hi, j) =>
                error.None? && next == j && strip == pre + Code(Lower(Bound(b, lo, hi)))
              case Wrong(e) => error == Some(e)
    {
      var count := ParseCount();
      var count2 := ParseUpper(count);
      Repeat(pos, count, count2, pre, Lower(b));
      ParseBrace();
    }

    predicate SeesRepetition()
      reads this
    {
      More() && (Peek() == '*' || Peek() == '+' || Peek() == '?' || (Peek() == '{' && More2() && IsDigit(Peek2())))
    }

    /** The operand at pos is repeated as the operator says. */
    method ParseOperator(pos: nat, ghost pre: seq<Sop>, ghost n: nat, ghost b: Ere)
      requires Valid() && next < end && RepeatsAt(pat, next) && Ok(b) && !Dropped(b)
      requires pos == |pre| && Follows(Got(next, b), pre, n)
      modifies this`error, this`next, this`end, this`strip
      ensures Valid() && Follows(ReadOperator(pat, old(next), b), pre, n)
    {
      var c := GetNext();
      if c == '*' {
        MakeStar(pos, pre, Lower(b));
      } else if c == '+' {
        MakeLoop(pos, pre, Lower(b));
      } else if c == '?' {
        OptCodeIs(Lower(b));
        MakeOption(pos, pre, Code(Lower(b)));
      } else {
        ParseInterval(pos, pre, b);
      }
    }

    /** A repetition operator, if there is one, applied to the operand at pos. */
    method ParseRepetition(pos: nat, ghost pre: seq<Sop>, ghost n: nat, ghost b: Ere)
      requires Valid()
      requires error.None? ==> Ok(b) && !Dropped(b) && pos == |pre| && Follows(Got(next, b), pre, n)
      modifies this`error, this`next, this`end, this`strip
      ensures Valid() && (old(error).Some? ==> error == old(error))
      ensures old(error).None? ==> Follows(ReadRepetition(pat, old(next), b), pre, n)
    {
      if !SeesRepetition() { return; }
      ParseOperator(pos, pre, n, b);
      if SeesRepetition() { SetError(BADRPT); }
    }

    /** A bracket expression; a set of one character becomes that character. */
    method ParseBracket()
      requires Valid() && error.None?
      modifies this`error, this`next, this`end, this`strip
      ensures Valid()
      ensures match Bracketing(reader, pat, old(next))
              case Members(len, cs) =>
                error.None? && next == old(next) + len && strip == old(strip) + Code(Lower(Bracket(cs)))
              case Refused(e) => error == Some(e)
    {
      match Bracketing(reader, pat, next) {
        case Members(len, cs) =>
          next := next + len;
          CodeOne(BracketNode(cs));
          if |cs| == 1 {
            ghost var d := BracketNode(cs).c;
            Singleton(cs, d);
            var c :| c in cs;
            Emit(OCHAR(c));
          } else {
            Emit(OANYOF(cs));
          }
        case Refused(e) => SetError(e);
      }
    }

    /** What p_ere_exp reads before any repetition operator. */
    method ParseAtom()
      requires Valid() && error.None? && next < end
      modifies this
      ensures Valid()
      ensures Follows(ReadAtom(reader, pat, old(next), old(nsub)), old(strip), old(nsub))
      decreases |pat| - next + 1, 0
    {
      var c := GetNext();
      if c == '(' {
        ParseGroup();
      } else if c == ')' {
        SetError(EPAREN);
      } else if c == '^' || c == '$' {
        SetError(ANCHOR);
      } else if c == '|' {
        SetError(EMPTY);
      } else if c == '*' || c == '+' || c == '?' {
        SetError(BADRPT);
      } else if c == '.' {
        CodeOne(Any);
        Emit(OANY);
      } else if c == '[' {
        ParseBracket();
      } else if c == '\\' {
        Require(More(), EESCAPE);
        c := GetNext();
        CodeOne(Char(c));
        Emit(OCHAR(c));
      } else {
        if c == '{' { Require(!More() || !IsDigit(Peek()), BADRPT); }
        CodeOne(Char(c));
        Emit(OCHAR(c));
      }
    }

    /** What stands between parentheses. */
    method ParseInside()
      requires Valid()
      modifies this
      ensures Valid() && (old(error).Some? ==> error == old(error))
      ensures old(error).None? ==> Follows(ReadInside(reader, pat, old(next), old(nsub)), old(strip), old(nsub))
      decreases if error.Some? then 0 else |pat| - next + 1, 9
    {
      if See(')') {
        assert strip + [] == strip;
      } else {
        ParseWhole(')');
      }
    }

    /** A parenthesised expression, whose '(' has been read. */
    method ParseGroup()
      requires Valid() && error.None?
      modifies this
      ensures Valid() && Follows(ReadGroup(reader, pat, old(next), old(nsub) + 1), old(strip), old(nsub))
      decreases |pat| - next + 1, 11
    {
      Require(More(), EPAREN);
      nsub := nsub + 1;
      ParseBody(nsub);
    }

    /** A subexpression between its parentheses. */
    method ParseBody(subno: nat)
      requires Valid() && nsub == subno && subno > 0
      modifies this
      ensures Valid() && (old(error).Some? ==> error == old(error))
      ensures old(error).None? ==>
        var b := ReadInside(reader, pat, old(next), subno);
        && (b.Failed? ==> error == Some(b.error))
        && (b.Got? && b.next == |pat| ==> error == Some(EPAREN))
        && (b.Got? && b.next < |pat| ==> Follows(Got(b.next + 1, Group(subno, b.e)), old(strip), subno - 1))
      decreases if error.Some? then 0 else |pat| - next + 1, 10
    {
      Emit(OLPAREN(subno));
      ghost var b := if error.None? then ReadInside(reader, pat, next, nsub) else Failed(EPAREN);
      ParseInside();
      if b.Got? { GroupCode(old(strip), subno, b.e); }
      CloseGroup(subno);
    }

    method CloseGroup(subno: nat)
      requires Valid()
      modifies this`error, this`next, this`end, this`strip
      ensures Valid() && (old(error).Some? ==> error == old(error))
      ensures old(error).None? ==>
        if old(See(')')) then error.None? && next == old(next) + 1 && strip == old(strip) + [ORPAREN(subno)]
        else error == Some(EPAREN)
    {
      Emit(ORPAREN(subno));
      var closed := More();
      if closed {
        var c := GetNext();
        closed := c == ')';
      }
      Require(closed, EPAREN);
    }

    /** p_ere_exp: an atom and the repetition operator after it, if any. */
    method ParsePiece()
      requires Valid() && error.None? && next < end
      modifies this
      ensures Valid()
      ensures Follows(ReadPiece(reader, pat, old(next), old(nsub)), old(strip), old(nsub))
      decreases |pat| - next + 1, 1
    {
      var pos := Here();
      ghost var a := ReadAtom(reader, pat, next, nsub);
      ParseAtom();
      ParseRepetition(pos, old(strip), old(nsub), if a.Got? then a.e else Eps);
    }

    /** One more piece after those of acc. */
    method ParseNext(ghost pre: seq<Sop>, ghost n: nat, ghost acc: Ere)
      requires Valid() && error.None? && next < end && Follows(Got(next, acc), pre, n)
      modifies this
      ensures Valid()
      ensures var a := ReadPiece(reader, pat, old(next), n + Groups(acc));
              Follows(if a.Got? then Got(a.next, Cat(acc, a.e)) else a, pre, n)
      decreases |pat| - next + 1, 2
    {
      ghost var a := ReadPiece(reader, pat, next, nsub);
      ParsePiece();
      if a.Got? {
        CatCode(pre, acc, a.e);
      }
    }

    /** The pieces of one alternative. */
    method ParsePieces(stop: char)
      requires Valid()
      modifies this
      ensures Valid() && (old(error).Some? ==> error == old(error))
      ensures old(error).None? ==>
        Follows(ReadPieces(reader, pat, old(next), stop, old(nsub), Eps), old(strip), old(nsub))
      decreases if error.Some? then 0 else |pat| - next + 1, 3
    {
      ghost var acc := Eps;
      ghost var whole := if error.None? then ReadPieces(reader, pat, next, stop, nsub, Eps) else Failed(error.value);
      while More() && Peek() != '|' && Peek() != stop
        invariant Valid() && Ok(acc)
        invariant error.Some? ==> whole == Failed(error.value)
        invariant error.None? ==> old(next) <= next && Follows(Got(next, acc), old(strip), old(nsub))
        invariant error.None? ==> whole == ReadPieces(reader, pat, next, stop, old(nsub), acc)
        decreases if error.Some? then 0 else |pat| - next + 1
      {
        ghost var a := ReadPiece(reader, pat, next, nsub);
        ParseNext(old(strip), old(nsub), acc);
        if a.Got? { acc := Cat(acc, a.e); }
      }
    }

    /** An alternative has been read, whose code c stands after base. */
    ghost predicate Opened(first: bool, conc: nat, prevback: int, prevfwd: nat, base: seq<Sop>, c: seq<Sop>)
      reads this`strip
    {
      if first then strip == base + c && conc == |base|
      else strip == base + [OOR2(0)] + c && prevfwd == |base| && prevback == |base| - 1
    }

    /** After a '|': what stands before it becomes an alternative, and the next is opened. */
    method NextAlternative(first: bool, conc: nat, prevback: int, prevfwd: nat, ghost base: seq<Sop>, ghost c: seq<Sop>)
      returns (back: nat, fwd: nat)
      requires error.None? && Opened(first, conc, prevback, prevfwd, base, c)
      modifies this`strip
      ensures strip == base + AltHead(first, c) + [OOR2(0)]
      ensures fwd == |strip| - 1 && back == |strip| - 2
    {
      if first {
        Insert(OCH_(Here() - conc + 1), conc);
        assert strip == base + [OCH_(|c| + 1)] + c;
        back, fwd := CloseBranch(conc, conc, base, OCH_(|c| + 1), c);
      } else {
        back, fwd := CloseBranch(prevback, prevfwd, base, OOR2(0), c);
      }
    }

    method CloseBranch(prevback: int, prevfwd: nat, ghost base: seq<Sop>, ghost s: Sop, ghost c: seq<Sop>)
      returns (back: nat, fwd: nat)
      requires error.None? && (s.OCH_? || s.OOR2?) && strip == base + [s] + c
      requires prevfwd == |base| && prevback <= prevfwd
      modifies this`strip
      ensures strip == base + ([s.(n := |c| + 2)] + c + [OOR1(|base| + 1 + |c| - prevback)]) + [OOR2(0)]
      ensures fwd == |strip| - 1 && back == |strip| - 2
    {
      Emit(OOR1(Here() - prevback));
      back := Here() - 1;
      Forward(prevfwd, Here() - prevfwd);
      fwd := Here();
      Emit(OOR2(0));
    }

    /** The tail-end fixups of a choice; like every edit, nothing after an error. */
    method LastAlternative(first: bool, prevback: int, prevfwd: nat, ghost conc: nat,
                           ghost pre: seq<Sop>, ghost done: seq<Ere>, ghost b: Ere)
      requires OkAll(done) && Ok(b) && first == (done == [])
      requires error.None? ==> Opened(first, conc, prevback, prevfwd, pre + HalfCode(done), Code(Lower(b)))
      modifies this`strip
      ensures error.None? ==> Ok(AltOf(done + [b])) && strip == pre + Code(Lower(AltOf(done + [b])))
    {
      if error.Some? { return; }
      if first {
        assert pre + [] == pre && done + [b] == [b];
      } else {
        AltCode(done, b);
        Assoc(pre, HalfCode(done), LastCode(Code(Lower(b))));
        LastBranch(prevback, prevfwd, pre + HalfCode(done), Code(Lower(b)));
      }
    }

    method LastBranch(prevback: nat, prevfwd: nat, ghost base: seq<Sop>, ghost c: seq<Sop>)
      requires error.None? && strip == base + [OOR2(0)] + c && prevfwd == |base| && prevback == prevfwd - 1
      modifies this`strip
      ensures strip == base + LastCode(c)
    {
      Forward(prevfwd, Here() - prevfwd);
      Emit(O_CH(Here() - prevback));
    }

    /** One alternative, which must not be empty. */
    method ParseAlternative(stop: char) returns (conc: nat)
      requires Valid()
      modifies this
      ensures Valid() && (old(error).Some? ==> error == old(error))
      ensures conc == |old(strip)|
      ensures error.None? ==> old(next) <= next
      ensures old(error).None? ==>
        Follows(ReadAlternative(reader, pat, old(next), stop, old(nsub)), old(strip), old(nsub))
      decreases if error.Some? then 0 else |pat| - next + 1, 4
    {
      conc := Here();
      ghost var b := if error.None? then ReadPieces(reader, pat, next, stop, nsub, Eps) else Failed(error.value);
      ParsePieces(stop);
      if b.Got? { CodeSome(b.e); }
      Require(Here() != conc, EMPTY);
    }

    /** The alternatives done have been read, each with a '|' after it, or there has been an error. */
    ghost predicate ReadSoFar(stop: char, whole: Listed, n: nat, done: seq<Ere>)
      reads this`error, this`next, this`nsub
    {
      && Kept(done)
      && (error.Some? ==> whole == Unlisted(error.value))
      && (error.None? ==>
            && nsub == n + GroupsAll(done) && next <= |pat|
            && whole == Prepend(done, ReadAlternatives(reader, pat, next, stop, nsub)))
    }

    /** The alternatives done have been read up to j, no '|' having been read after the last. */
    ghost predicate ReadUpTo(j: nat, stop: char, whole: Listed, n: nat, done: seq<Ere>)
      reads this`error, this`nsub
    {
      && (error.Some? ==> whole == Unlisted(error.value))
      && (error.None? ==>
            && Kept(done) && nsub == n + GroupsAll(done) && j <= |pat|
            && whole == Onward(reader, pat, j, stop, nsub, done))
    }

    /** The code of the alternatives done stands after pre, still open. */
    ghost predicate CodeSoFar(pre: seq<Sop>, done: seq<Ere>, first: bool, prevback: int, prevfwd: nat)
      reads this`error, this`strip
    {
      && OkAll(done) && first == (done == [])
      && (error.None? ==>
            && strip == pre + HalfCode(done) + (if first then [] else [OOR2(0)])
            && (!first ==> prevfwd == |strip| - 1 && prevback == |strip| - 2))
    }

    /** ... and the code of b after it. */
    ghost predicate CodeUpTo(pre: seq<Sop>, done: seq<Ere>, b: Ere, first: bool, conc: nat, prevback: int, prevfwd: nat)
      reads this`error, this`strip
    {
      && OkAll(done) && first == (done == []) && Ok(b)
      && (error.None? ==> Opened(first, conc, prevback, prevfwd, pre + HalfCode(done), Code(Lower(b))))
    }

    method ParseOne(stop: char, ghost whole: Listed, ghost pre: seq<Sop>, ghost n: nat, ghost done: seq<Ere>,
                    ghost first: bool, ghost prevback: int, ghost prevfwd: nat)
      returns (conc: nat, ghost b: Ere)
      requires Valid() && ReadSoFar(stop, whole, n, done) && CodeSoFar(pre, done, first, prevback, prevfwd)
      modifies this
      ensures Valid() && ReadUpTo(next, stop, whole, n, done + [b])
      ensures CodeUpTo(pre, done, b, first, conc, prevback, prevfwd)
      ensures old(error).Some? ==> error == old(error)
      ensures error.None? ==> old(next) <= next
      decreases if error.Some? then 0 else |pat| - next + 1, 5
    {
      ghost var i, m, ok := next, nsub, error.None?;
      ghost var a := if ok then ReadAlternative(reader, pat, i, stop, m) else Failed(error.value);
      conc := ParseAlternative(stop);
      b := if a.Got? then a.e else Eps;
      GroupsSnoc(done, b);
      if error.None? {
        if first { assert old(strip) == pre + HalfCode(done); }
        ReadStep(reader, pat, i, stop, m, done, b, next, nsub);
      }
    }

    /** After a '|': the alternative before it is closed and another begun. */
    method AnotherOne(ghost j: nat, stop: char, ghost whole: Listed, ghost n: nat,
                      ghost pre: seq<Sop>, ghost done: seq<Ere>, ghost b: Ere,
                      first: bool, conc: nat, prevback: int, prevfwd: nat)
      returns (back: int, fwd: nat)
      requires Valid() && error.None? && next == j + 1 && j < |pat| && pat[j] == '|'
      requires ReadUpTo(j, stop, whole, n, done + [b])
      requires CodeUpTo(pre, done, b, first, conc, prevback, prevfwd)
      modifies this`strip
      ensures ReadSoFar(stop, whole, n, done + [b]) && CodeSoFar(pre, done + [b], false, back, fwd)
    {
      BarRead(j, stop, whole, n, done + [b]);
      back, fwd := CloseAndOpen(pre, done, b, first, conc, prevback, prevfwd);
    }

    method CloseAndOpen(ghost pre: seq<Sop>, ghost done: seq<Ere>, ghost b: Ere,
                        first: bool, conc: nat, prevback: int, prevfwd: nat)
      returns (back: int, fwd: nat)
      requires error.None? && CodeUpTo(pre, done, b, first, conc, prevback, prevfwd)
      modifies this`strip
      ensures CodeSoFar(pre, done + [b], false, back, fwd)
    {
      back, fwd := NextAlternative(first, conc, prevback, prevfwd, pre + HalfCode(done), Code(Lower(b)));
      HalfNext(pre, done, b);
    }

    lemma BarRead(j: nat, stop: char, whole: Listed, n: nat, done: seq<Ere>)
      requires Valid() && error.None? && next == j + 1 && j < |pat| && pat[j] == '|' &&
               ReadUpTo(j, stop, whole, n, done)
      ensures ReadSoFar(stop, whole, n, done)
    {
    }

    method Finish(stop: char, ghost whole: Listed, ghost pre: seq<Sop>, ghost n: nat, ghost done: seq<Ere>,
                  ghost b: Ere, first: bool, ghost conc: nat, prevback: int, prevfwd: nat)
      requires Valid() && ReadUpTo(next, stop, whole, n, done + [b]) && !See('|')
      requires CodeUpTo(pre, done, b, first, conc, prevback, prevfwd)
      modifies this`strip
      ensures error.Some? ==> whole == Unlisted(error.value)
      ensures error.None? ==> whole == List(next, done + [b]) && Follows(Got(next, AltOf(done + [b])), pre, n)
    {
      if error.Some? { return; }
      LastAlternative(first, prevback, prevfwd, conc, pre, done, b);
    }

    /** All alternatives, the last with no '|' after it. */
    method ParseBranches(stop: char, ghost whole: Listed)
      returns (first: bool, conc: nat, prevback: int, prevfwd: nat, ghost done: seq<Ere>, ghost b: Ere)
      requires Valid() && (error.Some? ==> whole == Unlisted(error.value))
      requires error.None? ==> whole == ReadAlternatives(reader, pat, next, stop, nsub)
      modifies this
      ensures Valid() && (old(error).Some? ==> error == old(error)) && !See('|')
      ensures ReadUpTo(next, stop, whole, old(nsub), done + [b])
      ensures CodeUpTo(old(strip), done, b, first, conc, prevback, prevfwd)
      decreases if error.Some? then 0 else |pat| - next + 1, 7
    {
      first, conc, prevback, prevfwd, done, b := true, 0, 0, 0, [], Eps;
      ghost var n, pre := nsub, strip;
      NoneSoFar(stop, whole);
      while true
        invariant Valid() && ReadSoFar(stop, whole, n, done) && CodeSoFar(pre, done, first, prevback, prevfwd)
        invariant old(error).Some? ==> error == old(error)
        decreases if error.Some? then 0 else |pat| - next + 1
      {
        var another;
        another, conc, prevback, prevfwd, b := ParseBranch(stop, whole, pre, n, done, first, prevback, prevfwd);
        if !another { break; }
        first, done := false, done + [b];
      }
    }

    lemma NoneSoFar(stop: char, whole: Listed)
      requires Valid() && (error.Some? ==> whole == Unlisted(error.value))
      requires error.None? ==> whole == ReadAlternatives(reader, pat, next, stop, nsub)
      ensures ReadSoFar(stop, whole, nsub, []) && CodeSoFar(strip, [], true, 0, 0)
    {
      assert strip + [] + [] == strip;
      if error.None? && whole.List? { assert [] + whole.bs == whole.bs; }
    }

    /** One alternative, and the '|' after it if there is one. */
    method ParseBranch(stop: char, ghost whole: Listed, ghost pre: seq<Sop>, ghost n: nat, ghost done: seq<Ere>,
                       first: bool, prevback: int, prevfwd: nat)
      returns (another: bool, conc: nat, back: int, fwd: nat, ghost b: Ere)
      requires Valid() && ReadSoFar(stop, whole, n, done) && CodeSoFar(pre, done, first, prevback, prevfwd)
      modifies this
      ensures Valid() && (old(error).Some? ==> error == old(error)) && (error.None? ==> old(next) <= next)
      ensures another ==> error.None? && old(next) < next
      ensures another ==> ReadSoFar(stop, whole, n, done + [b]) && CodeSoFar(pre, done + [b], false, back, fwd)
      ensures !another ==> ReadUpTo(next, stop, whole, n, done + [b]) && !See('|')
      ensures !another ==> CodeUpTo(pre, done, b, first, conc, back, fwd)
      decreases if error.Some? then 0 else |pat| - next + 1, 6
    {
      back, fwd := prevback, prevfwd;
      conc, b := ParseOne(stop, whole, pre, n, done, first, prevback, prevfwd);
      ghost var j := next;
      another := Eat('|');
      if another {
        back, fwd := AnotherOne(j, stop, whole, n, pre, done, b, first, conc, prevback, prevfwd);
      }
    }

    /** p_ere: alternatives, up to stop or the end of the pattern. */
    method ParseWhole(stop: char)
      requires Valid()
      modifies this
      ensures Valid() && (old(error).Some? ==> error == old(error))
      ensures old(error).None? ==>
        Follows(ReadWhole(reader, pat, old(next), stop, old(nsub)), old(strip), old(nsub))
      decreases if error.Some? then 0 else |pat| - next + 1, 8
    {
      ghost var whole := if error.None? then ReadAlternatives(reader, pat, next, stop, nsub) else Unlisted(error.value);
      var first, conc, prevback, prevfwd;
      ghost var done, b;
      first, conc, prevback, prevfwd, done, b := ParseBranches(stop, whole);
      Finish(stop, whole, old(strip), old(nsub), done, b, first, conc, prevback, prevfwd);
      if old(error).None? { AltOfList(reader, pat, old(next), stop, old(nsub), next, done + [b]); }
      assert !More() || See(stop);
    }
  }
}
