/** The parser's one way through a pattern, and that it accepts exactly the patterns the
    grammar derives (src/common/regcomp.cpp, p_ere, p_ere_exp, p_count). */
module Reading {
  import opened Ere
  import opened Grammar

  datatype Parsed = Got(next: nat, e: Ere) | Failed(error: Error)

  datatype Listed = List(next: nat, bs: seq<Ere>) | Unlisted(error: Error)

  datatype Interval = Interval(lo: nat, hi: Limit, next: nat) | Wrong(error: Error)

  /** Digits from i on are added to count until there is none or count is beyond DUPMAX. */
  function Count(p: seq<char>, i: nat, count: nat): (r: (nat, nat))
    requires i <= |p|
    ensures i <= r.1 <= |p|
    decreases |p| - i
  {
    if DigitAt(p, i) && count <= DUPMAX then Count(p, i + 1, count * 10 + Digit(p[i])) else (count, i)
  }

  /** What follows the lower bound, k being where its digits end. */
  function ReadUpper(p: seq<char>, lo: nat, k: nat): (r: Interval)
    requires k <= |p|
    ensures r.Interval? ==> k <= r.next <= |p| && r.lo == lo
  {
    if k < |p| && p[k] == ',' then
      if DigitAt(p, k + 1) then
        var (hi, k') := Count(p, k + 1, 0);
        if hi > DUPMAX || lo > hi then Wrong(BADBR) else Interval(lo, AtMost(hi), k')
      else Interval(lo, Unlimited, k + 1)
    else Interval(lo, AtMost(lo), k)
  }

  /** The interval expression whose '{' is at i. */
  function ReadInterval(p: seq<char>, i: nat): (r: Interval)
    requires i < |p|
    ensures r.Interval? ==> i < r.next <= |p| && BoundOk(r.lo, r.hi)
  {
    var (lo, k) := Count(p, i + 1, 0);
    if lo > DUPMAX then Wrong(BADBR)
    else
      var r := ReadUpper(p, lo, k);
      if r.Wrong? then r
      else if r.next < |p| && p[r.next] == '}' then r.(next := r.next + 1)
      else if '}' in p[r.next..] then Wrong(BADBR) else Wrong(EBRACE)
  }

  /** What stands between the '(' before i and its ')'. */
  function ReadInside(r: Reader, p: seq<char>, i: nat, n: nat): (a: Parsed)
    requires i <= |p|
    ensures a.Got? ==> i <= a.next <= |p| && Ok(a.e)
    ensures a.Got? ==> a.next == |p| || p[a.next] == ')'
    decreases |p| - i, 6
  {
    if i < |p| && p[i] == ')' then Got(i, Eps) else ReadWhole(r, p, i, ')', n)
  }

  /** The subexpression number n, whose '(' ends at i. */
  function ReadGroup(r: Reader, p: seq<char>, i: nat, n: nat): (a: Parsed)
    requires i <= |p|
    ensures a.Got? ==> i < a.next <= |p| && Ok(a.e) && !Dropped(a.e)
    decreases |p| - i, 7
  {
    if i == |p| then Failed(EPAREN)
    else
      var b := ReadInside(r, p, i, n);
      if b.Failed? then b
      else if b.next == |p| then Failed(EPAREN)
      else Got(b.next + 1, Group(n, b.e))
  }

  function ReadAtom(r: Reader, p: seq<char>, i: nat, n: nat): (a: Parsed)
    requires i < |p|
    ensures a.Got? ==> i < a.next <= |p| && Ok(a.e) && !Dropped(a.e)
    decreases |p| - i, 0
  {
    var c := p[i];
    if c == '(' then ReadGroup(r, p, i + 1, n + 1)
    else if c == ')' then Failed(EPAREN)
    else if c == '^' || c == '$' then Failed(ANCHOR)
    else if c == '|' then Failed(EMPTY)
    else if c == '*' || c == '+' || c == '?' then Failed(BADRPT)
    else if c == '.' then Got(i + 1, Dot)
    else if c == '[' then
      match Bracketing(r, p, i + 1)
      case Members(len, cs) => Got(i + 1 + len, Bracket(cs))
      case Refused(error) => Failed(error)
    else if c == '\\' then
      if i + 1 == |p| then Failed(EESCAPE) else Got(i + 2, Chr(p[i + 1]))
    else if c == '{' && DigitAt(p, i + 1) then Failed(BADRPT)
    else Got(i + 1, Chr(c))
  }

  /** The atom b, repeated as the operator at j says. */
  function ReadOperator(p: seq<char>, j: nat, b: Ere): (a: Parsed)
    requires j < |p| && Ok(b) && !Dropped(b)
    ensures a.Got? ==> j < a.next <= |p| && Ok(a.e) && Groups(a.e) == Groups(b)
  {
    if p[j] == '*' then Got(j + 1, Star(b))
    else if p[j] == '+' then Got(j + 1, More(b))
    else if p[j] == '?' then Got(j + 1, Opt(b))
    else match ReadInterval(p, j)
         case Interval(lo, hi, next) => Got(next, Bound(b, lo, hi))
         case Wrong(error) => Failed(error)
  }

  /** The repetition, if any, of the atom b that ends at j. */
  function ReadRepetition(p: seq<char>, j: nat, b: Ere): (a: Parsed)
    requires j <= |p| && Ok(b) && !Dropped(b)
    ensures a.Got? ==> j <= a.next <= |p| && Ok(a.e) && Groups(a.e) == Groups(b)
  {
    if !RepeatsAt(p, j) then Got(j, b)
    else
      var a := ReadOperator(p, j, b);
      if a.Got? && RepeatsAt(p, a.next) then Failed(BADRPT) else a
  }

  function ReadPiece(r: Reader, p: seq<char>, i: nat, n: nat): (a: Parsed)
    requires i < |p|
    ensures a.Got? ==> i < a.next <= |p| && Ok(a.e)
    decreases |p| - i, 1
  {
    var b := ReadAtom(r, p, i, n);
    if b.Failed? then b else ReadRepetition(p, b.next, b.e)
  }

  /** No further piece of an alternative stands at i.  stop is the closing parenthesis, or
      '|' (which ends an alternative in any case) where nothing else does. */
  predicate Ending(p: seq<char>, i: nat, stop: char) {
    i >= |p| || p[i] == '|' || p[i] == stop
  }

  /** Pieces from i on, acc being those before; n counts the parentheses opened before acc. */
  function ReadPieces(r: Reader, p: seq<char>, i: nat, stop: char, n: nat, acc: Ere): (a: Parsed)
    requires i <= |p| && Ok(acc)
    ensures a.Got? ==> i <= a.next <= |p| && Ok(a.e) && Ending(p, a.next, stop)
    decreases |p| - i, 2
  {
    if Ending(p, i, stop) then Got(i, acc)
    else
      var x := ReadPiece(r, p, i, n + Groups(acc));
      if x.Failed? then x else ReadPieces(r, p, x.next, stop, n, Cat(acc, x.e))
  }

  function AltOf(bs: seq<Ere>): (e: Ere)
    requires bs != []
    ensures Groups(e) == GroupsAll(bs)
  {
    if |bs| == 1 then bs[0] else Alt(bs)
  }

  lemma {:induction false} GroupsSnoc(bs: seq<Ere>, b: Ere)
    ensures GroupsAll(bs + [b]) == GroupsAll(bs) + Groups(b)
    decreases |bs|
  {
    if bs == [] {
      assert (bs + [b])[1..] == [];
    } else {
      assert (bs + [b])[0] == bs[0] && (bs + [b])[1..] == bs[1..] + [b];
      GroupsSnoc(bs[1..], b);
    }
  }

  predicate Kept(bs: seq<Ere>) {
    forall k :: 0 <= k < |bs| ==> Ok(bs[k]) && !Dropped(bs[k])
  }

  /** An alternative, for which some code must have been emitted. */
  function ReadAlternative(r: Reader, p: seq<char>, i: nat, stop: char, n: nat): (a: Parsed)
    requires i <= |p|
    ensures a.Got? ==> i <= a.next <= |p| && Ok(a.e) && !Dropped(a.e) && Ending(p, a.next, stop)
    decreases |p| - i, 3
  {
    var b := ReadPieces(r, p, i, stop, n, Eps);
    if b.Got? && Dropped(b.e) then Failed(EMPTY) else b
  }

  /** Alternatives from i on, with | between one and the next. */
  function ReadAlternatives(r: Reader, p: seq<char>, i: nat, stop: char, n: nat): (a: Listed)
    requires i <= |p|
    ensures a.List? ==> i <= a.next <= |p| && a.bs != [] && Kept(a.bs)
    ensures a.List? ==> a.next == |p| || (p[a.next] == stop && stop != '|')
    decreases |p| - i, 4
  {
    var b := ReadAlternative(r, p, i, stop, n);
    if b.Failed? then Unlisted(b.error)
    else if b.next < |p| && p[b.next] == '|' then
      var tl := ReadAlternatives(r, p, b.next + 1, stop, n + Groups(b.e));
      if tl.List? then List(tl.next, [b.e] + tl.bs) else tl
    else List(b.next, [b.e])
  }

  function ReadWhole(r: Reader, p: seq<char>, i: nat, stop: char, n: nat): (a: Parsed)
    requires i <= |p|
    ensures a.Got? ==> i <= a.next <= |p| && Ok(a.e) && !Dropped(a.e)
    ensures a.Got? ==> a.next == |p| || (p[a.next] == stop && stop != '|')
    decreases |p| - i, 5
  {
    match ReadAlternatives(r, p, i, stop, n)
    case List(next, bs) => Got(next, AltOf(bs))
    case Unlisted(error) => Failed(error)
  }

  function Parse(r: Reader, p: seq<char>): (a: Parsed)
    ensures a.Got? ==> Ok(a.e)
  {
    ReadWhole(r, p, 0, '|', 0)
  }

  // ----- What is read is derived -----

  lemma {:induction false} CountSound(p: seq<char>, i: nat, k: nat, count: nat)
    requires (k == i && count == 0 && DigitAt(p, i)) || Numeral(p, i, k, count)
    ensures var (v, j) := Count(p, k, count); v <= DUPMAX ==> Numeral(p, i, j, v) && !DigitAt(p, j)
    decreases |p| - k
  {
    if DigitAt(p, k) && count <= DUPMAX {
      var v := count * 10 + Digit(p[k]);
      assert v % 10 == Digit(p[k]) && v / 10 == count;
      CountSound(p, i, k + 1, v);
    }
  }

  lemma {:induction false} IntervalSound(p: seq<char>, i: nat)
    requires i < |p| && p[i] == '{' && DigitAt(p, i + 1)
    ensures var r := ReadInterval(p, i); r.Interval? ==> Counted(p, i, r.next, r.lo, r.hi)
  {
    var (lo, k) := Count(p, i + 1, 0);
    CountSound(p, i + 1, i + 1, 0);
    if lo <= DUPMAX && k < |p| && p[k] == ',' && DigitAt(p, k + 1) {
      CountSound(p, k + 1, k + 1, 0);
    }
  }

  lemma {:induction false} AtomSound(r: Reader, p: seq<char>, i: nat, n: nat)
    requires i < |p|
    ensures var a := ReadAtom(r, p, i, n); a.Got? ==> Atom(r, p, i, a.next, n, a.e)
    decreases |p| - i, 0
  {
    if p[i] == '(' { InsideSound(r, p, i + 1, n + 1); }
  }

  lemma {:induction false} InsideSound(r: Reader, p: seq<char>, i: nat, n: nat)
    requires i <= |p|
    ensures var a := ReadInside(r, p, i, n);
            a.Got? ==> (a.e == Eps && a.next == i) || Whole(r, p, i, a.next, n, a.e)
    ensures var a := ReadGroup(r, p, i, n);
            a.Got? ==> a.e.Group? && a.e.i == n && p[a.next - 1] == ')' &&
                       ReadInside(r, p, i, n) == Got(a.next - 1, a.e.e)
    decreases |p| - i, 6
  {
    WholeSound(r, p, i, ')', n);
  }

  lemma {:induction false} PieceSound(r: Reader, p: seq<char>, i: nat, n: nat)
    requires i < |p|
    ensures var a := ReadPiece(r, p, i, n); a.Got? ==> Piece(r, p, i, a.next, n, a.e)
    decreases |p| - i, 1
  {
    var b := ReadAtom(r, p, i, n);
    AtomSound(r, p, i, n);
    if b.Got? && RepeatsAt(p, b.next) && p[b.next] == '{' { IntervalSound(p, b.next); }
  }

  lemma {:induction false} PiecesSound(r: Reader, p: seq<char>, i0: nat, i: nat, stop: char, n: nat, acc: Ere)
    requires i <= |p| && Ok(acc) && Pieces(r, p, i0, i, n, acc)
    ensures var a := ReadPieces(r, p, i, stop, n, acc); a.Got? ==> Pieces(r, p, i0, a.next, n, a.e)
    decreases |p| - i, 2
  {
    if !Ending(p, i, stop) {
      var x := ReadPiece(r, p, i, n + Groups(acc));
      PieceSound(r, p, i, n + Groups(acc));
      if x.Got? { PiecesSound(r, p, i0, x.next, stop, n, Cat(acc, x.e)); }
    }
  }

  lemma {:induction false} AlternativesSound(r: Reader, p: seq<char>, i: nat, stop: char, n: nat)
    requires i <= |p|
    ensures var a := ReadAlternatives(r, p, i, stop, n); a.List? ==> Separated(r, p, i, a.next, n, a.bs)
    decreases |p| - i, 4
  {
    if ReadAlternatives(r, p, i, stop, n).List? {
      var b := ReadAlternative(r, p, i, stop, n);
      AlternativeSound(r, p, i, stop, n);
      if b.next < |p| && p[b.next] == '|' {
        AlternativesSound(r, p, b.next + 1, stop, n + Groups(b.e));
        var tl := ReadAlternatives(r, p, b.next + 1, stop, n + Groups(b.e));
        SeparatedCons(r, p, i, b.next, tl.next, n, b.e, tl.bs);
      } else {
        SeparatedOne(r, p, i, b.next, n, b.e);
      }
    }
  }

  lemma {:induction false} AlternativeSound(r: Reader, p: seq<char>, i: nat, stop: char, n: nat)
    requires i <= |p|
    ensures var a := ReadAlternative(r, p, i, stop, n); a.Got? ==> Alternative(r, p, i, a.next, n, a.e)
    decreases |p| - i, 3
  {
    PiecesSound(r, p, i, i, stop, n, Eps);
  }

  lemma {:induction false} SeparatedOne(r: Reader, p: seq<char>, i: nat, j: nat, n: nat, b: Ere)
    ensures Separated(r, p, i, j, n, [b]) <==> Alternative(r, p, i, j, n, b)
  {
  }

  lemma {:induction false} SeparatedCons(r: Reader, p: seq<char>, i: nat, k: nat, j: nat, n: nat, b: Ere, tl: seq<Ere>)
    requires tl != [] && k < j
    ensures j <= |p| && p[k] == '|' && Alternative(r, p, i, k, n, b) && Separated(r, p, k + 1, j, n + Groups(b), tl)
            ==> Separated(r, p, i, j, n, [b] + tl)
  {
    assert ([b] + tl)[1..] == tl;
  }

  lemma {:induction false} WholeSound(r: Reader, p: seq<char>, i: nat, stop: char, n: nat)
    requires i <= |p|
    ensures var a := ReadWhole(r, p, i, stop, n); a.Got? ==> Whole(r, p, i, a.next, n, a.e)
    decreases |p| - i, 5
  {
    var a := ReadAlternatives(r, p, i, stop, n);
    AlternativesSound(r, p, i, stop, n);
    if a.List? && |a.bs| == 1 {
      assert a.bs == [a.bs[0]];
      SeparatedOne(r, p, i, a.next, n, a.bs[0]);
    }
  }

  // ----- What is derived is read -----

  lemma {:induction false} CountRun(p: seq<char>, i: nat, j: nat, v: nat)
    requires Numeral(p, i, j, v) && v <= DUPMAX
    ensures Count(p, i, 0) == Count(p, j, v)
    decreases j
  {
    if j > i + 1 { CountRun(p, i, j - 1, v / 10); }
  }

  lemma {:induction false} NumeralStarts(p: seq<char>, i: nat, j: nat, v: nat)
    requires Numeral(p, i, j, v)
    ensures DigitAt(p, i)
    decreases j
  {
    if j > i + 1 { NumeralStarts(p, i, j - 1, v / 10); }
  }

  lemma {:induction false} IntervalComplete(p: seq<char>, k: nat, j: nat, lo: nat, hi: Limit)
    requires Counted(p, k, j, lo, hi)
    ensures DigitAt(p, k + 1) && ReadInterval(p, k) == Interval(lo, hi, j)
  {
    if hi == AtMost(lo) && Numeral(p, k + 1, j - 1, lo) {
      CountRun(p, k + 1, j - 1, lo);
      NumeralStarts(p, k + 1, j - 1, lo);
    } else if hi == Unlimited {
      CountRun(p, k + 1, j - 2, lo);
      NumeralStarts(p, k + 1, j - 2, lo);
    } else {
      var c: nat :| c < j - 1 && p[c] == ',' && Numeral(p, k + 1, c, lo) && Numeral(p, c + 1, j - 1, hi.n);
      CountRun(p, k + 1, c, lo);
      NumeralStarts(p, k + 1, c, lo);
      CountRun(p, c + 1, j - 1, hi.n);
      NumeralStarts(p, c + 1, j - 1, hi.n);
    }
  }

  /** Where an expression may end: at the parenthesis that closes it, or at the pattern's end. */
  predicate Stops(p: seq<char>, j: nat, stop: char) {
    j <= |p| && (stop == ')' || stop == '|') && (j == |p| || (stop == ')' && p[j] == ')'))
  }

  lemma WholeSome(r: Reader, p: seq<char>, i: nat, stop: char, n: nat)
    requires i <= |p|
    ensures Ending(p, i, stop) ==> ReadWhole(r, p, i, stop, n) == Failed(EMPTY)
  {
    if Ending(p, i, stop) {
      assert ReadPieces(r, p, i, stop, n, Eps) == Got(i, Eps);
      assert ReadAlternative(r, p, i, stop, n) == Failed(EMPTY);
    }
  }

  lemma {:induction false} AtomComplete(r: Reader, p: seq<char>, i: nat, j: nat, n: nat, e: Ere)
    requires Atom(r, p, i, j, n, e)
    ensures ReadAtom(r, p, i, n) == Got(j, e) && p[i] != ')' && p[i] != '|'
    decreases e, 0
  {
    if e.Group? {
      if Whole(r, p, i + 1, j - 1, n + 1, e.e) { WholeComplete(r, p, i + 1, j - 1, ')', n + 1, e.e); }
      InsideComplete(r, p, i + 1, j - 1, n + 1, e.e);
    }
  }

  lemma InsideComplete(r: Reader, p: seq<char>, i: nat, j: nat, n: nat, b: Ere)
    requires i <= j < |p| && p[j] == ')'
    requires (b == Eps && j == i) || ReadWhole(r, p, i, ')', n) == Got(j, b)
    ensures ReadGroup(r, p, i, n) == Got(j + 1, Group(n, b))
  {
    WholeSome(r, p, i, ')', n);
    assert ReadInside(r, p, i, n) == Got(j, b);
  }

  lemma {:induction false} PieceComplete(r: Reader, p: seq<char>, i: nat, j: nat, n: nat, e: Ere)
    requires Piece(r, p, i, j, n, e)
    ensures ReadPiece(r, p, i, n) == Got(j, e) && p[i] != ')' && p[i] != '|'
    decreases e, 1
  {
    if e.Star? || e.More? || e.Opt? {
      AtomComplete(r, p, i, j - 1, n, e.e);
    } else if e.Bound? {
      var k: nat :| Counted(p, k, j, e.lo, e.hi) && Atom(r, p, i, k, n, e.e);
      AtomComplete(r, p, i, k, n, e.e);
      IntervalComplete(p, k, j, e.lo, e.hi);
    } else {
      AtomComplete(r, p, i, j, n, e);
    }
  }

  lemma {:induction false} PiecesSplit(r: Reader, p: seq<char>, i: nat, j: nat, n: nat, l: Ere, x: Ere) returns (k: nat)
    requires Pieces(r, p, i, j, n, Cat(l, x))
    ensures k <= |p| && Pieces(r, p, i, k, n, l) && Piece(r, p, k, j, n + Groups(l), x)
  {
    k :| Pieces(r, p, i, k, n, l) && Piece(r, p, k, j, n + Groups(l), x);
  }

  lemma {:induction false} PiecesComplete(r: Reader, p: seq<char>, i: nat, j: nat, n: nat, e: Ere, stop: char)
    requires Pieces(r, p, i, j, n, e) && (stop == ')' || stop == '|')
    ensures Ok(e) && ReadPieces(r, p, i, stop, n, Eps) == ReadPieces(r, p, j, stop, n, e)
    decreases e, 2
  {
    if e.Cat? {
      var k := PiecesSplit(r, p, i, j, n, e.l, e.r);
      PiecesComplete(r, p, i, k, n, e.l, stop);
      PieceComplete(r, p, k, j, n + Groups(e.l), e.r);
    }
  }

  lemma {:induction false} SeparatedSplit(r: Reader, p: seq<char>, i: nat, j: nat, n: nat, bs: seq<Ere>)
    returns (k: nat)
    requires |bs| > 1 && Separated(r, p, i, j, n, bs)
    ensures k < j <= |p| && p[k] == '|' && Alternative(r, p, i, k, n, bs[0])
    ensures Separated(r, p, k + 1, j, n + Groups(bs[0]), bs[1..])
  {
    k :| k < j <= |p| && p[k] == '|' && Alternative(r, p, i, k, n, bs[0]) &&
         Separated(r, p, k + 1, j, n + Groups(bs[0]), bs[1..]);
  }

  lemma {:induction false} AlternativeComplete(r: Reader, p: seq<char>, i: nat, k: nat, n: nat, b: Ere, stop: char)
    requires Alternative(r, p, i, k, n, b)
    requires Stops(p, k, stop) || (k < |p| && p[k] == '|' && (stop == ')' || stop == '|'))
    ensures i <= k && Ok(b) && ReadAlternatives(r, p, i, stop, n) ==
              if k == |p| || p[k] != '|' then List(k, [b])
              else match ReadAlternatives(r, p, k + 1, stop, n + Groups(b))
                   case List(next, bs) => List(next, [b] + bs)
                   case Unlisted(error) => Unlisted(error)
    decreases b, 3
  {
    PiecesComplete(r, p, i, k, n, b, stop);
  }

  lemma {:induction false} AlternativesComplete(r: Reader, p: seq<char>, i: nat, j: nat, n: nat, bs: seq<Ere>,
                                                stop: char)
    requires Separated(r, p, i, j, n, bs) && Stops(p, j, stop)
    ensures i <= |p| && ReadAlternatives(r, p, i, stop, n) == List(j, bs)
    decreases bs, 4
  {
    if |bs| == 1 {
      AlternativeComplete(r, p, i, j, n, bs[0], stop);
    } else {
      var k := SeparatedSplit(r, p, i, j, n, bs);
      AlternativesComplete(r, p, k + 1, j, n + Groups(bs[0]), bs[1..], stop);
      FirstComplete(r, p, i, k, j, n, bs[0], bs[1..], stop);
      assert bs == [bs[0]] + bs[1..];
    }
  }

  lemma {:induction false} FirstComplete(r: Reader, p: seq<char>, i: nat, k: nat, j: nat, n: nat,
                                         b: Ere, tl: seq<Ere>, stop: char)
    requires Alternative(r, p, i, k, n, b) && k < |p| && p[k] == '|' && (stop == ')' || stop == '|')
    requires ReadAlternatives(r, p, k + 1, stop, n + Groups(b)) == List(j, tl)
    ensures i <= |p| && ReadAlternatives(r, p, i, stop, n) == List(j, [b] + tl)
    decreases b, 4
  {
    AlternativeComplete(r, p, i, k, n, b, stop);
  }

  lemma {:induction false} WholeComplete(r: Reader, p: seq<char>, i: nat, j: nat, stop: char, n: nat, e: Ere)
    requires Whole(r, p, i, j, n, e) && Stops(p, j, stop)
    ensures i <= |p| && ReadWhole(r, p, i, stop, n) == Got(j, e)
    decreases e, 4
  {
    if e.Alt? {
      AlternativesComplete(r, p, i, j, n, e.bs, stop);
    } else {
      AlternativeComplete(r, p, i, j, n, e, stop);
    }
  }

  /** The parser accepts exactly the patterns the grammar derives, and finds the derived
      expression; a pattern derives at most one. */
  lemma {:induction false} ParseIs(r: Reader, p: seq<char>, e: Ere)
    ensures Parse(r, p) == Got(|p|, e) <==> Spells(r, p, e)
    ensures Parse(r, p).Got? ==> Parse(r, p).next == |p|
  {
    WholeSound(r, p, 0, '|', 0);
    if Spells(r, p, e) { WholeComplete(r, p, 0, |p|, '|', 0, e); }
  }

  // ----- Which error a pattern is refused with -----

  /** p[..i], read from k on, is the alternatives bs, each with | after it, and the pieces l of one more. */
  ghost predicate Opened(r: Reader, p: seq<char>, k: nat, i: nat, n: nat, bs: seq<Ere>, l: Ere)
    decreases |bs|
  {
    if bs == [] then Pieces(r, p, k, i, n, l)
    else exists m: nat :: m < |p| && p[m] == '|' && Alternative(r, p, k, m, n, bs[0]) &&
                          Opened(r, p, m + 1, i, n + Groups(bs[0]), bs[1..], l)
  }

  /** What stands at i, outside parentheses and after the pieces l, makes a pattern wrong. */
  predicate Offends(p: seq<char>, i: nat, l: Ere, error: Error) {
    match error
    case EMPTY => Dropped(l) && (i == |p| || (i < |p| && p[i] == '|'))
    case EPAREN => i < |p| && (p[i] == ')' || (p[i] == '(' && i + 1 == |p|))
    case EESCAPE => i < |p| && p[i] == '\\' && i + 1 == |p|
    case BADRPT => RepeatsAt(p, i)
    case _ => false
  }

  lemma {:induction false} OffenderRead(r: Reader, p: seq<char>, i: nat, n: nat, l: Ere, error: Error)
    requires i <= |p| && Ok(l) && Offends(p, i, l, error)
    ensures var b := ReadPieces(r, p, i, '|', n, l);
            b == Failed(error) || (b.Got? && Dropped(b.e) && error == EMPTY)
  {
    if error != EMPTY {
      var m := n + Groups(l);
      if p[i] == '(' { assert ReadGroup(r, p, i + 1, m + 1) == Failed(error); }
      assert ReadAtom(r, p, i, m) == Failed(error);
    }
  }

  lemma {:induction false} OffenderRefused(r: Reader, p: seq<char>, k: nat, i: nat, n: nat, bs: seq<Ere>, l: Ere,
                                           error: Error)
    requires k <= |p| && Opened(r, p, k, i, n, bs, l) && Offends(p, i, l, error)
    ensures ReadAlternatives(r, p, k, '|', n) == Unlisted(error)
    decreases |bs|
  {
    if bs == [] {
      PiecesComplete(r, p, k, i, n, l, '|');
      OffenderRead(r, p, i, n, l, error);
    } else {
      var m: nat :| m < |p| && p[m] == '|' && Alternative(r, p, k, m, n, bs[0]) &&
                    Opened(r, p, m + 1, i, n + Groups(bs[0]), bs[1..], l);
      AlternativeComplete(r, p, k, m, n, bs[0], '|');
      OffenderRefused(r, p, m + 1, i, n + Groups(bs[0]), bs[1..], l, error);
    }
  }

  /** The first thing wrong outside parentheses says which error a pattern is refused with. */
  lemma {:induction false} RefusedWith(r: Reader, p: seq<char>, i: nat, bs: seq<Ere>, l: Ere, error: Error)
    requires Opened(r, p, 0, i, 0, bs, l) && Offends(p, i, l, error)
    ensures Parse(r, p) == Failed(error) && forall e :: !Spells(r, p, e)
  {
    OffenderRefused(r, p, 0, i, 0, bs, l, error);
    forall e ensures !Spells(r, p, e) { ParseIs(r, p, e); }
  }
}
