/** The grammar of extended regular expressions, and the deterministic reading of it that
    the parser follows (src/common/regcomp.cpp, p_ere and p_ere_exp). */
module Grammar {
  import opened Ere

  /** Why a pattern is refused.  ANCHOR is not among the source's: anchors and word
      boundaries are outside this model, which stops at them. */
  datatype Error = EMPTY | EPAREN | BADRPT | EESCAPE | EBRACE | BADBR | EBRACK | ERANGE | ECTYPE | ECOLLATE | ANCHOR

  /** What reading a bracket expression comes to, given the text after the '['. */
  datatype Bracketed = Members(len: nat, cs: set<char>) | Refused(error: Error)

  /** The reader of bracket expressions, outside this model. */
  type Reader = seq<char> -> Bracketed

  /** The bracket expression whose '[' is before i; it has a closing ']' at least, and does
      not go beyond the pattern. */
  function Bracketing(r: Reader, p: seq<char>, i: nat): (b: Bracketed)
    requires i <= |p|
    ensures b.Members? ==> 0 < b.len <= |p| - i
  {
    var b := r(p[i..]);
    if b.Members? && !(0 < b.len <= |p| - i) then Refused(EBRACK) else b
  }

  predicate IsDigit(c: char) { '0' <= c <= '9' }

  function Digit(c: char): nat
    requires IsDigit(c)
  {
    c as int - '0' as int
  }

  predicate DigitAt(p: seq<char>, i: nat) { i < |p| && IsDigit(p[i]) }

  /** A repetition operator stands at j; '{' is one when a digit follows. */
  predicate RepeatsAt(p: seq<char>, j: nat) {
    j < |p| && (p[j] == '*' || p[j] == '+' || p[j] == '?' || (p[j] == '{' && DigitAt(p, j + 1)))
  }

  // ----- The grammar -----

  /** The number of parenthesised subexpressions. */
  function Groups(e: Ere): nat {
    match e
    case Group(_, b) => 1 + Groups(b)
    case Star(b) => Groups(b)
    case More(b) => Groups(b)
    case Opt(b) => Groups(b)
    case Bound(b, _, _) => Groups(b)
    case Cat(l, r) => Groups(l) + Groups(r)
    case Alt(bs) => GroupsAll(bs)
    case _ => 0
  }

  function GroupsAll(bs: seq<Ere>): nat {
    if bs == [] then 0 else Groups(bs[0]) + GroupsAll(bs[1..])
  }

  /** p[i..j] is a decimal number v. */
  predicate Numeral(p: seq<char>, i: nat, j: nat, v: nat)
    decreases j
  {
    && i < j <= |p| && IsDigit(p[j - 1])
    && if j == i + 1 then v == Digit(p[i]) else v % 10 == Digit(p[j - 1]) && Numeral(p, i, j - 1, v / 10)
  }

  predicate PlainAt(p: seq<char>, i: nat) {
    && i < |p|
    && p[i] !in {'(', ')', '^', '$', '|', '*', '+', '?', '.', '[', '\\'}
    && (p[i] == '{' ==> !DigitAt(p, i + 1))
  }

  /** p[i..j] spells the atom e, n parentheses having been opened before it. */
  ghost predicate Atom(r: Reader, p: seq<char>, i: nat, j: nat, n: nat, e: Ere)
    decreases e, 0
  {
    && i < j <= |p|
    && match e
       case Chr(c) =>
         || (j == i + 1 && PlainAt(p, i) && c == p[i])
         || (j == i + 2 && p[i] == '\\' && c == p[i + 1])
       case Dot => j == i + 1 && p[i] == '.'
       case Bracket(cs) => p[i] == '[' && Bracketing(r, p, i + 1) == Members(j - i - 1, cs)
       case Group(g, b) =>
         && i + 2 <= j && p[i] == '(' && p[j - 1] == ')' && g == n + 1
         && ((b == Eps && j == i + 2) || Whole(r, p, i + 1, j - 1, n + 1, b))
       case _ => false
  }

  /** p[i..k] is an atom, p[k..j] its repetition if any, and no other repetition follows. */
  ghost predicate Piece(r: Reader, p: seq<char>, i: nat, j: nat, n: nat, e: Ere)
    decreases e, 1
  {
    && i < j <= |p| && !RepeatsAt(p, j)
    && match e
       case Star(b) => p[j - 1] == '*' && Atom(r, p, i, j - 1, n, b)
       case More(b) => p[j - 1] == '+' && Atom(r, p, i, j - 1, n, b)
       case Opt(b) => p[j - 1] == '?' && Atom(r, p, i, j - 1, n, b)
       case Bound(b, lo, hi) => exists k: nat :: Counted(p, k, j, lo, hi) && Atom(r, p, i, k, n, b)
       case _ => Atom(r, p, i, j, n, e)
  }

  /** p[k..j] is {lo}, {lo,} or {lo,hi}. */
  ghost predicate Counted(p: seq<char>, k: nat, j: nat, lo: nat, hi: Limit) {
    && k + 3 <= j <= |p| && p[k] == '{' && p[j - 1] == '}' && BoundOk(lo, hi)
    && ( || (hi == AtMost(lo) && Numeral(p, k + 1, j - 1, lo))
         || (hi == Unlimited && p[j - 2] == ',' && Numeral(p, k + 1, j - 2, lo))
         || (hi.AtMost? && exists c: nat :: c < j - 1 && p[c] == ',' &&
                                            Numeral(p, k + 1, c, lo) && Numeral(p, c + 1, j - 1, hi.n)))
  }

  /** p[i..j] is a concatenation of pieces. */
  ghost predicate Pieces(r: Reader, p: seq<char>, i: nat, j: nat, n: nat, e: Ere)
    decreases e, 2
  {
    && i <= j <= |p|
    && match e
       case Eps => i == j
       case Cat(l, x) => exists k: nat :: Pieces(r, p, i, k, n, l) && Piece(r, p, k, j, n + Groups(l), x)
       case _ => false
  }

  /** An alternative: a concatenation that something is compiled for. */
  ghost predicate Alternative(r: Reader, p: seq<char>, i: nat, j: nat, n: nat, e: Ere)
    decreases e, 3
  {
    Pieces(r, p, i, j, n, e) && !Dropped(e)
  }

  /** p[i..j] is an extended regular expression. */
  ghost predicate Whole(r: Reader, p: seq<char>, i: nat, j: nat, n: nat, e: Ere)
    decreases e, 4
  {
    if e.Alt? then |e.bs| >= 2 && Separated(r, p, i, j, n, e.bs) else Alternative(r, p, i, j, n, e)
  }

  /** p[i..j] is the alternatives bs with | between one and the next. */
  ghost predicate Separated(r: Reader, p: seq<char>, i: nat, j: nat, n: nat, bs: seq<Ere>)
    decreases bs, 4
  {
    && bs != []
    && if |bs| == 1 then Alternative(r, p, i, j, n, bs[0])
       else exists k: nat :: k < j <= |p| && p[k] == '|' && Alternative(r, p, i, k, n, bs[0]) &&
                             Separated(r, p, k + 1, j, n + Groups(bs[0]), bs[1..])
  }

  /** The whole pattern is an extended regular expression, namely e. */
  ghost predicate Spells(r: Reader, p: seq<char>, e: Ere) {
    Whole(r, p, 0, |p|, 0, e)
  }
}
