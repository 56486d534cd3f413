/** The fragment of ECMAScript regular expressions the field rules use: a pattern anchored
    with ^ and $ whose body is a sequence of single-character atoms (a bracketed class, an
    escape such as \d, or a literal), each with a quantifier ({m,n}, {n} or +). */
module Regex {
  import opened Chars

  /** One entry of a bracketed class: a range a-z, a list of literal characters, or an escape. */
  datatype ClassItem =
    | Range(lo: char, hi: char)
    | OneOf(chars: string)
    | SpaceEscape   // \s
    | DigitEscape   // \d

  /** [items] or, when negated, [^items]. */
  datatype CharClass = CharClass(items: seq<ClassItem>, negated: bool)

  datatype Upper = AtMost(n: nat) | Unbounded

  /** An atom with its quantifier: between min and max repetitions. */
  datatype Piece = Piece(cls: CharClass, min: nat, max: Upper)

  predicate InItem(c: char, item: ClassItem)
  {
    match item
    case Range(lo, hi) => lo <= c <= hi
    case OneOf(chars) => c in chars
    case SpaceEscape => IsSpace(c)
    case DigitEscape => IsDigit(c)
  }

  predicate InClass(c: char, cls: CharClass)
  {
    (exists i | 0 <= i < |cls.items| :: InItem(c, cls.items[i])) != cls.negated
  }

  predicate AllIn(s: string, cls: CharClass)
  {
    forall i | 0 <= i < |s| :: InClass(s[i], cls)
  }

  predicate Admits(max: Upper, n: nat)
  {
    max.Unbounded? || n <= max.n
  }

  /** The fewest characters a match of p can have: the sum of the pieces' minimums. */
  function MinLength(p: seq<Piece>): nat
  {
    if p == [] then 0 else p[0].min + MinLength(p[1..])
  }

  /** The most characters a match of p can have, when every piece is bounded. */
  function MaxLength(p: seq<Piece>): Upper
  {
    if p == [] then AtMost(0)
    else match (p[0].max, MaxLength(p[1..]))
      case (AtMost(a), AtMost(b)) => AtMost(a + b)
      case _ => Unbounded
  }

  /** The regular expression ^p$ matches s: s splits into consecutive runs, one per piece,
      each run drawn from its piece's class and as long as the quantifier allows. A matched
      string is therefore between the pattern's least and greatest lengths. */
  function FullMatch(p: seq<Piece>, s: string): (m: bool)
    ensures m ==> MinLength(p) <= |s| && Admits(MaxLength(p), |s|)
    decreases |p|
  {
    if p == [] then s == []
    else
      exists n: nat | p[0].min <= n <= |s| ::
        Admits(p[0].max, n) && AllIn(s[..n], p[0].cls) && FullMatch(p[1..], s[n..])
  }

  /** A pattern of a single quantified atom matches exactly the strings of an admitted
      length made only of characters of its class. */
  lemma SinglePieceMatch(q: Piece, s: string)
    ensures FullMatch([q], s) <==> q.min <= |s| && Admits(q.max, |s|) && AllIn(s, q.cls)
  {
    assert [q][1..] == [];
    assert s[..|s|] == s;
    if FullMatch([q], s) {
      var n: nat :| q.min <= n <= |s| && Admits(q.max, n) && AllIn(s[..n], q.cls) && FullMatch([], s[n..]);
      assert n == |s|;
    }
    if q.min <= |s| && Admits(q.max, |s|) && AllIn(s, q.cls) {
      assert FullMatch([], s[|s|..]);
    }
  }

  /** Unfolding a match of a pattern with a leading piece yields the length of the run
      that piece consumes. */
  lemma Uncons(p: seq<Piece>, s: string) returns (n: nat)
    requires p != [] && FullMatch(p, s)
    ensures p[0].min <= n <= |s| && Admits(p[0].max, n)
    ensures AllIn(s[..n], p[0].cls) && FullMatch(p[1..], s[n..])
  {
    n :| p[0].min <= n <= |s| && Admits(p[0].max, n) && AllIn(s[..n], p[0].cls) && FullMatch(p[1..], s[n..]);
  }

  /** A leading piece that matches exactly one character. */
  lemma SingleCharHead(p: seq<Piece>, s: string)
    requires p != [] && p[0].min == 1 && p[0].max == AtMost(1)
    ensures FullMatch(p, s) <==> |s| >= 1 && InClass(s[0], p[0].cls) && FullMatch(p[1..], s[1..])
  {
    if |s| >= 1 {
      assert s[..1] == [s[0]];
    }
  }

  /** Folding: a run for the leading piece followed by a match of the rest is a match. */
  lemma MatchCons(p: seq<Piece>, s: string, n: nat)
    requires p != [] && p[0].min <= n <= |s| && Admits(p[0].max, n)
    requires AllIn(s[..n], p[0].cls) && FullMatch(p[1..], s[n..])
    ensures FullMatch(p, s)
  {
  }

}
