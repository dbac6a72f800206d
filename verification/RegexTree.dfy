/** Parsed patterns (the nodes of cregex.h) and the language each of them denotes. */
module RegexTree {
  import opened CharClass

  datatype Node =
    | Epsilon
    | Character(ch: Char)
    | AnyCharacter
    | CharacterClass(text: Text)
    | CharacterClassNegated(text: Text)
    | Concatenation(left: Node, right: Node)
    | Alternation(left: Node, right: Node)
    | Quantifier(nmin: nat, nmax: int, greedy: bool, quantified: Node)
    | AnchorBegin
    | AnchorEnd
    | Capture(captured: Node)

  /** The trees a parser can build: nmax is -1 for "unbounded" or else at least nmin, and a class text is one
      the scanner accepts. */
  predicate Wf(n: Node) {
    match n
    case CharacterClass(text) => ValidClassText(text)
    case CharacterClassNegated(text) => ValidClassText(text)
    case Concatenation(l, r) => Wf(l) && Wf(r)
    case Alternation(l, r) => Wf(l) && Wf(r)
    case Quantifier(nmin, nmax, _, q) => (nmax == -1 || nmin <= nmax) && Wf(q)
    case Capture(c) => Wf(c)
    case _ => true
  }

  /** What a single-character node accepts. */
  ghost predicate Accepts(n: Node, ch: Char)
    requires Wf(n)
  {
    match n
    case Character(c) => ch == c
    case AnyCharacter => true
    case CharacterClass(text) => InClass(text, ch)
    case CharacterClassNegated(text) => !InClass(text, ch)
    case _ => false
  }

  /** The denotation: n matches the characters of s between positions i and j. */
  ghost predicate Matches(n: Node, s: Text, i: nat, j: nat)
    requires Wf(n)
    decreases n, 0
  {
    match n
    case Epsilon => i == j
    case Concatenation(l, r) => exists k: nat :: Matches(l, s, i, k) && Matches(r, s, k, j)
    case Alternation(l, r) => Matches(l, s, i, j) || Matches(r, s, i, j)
    case Quantifier(nmin, nmax, _, q) =>
      exists c: nat :: nmin <= c && (nmax == -1 || c <= nmax) && Repeats(q, c, s, i, j)
    case AnchorBegin => i == 0 && i == j
    case AnchorEnd => i == |s| && i == j
    case Capture(c) => Matches(c, s, i, j)
    case _ => i < |s| && j == i + 1 && Accepts(n, s[i])
  }

  /** c consecutive matches of q. */
  ghost predicate Repeats(q: Node, c: nat, s: Text, i: nat, j: nat)
    requires Wf(q)
    decreases q, c + 1
  {
    if c == 0 then i == j
    else exists k: nat :: Repeats(q, c - 1, s, i, k) && Matches(q, s, k, j)
  }

  lemma RepeatsNone(q: Node, s: Text, i: nat)
    requires Wf(q)
    ensures Repeats(q, 0, s, i, i)
  {}

  lemma RepeatsBack(q: Node, c: nat, s: Text, i: nat, k: nat, j: nat)
    requires Wf(q) && Repeats(q, c, s, i, k) && Matches(q, s, k, j)
    ensures Repeats(q, c + 1, s, i, j)
  {}

  /** Repetitions can be peeled from the front as well. */
  lemma {:induction false} RepeatsFront(q: Node, c: nat, s: Text, i: nat, k: nat, j: nat)
    requires Wf(q) && Matches(q, s, i, k) && Repeats(q, c, s, k, j)
    ensures Repeats(q, c + 1, s, i, j)
  {
    if c == 0 {
      assert Repeats(q, 0, s, i, i);
    } else {
      var m: nat :| Repeats(q, c - 1, s, k, m) && Matches(q, s, m, j);
      RepeatsFront(q, c - 1, s, i, k, m);
    }
  }

  lemma {:induction false} RepeatsJoin(q: Node, a: nat, b: nat, s: Text, i: nat, k: nat, j: nat)
    requires Wf(q) && Repeats(q, a, s, i, k) && Repeats(q, b, s, k, j)
    ensures Repeats(q, a + b, s, i, j)
  {
    if b != 0 {
      var m: nat :| Repeats(q, b - 1, s, k, m) && Matches(q, s, m, j);
      RepeatsJoin(q, a, b - 1, s, i, k, m);
    }
  }

  lemma {:induction false} RepeatsSplit(q: Node, a: nat, b: nat, s: Text, i: nat, j: nat) returns (k: nat)
    requires Wf(q) && Repeats(q, a + b, s, i, j)
    ensures Repeats(q, a, s, i, k) && Repeats(q, b, s, k, j)
  {
    if b == 0 {
      k := j;
    } else {
      var m: nat :| Repeats(q, a + b - 1, s, i, m) && Matches(q, s, m, j);
      k := RepeatsSplit(q, a, b - 1, s, i, m);
    }
  }

  /** A match spans an interval of the string. */
  lemma {:induction false} MatchesSpan(n: Node, s: Text, i: nat, j: nat)
    requires Wf(n) && Matches(n, s, i, j)
    ensures i <= j && (i <= |s| ==> j <= |s|)
    decreases n, 0
  {
    match n
    case Concatenation(l, r) =>
      var k: nat :| Matches(l, s, i, k) && Matches(r, s, k, j);
      MatchesSpan(l, s, i, k);
      MatchesSpan(r, s, k, j);
    case Alternation(l, r) =>
      if Matches(l, s, i, j) { MatchesSpan(l, s, i, j); } else { MatchesSpan(r, s, i, j); }
    case Quantifier(nmin, nmax, _, q) =>
      var c: nat :| Repeats(q, c, s, i, j);
      RepeatsSpan(q, c, s, i, j);
    case Capture(c) => MatchesSpan(c, s, i, j);
    case _ =>
  }

  lemma {:induction false} RepeatsSpan(q: Node, c: nat, s: Text, i: nat, j: nat)
    requires Wf(q) && Repeats(q, c, s, i, j)
    ensures i <= j && (i <= |s| ==> j <= |s|)
    decreases q, c + 1
  {
    if c != 0 {
      var k: nat :| Repeats(q, c - 1, s, i, k) && Matches(q, s, k, j);
      RepeatsSpan(q, c - 1, s, i, k);
      MatchesSpan(q, s, k, j);
    }
  }
}
