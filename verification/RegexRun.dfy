/** What a program does, independently of any strategy for exploring it, and the proof that compiled programs
    do what the tree denotes. */
module RegexRun {
  import opened CharClass
  import opened RegexTree
  import opened RegexCompile

  /** Capture slots; NULL is a slot that holds no position. */
  type Slots = seq<int>
  const NULL := -1

  predicate Consuming(ins: Instr) {
    ins.OpCharacter? || ins.OpAnyCharacter? || ins.OpCharacterClass? || ins.OpCharacterClassNegated?
  }

  /** The test a character instruction applies; the terminator reads as character 0. */
  predicate Test(ins: Instr, ch: Char)
    requires Consuming(ins)
  {
    match ins
    case OpCharacter(c) => ch == c
    case OpAnyCharacter => ch != 0
    case OpCharacterClass(klass) => Contains(klass, ch)
    case OpCharacterClassNegated(klass) => !Contains(klass, ch)
  }

  function Stored(caps: Slots, save: nat, i: nat): Slots {
    if save < |caps| then caps[save := i] else caps
  }

  /** Some run from instruction pc at position i with the given slots reaches MATCH at position j with slots
      `out`, in at most k steps. */
  ghost predicate Delivers(p: Program, s: Text, pc: nat, i: nat, caps: Slots, k: nat, j: nat, out: Slots)
    decreases k
  {
    pc < |p| &&
    match p[pc]
    case OpMatch => i == j && caps == out
    case OpSplit(first, second) =>
      k > 0 && (Delivers(p, s, first, i, caps, k - 1, j, out) || Delivers(p, s, second, i, caps, k - 1, j, out))
    case OpJump(target) => k > 0 && Delivers(p, s, target, i, caps, k - 1, j, out)
    case OpAssertBegin => k > 0 && i == 0 && Delivers(p, s, pc + 1, i, caps, k - 1, j, out)
    case OpAssertEnd => k > 0 && i == |s| && Delivers(p, s, pc + 1, i, caps, k - 1, j, out)
    case OpSave(save) => k > 0 && Delivers(p, s, pc + 1, i, Stored(caps, save, i), k - 1, j, out)
    case _ => k > 0 && i < |s| && Test(p[pc], s[i]) && Delivers(p, s, pc + 1, i + 1, caps, k - 1, j, out)
  }

  /** Some run of the program on s, with no slots tracked, reaches MATCH. */
  ghost predicate HasRun(p: Program, s: Text) {
    exists k: nat, j: nat :: Delivers(p, s, 0, 0, [], k, j, [])
  }


  lemma BranchCase(p: Program, s: Text, at: nat, first: nat, second: nat,
                   i: nat, caps: Slots, k: nat, j: nat, out: Slots)
    requires at < |p| && p[at] == OpSplit(first, second) && Delivers(p, s, at, i, caps, k, j, out)
    ensures k > 0 && (Delivers(p, s, first, i, caps, k - 1, j, out) || Delivers(p, s, second, i, caps, k - 1, j, out))
  {}

  lemma JumpCase(p: Program, s: Text, at: nat, target: nat, i: nat, caps: Slots, k: nat, j: nat, out: Slots)
    requires at < |p| && p[at] == OpJump(target) && Delivers(p, s, at, i, caps, k, j, out)
    ensures k > 0 && Delivers(p, s, target, i, caps, k - 1, j, out)
  {}

  lemma SplitCase(p: Program, s: Text, at: nat, greedy: bool, body: nat, exit: nat,
                  i: nat, caps: Slots, k: nat, j: nat, out: Slots)
    requires at < |p| && p[at] == Split(greedy, body, exit) && Delivers(p, s, at, i, caps, k, j, out)
    ensures k > 0 && (Delivers(p, s, body, i, caps, k - 1, j, out) || Delivers(p, s, exit, i, caps, k - 1, j, out))
  {}

  lemma SplitStep(p: Program, s: Text, at: nat, greedy: bool, body: nat, exit: nat,
                  i: nat, caps: Slots, k: nat, j: nat, out: Slots)
    requires at < |p| && p[at] == Split(greedy, body, exit)
    requires Delivers(p, s, body, i, caps, k, j, out) || Delivers(p, s, exit, i, caps, k, j, out)
    ensures Delivers(p, s, at, i, caps, k + 1, j, out)
  {}

  /** The code sits at address `at` of the program. */
  predicate Placed(p: Program, at: nat, code: seq<Instr>) {
    at + |code| <= |p| && p[at..at + |code|] == code
  }

  lemma PlacedAppend(p: Program, at: nat, a: seq<Instr>, b: seq<Instr>)
    requires Placed(p, at, a + b)
    ensures Placed(p, at, a) && Placed(p, at + |a|, b)
  {
    var all := p[at..at + |a + b|];
    assert all[..|a|] == a && all[|a|..] == b;
    assert p[at..at + |a|] == all[..|a|];
  }

  lemma PlacedOne(p: Program, at: nat, ins: Instr)
    requires Placed(p, at, [ins])
    ensures at < |p| && p[at] == ins
  {
    assert p[at..at + 1][0] == ins;
  }

  lemma ReadAlternation(p: Program, at: nat, left: seq<Instr>, right: seq<Instr>)
    requires Placed(p, at, AlternationCode(at, left, right))
    ensures at + 2 + |left| + |right| <= |p|
    ensures p[at] == OpSplit(at + 1, at + 2 + |left|)
    ensures Placed(p, at + 1, left)
    ensures p[at + 1 + |left|] == OpJump(at + 2 + |left| + |right|)
    ensures Placed(p, at + 2 + |left|, right)
  {
    var split, jump := OpSplit(at + 1, at + 2 + |left|), OpJump(at + 2 + |left| + |right|);
    PlacedAppend(p, at, [split] + left, [jump] + right);
    PlacedAppend(p, at, [split], left);
    PlacedAppend(p, at + 1 + |left|, [jump], right);
    PlacedOne(p, at, split);
    PlacedOne(p, at + 1 + |left|, jump);
  }

  lemma ReadOptional(p: Program, greedy: bool, at: nat, body: seq<Instr>)
    requires Placed(p, at, OptionalCode(greedy, at, body))
    ensures at + 1 + |body| <= |p|
    ensures p[at] == Split(greedy, at + 1, at + 1 + |body|)
    ensures Placed(p, at + 1, body)
  {
    PlacedAppend(p, at, [Split(greedy, at + 1, at + 1 + |body|)], body);
    PlacedOne(p, at, Split(greedy, at + 1, at + 1 + |body|));
  }

  lemma ReadLoop(p: Program, greedy: bool, at: nat, body: seq<Instr>)
    requires Placed(p, at, LoopCode(greedy, at, body))
    ensures at + 2 + |body| <= |p|
    ensures p[at] == Split(greedy, at + 1, at + 2 + |body|)
    ensures Placed(p, at + 1, body)
    ensures p[at + 1 + |body|] == OpJump(at)
  {
    PlacedAppend(p, at, [Split(greedy, at + 1, at + 2 + |body|)] + body, [OpJump(at)]);
    PlacedAppend(p, at, [Split(greedy, at + 1, at + 2 + |body|)], body);
    PlacedOne(p, at, Split(greedy, at + 1, at + 2 + |body|));
    PlacedOne(p, at + 1 + |body|, OpJump(at));
  }

  lemma ReadCapture(p: Program, nc: nat, at: nat, body: seq<Instr>)
    requires Placed(p, at, CaptureCode(nc, body))
    ensures at + 2 + |body| <= |p|
    ensures p[at] == OpSave(2 * nc)
    ensures Placed(p, at + 1, body)
    ensures p[at + 1 + |body|] == OpSave(2 * nc + 1)
  {
    PlacedAppend(p, at, [OpSave(2 * nc)] + body, [OpSave(2 * nc + 1)]);
    PlacedAppend(p, at, [OpSave(2 * nc)], body);
    PlacedOne(p, at, OpSave(2 * nc));
    PlacedOne(p, at + 1 + |body|, OpSave(2 * nc + 1));
  }

  /** Slots below `limit` are the same. */
  predicate SameBelow(a: Slots, b: Slots, limit: nat) {
    |a| == |b| && forall x :: 0 <= x < limit && x < |a| ==> a[x] == b[x]
  }

  lemma SameBelowLess(a: Slots, b: Slots, more: nat, limit: nat)
    requires SameBelow(a, b, more) && limit <= more
    ensures SameBelow(a, b, limit)
  {}

  lemma SameBelowTrans(a: Slots, b: Slots, c: Slots, limit: nat)
    requires SameBelow(a, b, limit) && SameBelow(b, c, limit)
    ensures SameBelow(a, c, limit)
  {}

  // ---- Soundness: whatever the code of n does before it leaves its fragment is a match of n. ----

  lemma {:induction false} SoundNode(n: Node, at: nat, nc: nat, p: Program, s: Text,
                                     i: nat, caps: Slots, k: nat, j: nat, out: Slots)
    returns (m: nat, caps': Slots, k': nat)
    requires Wf(n) && Placed(p, at, Code(n, at, nc)) && Delivers(p, s, at, i, caps, k, j, out)
    ensures Matches(n, s, i, m) && SameBelow(caps, caps', 2 * nc)
    ensures k' <= k && Delivers(p, s, at + Size(n), m, caps', k', j, out)
    decreases n, 1
  {
    hide Placed, Code, Size, Captures, AlternationCode, CaptureCode, QuantifierCode, QuantifierSize, Delivers;
    CompositeCases(n, at, nc);
    match n
    case Concatenation(l, r) =>
      PlacedAppend(p, at, Code(l, at, nc), Code(r, at + Size(l), nc + Captures(l)));
      var m1, caps1, k1 := SoundNode(l, at, nc, p, s, i, caps, k, j, out);
      m, caps', k' := SoundNode(r, at + Size(l), nc + Captures(l), p, s, m1, caps1, k1, j, out);
    case Alternation(l, r) =>
      m, caps', k' := SoundAlternation(n, l, r, at, nc, p, s, i, caps, k, j, out);
    case Quantifier(nmin, nmax, greedy, q) =>
      m, caps', k' := SoundQuantifier(n, nmin, nmax, greedy, q, at, nc, p, s, i, caps, k, j, out);
    case Capture(c) =>
      m, caps', k' := SoundCapture(n, c, at, nc, p, s, i, caps, k, j, out);
    case _ =>
      m, caps', k' := SoundSimple(n, at, nc, p, s, i, caps, k, j, out);
  }

  predicate Simple(n: Node) {
    !n.Concatenation? && !n.Alternation? && !n.Quantifier? && !n.Capture?
  }

  lemma {:induction false} SoundSimple(n: Node, at: nat, nc: nat, p: Program, s: Text,
                                       i: nat, caps: Slots, k: nat, j: nat, out: Slots)
    returns (m: nat, caps': Slots, k': nat)
    requires Wf(n) && Placed(p, at, Code(n, at, nc)) && Delivers(p, s, at, i, caps, k, j, out)
    requires Simple(n)
    ensures Matches(n, s, i, m) && SameBelow(caps, caps', 2 * nc)
    ensures k' <= k && Delivers(p, s, at + Size(n), m, caps', k', j, out)
    decreases n, 0
  {
    hide Placed, ClassBitsOf, ValidClassText, ClassRanges, Contains, InClass;
    m, caps', k' := i, caps, k;
    if n != Epsilon {
      PlacedOne(p, at, Code(n, at, nc)[0]);
      k' := k - 1;
      if !n.AnchorBegin? && !n.AnchorEnd? {
        m := i + 1;
        if n.CharacterClass? || n.CharacterClassNegated? {
          ClassBitsMeaning(n.text, s[i]);
        }
      }
    }
  }

  lemma {:induction false} SoundCapture(n: Node, c: Node, at: nat, nc: nat, p: Program, s: Text,
                                        i: nat, caps: Slots, k: nat, j: nat, out: Slots)
    returns (m: nat, caps': Slots, k': nat)
    requires n == Capture(c) && Wf(c) && Placed(p, at, CaptureCode(nc, Code(c, at + 1, nc + 1)))
    requires Delivers(p, s, at, i, caps, k, j, out)
    ensures Matches(c, s, i, m) && SameBelow(caps, caps', 2 * nc)
    ensures 2 * nc < |caps| ==> caps'[2 * nc] == i
    ensures 2 * nc + 1 < |caps| ==> caps'[2 * nc + 1] == m
    ensures k' <= k && Delivers(p, s, at + 2 + Size(c), m, caps', k', j, out)
    decreases n, 0
  {
    hide Placed, Code, Size, Matches;
    ReadCapture(p, nc, at, Code(c, at + 1, nc + 1));
    var caps1;
    m, caps1, k' := SoundNode(c, at + 1, nc + 1, p, s, i, Stored(caps, 2 * nc, i), k - 1, j, out);
    caps', k' := Stored(caps1, 2 * nc + 1, m), k' - 1;
  }

  lemma {:induction false} SoundAlternation(n: Node, l: Node, r: Node, at: nat, nc: nat, p: Program, s: Text,
                                            i: nat, caps: Slots, k: nat, j: nat, out: Slots)
    returns (m: nat, caps': Slots, k': nat)
    requires n == Alternation(l, r) && Wf(l) && Wf(r)
    requires Placed(p, at, AlternationCode(at, Code(l, at + 1, nc), Code(r, at + 2 + Size(l), nc + Captures(l))))
    requires Delivers(p, s, at, i, caps, k, j, out)
    ensures (Matches(l, s, i, m) || Matches(r, s, i, m)) && SameBelow(caps, caps', 2 * nc)
    ensures k' <= k && Delivers(p, s, at + 2 + Size(l) + Size(r), m, caps', k', j, out)
    decreases n, 0
  {
    hide Placed, Code, Size, Captures, Matches, Delivers, SameBelow, AlternationCode;
    ReadAlternation(p, at, Code(l, at + 1, nc), Code(r, at + 2 + Size(l), nc + Captures(l)));
    BranchCase(p, s, at, at + 1, at + 2 + Size(l), i, caps, k, j, out);
    if Delivers(p, s, at + 1, i, caps, k - 1, j, out) {
      m, caps', k' := SoundNode(l, at + 1, nc, p, s, i, caps, k - 1, j, out);
      JumpCase(p, s, at + 1 + Size(l), at + 2 + Size(l) + Size(r), m, caps', k', j, out);
      k' := k' - 1;
    } else {
      m, caps', k' := SoundNode(r, at + 2 + Size(l), nc + Captures(l), p, s, i, caps, k - 1, j, out);
      SameBelowLess(caps, caps', 2 * (nc + Captures(l)), 2 * nc);
    }
  }

  lemma {:induction false} SoundQuantifier(n: Node, nmin: nat, nmax: int, greedy: bool, q: Node, at: nat, nc: nat,
                                           p: Program, s: Text, i: nat, caps: Slots, k: nat, j: nat, out: Slots)
    returns (m: nat, caps': Slots, k': nat)
    requires n == Quantifier(nmin, nmax, greedy, q) && Wf(n)
    requires Placed(p, at, QuantifierCode(nmin, nmax, greedy, q, at, nc))
    requires Delivers(p, s, at, i, caps, k, j, out)
    ensures Matches(n, s, i, m) && SameBelow(caps, caps', 2 * nc)
    ensures k' <= k && Delivers(p, s, at + QuantifierSize(nmin, nmax, Size(q)), m, caps', k', j, out)
    decreases n, 0
  {
    hide Placed, Code, Size, Times, Delivers, Split, LoopCode, SameBelow, Copies, Optionals, QuantifierCode;
    hide Matches, Repeats;
    QuantifierCases(nmin, nmax, greedy, q, at, nc);
    var end := at + Times(nmin, Size(q));
    var count;
    if nmax == -1 && nmin == 0 {
      ReadLoop(p, greedy, at, Code(q, at + 1, nc));
      count, m, caps', k' := SoundIterate(q, at + 1, at, at + 2 + Size(q), greedy, nc, p, s, i, caps, k, j, out);
    } else if nmax == -1 {
      count, m, caps', k' := SoundAtLeast(q, nmin, greedy, at, nc, p, s, i, caps, k, j, out);
    } else if nmax == nmin {
      count := nmin;
      m, caps', k' := SoundCopies(q, nmin, at, nc, p, s, i, caps, k, j, out);
    } else {
      PlacedAppend(p, at, Copies(q, nmin, at, nc), Optionals(q, nmax - nmin, greedy, end, nc));
      var m1, caps1, k1 := SoundCopies(q, nmin, at, nc, p, s, i, caps, k, j, out);
      count, m, caps', k' := SoundOptionals(q, nmax - nmin, greedy, end, nc, p, s, m1, caps1, k1, j, out);
      RepeatsJoin(q, nmin, count, s, i, m1, m);
      count := nmin + count;
      SameBelowTrans(caps, caps1, caps', 2 * nc);
    }
    QuantifierMatches(n, count, s, i, m);
  }

  /** The denotation of a quantifier, from a number of repetitions, */
  lemma QuantifierMatches(n: Node, count: nat, s: Text, i: nat, m: nat)
    requires Wf(n) && n.Quantifier? && n.nmin <= count && (n.nmax == -1 || count <= n.nmax)
    requires Repeats(n.quantified, count, s, i, m)
    ensures Matches(n, s, i, m)
  {
    hide Repeats;
  }

  /** and back to it. */
  lemma QuantifierCount(n: Node, s: Text, i: nat, m: nat) returns (count: nat)
    requires Wf(n) && n.Quantifier? && Matches(n, s, i, m)
    ensures n.nmin <= count && (n.nmax == -1 || count <= n.nmax) && Repeats(n.quantified, count, s, i, m)
  {
    hide Repeats;
    count :| n.nmin <= count && (n.nmax == -1 || count <= n.nmax) && Repeats(n.quantified, count, s, i, m);
  }

  /** The x{nmin,} shape: copies, then a branch back to the last of them. */
  lemma {:induction false} SoundAtLeast(q: Node, nmin: nat, greedy: bool, at: nat, nc: nat, p: Program, s: Text,
                                        i: nat, caps: Slots, k: nat, j: nat, out: Slots)
    returns (count: nat, m: nat, caps': Slots, k': nat)
    requires Wf(q) && nmin > 0 && Delivers(p, s, at, i, caps, k, j, out)
    requires var last, end := at + Times(nmin - 1, Size(q)), at + Times(nmin, Size(q));
             Placed(p, at, Copies(q, nmin, at, nc) + [Split(greedy, last, end + 1)])
    ensures nmin <= count && Repeats(q, count, s, i, m) && SameBelow(caps, caps', 2 * nc)
    ensures k' <= k && Delivers(p, s, at + Times(nmin, Size(q)) + 1, m, caps', k', j, out)
    decreases q, nmin + 3, 0
  {
    hide Placed, Code, Size, Delivers, Split;
    var last, end := at + Times(nmin - 1, Size(q)), at + Times(nmin, Size(q));
    PlacedAppend(p, at, Copies(q, nmin, at, nc), [Split(greedy, last, end + 1)]);
    PlacedOne(p, end, Split(greedy, last, end + 1));
    PlacedAppend(p, at, Copies(q, nmin - 1, at, nc), Code(q, last, nc));
    var m1, caps1, k1 := SoundCopies(q, nmin, at, nc, p, s, i, caps, k, j, out);
    count, m, caps', k' := SoundIterate(q, last, end, end + 1, greedy, nc, p, s, m1, caps1, k1, j, out);
    RepeatsJoin(q, nmin, count, s, i, m1, m);
    count := nmin + count;
  }

  lemma {:induction false} SoundCopies(q: Node, c: nat, at: nat, nc: nat, p: Program, s: Text,
                                       i: nat, caps: Slots, k: nat, j: nat, out: Slots)
    returns (m: nat, caps': Slots, k': nat)
    requires Wf(q) && Placed(p, at, Copies(q, c, at, nc)) && Delivers(p, s, at, i, caps, k, j, out)
    ensures Repeats(q, c, s, i, m) && SameBelow(caps, caps', 2 * nc)
    ensures k' <= k && Delivers(p, s, at + Times(c, Size(q)), m, caps', k', j, out)
    decreases q, c + 2
  {
    hide Placed, Code, Size, Matches;
    m, caps', k' := i, caps, k;
    if c != 0 {
      var last := at + Times(c - 1, Size(q));
      PlacedAppend(p, at, Copies(q, c - 1, at, nc), Code(q, last, nc));
      var m1, caps1, k1 := SoundCopies(q, c - 1, at, nc, p, s, i, caps, k, j, out);
      m, caps', k' := SoundNode(q, last, nc, p, s, m1, caps1, k1, j, out);
    }
  }

  lemma {:induction false} SoundOptionals(q: Node, c: nat, greedy: bool, at: nat, nc: nat, p: Program, s: Text,
                                          i: nat, caps: Slots, k: nat, j: nat, out: Slots)
    returns (count: nat, m: nat, caps': Slots, k': nat)
    requires Wf(q) && Placed(p, at, Optionals(q, c, greedy, at, nc)) && Delivers(p, s, at, i, caps, k, j, out)
    ensures count <= c && Repeats(q, count, s, i, m) && SameBelow(caps, caps', 2 * nc)
    ensures k' <= k && Delivers(p, s, at + Times(c, Size(q) + 1), m, caps', k', j, out)
    decreases q, c + 2
  {
    hide Placed, Code, Size, Matches, OptionalCode, Delivers, Split, Repeats, Optionals, Times;
    count, m, caps', k' := 0, i, caps, k;
    RepeatsNone(q, s, i);
    TimesNone(Size(q) + 1);
    if c != 0 {
      TimesStep(c - 1, Size(q) + 1);
      var split := at + Times(c - 1, Size(q) + 1);
      var body := Code(q, split + 1, nc);
      OptionalsStep(q, c - 1, greedy, at, nc);
      PlacedAppend(p, at, Optionals(q, c - 1, greedy, at, nc), OptionalCode(greedy, split, body));
      ReadOptional(p, greedy, split, body);
      count, m, caps', k' := SoundOptionals(q, c - 1, greedy, at, nc, p, s, i, caps, k, j, out);
      SplitCase(p, s, split, greedy, split + 1, split + 1 + Size(q), m, caps', k', j, out);
      k' := k' - 1;
      if Delivers(p, s, split + 1, m, caps', k', j, out) {
        var m1, count1 := m, count;
        m, caps', k' := SoundNode(q, split + 1, nc, p, s, m, caps', k', j, out);
        count := count + 1;
        RepeatsBack(q, count1, s, i, m1, m);
      }
    }
  }

  /** Both loop shapes: a branch at `split` between the body and `exit`, the body leading back to the branch. */
  lemma {:induction false} SoundIterate(q: Node, body: nat, split: nat, exit: nat, greedy: bool, nc: nat,
                                        p: Program, s: Text, i: nat, caps: Slots, k: nat, j: nat, out: Slots)
    returns (count: nat, m: nat, caps': Slots, k': nat)
    requires Wf(q) && Placed(p, body, Code(q, body, nc))
    requires split < |p| && p[split] == Split(greedy, body, exit)
    requires var back := body + Size(q); back == split || (back < |p| && p[back] == OpJump(split))
    requires Delivers(p, s, split, i, caps, k, j, out)
    ensures Repeats(q, count, s, i, m) && SameBelow(caps, caps', 2 * nc)
    ensures k' <= k && Delivers(p, s, exit, m, caps', k', j, out)
    decreases q, 2, k
  {
    hide Placed, Code, Size, Matches;
    if Delivers(p, s, exit, i, caps, k - 1, j, out) {
      count, m, caps', k' := 0, i, caps, k - 1;
    } else {
      var m1, caps1, k1 := SoundNode(q, body, nc, p, s, i, caps, k - 1, j, out);
      if body + Size(q) != split { k1 := k1 - 1; }
      count, m, caps', k' := SoundIterate(q, body, split, exit, greedy, nc, p, s, m1, caps1, k1, j, out);
      RepeatsFront(q, count, s, i, m1, m);
      count := count + 1;
    }
  }

  // ---- Completeness: every match of n can be followed through the code of n. Slots play no part here. ----

  lemma {:induction false} CompleteNode(n: Node, at: nat, nc: nat, p: Program, s: Text, i: nat, m: nat, k: nat, j: nat)
    returns (k': nat)
    requires Wf(n) && Placed(p, at, Code(n, at, nc)) && Matches(n, s, i, m)
    requires Delivers(p, s, at + Size(n), m, [], k, j, [])
    ensures Delivers(p, s, at, i, [], k', j, [])
    decreases n, 1
  {
    hide Placed, Code, Size, Captures, AlternationCode, CaptureCode, QuantifierCode, QuantifierSize, Delivers;
    CompositeCases(n, at, nc);
    match n
    case Concatenation(l, r) =>
      PlacedAppend(p, at, Code(l, at, nc), Code(r, at + Size(l), nc + Captures(l)));
      var m1: nat :| Matches(l, s, i, m1) && Matches(r, s, m1, m);
      var k1 := CompleteNode(r, at + Size(l), nc + Captures(l), p, s, m1, m, k, j);
      k' := CompleteNode(l, at, nc, p, s, i, m1, k1, j);
    case Alternation(l, r) =>
      k' := CompleteAlternation(n, l, r, at, nc, p, s, i, m, k, j);
    case Quantifier(nmin, nmax, greedy, q) =>
      k' := CompleteQuantifier(n, nmin, nmax, greedy, q, at, nc, p, s, i, m, k, j);
    case Capture(c) =>
      k' := CompleteCapture(n, c, at, nc, p, s, i, m, k, j);
    case _ =>
      k' := CompleteSimple(n, at, nc, p, s, i, m, k, j);
  }

  lemma {:induction false} CompleteSimple(n: Node, at: nat, nc: nat, p: Program, s: Text, i: nat, m: nat, k: nat,
                                          j: nat)
    returns (k': nat)
    requires Wf(n) && Placed(p, at, Code(n, at, nc)) && Matches(n, s, i, m)
    requires Simple(n) && Delivers(p, s, at + Size(n), m, [], k, j, [])
    ensures Delivers(p, s, at, i, [], k', j, [])
    decreases n, 0
  {
    hide Placed, ClassBitsOf, ValidClassText, ClassRanges, Contains, InClass;
    k' := k;
    if n != Epsilon {
      PlacedOne(p, at, Code(n, at, nc)[0]);
      k' := k + 1;
      if n.CharacterClass? || n.CharacterClassNegated? {
        ClassBitsMeaning(n.text, s[i]);
      }
    }
  }

  lemma {:induction false} CompleteCapture(n: Node, c: Node, at: nat, nc: nat, p: Program, s: Text,
                                           i: nat, m: nat, k: nat, j: nat)
    returns (k': nat)
    requires n == Capture(c) && Wf(c) && Matches(c, s, i, m)
    requires Placed(p, at, CaptureCode(nc, Code(c, at + 1, nc + 1)))
    requires Delivers(p, s, at + 2 + Size(c), m, [], k, j, [])
    ensures Delivers(p, s, at, i, [], k', j, [])
    decreases n, 0
  {
    hide Placed, Code, Size, Matches;
    ReadCapture(p, nc, at, Code(c, at + 1, nc + 1));
    k' := CompleteNode(c, at + 1, nc + 1, p, s, i, m, k + 1, j);
    k' := k' + 1;
  }

  lemma {:induction false} CompleteAlternation(n: Node, l: Node, r: Node, at: nat, nc: nat, p: Program, s: Text,
                                               i: nat, m: nat, k: nat, j: nat)
    returns (k': nat)
    requires n == Alternation(l, r) && Wf(l) && Wf(r) && (Matches(l, s, i, m) || Matches(r, s, i, m))
    requires Placed(p, at, AlternationCode(at, Code(l, at + 1, nc), Code(r, at + 2 + Size(l), nc + Captures(l))))
    requires Delivers(p, s, at + 2 + Size(l) + Size(r), m, [], k, j, [])
    ensures Delivers(p, s, at, i, [], k', j, [])
    decreases n, 0
  {
    hide Placed, Code, Size, Captures, Matches;
    ReadAlternation(p, at, Code(l, at + 1, nc), Code(r, at + 2 + Size(l), nc + Captures(l)));
    if Matches(l, s, i, m) {
      k' := CompleteNode(l, at + 1, nc, p, s, i, m, k + 1, j);
    } else {
      k' := CompleteNode(r, at + 2 + Size(l), nc + Captures(l), p, s, i, m, k, j);
    }
    k' := k' + 1;
  }

  lemma {:induction false} CompleteQuantifier(n: Node, nmin: nat, nmax: int, greedy: bool, q: Node, at: nat, nc: nat,
                                              p: Program, s: Text, i: nat, m: nat, k: nat, j: nat)
    returns (k': nat)
    requires n == Quantifier(nmin, nmax, greedy, q) && Wf(n) && Matches(n, s, i, m)
    requires Placed(p, at, QuantifierCode(nmin, nmax, greedy, q, at, nc))
    requires Delivers(p, s, at + QuantifierSize(nmin, nmax, Size(q)), m, [], k, j, [])
    ensures Delivers(p, s, at, i, [], k', j, [])
    decreases n, 0
  {
    hide Placed, Code, Size, Times, Delivers, Split, LoopCode, Copies, Optionals, QuantifierCode, Matches, Repeats;
    QuantifierCases(nmin, nmax, greedy, q, at, nc);
    var end := at + Times(nmin, Size(q));
    var count := QuantifierCount(n, s, i, m);
    if nmax == -1 && nmin == 0 {
      ReadLoop(p, greedy, at, Code(q, at + 1, nc));
      SplitStep(p, s, at, greedy, at + 1, at + 2 + Size(q), m, [], k, j, []);
      k' := CompleteIterate(q, at + 1, at, at + 2 + Size(q), greedy, nc, p, s, count, i, m, k + 1, j);
    } else if nmax == -1 {
      k' := CompleteAtLeast(q, nmin, greedy, at, nc, p, s, count, i, m, k, j);
    } else if nmax == nmin {
      k' := CompleteCopies(q, nmin, at, nc, p, s, i, m, k, j);
    } else {
      var m1 := RepeatsSplit(q, nmin, count - nmin, s, i, m);
      PlacedAppend(p, at, Copies(q, nmin, at, nc), Optionals(q, nmax - nmin, greedy, end, nc));
      k' := CompleteOptionals(q, nmax - nmin, greedy, end, nc, p, s, count - nmin, m1, m, k, j);
      k' := CompleteCopies(q, nmin, at, nc, p, s, i, m1, k', j);
    }
  }

  lemma {:induction false} CompleteAtLeast(q: Node, nmin: nat, greedy: bool, at: nat, nc: nat, p: Program, s: Text,
                                           count: nat, i: nat, m: nat, k: nat, j: nat)
    returns (k': nat)
    requires Wf(q) && 0 < nmin <= count && Repeats(q, count, s, i, m)
    requires var last, end := at + Times(nmin - 1, Size(q)), at + Times(nmin, Size(q));
             Placed(p, at, Copies(q, nmin, at, nc) + [Split(greedy, last, end + 1)])
    requires Delivers(p, s, at + Times(nmin, Size(q)) + 1, m, [], k, j, [])
    ensures Delivers(p, s, at, i, [], k', j, [])
    decreases q, nmin + 3, 0
  {
    hide Placed, Code, Size, Delivers, Split;
    var last, end := at + Times(nmin - 1, Size(q)), at + Times(nmin, Size(q));
    PlacedAppend(p, at, Copies(q, nmin, at, nc), [Split(greedy, last, end + 1)]);
    PlacedOne(p, end, Split(greedy, last, end + 1));
    PlacedAppend(p, at, Copies(q, nmin - 1, at, nc), Code(q, last, nc));
    var m1 := RepeatsSplit(q, nmin, count - nmin, s, i, m);
    SplitStep(p, s, end, greedy, last, end + 1, m, [], k, j, []);
    k' := CompleteIterate(q, last, end, end + 1, greedy, nc, p, s, count - nmin, m1, m, k + 1, j);
    k' := CompleteCopies(q, nmin, at, nc, p, s, i, m1, k', j);
  }

  lemma {:induction false} CompleteCopies(q: Node, c: nat, at: nat, nc: nat, p: Program, s: Text,
                                          i: nat, m: nat, k: nat, j: nat)
    returns (k': nat)
    requires Wf(q) && Placed(p, at, Copies(q, c, at, nc)) && Repeats(q, c, s, i, m)
    requires Delivers(p, s, at + Times(c, Size(q)), m, [], k, j, [])
    ensures Delivers(p, s, at, i, [], k', j, [])
    decreases q, c + 2
  {
    hide Placed, Code, Size, Matches;
    k' := k;
    if c != 0 {
      var last := at + Times(c - 1, Size(q));
      var m1: nat :| Repeats(q, c - 1, s, i, m1) && Matches(q, s, m1, m);
      PlacedAppend(p, at, Copies(q, c - 1, at, nc), Code(q, last, nc));
      k' := CompleteNode(q, last, nc, p, s, m1, m, k, j);
      k' := CompleteCopies(q, c - 1, at, nc, p, s, i, m1, k', j);
    }
  }

  lemma {:induction false} CompleteOptionals(q: Node, c: nat, greedy: bool, at: nat, nc: nat, p: Program, s: Text,
                                             count: nat, i: nat, m: nat, k: nat, j: nat)
    returns (k': nat)
    requires Wf(q) && Placed(p, at, Optionals(q, c, greedy, at, nc)) && count <= c && Repeats(q, count, s, i, m)
    requires Delivers(p, s, at + Times(c, Size(q) + 1), m, [], k, j, [])
    ensures Delivers(p, s, at, i, [], k', j, [])
    decreases q, c + 2
  {
    hide Placed, Code, Size, Matches, OptionalCode, Delivers, Split, Optionals, Times;
    k' := k;
    TimesNone(Size(q) + 1);
    if c != 0 {
      TimesStep(c - 1, Size(q) + 1);
      OptionalsStep(q, c - 1, greedy, at, nc);
      var split := at + Times(c - 1, Size(q) + 1);
      var body := Code(q, split + 1, nc);
      PlacedAppend(p, at, Optionals(q, c - 1, greedy, at, nc), OptionalCode(greedy, split, body));
      ReadOptional(p, greedy, split, body);
      var m1 := m;
      if count == c {
        m1 :| Repeats(q, count - 1, s, i, m1) && Matches(q, s, m1, m);
        k' := CompleteNode(q, split + 1, nc, p, s, m1, m, k, j);
      }
      SplitStep(p, s, split, greedy, split + 1, split + 1 + Size(q), m1, [], k', j, []);
      k' := CompleteOptionals(q, c - 1, greedy, at, nc, p, s,
        if count == c then count - 1 else count, i, m1, k' + 1, j);
    }
  }

  lemma {:induction false} CompleteIterate(q: Node, body: nat, split: nat, exit: nat, greedy: bool, nc: nat,
                                           p: Program, s: Text, count: nat, i: nat, m: nat, k: nat, j: nat)
    returns (k': nat)
    requires Wf(q) && Placed(p, body, Code(q, body, nc)) && Repeats(q, count, s, i, m)
    requires split < |p| && p[split] == Split(greedy, body, exit)
    requires var back := body + Size(q); back == split || (back < |p| && p[back] == OpJump(split))
    requires Delivers(p, s, split, m, [], k, j, [])
    ensures Delivers(p, s, split, i, [], k', j, [])
    decreases q, 2, count
  {
    hide Placed, Code, Size, Matches;
    k' := k;
    if count != 0 {
      var m1: nat :| Repeats(q, count - 1, s, i, m1) && Matches(q, s, m1, m);
      if body + Size(q) != split { k' := k' + 1; }
      k' := CompleteNode(q, body, nc, p, s, m1, m, k', j);
      k' := CompleteIterate(q, body, split, exit, greedy, nc, p, s, count - 1, i, m1, k' + 1, j);
    }
  }
}
