/** The engine as a whole: compiling a tree and running the program searches for what the tree denotes. */
module RegexSearch {
  import opened CharClass
  import opened RegexTree
  import opened RegexCompile
  import opened RegexRun
  import opened RegexVm

  const LazyPrefix := Quantifier(0, -1, false, AnyCharacter)

  lemma {:induction false} AnyRepeats(s: Text, c: nat)
    requires c <= |s|
    ensures Repeats(AnyCharacter, c, s, 0, c)
  {
    if c != 0 {
      AnyRepeats(s, c - 1);
      assert Matches(AnyCharacter, s, c - 1, c);
    }
  }

  /** Where the capture around the whole pattern starts in the compiled program. */
  function BodyAddress(root: Node): nat {
    if NodeIsAnchored(root) then 0 else 3
  }

  lemma CompiledLayout(root: Node)
    requires Wf(root)
    ensures var p, at := Compiled(root), BodyAddress(root);
            && Placed(p, at, CaptureCode(0, Code(root, at + 1, 1)))
            && (at == 3 ==> Placed(p, 0, Code(LazyPrefix, 0, 0)))
            && at + 2 + Size(root) < |p| && p[at + 2 + Size(root)] == OpMatch
  {
    var p, at, code := Compiled(root), BodyAddress(root), Code(WholePattern(root), 0, 0);
    LayoutSizes(root);
    WholeCode(root);
    hide Placed, CaptureCode, Size, Code, WholePattern;
    PlacedSelf(p);
    PlacedAppend(p, 0, code, [OpMatch]);
    PlacedOne(p, |code|, OpMatch);
    if at == 3 {
      PlacedAppend(p, 0, Code(LazyPrefix, 0, 0), CaptureCode(0, Code(root, 4, 1)));
    }
  }

  lemma WholeCode(root: Node)
    requires Wf(root)
    ensures NodeIsAnchored(root) ==> Code(WholePattern(root), 0, 0) == CaptureCode(0, Code(root, 1, 1))
    ensures !NodeIsAnchored(root) ==>
              Code(WholePattern(root), 0, 0) == Code(LazyPrefix, 0, 0) + CaptureCode(0, Code(root, 4, 1))
  {
    hide CaptureCode, QuantifierCode;
    assert NodeIsAnchored(Capture(root)) == NodeIsAnchored(root);
    LayoutSizes(root);
    assert forall at: nat, nc: nat :: Code(Capture(root), at, nc) == CaptureCode(nc, Code(root, at + 1, nc + 1));
  }

  lemma PlacedSelf(p: Program)
    ensures Placed(p, 0, p)
  {}

  lemma LayoutSizes(root: Node)
    requires Wf(root)
    ensures Size(LazyPrefix) == 3 && Captures(LazyPrefix) == 0
    ensures Size(Capture(root)) == 2 + Size(root)
    ensures Size(WholePattern(root)) == BodyAddress(root) + 2 + Size(root)
  {
    assert Size(AnyCharacter) == 1;
    assert NodeIsAnchored(Capture(root)) == NodeIsAnchored(root);
  }

  /** The positions at which the compiled program tries the pattern. */
  ghost predicate Tried(root: Node, s: Text, i: nat) {
    i <= |s| && (NodeIsAnchored(root) ==> i == 0)
  }

  /** The pattern matches at a position that is tried. */
  ghost predicate MatchesWhereTried(root: Node, s: Text)
    requires Wf(root)
  {
    exists i: nat, j: nat :: Tried(root, s, i) && Matches(root, s, i, j)
  }

  /** The pattern matches somewhere in the string. */
  ghost predicate MatchesSomewhere(root: Node, s: Text)
    requires Wf(root)
  {
    exists i: nat, j: nat :: i <= |s| && Matches(root, s, i, j)
  }

  /** Every run of the compiled program is a match of the pattern; slots 0 and 1 hold its ends. */
  lemma WholeSound(root: Node, s: Text, caps: Slots, k: nat, j: nat, out: Slots) returns (i: nat)
    requires Wf(root) && Delivers(Compiled(root), s, 0, 0, caps, k, j, out)
    ensures Tried(root, s, i) && Matches(root, s, i, j)
    ensures |out| == |caps| && (0 < |caps| ==> out[0] == i) && (1 < |caps| ==> out[1] == j)
  {
    hide Placed, Code, CaptureCode, Size, Matches;
    var p, at := Compiled(root), BodyAddress(root);
    CompiledLayout(root);
    LayoutSizes(root);
    var caps1, k1 := caps, k;
    i := 0;
    if at == 3 {
      i, caps1, k1 := SoundNode(LazyPrefix, 0, 0, p, s, 0, caps, k, j, out);
      MatchesSpan(LazyPrefix, s, 0, i);
    }
    var m, caps2, k2 := SoundCapture(Capture(root), root, at, 0, p, s, i, caps1, k1, j, out);
    assert m == j && caps2 == out;
  }

  /** Every match at a position that is tried is found by some run. */
  lemma WholeComplete(root: Node, s: Text, i: nat, j: nat)
    requires Wf(root) && Tried(root, s, i) && Matches(root, s, i, j)
    ensures HasRun(Compiled(root), s)
  {
    hide Placed, Code, CaptureCode, Size;
    var p, at := Compiled(root), BodyAddress(root);
    CompiledLayout(root);
    LayoutSizes(root);
    assert Delivers(p, s, at + 2 + Size(root), j, [], 0, j, []);
    var k := CompleteCapture(Capture(root), root, at, 0, p, s, i, j, 0, j);
    if at == 3 {
      AnyRepeats(s, i);
      assert Matches(LazyPrefix, s, 0, i);
      k := CompleteNode(LazyPrefix, 0, 0, p, s, 0, i, k, j);
    }
  }

  /** The engine reports a match exactly when the pattern denotes one: anywhere in the string, or at its start
      only when the pattern counts as anchored. */
  lemma SearchTheorem(root: Node, s: Text, beyond: Char, width: nat)
    requires Wf(root)
    ensures Runnable(Compiled(root))
    ensures VmRun(Compiled(root), s, beyond, width).Hit? <==> MatchesWhereTried(root, s)
  {
    hide VmRun, Compiled, Matches, Delivers;
    CompiledRunnable(root);
    VmAccepts(Compiled(root), s, beyond, width);
    if HasRun(Compiled(root), s) {
      var k: nat, j: nat :| Delivers(Compiled(root), s, 0, 0, [], k, j, []);
      var i := WholeSound(root, s, [], k, j, []);
    }
    if MatchesWhereTried(root, s) {
      var i: nat, j: nat :| Tried(root, s, i) && Matches(root, s, i, j);
      WholeComplete(root, s, i, j);
    }
  }

  /** When a match is reported with at least two slots, slots 0 and 1 delimit text the pattern matches. */
  lemma SpanTheorem(root: Node, s: Text, beyond: Char, width: nat)
    requires Wf(root) && Runnable(Compiled(root)) && width >= 2 && VmRun(Compiled(root), s, beyond, width).Hit?
    ensures var caps := VmRun(Compiled(root), s, beyond, width).caps;
            |caps| == width && 0 <= caps[0] <= caps[1] <= |s| && Matches(root, s, caps[0], caps[1])
  {
    hide VmRun, Compiled, Matches, Delivers;
    var k, j := VmSlots(Compiled(root), s, beyond, width);
    var i := WholeSound(root, s, Nulls(width), k, j, VmRun(Compiled(root), s, beyond, width).caps);
    MatchesSpan(root, s, i, j);
  }

  // ---- When leaving out the `.*?` prefix is harmless. ----

  /** Anchored, with every quantifier on the way to the anchors demanding at least one repetition. */
  predicate FirmlyAnchored(n: Node) {
    match n
    case Concatenation(l, _) => FirmlyAnchored(l)
    case Alternation(l, r) => FirmlyAnchored(l) && FirmlyAnchored(r)
    case Quantifier(nmin, _, _, q) => nmin > 0 && FirmlyAnchored(q)
    case AnchorBegin => true
    case Capture(c) => FirmlyAnchored(c)
    case _ => false
  }

  /** n matches at the start of a string only. */
  ghost predicate Confined(n: Node)
    requires Wf(n)
  {
    forall s: Text, i: nat, j: nat :: Matches(n, s, i, j) ==> i == 0
  }

  lemma {:induction false} FirmlyAnchoredConfined(n: Node, s: Text, i: nat, j: nat)
    requires Wf(n) && FirmlyAnchored(n) && Matches(n, s, i, j)
    ensures i == 0
    decreases n, 0
  {
    match n
    case Concatenation(l, r) =>
      var k: nat :| Matches(l, s, i, k) && Matches(r, s, k, j);
      FirmlyAnchoredConfined(l, s, i, k);
    case Alternation(l, r) =>
      if Matches(l, s, i, j) { FirmlyAnchoredConfined(l, s, i, j); } else { FirmlyAnchoredConfined(r, s, i, j); }
    case Quantifier(nmin, nmax, _, q) =>
      var c, k := FirstRepetition(n, s, i, j);
      FirmlyAnchoredConfined(q, s, i, k);
    case Capture(c) => FirmlyAnchoredConfined(c, s, i, j);
    case _ =>
  }

  /** For a firmly anchored pattern the engine finds whatever there is to find anywhere in the string. */
  lemma AnchoredSearchTheorem(root: Node, s: Text, beyond: Char, width: nat)
    requires Wf(root) && (FirmlyAnchored(root) || !NodeIsAnchored(root))
    ensures Runnable(Compiled(root))
    ensures VmRun(Compiled(root), s, beyond, width).Hit? <==> MatchesSomewhere(root, s)
  {
    hide VmRun, Compiled;
    SearchTheorem(root, s, beyond, width);
    if i: nat, j: nat :| i <= |s| && Matches(root, s, i, j) {
      if FirmlyAnchored(root) { FirmlyAnchoredConfined(root, s, i, j); }
      assert Tried(root, s, i);
    }
  }

  /** The case `node_is_anchored` gets wrong: around a body confined to the start, a quantifier is confined to
      the start exactly when it demands at least one repetition. */
  lemma QuantifierConfined(nmin: nat, nmax: int, greedy: bool, q: Node)
    requires Wf(Quantifier(nmin, nmax, greedy, q)) && Confined(q)
    ensures Confined(Quantifier(nmin, nmax, greedy, q)) <==> nmin > 0
  {
    var n := Quantifier(nmin, nmax, greedy, q);
    if nmin == 0 {
      assert Repeats(q, 0, [97], 1, 1);
      assert Matches(n, [97], 1, 1);
    } else {
      forall s: Text, i: nat, j: nat | Matches(n, s, i, j)
        ensures i == 0
      {
        var c, k := FirstRepetition(n, s, i, j);
      }
    }
  }

  lemma FirstRepetition(n: Node, s: Text, i: nat, j: nat) returns (c: nat, k: nat)
    requires n.Quantifier? && Wf(n) && n.nmin > 0 && Matches(n, s, i, j)
    ensures n.nmin <= c && Matches(n.quantified, s, i, k) && Repeats(n.quantified, c - 1, s, k, j)
  {
    var q := n.quantified;
    c :| n.nmin <= c && (n.nmax == -1 || c <= n.nmax) && Repeats(q, c, s, i, j);
    k := RepeatsSplit(q, 1, c - 1, s, i, j);
    assert Repeats(q, 1, s, i, k);
    var h: nat :| Repeats(q, 0, s, i, h) && Matches(q, s, h, k);
  }

  const Group := Capture(Concatenation(AnchorBegin, Character(97)))
  const SkippableAnchor := Concatenation(Quantifier(0, 1, true, Group), Character(98))

  lemma NoGroupInCb(i: nat, j: nat)
    ensures !Matches(Group, [99, 98], i, j)
  {}

  lemma NotAtStartOfCb(j: nat)
    ensures !Matches(SkippableAnchor, [99, 98], 0, j)
  {
    var s: Text := [99, 98];
    if Matches(SkippableAnchor, s, 0, j) {
      var k, c := SkipsOrGroups(s, j);
      if c == 1 {
        var h := OneGroup(s, k);
        NoGroupInCb(h, k);
      }
    }
  }

  lemma SkipsOrGroups(s: Text, j: nat) returns (k: nat, c: nat)
    requires Matches(SkippableAnchor, s, 0, j)
    ensures c <= 1 && Repeats(Group, c, s, 0, k) && k < |s| && s[k] == 98
    ensures c == 0 ==> k == 0
  {
    var option := Quantifier(0, 1, true, Group);
    k :| Matches(option, s, 0, k) && Matches(Character(98), s, k, j);
    c :| c <= 1 && Repeats(Group, c, s, 0, k);
  }

  lemma OneGroup(s: Text, k: nat) returns (h: nat)
    requires Repeats(Group, 1, s, 0, k)
    ensures Matches(Group, s, h, k)
  {
    h :| Repeats(Group, 0, s, 0, h) && Matches(Group, s, h, k);
  }

  /** `(^a)?b` matches inside "cb", but counts as anchored and is not found. */
  lemma SkippableAnchorMissesMatch(beyond: Char)
    ensures Wf(SkippableAnchor) && Matches(SkippableAnchor, [99, 98], 1, 2)
    ensures Runnable(Compiled(SkippableAnchor)) && VmRun(Compiled(SkippableAnchor), [99, 98], beyond, 2).NoHit?
  {
    hide VmRun, Compiled;
    var s: Text := [99, 98];
    assert Repeats(Group, 0, s, 1, 1);
    assert Matches(Quantifier(0, 1, true, Group), s, 1, 1);
    assert Matches(Character(98), s, 1, 2);
    SearchTheorem(SkippableAnchor, s, beyond, 2);
    assert NodeIsAnchored(SkippableAnchor);
    if i: nat, j: nat :| Tried(SkippableAnchor, s, i) && Matches(SkippableAnchor, s, i, j) {
      NotAtStartOfCb(j);
    }
  }
}
