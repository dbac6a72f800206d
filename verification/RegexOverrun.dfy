/** When the pattern parser steps past the terminator of its pattern (cregex_parse.c): exactly when the pattern ends in
    a backslash that escapes nothing and everything before it is in order. */
module RegexOverrun {
  import opened CharClass
  import opened RegexTree
  import opened RegexParse

  const LETTER: Char := 97

  /** Where the backslashes at the end of a pattern begin. */
  function RunStart(pat: Text): (s: nat)
    ensures s <= |pat| && (forall j | s <= j < |pat| :: pat[j] == BACKSLASH)
    ensures s > 0 ==> pat[s - 1] != BACKSLASH
  {
    if pat == [] || pat[|pat| - 1] != BACKSLASH then |pat| else RunStart(pat[..|pat| - 1])
  }

  function TrailingBackslashes(pat: Text): nat {
    |pat| - RunStart(pat)
  }

  /** The pattern with a letter for its last backslash to escape, and with some parentheses closed. */
  function Extended(pat: Text, k: nat): (ext: Text)
    ensures |ext| == |pat| + 1 + k
    ensures forall j | 0 <= j < |ext| :: ext[j] == if j < |pat| then pat[j] else if j == |pat| then LETTER else RPAREN
  {
    pat + [LETTER] + seq(k, _ => RPAREN)
  }

  predicate Odd(pat: Text) {
    TrailingBackslashes(pat) % 2 == 1
  }

  /** No escape is cut in two: the position is not behind an odd number of the backslashes at the end. */
  predicate Aligned(pat: Text, p: nat) {
    p <= |pat| && (p <= RunStart(pat) || (p - RunStart(pat)) % 2 == 0)
  }

  // ---- Before its last backslash the extended pattern is read as the pattern is. ----

  lemma SameItem(pat: Text, k: nat, p: nat)
    requires pat != [] && pat[|pat| - 1] == BACKSLASH && p < |pat| - 1
    ensures ScanItem(Extended(pat, k), p) == ScanItem(pat, p)
  {}

  lemma {:induction false} SameClass(pat: Text, k: nat, from: nat, p: nat)
    requires pat != [] && pat[|pat| - 1] == BACKSLASH
    ensures ScanFrom(Extended(pat, k), from, p) == ScanFrom(pat, from, p)
    ensures ScanFrom(pat, from, p).Closed? ==> ScanFrom(pat, from, p).close < |pat| - 1
    decreases |pat| - p
  {
    if p < |pat| - 1 {
      SameItem(pat, k, p);
      var item := ScanItem(pat, p);
      if item.Item? && !(pat[p] == CLOSE && p != from) { SameClass(pat, k, from, item.next); }
    }
  }

  lemma SameAtom(pat: Text, k: nat, p: nat)
    requires pat != [] && pat[|pat| - 1] == BACKSLASH && p < |pat| - 1 && StartsAtom(pat[p])
    ensures AtomAt(Extended(pat, k), p) == AtomAt(pat, p)
  {
    var ext := Extended(pat, k);
    if pat[p] == LBRACKET {
      var from := if At(pat, p + 1) == CARET then p + 2 else p + 1;
      SameClass(pat, k, from, from);
      var r := ScanFrom(pat, from, from);
      if r.Closed? { assert ext[from..r.close] == pat[from..r.close]; }
    }
  }

  lemma {:induction false} SameNumber(pat: Text, k: nat, p: nat, acc: nat)
    requires pat != [] && pat[|pat| - 1] == BACKSLASH && p < |pat|
    ensures ScanNumber(Extended(pat, k), p, acc) == ScanNumber(pat, p, acc) && ScanNumber(pat, p, acc).next < |pat|
    decreases |pat| - p
  {
    if IsDigit(At(pat, p)) { SameNumber(pat, k, p + 1, acc * 10 + (pat[p] - 48)); }
  }

  lemma SameInterval(pat: Text, k: nat, p: nat)
    requires pat != [] && pat[|pat| - 1] == BACKSLASH && p < |pat|
    ensures ScanInterval(Extended(pat, k), p) == ScanInterval(pat, p)
    ensures var r := ScanInterval(pat, p); r.Interval? ==> r.next < |pat| && pat[r.next - 1] == RBRACE
  {
    SameNumber(pat, k, p, 0);
    var low := ScanNumber(pat, p, 0);
    if At(pat, low.next) == COMMA { SameNumber(pat, k, low.next + 1, 0); }
  }

  lemma SameStep(pat: Text, k: nat, p: nat, items: seq<Node>)
    requires pat != [] && pat[|pat| - 1] == BACKSLASH && p < |pat| && pat[p] != BACKSLASH
    ensures OrdinaryStep(Extended(pat, k), p, items) == OrdinaryStep(pat, p, items)
  {
    SameInterval(pat, k, p + 1);
    hide ScanInterval;
  }

  // ---- Escapes are never cut in two. ----

  lemma AlignedAtom(pat: Text, p: nat)
    requires Aligned(pat, p) && p < |pat| && StartsAtom(pat[p]) && AtomAt(pat, p).Atom?
    ensures Aligned(pat, AtomAt(pat, p).next)
  {}

  lemma AlignedStep(pat: Text, p: nat, items: seq<Node>)
    requires p < |pat| && pat[p] != BACKSLASH
    ensures Aligned(pat, OrdinaryStep(pat, p, items).1)
  {
    hide ScanNumber;
  }

  /** With an even number of backslashes at its end a pattern is never overrun. */
  lemma {:induction false} EvenStays(pat: Text, p: nat, depth: nat, items: seq<Node>)
    requires !Odd(pat) && Aligned(pat, p)
    ensures !ParseFrom(pat, p, depth, items).Overrun?
    ensures ParseFrom(pat, p, depth, items).Parsed? && depth > 0 ==> Aligned(pat, ParseFrom(pat, p, depth, items).next)
    decreases |pat| - p
  {
    hide AtomAt, OrdinaryStep;
    var ch := At(pat, p);
    if ch == 0 || ch == RPAREN {
    } else if StartsAtom(ch) {
      EscapeFits(pat, p);
      if AtomAt(pat, p).Atom? {
        AlignedAtom(pat, p);
        EvenStays(pat, AtomAt(pat, p).next, depth, items + [AtomAt(pat, p).node]);
      }
    } else if ch == BAR {
      EvenStays(pat, p + 1, depth, []);
    } else if ch == LPAREN {
      EvenStays(pat, p + 1, depth + 1, []);
      var inner := ParseFrom(pat, p + 1, depth + 1, []);
      if inner.Parsed? { EvenStays(pat, inner.next, depth, items + [Capture(inner.tree)]); }
    } else {
      var (items', p') := OrdinaryStep(pat, p, items);
      AlignedStep(pat, p, items);
      EvenStays(pat, p', depth, items');
    }
  }

  /** A backslash at an aligned position escapes nothing only if it is the last one of an odd number. */
  lemma EscapeFits(pat: Text, p: nat)
    requires Aligned(pat, p) && p < |pat| && StartsAtom(pat[p])
    ensures AtomAt(pat, p).EscapedEnd? <==> Odd(pat) && p == |pat| - 1
  {}

  /** With an odd number, the extended pattern is rejected if the pattern is, and groups are read alike. */
  lemma {:induction false} OddStays(pat: Text, k: nat, p: nat, depth: nat, items: seq<Node>)
    requires Odd(pat) && Aligned(pat, p)
    ensures var r := ParseFrom(pat, p, depth, items);
            && (r.Parsed? ==> depth > 0 && Aligned(pat, r.next) && ParseFrom(Extended(pat, k), p, depth, items) == r)
            && (r.Rejected? ==> ParseFrom(Extended(pat, k), p, depth, items) == r)
    decreases |pat| - p
  {
    hide AtomAt, OrdinaryStep;
    var ch, ext := At(pat, p), Extended(pat, k);
    assert ch == ext[p];
    if ch == RPAREN {
    } else if StartsAtom(ch) {
      EscapeFits(pat, p);
      if p < |pat| - 1 {
        SameAtom(pat, k, p);
        if AtomAt(pat, p).Atom? {
          AlignedAtom(pat, p);
          OddStays(pat, k, AtomAt(pat, p).next, depth, items + [AtomAt(pat, p).node]);
        }
      }
    } else if ch == BAR {
      OddStays(pat, k, p + 1, depth, []);
    } else if ch == LPAREN {
      OddStays(pat, k, p + 1, depth + 1, []);
      var inner := ParseFrom(pat, p + 1, depth + 1, []);
      if inner.Parsed? { OddStays(pat, k, inner.next, depth, items + [Capture(inner.tree)]); }
    } else {
      var (items', p') := OrdinaryStep(pat, p, items);
      SameStep(pat, k, p, items);
      AlignedStep(pat, p, items);
      OddStays(pat, k, p', depth, items');
    }
  }

  /** Behind the letter, the parentheses close what is open. */
  lemma Closing(pat: Text, k: nat, depth: nat, items: seq<Node>)
    requires depth <= k
    ensures ParseFrom(Extended(pat, k), |pat| + 1 + k - depth, depth, items) ==
        Parsed(Join(items), |pat| + 2 + k - depth)
  {}

  /** If the pattern is overrun, the extended pattern parses when all open groups are closed. */
  lemma {:induction false} OverrunExtends(pat: Text, p: nat, depth: nat, items: seq<Node>) returns (k: nat)
    requires Odd(pat) && Aligned(pat, p) && ParseFrom(pat, p, depth, items).Overrun?
    ensures depth <= k <= depth + |pat| - p
    ensures var r := ParseFrom(Extended(pat, k), p, depth, items); r.Parsed? && r.next == |pat| + 2 + k - depth
    decreases |pat| - p, 1
  {
    hide AtomAt, OrdinaryStep;
    var ch := At(pat, p);
    if StartsAtom(ch) {
      EscapeFits(pat, p);
      if p < |pat| - 1 {
        AlignedAtom(pat, p);
        k := OverrunExtends(pat, AtomAt(pat, p).next, depth, items + [AtomAt(pat, p).node]);
        SameAtom(pat, k, p);
      } else {
        k := depth;
        LastEscape(pat, k, p);
        Closing(pat, k, depth, items + [Character(LETTER)]);
      }
    } else if ch == BAR {
      k := OverrunExtends(pat, p + 1, depth, []);
    } else if ch == LPAREN {
      k := OverrunGroup(pat, p, depth, items);
    } else {
      var (items', p') := OrdinaryStep(pat, p, items);
      AlignedStep(pat, p, items);
      k := OverrunExtends(pat, p', depth, items');
      SameStep(pat, k, p, items);
    }
  }

  lemma OverrunGroup(pat: Text, p: nat, depth: nat, items: seq<Node>) returns (k: nat)
    requires Odd(pat) && Aligned(pat, p) && ParseFrom(pat, p, depth, items).Overrun? && At(pat, p) == LPAREN
    ensures depth <= k <= depth + |pat| - p
    ensures var r := ParseFrom(Extended(pat, k), p, depth, items); r.Parsed? && r.next == |pat| + 2 + k - depth
    decreases |pat| - p, 0
  {
    hide ParseFrom;
    GroupUnfolds(pat, p, depth, items);
    var inner := ParseFrom(pat, p + 1, depth + 1, []);
    if inner.Overrun? {
      k := OverrunExtends(pat, p + 1, depth + 1, []);
      Closing(pat, k, depth, items + [Capture(ParseFrom(Extended(pat, k), p + 1, depth + 1, []).tree)]);
    } else {
      OddStays(pat, 0, p + 1, depth + 1, []);
      k := OverrunExtends(pat, inner.next, depth, items + [Capture(inner.tree)]);
      OddStays(pat, k, p + 1, depth + 1, []);
    }
    GroupUnfolds(Extended(pat, k), p, depth, items);
  }

  lemma GroupUnfolds(pat: Text, p: nat, depth: nat, items: seq<Node>)
    requires p < |pat| && pat[p] == LPAREN
    ensures var inner := ParseFrom(pat, p + 1, depth + 1, []);
            ParseFrom(pat, p, depth, items) ==
            if inner.Parsed? then ParseFrom(pat, inner.next, depth, items + [Capture(inner.tree)]) else inner
  {}

  lemma LastEscape(pat: Text, k: nat, p: nat)
    requires pat != [] && pat[|pat| - 1] == BACKSLASH && p == |pat| - 1
    ensures AtomAt(Extended(pat, k), p) == Atom(Character(LETTER), |pat| + 1)
  {}

  /** The parser steps past the terminator exactly when the pattern ends in an odd number of backslashes and would
      parse if the last one had a letter to escape and all open groups were closed. */
  lemma OverrunExactly(pat: Text)
    ensures ParsePattern(pat).Overrun? <==>
            TrailingBackslashes(pat) % 2 == 1 &&
            exists k: nat | k <= |pat| :: ParsePattern(Extended(pat, k)).Parsed?
  {
    hide ParseFrom;
    if !Odd(pat) {
      EvenStays(pat, 0, 0, []);
    } else {
      if ParsePattern(pat).Overrun? {
        var k := OverrunExtends(pat, 0, 0, []);
        assert ParsePattern(Extended(pat, k)).Parsed?;
      }
      if k: nat :| ParsePattern(Extended(pat, k)).Parsed? {
        OddStays(pat, k, 0, 0, []);
      }
    }
  }

  /** It happens: a lone backslash is such a pattern, two are not, and neither is one in an open class. */
  lemma Overruns()
    ensures ParsePattern([BACKSLASH]).Overrun?
    ensures ParsePattern([BACKSLASH, BACKSLASH]) == Parsed(Character(BACKSLASH), 3)
    ensures ParsePattern([LBRACKET, BACKSLASH]).Rejected?
  {
    var two: Text := [BACKSLASH, BACKSLASH];
    assert ParseFrom(two, 2, 0, [Character(BACKSLASH)]) == Parsed(Character(BACKSLASH), 3);
    assert AtomAt(two, 0) == Atom(Character(BACKSLASH), 2);
    assert [] + [Character(BACKSLASH)] == [Character(BACKSLASH)];
    var open: Text := [LBRACKET, BACKSLASH];
    assert ScanItem(open, 1) == BadItem;
  }
}
