/** Printing trees as patterns, and the proof that the parser reads them back. */
module RegexPrint {
  import opened CharClass
  import opened RegexTree
  import opened RegexParse

  /** What the parser pushes as one item. A quantifier applies to an item; a class text does not start with the
      character that would negate it; no character is the terminator. */
  predicate IsItem(n: Node)
    decreases n, 0
  {
    match n
    case Character(ch) => ch != 0
    case AnyCharacter => true
    case CharacterClass(text) => ValidClassText(text) && At(text, 0) != CARET
    case CharacterClassNegated(text) => ValidClassText(text)
    case AnchorBegin => true
    case AnchorEnd => true
    case Quantifier(nmin, nmax, _, q) => (nmax == -1 || nmin <= nmax) && IsItem(q)
    case Capture(c) => IsPattern(c)
    case _ => false
  }

  /** A non-empty sequence of items, concatenated to the right. */
  predicate IsSequence(n: Node)
    decreases n, 1
  {
    if n.Concatenation? then IsItem(n.left) && IsSequence(n.right) else IsItem(n)
  }

  /** Alternatives to the right. An empty one makes the others optional: this is the only way in which something other
      than an item is quantified. */
  predicate IsPattern(n: Node)
    decreases n, 2
  {
    n == Epsilon || (if n.Alternation? then IsSequence(n.left) && n.right != Epsilon && IsPattern(n.right)
                     else IsSequence(n) || (IsOptional(n) && n.quantified != Epsilon && IsPattern(n.quantified)))
  }

  predicate IsOptional(n: Node) {
    n.Quantifier? && n.nmin == 0 && n.nmax == 1 && n.greedy
  }

  function Decimal(n: nat): (d: Text)
    ensures d != [] && forall k :: 0 <= k < |d| ==> IsDigit(d[k])
  {
    if n < 10 then [48 + n] else Decimal(n / 10) + [48 + n % 10]
  }

  function Bound(nmax: int): Text {
    if nmax < 0 then [] else Decimal(nmax)
  }

  /** The interval after its '{', without the marker for laziness. */
  function PrintInterval(nmin: nat, nmax: int): Text {
    Decimal(nmin) + [COMMA] + Bound(nmax) + [RBRACE]
  }

  function LazyMark(greedy: bool): Text {
    if greedy then [] else [QUESTION]
  }

  function Print(n: Node): seq<Char> {
    match n
    case Epsilon => []
    case Character(ch) => [BACKSLASH, ch]
    case AnyCharacter => [DOT]
    case CharacterClass(text) => [LBRACKET] + text + [CLOSE]
    case CharacterClassNegated(text) => [LBRACKET, CARET] + text + [CLOSE]
    case Concatenation(l, r) => Print(l) + Print(r)
    case Alternation(l, r) => Print(l) + [BAR] + Print(r)
    case Quantifier(nmin, nmax, greedy, q) =>
      if IsItem(q) then Print(q) + [LBRACE] + PrintInterval(nmin, nmax) + LazyMark(greedy) else [BAR] + Print(q)
    case AnchorBegin => [CARET]
    case AnchorEnd => [DOLLAR]
    case Capture(c) => [LPAREN] + Print(c) + [RPAREN]
  }

  /** The word stands in the pattern at index p. */
  predicate Reads(pat: Text, p: nat, word: seq<Char>) {
    p + |word| <= |pat| && pat[p..p + |word|] == word
  }

  lemma ReadsAppend(pat: Text, p: nat, a: seq<Char>, b: seq<Char>)
    requires Reads(pat, p, a + b)
    ensures Reads(pat, p, a) && Reads(pat, p + |a|, b)
  {
    var all := pat[p..p + |a + b|];
    assert all[..|a|] == a && all[|a|..] == b;
    assert pat[p..p + |a|] == all[..|a|];
  }

  lemma ReadsFits(pat: Text, p: nat, word: seq<Char>)
    requires Reads(pat, p, word)
    ensures p + |word| <= |pat|
  {}

  lemma NothingJoined()
    ensures Join([]) == Epsilon
  {}

  lemma ReadsOne(pat: Text, p: nat, ch: Char)
    requires Reads(pat, p, [ch])
    ensures p < |pat| && pat[p] == ch
  {
    assert pat[p..p + 1][0] == ch;
  }

  lemma {:induction false} ScanDecimal(pat: Text, p: nat, n: nat)
    requires Reads(pat, p, Decimal(n))
    ensures ScanNumber(pat, p, 0) == ScanNumber(pat, p + |Decimal(n)|, n)
  {
    if n < 10 {
      ReadsOne(pat, p, 48 + n);
    } else {
      ReadsAppend(pat, p, Decimal(n / 10), [48 + n % 10]);
      ReadsOne(pat, p + |Decimal(n / 10)|, 48 + n % 10);
      ScanDecimal(pat, p, n / 10);
    }
  }

  lemma NumberReads(pat: Text, p: nat, n: nat)
    requires Reads(pat, p, Decimal(n)) && !IsDigit(At(pat, p + |Decimal(n)|))
    ensures ScanNumber(pat, p, 0) == Number(n, p + |Decimal(n)|) && p < |pat| && IsDigit(pat[p])
  {
    hide Decimal;
    ScanDecimal(pat, p, n);
    assert pat[p] == pat[p..p + |Decimal(n)|][0];
  }

  lemma ScanPrintedInterval(pat: Text, p: nat, nmin: nat, nmax: int)
    requires (nmax == -1 || nmin <= nmax) && Reads(pat, p, PrintInterval(nmin, nmax))
    ensures ScanInterval(pat, p) == Interval(nmin, nmax, p + |PrintInterval(nmin, nmax)|)
  {
    var low, high := Decimal(nmin), Bound(nmax);
    ReadsAppend(pat, p, low + [COMMA] + high, [RBRACE]);
    ReadsAppend(pat, p, low + [COMMA], high);
    ReadsAppend(pat, p, low, [COMMA]);
    ReadsOne(pat, p + |low|, COMMA);
    ReadsOne(pat, p + |low| + 1 + |high|, RBRACE);
    hide Decimal, Reads, ScanNumber;
    NumberReads(pat, p, nmin);
    if nmax != -1 {
      NumberReads(pat, p + |low| + 1, nmax);
    }
  }

  lemma PrintedItem(pat: Text, from: nat, text: Text, p: nat)
    requires Reads(pat, from, text + [CLOSE]) && p < |text| + 1
    requires ScanItem(text + [CLOSE], p).Item? && ScanItem(text + [CLOSE], p).next <= |text|
    ensures var item := ScanItem(text + [CLOSE], p);
            ScanItem(pat, from + p) == Item(item.range, from + item.next)
  {
    var buf: Text := text + [CLOSE];
    assert forall k | 0 <= k <= |text| :: buf[k] == pat[from..from + |buf|][k];
    assert forall k | from <= k <= from + |text| :: pat[k] == buf[k - from];
  }

  lemma {:induction false} ScanPrintedClass(pat: Text, from: nat, text: Text, p: nat)
    requires Reads(pat, from, text + [CLOSE]) && p <= |text|
    requires ScanFrom(text + [CLOSE], 0, p).Closed? && ScanFrom(text + [CLOSE], 0, p).close == |text|
    ensures ScanFrom(pat, from, from + p).Closed? && ScanFrom(pat, from, from + p).close == from + |text|
    decreases |text| - p
  {
    hide ScanItem, ScanFrom;
    var buf: Text := text + [CLOSE];
    assert pat[from + p] == pat[from..from + |buf|][p] == buf[p];
    ScanFromStep(buf, 0, p);
    ScanFromStep(pat, from, from + p);
    if !(buf[p] == CLOSE && p != 0) {
      PrintedItem(pat, from, text, p);
      ScanPrintedClass(pat, from, text, ScanItem(buf, p).next);
    }
  }

  lemma ScanFromStep(buf: Text, from: nat, p: nat)
    ensures var item := ScanItem(buf, p);
            ScanFrom(buf, from, p) ==
            if At(buf, p) == CLOSE && p != from then Closed([], p)
            else if item.BadItem? then Malformed
            else Prepend(item.range, ScanFrom(buf, from, item.next))
  {
    hide ScanItem;
  }

  /** The items of a sequence. */
  function Items(n: Node): seq<Node> {
    if n.Concatenation? then [n.left] + Items(n.right) else [n]
  }

  lemma {:induction false} JoinItems(n: Node)
    requires IsSequence(n)
    ensures Join(Items(n)) == n && Items(n) != []
  {
    if n.Concatenation? {
      JoinItems(n.right);
      assert Items(n)[1..] == Items(n.right);
    }
  }

  /** A quantifier around something other than an item makes a pattern optional. */
  lemma OptionalPattern(n: Node)
    requires IsPattern(n) && n.Quantifier? && !IsItem(n.quantified)
    ensures IsOptional(n) && n.quantified != Epsilon && IsPattern(n.quantified)
  {
    assert !IsItem(n);
  }

  lemma ItemIsSequence(n: Node)
    requires IsItem(n)
    ensures IsSequence(n)
  {}

  lemma SequenceIsPattern(n: Node)
    requires IsSequence(n)
    ensures IsPattern(n) && n != Epsilon
  {}

  // ---- Reading back. ----

  /** An item is read as one more item, provided what follows could not be taken for a laziness mark. */
  lemma {:induction false} ReadItem(pat: Text, p: nat, n: Node, depth: nat, items: seq<Node>)
    requires IsItem(n) && Reads(pat, p, Print(n)) && At(pat, p + |Print(n)|) != QUESTION
    ensures ParseFrom(pat, p, depth, items) == ParseFrom(pat, p + |Print(n)|, depth, items + [n])
    decreases n, 0
  {
    hide Reads, ParseFrom, AtomAt, ScanFrom, ValidClassText, ScanInterval;
    var end := p + |Print(n)|;
    match n
    case Capture(c) =>
      ReadsAppend(pat, p, [LPAREN] + Print(c), [RPAREN]);
      ReadsAppend(pat, p, [LPAREN], Print(c));
      ReadsOne(pat, p, LPAREN);
      ReadsOne(pat, end - 1, RPAREN);
      ReadPattern(pat, p + 1, c, depth + 1);
      GroupStep(pat, p, depth, items);
    case Quantifier(nmin, nmax, greedy, q) =>
      ReadQuantifier(pat, p, nmin, nmax, greedy, q, depth, items);
    case _ =>
      ReadAtom(pat, p, n);
      AtomStep(pat, p, depth, items);
  }

  lemma GroupStep(pat: Text, p: nat, depth: nat, items: seq<Node>)
    requires p < |pat| && pat[p] == LPAREN
    ensures var inner := ParseFrom(pat, p + 1, depth + 1, []);
            inner.Parsed? ==>
              ParseFrom(pat, p, depth, items) == ParseFrom(pat, inner.next, depth, items + [Capture(inner.tree)])
  {}

  lemma AtomStep(pat: Text, p: nat, depth: nat, items: seq<Node>)
    requires p < |pat| && StartsAtom(pat[p]) && AtomAt(pat, p).Atom?
    ensures ParseFrom(pat, p, depth, items) ==
            ParseFrom(pat, AtomAt(pat, p).next, depth, items + [AtomAt(pat, p).node])
  {
    hide AtomAt;
  }

  /** A one-character item other than a group. */
  lemma ReadAtom(pat: Text, p: nat, n: Node)
    requires IsItem(n) && !n.Capture? && !n.Quantifier? && Reads(pat, p, Print(n))
    ensures p < |pat| && StartsAtom(pat[p]) && AtomAt(pat, p) == Atom(n, p + |Print(n)|)
  {
    hide ScanFrom, ValidClassText, Reads;
    match n
    case Character(ch) =>
      assert [BACKSLASH] + [ch] == Print(n);
      ReadsAppend(pat, p, [BACKSLASH], [ch]);
      ReadsOne(pat, p, BACKSLASH);
      ReadsOne(pat, p + 1, ch);
    case CharacterClass(text) => ReadClassAtom(pat, p, n, text, []);
    case CharacterClassNegated(text) => ReadClassAtom(pat, p, n, text, [CARET]);
    case AnyCharacter => ReadsOne(pat, p, DOT);
    case AnchorBegin => ReadsOne(pat, p, CARET);
    case AnchorEnd => ReadsOne(pat, p, DOLLAR);
  }

  lemma ReadClassAtom(pat: Text, p: nat, n: Node, text: Text, mark: seq<Char>)
    requires IsItem(n) && Reads(pat, p, Print(n))
    requires (n == CharacterClass(text) && mark == []) || (n == CharacterClassNegated(text) && mark == [CARET])
    ensures p < |pat| && StartsAtom(pat[p]) && AtomAt(pat, p) == Atom(n, p + |Print(n)|)
  {
    hide ScanFrom, ValidClassText, Reads;
    assert [LBRACKET] + (mark + (text + [CLOSE])) == Print(n);
    ReadsAppend(pat, p, [LBRACKET], mark + (text + [CLOSE]));
    ReadsAppend(pat, p + 1, mark, text + [CLOSE]);
    ReadsOne(pat, p, LBRACKET);
    if mark != [] { ReadsOne(pat, p + 1, CARET); }
    ReadClassText(pat, p + 1 + |mark|, text);
  }

  lemma ReadClassText(pat: Text, from: nat, text: Text)
    requires ValidClassText(text) && Reads(pat, from, text + [CLOSE])
    ensures var r := ScanFrom(pat, from, from);
            && r.Closed? && r.close == from + |text| && pat[from..r.close] == text
            && At(pat, from) == At(text + [CLOSE], 0)
  {
    ScanPrintedClass(pat, from, text, 0);
    var buf: Text := text + [CLOSE];
    assert pat[from..from + |text|] == pat[from..from + |buf|][..|text|];
    assert pat[from] == pat[from..from + |buf|][0];
  }

  lemma {:induction false} ReadQuantifier(pat: Text, p: nat, nmin: nat, nmax: int, greedy: bool, q: Node,
                                          depth: nat, items: seq<Node>)
    requires var n := Quantifier(nmin, nmax, greedy, q);
             IsItem(n) && Reads(pat, p, Print(n)) && At(pat, p + |Print(n)|) != QUESTION
    ensures var n := Quantifier(nmin, nmax, greedy, q);
            ParseFrom(pat, p, depth, items) == ParseFrom(pat, p + |Print(n)|, depth, items + [n])
    decreases q, 3
  {
    hide Reads, ParseFrom, ScanInterval, PrintInterval, LazyMark;
    MarkCases(greedy);
    var body, range, mark := Print(q), PrintInterval(nmin, nmax), LazyMark(greedy);
    ReadsAppend(pat, p, body + [LBRACE] + range, mark);
    ReadsAppend(pat, p, body + [LBRACE], range);
    ReadsAppend(pat, p, body, [LBRACE]);
    var brace := p + |body|;
    ReadsOne(pat, brace, LBRACE);
    ReadItem(pat, p, q, depth, items);
    ScanPrintedInterval(pat, brace + 1, nmin, nmax);
    if !greedy { ReadsOne(pat, brace + 1 + |range|, QUESTION); }
    IntervalStep(pat, brace, depth, items, q);
  }

  lemma MarkCases(greedy: bool)
    ensures LazyMark(greedy) == if greedy then [] else [QUESTION]
  {}

  lemma IntervalStep(pat: Text, p: nat, depth: nat, items: seq<Node>, q: Node)
    requires p < |pat| && pat[p] == LBRACE && ScanInterval(pat, p + 1).Interval?
    ensures var r := ScanInterval(pat, p + 1);
            var greedy := At(pat, r.next) != QUESTION;
            ParseFrom(pat, p, depth, items + [q]) ==
            ParseFrom(pat, if greedy then r.next else r.next + 1, depth,
              items + [Quantifier(r.nmin, r.nmax, greedy, q)])
  {
    hide ScanInterval;
    assert (items + [q])[..|items|] == items;
  }

  /** A sequence is read as its items. */
  lemma {:induction false} ReadSequence(pat: Text, p: nat, n: Node, depth: nat, items: seq<Node>)
    requires IsSequence(n) && Reads(pat, p, Print(n)) && At(pat, p + |Print(n)|) != QUESTION
    ensures ParseFrom(pat, p, depth, items) == ParseFrom(pat, p + |Print(n)|, depth, items + Items(n))
    decreases n, 1
  {
    hide Reads, ParseFrom;
    if n.Concatenation? {
      ReadsAppend(pat, p, Print(n.left), Print(n.right));
      FirstOfSequence(n.right, pat, p + |Print(n.left)|);
      ReadItem(pat, p, n.left, depth, items);
      ReadSequence(pat, p + |Print(n.left)|, n.right, depth, items + [n.left]);
      assert items + Items(n) == items + [n.left] + Items(n.right);
    } else {
      ReadItem(pat, p, n, depth, items);
    }
  }

  /** What a sequence starts with is never mistaken for a laziness mark. */
  lemma {:induction false} FirstOfSequence(n: Node, pat: Text, p: nat)
    requires IsSequence(n) && Reads(pat, p, Print(n))
    ensures p < |pat| && pat[p] != QUESTION
    decreases n
  {
    hide Reads, PrintInterval, ValidClassText;
    if n.Concatenation? {
      ReadsAppend(pat, p, Print(n.left), Print(n.right));
      ItemIsSequence(n.left);
      FirstOfSequence(n.left, pat, p);
    } else if n.Quantifier? {
      var rest := [LBRACE] + PrintInterval(n.nmin, n.nmax) + LazyMark(n.greedy);
      assert Print(n) == Print(n.quantified) + rest;
      ReadsAppend(pat, p, Print(n.quantified), rest);
      ItemIsSequence(n.quantified);
      FirstOfSequence(n.quantified, pat, p);
    } else {
      assert Print(n) == [Print(n)[0]] + Print(n)[1..];
      ReadsAppend(pat, p, [Print(n)[0]], Print(n)[1..]);
      ReadsOne(pat, p, Print(n)[0]);
    }
  }

  /** A pattern up to the end of its group, or to the end of the text, is read as itself. */
  lemma {:induction false} ReadPattern(pat: Text, p: nat, n: Node, depth: nat)
    requires IsPattern(n) && Reads(pat, p, Print(n))
    requires At(pat, p + |Print(n)|) == (if depth > 0 then RPAREN else 0)
    ensures ParseFrom(pat, p, depth, []) == Parsed(n, p + |Print(n)| + 1)
    decreases n, 2
  {
    hide ParseFrom, Reads, Items, Join, IsPattern, IsSequence, IsItem, Print;
    ReadsFits(pat, p, Print(n));
    PatternCases(n);
    if n == Epsilon {
      NothingJoined();
      EndStep(pat, p, depth, []);
    } else if n.Alternation? {
      ReadsAppend(pat, p, Print(n.left) + [BAR], Print(n.right));
      ReadsAppend(pat, p, Print(n.left), [BAR]);
      ReadsOne(pat, p + |Print(n.left)|, BAR);
      ReadAlternation(pat, p, n.left, n.right, depth);
    } else if n.Quantifier? && !IsItem(n.quantified) {
      ReadsAppend(pat, p, [BAR], Print(n.quantified));
      ReadsOne(pat, p, BAR);
      ReadOptional(pat, p, n.quantified, depth);
    } else {
      ReadSequence(pat, p, n, depth, []);
      assert [] + Items(n) == Items(n);
      JoinItems(n);
      EndStep(pat, p + |Print(n)|, depth, Items(n));
    }
  }

  lemma PatternCases(n: Node)
    requires IsPattern(n)
    ensures n == Epsilon ==> Print(n) == []
    ensures n.Alternation? ==>
              IsSequence(n.left) && n.right != Epsilon && IsPattern(n.right)
              && Print(n) == Print(n.left) + [BAR] + Print(n.right)
    ensures n.Quantifier? && !IsItem(n.quantified) ==>
              n == Quantifier(0, 1, true, n.quantified) && n.quantified != Epsilon && IsPattern(n.quantified)
              && Print(n) == [BAR] + Print(n.quantified)
    ensures n == Epsilon || n.Alternation? || (n.Quantifier? && !IsItem(n.quantified)) || IsSequence(n)
  {
    if n.Quantifier? && !IsItem(n.quantified) { OptionalPattern(n); }
  }

  lemma EndStep(pat: Text, p: nat, depth: nat, items: seq<Node>)
    requires p <= |pat| && At(pat, p) == (if depth > 0 then RPAREN else 0)
    ensures ParseFrom(pat, p, depth, items) == Parsed(Join(items), p + 1)
  {}

  lemma {:induction false} ReadOptional(pat: Text, p: nat, q: Node, depth: nat)
    requires IsPattern(q) && q != Epsilon && p < |pat| && pat[p] == BAR && Reads(pat, p + 1, Print(q))
    requires At(pat, p + 1 + |Print(q)|) == (if depth > 0 then RPAREN else 0)
    ensures ParseFrom(pat, p, depth, []) == Parsed(Quantifier(0, 1, true, q), p + |Print(q)| + 2)
    decreases q, 3
  {
    hide Reads, ParseFrom, Print, IsPattern;
    ReadPattern(pat, p + 1, q, depth);
    NothingJoined();
    BarStep(pat, p, depth, []);
  }

  lemma {:induction false} ReadAlternation(pat: Text, p: nat, left: Node, right: Node, depth: nat)
    requires IsSequence(left) && IsPattern(right) && right != Epsilon
    requires Reads(pat, p, Print(left)) && Reads(pat, p + |Print(left)| + 1, Print(right))
    requires pat[p + |Print(left)|] == BAR
    requires At(pat, p + |Print(left)| + 1 + |Print(right)|) == (if depth > 0 then RPAREN else 0)
    ensures ParseFrom(pat, p, depth, []) == Parsed(Alternation(left, right), p + |Print(left)| + |Print(right)| + 2)
    decreases Alternation(left, right), 0
  {
    hide Reads, ParseFrom, Print, IsSequence, IsPattern;
    var bar := p + |Print(left)|;
    ReadSequence(pat, p, left, depth, []);
    assert [] + Items(left) == Items(left);
    JoinItems(left);
    SequenceIsPattern(left);
    ReadPattern(pat, bar + 1, right, depth);
    BarStep(pat, bar, depth, Items(left));
  }

  lemma BarStep(pat: Text, p: nat, depth: nat, items: seq<Node>)
    requires p < |pat| && pat[p] == BAR
    ensures var right := ParseFrom(pat, p + 1, depth, []);
            ParseFrom(pat, p, depth, items) ==
            if right.Parsed? then Parsed(Either(Join(items), right.tree), right.next) else right
  {}

  predicate NulFree(s: seq<Char>) {
    forall k :: 0 <= k < |s| ==> s[k] != 0
  }

  /** Printed patterns contain no terminator. */
  lemma {:induction false} PatternText(n: Node)
    requires IsPattern(n)
    ensures NulFree(Print(n))
    decreases n, 2
  {
    if n.Alternation? {
      SequenceText(n.left);
      PatternText(n.right);
    } else if n.Quantifier? && !IsItem(n.quantified) {
      OptionalPattern(n);
      PatternText(n.quantified);
    } else if n != Epsilon {
      SequenceText(n);
    }
  }

  lemma {:induction false} SequenceText(n: Node)
    requires IsSequence(n)
    ensures NulFree(Print(n))
    decreases n, 1
  {
    if n.Concatenation? {
      ItemText(n.left);
      SequenceText(n.right);
    } else {
      ItemText(n);
    }
  }

  lemma {:induction false} ItemText(n: Node)
    requires IsItem(n)
    ensures NulFree(Print(n))
    decreases n, 0
  {
    if n.Quantifier? {
      ItemText(n.quantified);
    } else if n.Capture? {
      PatternText(n.captured);
    }
  }

  /** Parsing a printed pattern gives the pattern back. */
  lemma RoundTrip(n: Node)
    requires IsPattern(n)
    ensures NulFree(Print(n)) && ParsePattern(Print(n)) == Parsed(n, |Print(n)| + 1)
  {
    PatternText(n);
    var pat: Text := Print(n);
    assert pat[0..0 + |pat|] == pat;
    ReadPattern(pat, 0, n, 0);
  }

  // ---- The parser builds nothing else. ----

  ghost predicate AllItems(items: seq<Node>) {
    forall n | n in items :: IsItem(n)
  }

  lemma {:induction false} JoinIsPattern(items: seq<Node>)
    requires AllItems(items)
    ensures IsPattern(Join(items)) && (items != [] ==> IsSequence(Join(items)))
  {
    if items != [] {
      assert items[0] in items;
      ItemIsSequence(items[0]);
      if |items| > 1 {
        JoinIsPattern(items[1..]);
        assert IsSequence(Join(items));
      }
      SequenceIsPattern(Join(items));
    }
  }

  lemma EitherIsPattern(items: seq<Node>, right: Node)
    requires AllItems(items) && IsPattern(right)
    ensures IsPattern(Either(Join(items), right))
  {
    JoinIsPattern(items);
  }

  lemma AtomIsItem(pat: Text, p: nat)
    requires p < |pat| && StartsAtom(pat[p]) && AtomAt(pat, p).Atom?
    ensures IsItem(AtomAt(pat, p).node)
  {
    if pat[p] == LBRACKET {
      var from := if At(pat, p + 1) == CARET then p + 2 else p + 1;
      RescanText(pat, from, from);
    }
  }

  lemma StepIsItems(pat: Text, p: nat, items: seq<Node>)
    requires p < |pat| && AllItems(items)
    ensures AllItems(OrdinaryStep(pat, p, items).0)
  {
    hide ScanInterval;
    if items != [] {
      var last := |items| - 1;
      assert items[last] in items;
      assert forall n | n in items[..last] :: n in items;
      assert forall nmin: nat, nmax, greedy |
          nmax == -1 || nmin <= nmax :: IsItem(Quantifier(nmin, nmax, greedy, items[last]));
    }
  }

  /** Every tree the parser builds is a pattern of this kind. */
  lemma {:induction false} ParsedIsPattern(pat: Text, p: nat, depth: nat, items: seq<Node>)
    requires p <= |pat| && AllItems(items) && ParseFrom(pat, p, depth, items).Parsed?
    ensures IsPattern(ParseFrom(pat, p, depth, items).tree)
    decreases |pat| - p
  {
    hide AtomAt, OrdinaryStep, IsItem, IsPattern, Join, Either;
    var ch := At(pat, p);
    if ch == 0 || ch == RPAREN {
      JoinIsPattern(items);
    } else if StartsAtom(ch) {
      AtomIsItem(pat, p);
      ParsedIsPattern(pat, AtomAt(pat, p).next, depth, items + [AtomAt(pat, p).node]);
    } else if ch == BAR {
      ParsedIsPattern(pat, p + 1, depth, []);
      EitherIsPattern(items, ParseFrom(pat, p + 1, depth, []).tree);
    } else if ch == LPAREN {
      var inner := ParseFrom(pat, p + 1, depth + 1, []);
      ParsedIsPattern(pat, p + 1, depth + 1, []);
      CaptureIsItem(inner.tree);
      ParsedIsPattern(pat, inner.next, depth, items + [Capture(inner.tree)]);
    } else {
      var (items', p') := OrdinaryStep(pat, p, items);
      StepIsItems(pat, p, items);
      ParsedIsPattern(pat, p', depth, items');
    }
  }

  lemma CaptureIsItem(n: Node)
    requires IsPattern(n)
    ensures IsItem(Capture(n))
  {}

  /** The trees that can be printed are exactly those that some text parses to. */
  lemma PatternsAreParsed(n: Node)
    ensures IsPattern(n) <==> exists pat: Text :: ParsePattern(pat).Parsed? && ParsePattern(pat).tree == n
  {
    hide ParseFrom, Print, IsPattern;
    if IsPattern(n) {
      RoundTrip(n);
      var pat: Text := Print(n);
      assert ParsePattern(pat).Parsed?;
    }
    if pat: Text :| ParsePattern(pat).Parsed? && ParsePattern(pat).tree == n {
      ParsedIsPattern(pat, 0, 0, []);
    }
  }
}
