/** The pattern parser (cregex_parse.c): a recursive-descent parser on values as the specification, and the
    shunting-yard parser over a two-ended node buffer that builds the same trees. */
module RegexParse {
  import opened CharClass
  import opened RegexTree

  const BAR: Char := 124
  const LPAREN: Char := 40
  const RPAREN: Char := 41
  const STAR: Char := 42
  const PLUS: Char := 43
  const QUESTION: Char := 63
  const LBRACE: Char := 123
  const RBRACE: Char := 125
  const CARET: Char := 94
  const DOLLAR: Char := 36
  const DOT: Char := 46
  const COMMA: Char := 44
  const LBRACKET: Char := 91

  /** A parse ends in a tree and the index after it, is rejected, or reads past the terminator because the
      pattern ends in a backslash. */
  datatype Parse = Rejected | Overrun | Parsed(tree: Node, next: nat)

  /** Concatenation of the items of a sequence, to the right. */
  function Join(items: seq<Node>): Node {
    if items == [] then Epsilon
    else if |items| == 1 then items[0]
    else Concatenation(items[0], Join(items[1..]))
  }

  /** An alternative that is empty makes the other one optional. */
  function Either(left: Node, right: Node): Node {
    if left == Epsilon && right == Epsilon then Epsilon
    else if left == Epsilon then Quantifier(0, 1, true, right)
    else if right == Epsilon then Quantifier(0, 1, true, left)
    else Alternation(left, right)
  }

  predicate IsDigit(ch: Char) {
    48 <= ch <= 57
  }

  datatype Number = Number(value: nat, next: nat)

  /** The digits from p on, continuing a number whose value so far is acc. */
  function ScanNumber(pat: Text, p: nat, acc: nat): (r: Number)
    requires p <= |pat|
    ensures p <= r.next <= |pat|
    decreases |pat| - p
  {
    if IsDigit(At(pat, p)) then ScanNumber(pat, p + 1, acc * 10 + (pat[p] - 48)) else Number(acc, p)
  }

  datatype Interval = NoInterval | Interval(nmin: nat, nmax: int, next: nat)

  /** The text after '{': "m}", "m,}" or ",n}" and "m,n}" with m <= n. */
  function ScanInterval(pat: Text, p: nat): (r: Interval)
    requires p <= |pat|
    ensures r.Interval? ==> p < r.next <= |pat| && (r.nmax == -1 || r.nmin <= r.nmax)
  {
    var low := ScanNumber(pat, p, 0);
    if At(pat, low.next) == COMMA then
      if low.next != p && At(pat, low.next + 1) == RBRACE then Interval(low.value, -1, low.next + 2)
      else
        var high := ScanNumber(pat, low.next + 1, 0);
        if high.next == low.next + 1 || At(pat, high.next) != RBRACE || high.value < low.value then NoInterval
        else Interval(low.value, high.value, high.next + 1)
    else if low.next != p && At(pat, low.next) == RBRACE then Interval(low.value, low.value, low.next + 1)
    else NoInterval
  }

  /** A quantifier read up to p, applied to the last item; a following '?' makes it lazy. */
  function Quantified(pat: Text, p: nat, nmin: nat, nmax: int, items: seq<Node>): (r: (seq<Node>, nat))
    requires items != [] && p <= |pat|
    ensures p <= r.1 <= |pat| && |r.0| == |items|
  {
    var greedy := At(pat, p) != QUESTION;
    var last := |items| - 1;
    (items[..last] + [Quantifier(nmin, nmax, greedy, items[last])], if greedy then p else p + 1)
  }

  /** What the parser does with a character that is not special: the new items and position. */
  function OrdinaryStep(pat: Text, p: nat, items: seq<Node>): (r: (seq<Node>, nat))
    requires p < |pat|
    ensures p < r.1 <= |pat|
  {
    var ch := pat[p];
    if items == [] then (items + [Character(ch)], p + 1)
    else if ch == QUESTION then Quantified(pat, p + 1, 0, 1, items)
    else if ch == STAR then Quantified(pat, p + 1, 0, -1, items)
    else if ch == PLUS then Quantified(pat, p + 1, 1, -1, items)
    else if ch == LBRACE && ScanInterval(pat, p + 1).Interval? then
      var r := ScanInterval(pat, p + 1);
      Quantified(pat, r.next, r.nmin, r.nmax, items)
    else (items + [Character(ch)], p + 1)
  }

  /** A single-character item that starts with a special character: escape, '.', anchor or class. */
  datatype Atom = BadAtom | EscapedEnd | Atom(node: Node, next: nat)

  function AtomAt(pat: Text, p: nat): (r: Atom)
    requires p < |pat|
    ensures r.Atom? ==> p < r.next <= |pat|
  {
    var ch := pat[p];
    if ch == BACKSLASH then
      if p + 1 == |pat| then EscapedEnd else Atom(Character(pat[p + 1]), p + 2)
    else if ch == DOT then Atom(AnyCharacter, p + 1)
    else if ch == CARET then Atom(AnchorBegin, p + 1)
    else if ch == DOLLAR then Atom(AnchorEnd, p + 1)
    else
      var from := if At(pat, p + 1) == CARET then p + 2 else p + 1;
      var r := ScanFrom(pat, from, from);
      if r.Malformed? then BadAtom
      else
        var text := pat[from..r.close];
        Atom(if from == p + 2 then CharacterClassNegated(text) else CharacterClass(text), r.close + 1)
  }

  predicate StartsAtom(ch: Char) {
    ch == BACKSLASH || ch == DOT || ch == CARET || ch == DOLLAR || ch == LBRACKET
  }

  /** Parses from p to the end of the enclosing group (depth > 0) or pattern, given the items read so far. */
  function ParseFrom(pat: Text, p: nat, depth: nat, items: seq<Node>): (r: Parse)
    requires p <= |pat|
    ensures r.Parsed? ==> p < r.next <= |pat| + 1 && (depth > 0 ==> r.next <= |pat|)
    decreases |pat| - p
  {
    var ch := At(pat, p);
    if ch == 0 then
      if depth == 0 then Parsed(Join(items), p + 1) else Rejected
    else if ch == RPAREN then
      if depth > 0 then Parsed(Join(items), p + 1) else Rejected
    else if StartsAtom(ch) then
      match AtomAt(pat, p)
      case BadAtom => Rejected
      case EscapedEnd => Overrun
      case Atom(item, next) => ParseFrom(pat, next, depth, items + [item])
    else if ch == BAR then
      var right := ParseFrom(pat, p + 1, depth, []);
      if right.Parsed? then Parsed(Either(Join(items), right.tree), right.next) else right
    else if ch == LPAREN then
      var inner := ParseFrom(pat, p + 1, depth + 1, []);
      if inner.Parsed? then ParseFrom(pat, inner.next, depth, items + [Capture(inner.tree)]) else inner
    else
      var (items', p') := OrdinaryStep(pat, p, items);
      ParseFrom(pat, p', depth, items')
  }

  function ParsePattern(pat: Text): Parse {
    ParseFrom(pat, 0, 0, [])
  }

  // ---- The node buffer. ----

  /** A node as stored in the buffer: children are indices, a class is a span of the pattern. */
  datatype Raw =
    | RawEpsilon
    | RawCharacter(ch: Char)
    | RawAnyCharacter
    | RawClass(negated: bool, from: nat, to: nat)
    | RawConcatenation(left: nat, right: nat)
    | RawAlternation(left: nat, right: nat)
    | RawQuantifier(nmin: nat, nmax: int, greedy: bool, quantified: nat)
    | RawAnchorBegin
    | RawAnchorEnd
    | RawCapture(captured: nat)

  /** The stored node represents tree t; its children lie at or above index lo, and every child has its own
      children above itself, so following them terminates. */
  ghost predicate Stores(pat: Text, nodes: seq<Raw>, lo: nat, raw: Raw, t: Node)
    decreases t, 0
  {
    match t
    case Epsilon => raw == RawEpsilon
    case Character(ch) => raw == RawCharacter(ch)
    case AnyCharacter => raw == RawAnyCharacter
    case CharacterClass(text) =>
      raw.RawClass? && !raw.negated && raw.from <= raw.to <= |pat| && text == pat[raw.from..raw.to]
    case CharacterClassNegated(text) =>
      raw.RawClass? && raw.negated && raw.from <= raw.to <= |pat| && text == pat[raw.from..raw.to]
    case Concatenation(l, r) =>
      raw.RawConcatenation? && StoredAt(pat, nodes, lo, raw.left, l) && StoredAt(pat, nodes, lo, raw.right, r)
    case Alternation(l, r) =>
      raw.RawAlternation? && StoredAt(pat, nodes, lo, raw.left, l) && StoredAt(pat, nodes, lo, raw.right, r)
    case Quantifier(nmin, nmax, greedy, q) =>
      && raw.RawQuantifier? && raw.nmin == nmin && raw.nmax == nmax && raw.greedy == greedy
      && StoredAt(pat, nodes, lo, raw.quantified, q)
    case AnchorBegin => raw == RawAnchorBegin
    case AnchorEnd => raw == RawAnchorEnd
    case Capture(c) => raw.RawCapture? && StoredAt(pat, nodes, lo, raw.captured, c)
  }

  ghost predicate StoredAt(pat: Text, nodes: seq<Raw>, lo: nat, x: nat, t: Node)
    decreases t, 1
  {
    lo <= x < |nodes| && Stores(pat, nodes, x + 1, nodes[x], t)
  }

  /** Only the part of the buffer from lo on matters, and a lower bound is weaker. */
  lemma {:induction false} StoresFrame(pat: Text, a: seq<Raw>, b: seq<Raw>, lo: nat, low: nat, raw: Raw, t: Node)
    requires Stores(pat, a, lo, raw, t) && low <= lo <= |a| == |b| && a[lo..] == b[lo..]
    ensures Stores(pat, b, low, raw, t)
    decreases t, 0
  {
    match t
    case Concatenation(l, r) =>
      StoredFrame(pat, a, b, lo, low, raw.left, l);
      StoredFrame(pat, a, b, lo, low, raw.right, r);
    case Alternation(l, r) =>
      StoredFrame(pat, a, b, lo, low, raw.left, l);
      StoredFrame(pat, a, b, lo, low, raw.right, r);
    case Quantifier(_, _, _, q) => StoredFrame(pat, a, b, lo, low, raw.quantified, q);
    case Capture(c) => StoredFrame(pat, a, b, lo, low, raw.captured, c);
    case _ =>
  }

  lemma {:induction false} StoredFrame(pat: Text, a: seq<Raw>, b: seq<Raw>, lo: nat, low: nat, x: nat, t: Node)
    requires StoredAt(pat, a, lo, x, t) && low <= lo <= |a| == |b| && a[lo..] == b[lo..]
    ensures StoredAt(pat, b, low, x, t)
    decreases t, 1
  {
    assert a[x] == a[lo..][x - lo] && b[x] == b[lo..][x - lo];
    assert a[x + 1..] == a[lo..][x + 1 - lo..] && b[x + 1..] == b[lo..][x + 1 - lo..];
    StoresFrame(pat, a, b, x + 1, x + 1, a[x], t);
  }

  /** The stack from `bottom` on represents these trees. */
  ghost predicate StackHolds(pat: Text, nodes: seq<Raw>, bottom: nat, output: nat, items: seq<Node>) {
    && bottom + |items| <= output <= |nodes|
    && forall k :: 0 <= k < |items| ==> Stores(pat, nodes, output, nodes[bottom + k], items[k])
  }

  lemma StackFrame(pat: Text, a: seq<Raw>, b: seq<Raw>, bottom: nat, out: nat, output: nat, items: seq<Node>)
    requires StackHolds(pat, a, bottom, out, items) && |a| == |b| && bottom + |items| <= output <= out
    requires a[out..] == b[out..] && a[bottom..bottom + |items|] == b[bottom..bottom + |items|]
    ensures StackHolds(pat, b, bottom, output, items)
  {
    forall k | 0 <= k < |items| ensures Stores(pat, b, output, b[bottom + k], items[k]) {
      assert a[bottom + k] == a[bottom..bottom + |items|][k] == b[bottom..bottom + |items|][k];
      StoresFrame(pat, a, b, out, output, a[bottom + k], items[k]);
    }
  }

  /** The cells still needed to join m items on the stack into one. */
  function Pending(m: nat): nat {
    if m == 0 then 1 else m - 1
  }

  datatype Outcome = Failed | OutOfBounds | Built

  lemma SamePrefix(s: seq<Raw>, t: seq<Raw>, hi: nat, k: nat)
    requires k <= hi <= |s| == |t| && s[..hi] == t[..hi]
    ensures s[..k] == t[..k]
  {
    assert s[..k] == s[..hi][..k];
    assert t[..k] == t[..hi][..k];
  }

  lemma SameSuffix(s: seq<Raw>, t: seq<Raw>, lo: nat, k: nat)
    requires lo <= k <= |s| == |t| && s[lo..] == t[lo..]
    ensures s[k..] == t[k..]
  {
    assert s[k..] == s[lo..][k - lo..];
    assert t[k..] == t[lo..][k - lo..];
  }

  /** The parser's position in the pattern and its two ends of the node buffer: the stack grows up from the
      bottom, the finished nodes grow down from the top. */
  class ParseContext {
    const pattern: Text
    const nodes: array<Raw>
    var sp: nat
    var stack: nat
    var output: nat

    constructor (pattern: Text)
      ensures this.pattern == pattern && fresh(nodes) && nodes.Length == EstimateNodes(pattern)
      ensures sp == 0 && stack == 0 && output == nodes.Length
    {
      this.pattern := pattern;
      nodes := new Raw[EstimateNodes(pattern)](_ => RawEpsilon);
      sp, stack, output := 0, 0, EstimateNodes(pattern);
    }

    ghost predicate Valid()
      reads this
    {
      stack <= output <= nodes.Length
    }

    /** How many cells are in use. */
    ghost function Used(): int
      reads this
    {
      stack + nodes.Length - output
    }

    /** The stack above `bottom` holds exactly these trees. */
    ghost predicate Holds(bottom: nat, items: seq<Node>)
      reads this, nodes
    {
      stack == bottom + |items| && StackHolds(pattern, nodes[..], bottom, output, items)
    }

    method Push(raw: Raw, ghost bottom: nat, ghost items: seq<Node>, ghost t: Node)
      requires Valid() && stack < output && Holds(bottom, items) && Stores(pattern, nodes[..], output, raw, t)
      modifies this`stack, nodes
      ensures Valid() && Holds(bottom, items + [t]) && stack == old(stack) + 1
      ensures nodes[..old(stack)] == old(nodes[..stack]) && nodes[output..] == old(nodes[output..])
    {
      ghost var before := nodes[..];
      nodes[stack] := raw;
      stack := stack + 1;
      StackFrame(pattern, before, nodes[..], bottom, output, output, items);
      StoresFrame(pattern, before, nodes[..], output, output, raw, t);
    }

    method Drop(ghost bottom: nat, ghost items: seq<Node>)
      requires Valid() && items != [] && Holds(bottom, items)
      modifies this`stack
      ensures Valid() && Holds(bottom, items[..|items| - 1]) && stack == old(stack) - 1
    {
      stack := stack - 1;
    }

    /** Moves the top of the stack to the output and returns its index there. */
    method Consume(ghost bottom: nat, ghost items: seq<Node>) returns (x: nat)
      requires Valid() && items != [] && Holds(bottom, items)
      modifies this`stack, this`output, nodes
      ensures Valid() && Holds(bottom, items[..|items| - 1])
      ensures stack == old(stack) - 1 && output == old(output) - 1 && x == output
      ensures StoredAt(pattern, nodes[..], x, x, items[|items| - 1])
      ensures nodes[..stack] == old(nodes[..])[..stack] && nodes[old(output)..] == old(nodes[output..])
    {
      ghost var before, out := nodes[..], output;
      output, stack := output - 1, stack - 1;
      nodes[output] := nodes[stack];
      x := output;
      assert before[stack] == before[bottom + (|items| - 1)];
      assert nodes[..][out..] == before[out..];
      StoresFrame(pattern, before, nodes[..], out, out, before[stack], items[|items| - 1]);
      StackFrame(pattern, before, nodes[..], bottom, out, output, items[..|items| - 1]);
    }

    /** The parts of the buffer outside stack[bottom..] and output[..out] are as they were. */
    ghost predicate Keeps(bottom: nat, out: nat, before: seq<Raw>)
      reads this, nodes
    {
      && bottom <= stack && output <= out <= |before| == nodes.Length && bottom <= |before|
      && nodes[..][..bottom] == before[..bottom] && nodes[..][out..] == before[out..]
    }

    /** Changes between hi and lo only leave what must be kept as it was. */
    lemma StillKeeps(bottom: nat, out: nat, before: seq<Raw>, previous: seq<Raw>, hi: nat, lo: nat)
      requires bottom <= hi <= |previous| == nodes.Length == |before| && lo <= out <= |before|
      requires bottom <= stack && output <= out
      requires previous[..bottom] == before[..bottom] && previous[out..] == before[out..]
      requires nodes[..][..hi] == previous[..hi] && nodes[..][lo..] == previous[lo..]
      ensures Keeps(bottom, out, before)
    {
      SamePrefix(nodes[..], previous, hi, bottom);
      SameSuffix(nodes[..], previous, lo, out);
    }

    /** Replaces the two topmost items by their concatenation. */
    method PushConcatenation(ghost bottom: nat, ghost items: seq<Node>)
      requires Valid() && |items| >= 2 && Holds(bottom, items) && stack < output
      modifies this`stack, this`output, nodes
      ensures Valid() && stack == old(stack) - 1 && output == old(output) - 2
      ensures var m := |items|;
              Holds(bottom, items[..m - 2] + [Concatenation(items[m - 2], items[m - 1])])
      ensures nodes[..bottom] == old(nodes[..bottom]) && nodes[old(output)..] == old(nodes[output..])
    {
      ghost var m := |items|;
      var right := Consume(bottom, items);
      ghost var middle := nodes[..];
      assert items[..m - 1][..m - 2] == items[..m - 2];
      var left := Consume(bottom, items[..m - 1]);
      assert nodes[..][right..] == middle[right..];
      StoredFrame(pattern, middle, nodes[..], right, output, right, items[m - 1]);
      Push(RawConcatenation(left, right), bottom, items[..m - 2], Concatenation(items[m - 2], items[m - 1]));
    }

    /** Joins the items above bottom into a single node. */
    method Concatenate(bottom: nat, ghost items: seq<Node>, ghost out: nat, ghost before: seq<Raw>)
      requires Valid() && Holds(bottom, items) && Keeps(bottom, out, before)
      requires Used() + Pending(|items|) <= nodes.Length
      modifies this`stack, this`output, nodes
      ensures Valid() && Holds(bottom, [Join(items)]) && Keeps(bottom, out, before)
      ensures Used() == old(Used()) + Pending(|items|)
    {
      ghost var current := items;
      if stack == bottom {
        PushItem(RawEpsilon, bottom, [], Epsilon, out, before);
        assert [] + [Epsilon] == [Join(items)];
      } else {
        while stack - 1 > bottom
          invariant current != [] && Valid() && Holds(bottom, current) && Keeps(bottom, out, before)
          invariant Join(current) == Join(items)
          invariant Used() + |current| == old(Used()) + |items|
          decreases |current|
        {
          ghost var m := |current|;
          JoinLastTwo(current);
          ghost var lo, previous := output, nodes[..];
          PushConcatenation(bottom, current);
          StillKeeps(bottom, out, before, previous, bottom, lo);
          current := current[..m - 2] + [Concatenation(current[m - 2], current[m - 1])];
        }
        assert current == [Join(items)];
      }
    }

    /** Pushes an item without children. */
    method PushItem(raw: Raw, ghost bottom: nat, ghost items: seq<Node>, ghost t: Node,
                    ghost out: nat, ghost before: seq<Raw>)
      requires Valid() && stack < output && Holds(bottom, items) && Stores(pattern, nodes[..], output, raw, t)
      requires Keeps(bottom, out, before)
      modifies this`stack, nodes
      ensures Valid() && Holds(bottom, items + [t]) && Keeps(bottom, out, before) && stack == old(stack) + 1
    {
      ghost var hi, previous := stack, nodes[..];
      Push(raw, bottom, items, t);
      StillKeeps(bottom, out, before, previous, hi, output);
    }

    /** The character at an index of the NUL-terminated pattern. */
    function Peek(k: nat): Char {
      At(pattern, k)
    }

    /** Reads the digits at sp. */
    method ReadNumber() returns (value: nat)
      requires sp <= |pattern|
      modifies this`sp
      ensures sp <= |pattern| && ScanNumber(pattern, old(sp), 0) == Number(value, sp)
    {
      value := 0;
      while IsDigit(Peek(sp))
        invariant sp <= |pattern|
        invariant ScanNumber(pattern, sp, value) == ScanNumber(pattern, old(sp), 0)
        decreases |pattern| - sp
      {
        value := value * 10 + (Peek(sp) - 48);
        sp := sp + 1;
      }
    }

    /** Replaces the topmost item by a quantifier around it, lazy if a '?' follows. */
    method PushQuantifier(nmin: nat, nmax: int, ghost bottom: nat, ghost items: seq<Node>,
                          ghost out: nat, ghost before: seq<Raw>)
      requires Valid() && items != [] && Holds(bottom, items) && Keeps(bottom, out, before)
      requires stack < output && sp <= |pattern|
      modifies this, nodes
      ensures Valid() && Keeps(bottom, out, before) && Used() == old(Used()) + 1
      ensures var (items', p') := Quantified(pattern, old(sp), nmin, nmax, items);
              sp == p' <= |pattern| && Holds(bottom, items')
    {
      ghost var last, lo, previous := |items| - 1, output, nodes[..];
      var x := Consume(bottom, items);
      StillKeeps(bottom, out, before, previous, stack, lo);
      var greedy := true;
      if Peek(sp) == QUESTION {
        sp, greedy := sp + 1, false;
      }
      ghost var hi, middle := stack, nodes[..];
      Push(RawQuantifier(nmin, nmax, greedy, x), bottom, items[..last],
        Quantifier(nmin, nmax, greedy, items[last]));
      StillKeeps(bottom, out, before, middle, hi, output);
    }

    /** Replaces the topmost item by a capture around it. */
    method PushCapture(ghost bottom: nat, ghost items: seq<Node>, ghost t: Node,
                       ghost out: nat, ghost before: seq<Raw>)
      requires Valid() && Holds(bottom, items + [t]) && Keeps(bottom, out, before) && stack < output
      modifies this`stack, this`output, nodes
      ensures Valid() && Keeps(bottom, out, before) && Used() == old(Used()) + 1
      ensures Holds(bottom, items + [Capture(t)])
    {
      assert (items + [t])[..|items|] == items;
      ghost var lo, previous := output, nodes[..];
      var x := Consume(bottom, items + [t]);
      StillKeeps(bottom, out, before, previous, stack, lo);
      ghost var hi, middle := stack, nodes[..];
      Push(RawCapture(x), bottom, items, Capture(t));
      StillKeeps(bottom, out, before, middle, hi, output);
    }

    /** Reads one item of a class: a character, possibly escaped, or a range. */
    method ReadClassItem() returns (ok: bool)
      requires sp < |pattern|
      modifies this`sp
      ensures ok == ScanItem(pattern, old(sp)).Item?
      ensures ok ==> sp == ScanItem(pattern, old(sp)).next
    {
      var ch := Peek(sp);
      sp := sp + 1;
      if ch == BACKSLASH {
        ch := Peek(sp);
        if ch == 0 {
          return false;
        }
        sp := sp + 1;
      }
      if Peek(sp) == DASH && Peek(sp + 1) != CLOSE {
        if Unsigned(Peek(sp + 1)) < Unsigned(ch) {
          return false;
        }
        sp := sp + 2;
      }
      ok := true;
    }

    /** Reads the items of a class up to and including its ']'. */
    method ReadClass() returns (ok: bool)
      requires sp <= |pattern|
      modifies this`sp
      ensures var r := ScanFrom(pattern, old(sp), old(sp)); ok == r.Closed? && (ok ==> sp == r.close + 1)
    {
      var from := sp;
      ghost var whole := ScanFrom(pattern, from, from);
      while true
        invariant from <= sp <= |pattern|
        invariant var r := ScanFrom(pattern, from, sp);
                  r.Closed? == whole.Closed? && (r.Closed? ==> r.close == whole.close)
        decreases |pattern| - sp
      {
        if Peek(sp) == 0 {
          return false;
        }
        if Peek(sp) == CLOSE && sp != from {
          sp := sp + 1;
          return true;
        }
        hide ScanItem;
        ok := ReadClassItem();
        if !ok {
          return;
        }
      }
    }

    /** Reads a class after its '['. */
    method ParseCharClass(ghost bottom: nat, ghost items: seq<Node>, ghost out: nat, ghost before: seq<Raw>)
      returns (ok: bool)
      requires Valid() && Holds(bottom, items) && Keeps(bottom, out, before) && stack < output && sp <= |pattern|
      modifies this, nodes
      ensures Valid() && Keeps(bottom, out, before)
      ensures var from := if At(pattern, old(sp)) == CARET then old(sp) + 1 else old(sp);
              var r := ScanFrom(pattern, from, from);
              && ok == r.Closed?
              && (ok ==> var text := pattern[from..r.close];
                         && sp == r.close + 1 && Used() == old(Used()) + 1 && output == old(output)
                         && Holds(bottom, items + [if from == old(sp) then CharacterClass(text)
                                                   else CharacterClassNegated(text)]))
    {
      hide ScanFrom;
      var negated := false;
      if Peek(sp) == CARET {
        sp, negated := sp + 1, true;
      }
      var from := sp;
      ok := ReadClass();
      if ok {
        ghost var text := pattern[from..sp - 1];
        PushItem(RawClass(negated, from, sp - 1), bottom, items,
          if negated then CharacterClassNegated(text) else CharacterClass(text), out, before);
      }
    }

    /** Reads an interval after its '{'; if there is none, the position is left as it was. */
    method ParseInterval(ghost bottom: nat, ghost items: seq<Node>, ghost out: nat, ghost before: seq<Raw>)
      returns (ok: bool)
      requires Valid() && items != [] && Holds(bottom, items) && Keeps(bottom, out, before)
      requires stack < output && sp <= |pattern|
      modifies this, nodes
      ensures Valid() && Keeps(bottom, out, before)
      ensures ok == ScanInterval(pattern, old(sp)).Interval?
      ensures ok ==> var r := ScanInterval(pattern, old(sp));
                     var (items', p') := Quantified(pattern, r.next, r.nmin, r.nmax, items);
                     sp == p' <= |pattern| && Holds(bottom, items') && Used() == old(Used()) + 1
      ensures !ok ==> sp == old(sp) && Holds(bottom, items) && Used() == old(Used())
    {
      var from := sp;
      var nmax: int := -1;
      var nmin := ReadNumber();
      if Peek(sp) == COMMA {
        sp := sp + 1;
        if sp - 1 != from && Peek(sp) == RBRACE {
        } else {
          var start := sp;
          nmax := ReadNumber();
          if sp == start || Peek(sp) != RBRACE || nmax < nmin {
            sp := from;
            return false;
          }
        }
      } else if sp != from && Peek(sp) == RBRACE {
        nmax := nmin;
      } else {
        sp := from;
        return false;
      }
      sp := sp + 1;
      PushQuantifier(nmin, nmax, bottom, items, out, before);
      ok := true;
    }

    /** The state at the head of the parser's loop: the items read so far are on the stack, and there is room for
        everything the rest of the pattern can need, besides `reserve` cells for the enclosing calls. */
    ghost predicate AtLoopHead(bottom: nat, items: seq<Node>, out: nat, before: seq<Raw>, reserve: nat)
      reads this, nodes
    {
      && Valid() && nodes.Length == EstimateNodes(pattern) && sp <= |pattern|
      && Holds(bottom, items) && Keeps(bottom, out, before)
      && Used() + Pending(|items|) + reserve <= 2 * sp + 1
    }

    /** The state after a completed call: one more node on the stack, and the room it was given not exceeded. */
    ghost predicate Finished(bottom: nat, t: Node, out: nat, before: seq<Raw>, reserve: nat)
      reads this, nodes
    {
      && Valid() && nodes.Length == EstimateNodes(pattern) && 0 < sp <= |pattern| + 1
      && Holds(bottom, [t]) && Keeps(bottom, out, before)
      && Used() + reserve <= 2 * (sp - 1) + 1
    }

    /** A character that stands for itself or, after a non-empty sequence, a quantifier. */
    method ParseOrdinary(ch: Char, bottom: nat, ghost items: seq<Node>,
                         ghost out: nat, ghost before: seq<Raw>, ghost reserve: nat)
      returns (ghost items': seq<Node>)
      requires AtLoopHead(bottom, items, out, before, reserve) && sp < |pattern| && ch == pattern[sp]
      modifies this, nodes
      ensures AtLoopHead(bottom, items', out, before, reserve) && sp > old(sp)
      ensures OrdinaryStep(pattern, old(sp), items) == (items', sp)
    {
      sp := sp + 1;
      if stack == bottom {
        PushItem(RawCharacter(ch), bottom, items, Character(ch), out, before);
        items' := items + [Character(ch)];
      } else if ch == QUESTION {
        items' := Quantified(pattern, sp, 0, 1, items).0;
        PushQuantifier(0, 1, bottom, items, out, before);
      } else if ch == STAR {
        items' := Quantified(pattern, sp, 0, -1, items).0;
        PushQuantifier(0, -1, bottom, items, out, before);
      } else if ch == PLUS {
        items' := Quantified(pattern, sp, 1, -1, items).0;
        PushQuantifier(1, -1, bottom, items, out, before);
      } else {
        var done := false;
        if ch == LBRACE {
          var r := ScanInterval(pattern, sp);
          if r.Interval? {
            items' := Quantified(pattern, r.next, r.nmin, r.nmax, items).0;
          }
          done := ParseInterval(bottom, items, out, before);
        }
        if !done {
          PushItem(RawCharacter(ch), bottom, items, Character(ch), out, before);
          items' := items + [Character(ch)];
        }
      }
    }

    /** Merges the two topmost items, an alternative and what follows its '|', into one. */
    method PushEither(bottom: nat, ghost left: Node, ghost right: Node, ghost out: nat, ghost before: seq<Raw>)
      requires Valid() && Holds(bottom, [left, right]) && Keeps(bottom, out, before) && stack < output
      modifies this`stack, this`output, nodes
      ensures Valid() && Holds(bottom, [Either(left, right)]) && Keeps(bottom, out, before)
      ensures Used() <= old(Used()) + 1
    {
      assert [left, right][..1] == [left] && [left][..0] == [];
      var l, r := nodes[bottom], nodes[bottom + 1];
      ghost var lo, previous := output, nodes[..];
      assert l == nodes[..][bottom + 0] && r == nodes[..][bottom + 1];
      assert Stores(pattern, nodes[..], output, l, [left, right][0]);
      assert Stores(pattern, nodes[..], output, r, [left, right][1]);
      assert (l == RawEpsilon <==> left == Epsilon) && (r == RawEpsilon <==> right == Epsilon);
      if l == RawEpsilon && r == RawEpsilon {
        Drop(bottom, [left, right]);
        assert [left, right][..|[left, right]| - 1] == [Either(left, right)];
      } else if l == RawEpsilon {
        var x := Consume(bottom, [left, right]);
        StillKeeps(bottom, out, before, previous, stack, lo);
        Drop(bottom, [left]);
        ghost var middle := nodes[..];
        PushOption(x, bottom, right);
        StillKeeps(bottom, out, before, middle, bottom, output);
      } else if r == RawEpsilon {
        Drop(bottom, [left, right]);
        var x := Consume(bottom, [left]);
        StillKeeps(bottom, out, before, previous, stack, lo);
        ghost var middle := nodes[..];
        PushOption(x, bottom, left);
        StillKeeps(bottom, out, before, middle, bottom, output);
      } else {
        PushAlternation(bottom, left, right);
        StillKeeps(bottom, out, before, previous, bottom, lo);
      }
    }

    method PushAlternation(ghost bottom: nat, ghost left: Node, ghost right: Node)
      requires Valid() && Holds(bottom, [left, right]) && stack < output
      modifies this`stack, this`output, nodes
      ensures Valid() && Holds(bottom, [Alternation(left, right)])
      ensures stack == old(stack) - 1 && output == old(output) - 2
      ensures nodes[..bottom] == old(nodes[..bottom]) && nodes[old(output)..] == old(nodes[output..])
    {
      assert [left, right][..1] == [left] && [left][..0] == [];
      var y := Consume(bottom, [left, right]);
      ghost var middle := nodes[..];
      var x := Consume(bottom, [left]);
      assert nodes[..][y..] == middle[y..];
      assert nodes[..][y + 1..] == nodes[..][y..][1..] && middle[y + 1..] == middle[y..][1..];
      StoredFrame(pattern, middle, nodes[..], y, output, y, right);
      ghost var merged := nodes[..];
      Push(RawAlternation(x, y), bottom, [], Alternation(left, right));
      assert nodes[..][y + 1..] == nodes[..][x..][2..] && merged[y + 1..] == merged[x..][2..];
      assert [] + [Alternation(left, right)] == [Alternation(left, right)];
    }

    method PushOption(x: nat, ghost bottom: nat, ghost t: Node)
      requires Valid() && stack < output && Holds(bottom, []) && StoredAt(pattern, nodes[..], output, x, t)
      modifies this`stack, nodes
      ensures Valid() && Holds(bottom, [Quantifier(0, 1, true, t)]) && stack == old(stack) + 1
      ensures nodes[..old(stack)] == old(nodes[..stack]) && nodes[output..] == old(nodes[output..])
    {
      Push(RawQuantifier(0, 1, true, x), bottom, [], Quantifier(0, 1, true, t));
      assert [] + [Quantifier(0, 1, true, t)] == [Quantifier(0, 1, true, t)];
    }

    /** What a finished call leaves above the caller's items. */
    lemma StackOnTop(bottom: nat, items: seq<Node>, t: Node, callOut: nat, callNodes: seq<Raw>, out: nat,
                     before: seq<Raw>)
      requires Valid() && bottom + |items| <= callOut <= |callNodes|
      requires Holds(bottom + |items|, [t]) && Keeps(bottom + |items|, callOut, callNodes)
      requires StackHolds(pattern, callNodes, bottom, callOut, items)
      requires callOut <= out <= |before| == |callNodes| && callNodes[out..] == before[out..]
      requires callNodes[..bottom] == before[..bottom]
      ensures Holds(bottom, items + [t]) && Keeps(bottom, out, before)
    {
      var top := bottom + |items|;
      assert nodes[..][bottom..top] == nodes[..][..top][bottom..] &&
        callNodes[bottom..top] == callNodes[..top][bottom..];
      StackFrame(pattern, callNodes, nodes[..], bottom, callOut, output, items);
      assert nodes[..][out..] == nodes[..][callOut..][out - callOut..] &&
        callNodes[out..] == callNodes[callOut..][out - callOut..];
      assert nodes[..][..bottom] == nodes[..][..top][..bottom] && callNodes[..bottom] == callNodes[..top][..bottom];
      var all := items + [t];
      forall k | 0 <= k < |all| ensures Stores(pattern, nodes[..], output, nodes[..][bottom + k], all[k]) {
        if k == |items| {
          assert Stores(pattern, nodes[..], output, nodes[..][top + 0], [t][0]);
        }
      }
    }

    /** An item that starts with a special character. */
    method ParseAtom(ghost bottom: nat, ghost items: seq<Node>, ghost out: nat, ghost before: seq<Raw>,
                     ghost reserve: nat)
      returns (r: Outcome)
      requires AtLoopHead(bottom, items, out, before, reserve) && sp < |pattern| && StartsAtom(pattern[sp])
      modifies this, nodes
      ensures match AtomAt(pattern, old(sp))
              case BadAtom => r == Failed
              case EscapedEnd => r == OutOfBounds
              case Atom(item, next) =>
                r == Built && sp == next && AtLoopHead(bottom, items + [item], out, before, reserve)
    {
      hide ScanFrom;
      var ch := Peek(sp);
      sp := sp + 1;
      r := Built;
      if ch == BACKSLASH {
        ch := Peek(sp);
        if ch == 0 {
          return OutOfBounds;
        }
        sp := sp + 1;
        PushItem(RawCharacter(ch), bottom, items, Character(ch), out, before);
      } else if ch == DOT {
        PushItem(RawAnyCharacter, bottom, items, AnyCharacter, out, before);
      } else if ch == CARET {
        PushItem(RawAnchorBegin, bottom, items, AnchorBegin, out, before);
      } else if ch == DOLLAR {
        PushItem(RawAnchorEnd, bottom, items, AnchorEnd, out, before);
      } else {
        var ok := ParseCharClass(bottom, items, out, before);
        if !ok {
          return Failed;
        }
      }
    }

    /** An alternative: what was read so far, '|', and the rest of the group or pattern. */
    method ParseAlternative(depth: nat, bottom: nat, ghost items: seq<Node>, ghost out: nat, ghost before: seq<Raw>,
                            ghost reserve: nat)
      returns (r: Outcome)
      requires AtLoopHead(bottom, items, out, before, reserve) && sp < |pattern| && pattern[sp] == BAR
      modifies this, nodes
      ensures match ParseFrom(pattern, old(sp) + 1, depth, [])
              case Rejected => r == Failed
              case Overrun => r == OutOfBounds
              case Parsed(t, next) =>
                r == Built && sp == next && Finished(bottom, Either(Join(items), t), out, before, reserve)
      decreases |pattern| - sp, 0
    {
      hide ParseFrom, Either, Join, Stores;
      ghost var right := ParseFrom(pattern, sp + 1, depth, []);
      Concatenate(bottom, items, out, before);
      sp := sp + 1;
      ghost var left, callOut, callNodes := Join(items), output, nodes[..];
      assert Holds(stack, []);
      r := Parse(depth, reserve + 1);
      if r == Built {
        StackOnTop(bottom, [left], right.tree, callOut, callNodes, out, before);
        assert [left] + [right.tree] == [left, right.tree];
        PushEither(bottom, left, right.tree, out, before);
      }
    }

    /** A group: '(', its content up to ')', captured. */
    method ParseGroup(depth: nat, bottom: nat, ghost items: seq<Node>, ghost out: nat, ghost before: seq<Raw>,
                      ghost reserve: nat)
      returns (r: Outcome)
      requires AtLoopHead(bottom, items, out, before, reserve) && sp < |pattern| && pattern[sp] == LPAREN
      modifies this, nodes
      ensures match ParseFrom(pattern, old(sp) + 1, depth + 1, [])
              case Rejected => r == Failed
              case Overrun => r == OutOfBounds
              case Parsed(t, next) =>
                r == Built && sp == next && AtLoopHead(bottom, items + [Capture(t)], out, before, reserve)
      decreases |pattern| - sp, 0
    {
      hide ParseFrom, Stores;
      ghost var inner := ParseFrom(pattern, sp + 1, depth + 1, []);
      ghost var callOut, callNodes := output, nodes[..];
      sp := sp + 1;
      assert Holds(stack, []);
      r := Parse(depth + 1, reserve + Pending(|items|) + 1);
      if r == Built {
        StackOnTop(bottom, items, inner.tree, callOut, callNodes, out, before);
        PushCapture(bottom, items, inner.tree, out, before);
      }
    }

    /** Parses from sp to the end of the enclosing group or pattern, leaving one node above the stack it found. */
    method Parse(depth: nat, ghost reserve: nat) returns (r: Outcome)
      requires AtLoopHead(stack, [], output, nodes[..], reserve)
      modifies this, nodes
      ensures match ParseFrom(pattern, old(sp), depth, [])
              case Rejected => r == Failed
              case Overrun => r == OutOfBounds
              case Parsed(t, next) =>
                r == Built && sp == next && Finished(old(stack), t, old(output), old(nodes[..]), reserve)
      decreases |pattern| - sp, 1
    {
      hide OrdinaryStep, Stores, ScanFrom, AtomAt;
      ghost var out, before, want := output, nodes[..], ParseFrom(pattern, sp, depth, []);
      var bottom := stack;
      ghost var items: seq<Node> := [];
      while true
        invariant AtLoopHead(bottom, items, out, before, reserve)
        invariant ParseFrom(pattern, sp, depth, items) == want
        invariant old(sp) <= sp
        decreases |pattern| - sp
      {
        var ch := Peek(sp);
        if ch == 0 || ch == RPAREN {
          if (ch == 0) != (depth == 0) {
            return Failed;
          }
          Concatenate(bottom, items, out, before);
          sp := sp + 1;
          return Built;
        }
        if ch == BAR {
          r := ParseAlternative(depth, bottom, items, out, before, reserve);
          return;
        }
        if ch == LPAREN {
          ghost var inner := ParseFrom(pattern, sp + 1, depth + 1, []);
          r := ParseGroup(depth, bottom, items, out, before, reserve);
          if r != Built {
            return;
          }
          items := items + [Capture(inner.tree)];
        } else if StartsAtom(ch) {
          ghost var atom := AtomAt(pattern, sp);
          r := ParseAtom(bottom, items, out, before, reserve);
          if r != Built {
            return;
          }
          items := items + [atom.node];
        } else {
          items := ParseOrdinary(ch, bottom, items, out, before, reserve);
        }
      }
    }
  }

  function EstimateNodes(pattern: Text): nat {
    |pattern| * 2 + 1
  }

  /** Parses a pattern. The buffer of 2n + 1 nodes is always large enough, and the tree built in it, with its root
      at index 0, is that of the recursive-descent parser. */
  method BuildTree(pattern: Text) returns (r: Outcome, context: ParseContext)
    ensures fresh(context) && fresh(context.nodes) && context.pattern == pattern
    ensures match ParsePattern(pattern)
            case Rejected => r == Failed
            case Overrun => r == OutOfBounds
            case Parsed(t, _) => r == Built && StoredAt(pattern, context.nodes[..], 0, 0, t)
  {
    hide ParseFrom, Stores;
    context := new ParseContext(pattern);
    assert context.Holds(0, []) by { EmptyStack(pattern, context.nodes[..]); }
    r := context.Parse(0, 0);
    if r == Built {
      ghost var t := ParsePattern(pattern).tree;
      ghost var nodes := context.nodes[..];
      assert Stores(pattern, nodes, context.output, nodes[0 + 0], [t][0]);
      StoresFrame(pattern, nodes, nodes, context.output, 1, nodes[0], t);
    }
  }

  lemma EmptyStack(pat: Text, nodes: seq<Raw>)
    ensures StackHolds(pat, nodes, 0, |nodes|, [])
  {}

  /** Every tree the parser builds is one the compiler accepts. */
  lemma {:induction false} ParsedWf(pat: Text, p: nat, depth: nat, items: seq<Node>)
    requires p <= |pat| && (forall n :: n in items ==> Wf(n))
    requires ParseFrom(pat, p, depth, items).Parsed?
    ensures Wf(ParseFrom(pat, p, depth, items).tree)
    decreases |pat| - p
  {
    var ch := At(pat, p);
    if ch == 0 || ch == RPAREN {
      JoinWf(items);
    } else if StartsAtom(ch) {
      AtomWf(pat, p);
      ParsedWf(pat, AtomAt(pat, p).next, depth, items + [AtomAt(pat, p).node]);
    } else if ch == BAR {
      JoinWf(items);
      ParsedWf(pat, p + 1, depth, []);
    } else if ch == LPAREN {
      ParsedWf(pat, p + 1, depth + 1, []);
      var inner := ParseFrom(pat, p + 1, depth + 1, []);
      assert Wf(Capture(inner.tree));
      ParsedWf(pat, inner.next, depth, items + [Capture(inner.tree)]);
    } else {
      var (items', p') := OrdinaryStep(pat, p, items);
      assert forall n :: n in items' ==> Wf(n);
      ParsedWf(pat, p', depth, items');
    }
  }

  lemma {:induction false} JoinWf(items: seq<Node>)
    requires forall n :: n in items ==> Wf(n)
    ensures Wf(Join(items))
  {
    if |items| > 1 {
      JoinWf(items[1..]);
    }
  }

  lemma AtomWf(pat: Text, p: nat)
    requires p < |pat| && StartsAtom(pat[p]) && AtomAt(pat, p).Atom?
    ensures Wf(AtomAt(pat, p).node)
  {
    if pat[p] == LBRACKET {
      var from := if At(pat, p + 1) == CARET then p + 2 else p + 1;
      RescanText(pat, from, from);
    }
  }


  /** Joining the last two items first changes nothing. */
  lemma {:induction false} JoinLastTwo(items: seq<Node>)
    requires |items| >= 2
    ensures var m := |items|;
            Join(items[..m - 2] + [Concatenation(items[m - 2], items[m - 1])]) == Join(items)
  {
    var m := |items|;
    if m > 2 {
      JoinLastTwo(items[1..]);
      var shorter := items[..m - 2] + [Concatenation(items[m - 2], items[m - 1])];
      assert shorter[1..] == items[1..][..m - 3] + [Concatenation(items[m - 2], items[m - 1])];
    }
  }
}
