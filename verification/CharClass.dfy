/** Character classes: the 256-bit set of cregex.h and the scanner that fills it from the class text. */
module CharClass {

  /** A plain C `char`, signed as on the platforms the program targets. */
  type Char = c: int | -128 <= c < 128

  /** A C string without its terminator. */
  type Text = s: seq<Char> | forall k :: 0 <= k < |s| ==> s[k] != 0

  const CLOSE: Char := 93       // ']'
  const BACKSLASH: Char := 92   // '\\'
  const DASH: Char := 45        // '-'

  /** The 32 bytes of a `cregex_char_class`. */
  type ClassBits = b: seq<bv8> | |b| == 32 witness seq(32, _ => 0)

  const NO_BITS: ClassBits := [
    0, 0, 0, 0, 0, 0, 0, 0, 0, 0, 0, 0, 0, 0, 0, 0,
    0, 0, 0, 0, 0, 0, 0, 0, 0, 0, 0, 0, 0, 0, 0, 0
  ]

  /** Conversion to `unsigned char`. */
  function Unsigned(ch: int): (u: nat)
    ensures u < 256
  {
    ch % 256
  }

  predicate Contains(klass: ClassBits, ch: int) {
    var u := Unsigned(ch);
    klass[u / 8] & (1 << (u % 8)) != 0
  }

  function Add(klass: ClassBits, ch: int): (k: ClassBits) {
    var u := Unsigned(ch);
    klass[u / 8 := klass[u / 8] | (1 << (u % 8))]
  }

  lemma DistinctBits(a: nat, b: nat, x: bv8)
    requires a < 8 && b < 8
    ensures ((x | (1 << a)) & (1 << b) != 0) <==> a == b || x & (1 << b) != 0
  {
    var p: seq<bv8> := [1, 2, 4, 8, 16, 32, 64, 128];
    assert forall i | 0 <= i < 8 :: 1 as bv8 << i == p[i];
  }

  /** Adding a character adds that byte and nothing else. */
  lemma AddContains(klass: ClassBits, ch: int, d: int)
    ensures Contains(Add(klass, ch), d) <==> Unsigned(d) == Unsigned(ch) || Contains(klass, d)
  {
    var u, v := Unsigned(ch), Unsigned(d);
    if u / 8 == v / 8 {
      DistinctBits(u % 8, v % 8, klass[u / 8]);
    }
  }

  lemma NothingContained(d: int)
    ensures !Contains(NO_BITS, d)
  {
    assert (0 as bv8) & (1 << (Unsigned(d) % 8)) == 0;
  }

  /** What a scan of a class yields: the ranges it lists (a lone character is a range of one) and the
      index of the closing bracket, or nothing if the text ends first or holds an empty range. */
  datatype Range = Range(lo: Char, hi: Char)
  datatype Scan = Malformed | Closed(ranges: seq<Range>, close: nat)

  /** The character at index k of a NUL-terminated buffer. */
  function At(buf: Text, k: nat): Char {
    if k < |buf| then buf[k] else 0
  }

  /** One item of a class: a character, possibly escaped, or a range of two. */
  datatype ItemScan = BadItem | Item(range: Range, next: nat)

  function ScanItem(buf: Text, p: nat): (r: ItemScan)
    ensures r.Item? ==> p < r.next <= |buf|
  {
    var escaped := At(buf, p) == BACKSLASH;
    var q := if escaped then p + 2 else p + 1;
    var lo := At(buf, q - 1);
    if lo == 0 then BadItem
    else if At(buf, q) == DASH && At(buf, q + 1) != CLOSE then
      var hi := At(buf, q + 1);
      if Unsigned(hi) < Unsigned(lo) then BadItem else Item(Range(lo, hi), q + 2)
    else Item(Range(lo, lo), q)
  }

  /** The class text starting at `from`, scanned from index p on. */
  function ScanFrom(buf: Text, from: nat, p: nat): (r: Scan)
    ensures r.Closed? ==> p <= r.close < |buf| && buf[r.close] == CLOSE
    decreases |buf| - p
  {
    if At(buf, p) == CLOSE && p != from then Closed([], p)
    else
      match ScanItem(buf, p)
      case BadItem => Malformed
      case Item(range, next) => Prepend(range, ScanFrom(buf, from, next))
  }

  function Prepend(item: Range, rest: Scan): Scan {
    match rest
    case Malformed => Malformed
    case Closed(items, close) => Closed([item] + items, close)
  }

  /** Text that the parser can record for a class: scanning it stops exactly at the bracket that follows it. */
  predicate ValidClassText(text: Text) {
    var r := ScanFrom(text + [CLOSE], 0, 0);
    r.Closed? && r.close == |text|
  }

  function ClassRanges(text: Text): seq<Range>
    requires ValidClassText(text)
  {
    ScanFrom(text + [CLOSE], 0, 0).ranges
  }

  /** Membership in one range, as the compiler's signed loop enumerates it. */
  predicate InRange(r: Range, ch: int) {
    r.lo <= ch <= r.hi
  }

  predicate InRanges(rs: seq<Range>, ch: int) {
    exists k :: 0 <= k < |rs| && InRange(rs[k], ch)
  }

  predicate InClass(text: Text, ch: Char)
    requires ValidClassText(text)
  {
    InRanges(ClassRanges(text), ch)
  }

  lemma RescanItem(buf: Text, from: nat, close: nat, p: nat)
    requires from <= p < close < |buf| && buf[close] == CLOSE
    requires ScanItem(buf, p).Item? && ScanItem(buf, p).next <= close
    ensures var item := ScanItem(buf, p);
            ScanItem(buf[from..close] + [CLOSE], p - from) == Item(item.range, item.next - from)
  {
    var text := buf[from..close] + [CLOSE];
    assert forall k | from <= k <= close :: At(text, k - from) == At(buf, k);
  }

  /** The bits after adding lo, lo + 1, ..., hi. */
  function RangeBits(start: ClassBits, lo: int, hi: int): ClassBits
    decreases hi - lo
  {
    if lo > hi then start else RangeBits(Add(start, lo), lo + 1, hi)
  }

  function ListBits(start: ClassBits, rs: seq<Range>): ClassBits
    decreases |rs|
  {
    if rs == [] then start else ListBits(RangeBits(start, rs[0].lo, rs[0].hi), rs[1..])
  }

  function ClassBitsOf(text: Text): ClassBits
    requires ValidClassText(text)
  {
    ListBits(NO_BITS, ClassRanges(text))
  }

  lemma {:induction false} RangeBitsMeaning(start: ClassBits, lo: int, hi: int, d: Char)
    requires -128 <= lo && hi < 128
    ensures Contains(RangeBits(start, lo, hi), d) <==> Contains(start, d) || lo <= d <= hi
    decreases hi - lo
  {
    if lo <= hi {
      AddContains(start, lo, d);
      RangeBitsMeaning(Add(start, lo), lo + 1, hi, d);
    }
  }

  lemma {:induction false} ListBitsMeaning(start: ClassBits, rs: seq<Range>, d: Char)
    ensures Contains(ListBits(start, rs), d) <==> Contains(start, d) || InRanges(rs, d)
    decreases |rs|
  {
    if rs != [] {
      var r := rs[0];
      RangeBitsMeaning(start, r.lo, r.hi, d);
      ListBitsMeaning(RangeBits(start, r.lo, r.hi), rs[1..], d);
      assert rs == [r] + rs[1..];
      assert InRanges(rs, d) <==> InRange(r, d) || InRanges(rs[1..], d) by {
        if InRanges(rs[1..], d) {
          var k :| 0 <= k < |rs[1..]| && InRange(rs[1..][k], d);
          assert InRange(rs[k + 1], d);
        }
        if InRanges(rs, d) && !InRange(r, d) {
          var k :| 0 <= k < |rs| && InRange(rs[k], d);
          assert InRange(rs[1..][k - 1], d);
        }
      }
    }
  }

  /** The compiled bits hold exactly the characters the class text lists. */
  lemma ClassBitsMeaning(text: Text, d: Char)
    requires ValidClassText(text)
    ensures Contains(ClassBitsOf(text), d) <==> InClass(text, d)
  {
    ListBitsMeaning(NO_BITS, ClassRanges(text), d);
    NothingContained(d);
  }

  /** What is recorded for a class is exactly what the compiler re-scans. */
  lemma {:induction false} RescanText(buf: Text, from: nat, p: nat)
    requires from <= p <= |buf|
    requires ScanFrom(buf, from, p).Closed?
    ensures var r := ScanFrom(buf, from, p);
            ScanFrom(buf[from..r.close] + [CLOSE], 0, p - from) == Closed(r.ranges, r.close - from)
    decreases |buf| - p
  {
    var close := ScanFrom(buf, from, p).close;
    var text := buf[from..close] + [CLOSE];
    assert At(text, p - from) == At(buf, p);
    if At(buf, p) == CLOSE && p != from {
    } else {
      var next := ScanItem(buf, p).next;
      RescanItem(buf, from, close, p);
      RescanText(buf, from, next);
    }
  }

  /** A range accepted by the parser's unsigned comparison and enumerated by the compiler's signed loop
      denotes the interval of byte values exactly when it does not go from below 0x80 to above it. */
  lemma RangeMeaning(r: Range)
    requires Unsigned(r.lo) <= Unsigned(r.hi)
    ensures (forall ch: Char :: InRange(r, ch) <==> Unsigned(r.lo) <= Unsigned(ch) <= Unsigned(r.hi))
            <==> !(Unsigned(r.lo) < 0x80 <= Unsigned(r.hi))
  {
    if r.lo >= 0 > r.hi {
      assert !InRange(r, r.lo);
    }
  }

  /** The inner loop of the compiler: adds lo, lo + 1, ..., hi. */
  method AddRange(start: ClassBits, lo: Char, hi: Char) returns (klass: ClassBits)
    ensures klass == RangeBits(start, lo, hi)
  {
    klass := start;
    var ch: int := lo;
    while ch <= hi
      invariant RangeBits(klass, ch, hi) == RangeBits(start, lo, hi)
      decreases hi - ch
    {
      klass := Add(klass, ch);
      ch := ch + 1;
    }
  }

  lemma ScanStep(buf: Text, p: nat, klass: ClassBits)
    requires ScanFrom(buf, 0, p).Closed? && !(At(buf, p) == CLOSE && p != 0)
    ensures ScanItem(buf, p).Item?
    ensures var item := ScanItem(buf, p);
            ScanFrom(buf, 0, item.next).Closed? &&
            ScanFrom(buf, 0, item.next).close == ScanFrom(buf, 0, p).close &&
            ListBits(klass, ScanFrom(buf, 0, p).ranges) ==
            ListBits(RangeBits(klass, item.range.lo, item.range.hi), ScanFrom(buf, 0, item.next).ranges)
  {
    var item := ScanItem(buf, p);
    var rest := ScanFrom(buf, 0, item.next).ranges;
    assert ([item.range] + rest)[1..] == rest;
  }

  /** One turn of the compiler's loop over the class text. */
  method CompileItem(buf: Text, p: nat, start: ClassBits) returns (klass: ClassBits, next: nat)
    requires ScanItem(buf, p).Item? && ScanItem(buf, p).next < |buf|
    ensures next == ScanItem(buf, p).next
    ensures var r := ScanItem(buf, p).range; klass == RangeBits(start, r.lo, r.hi)
  {
    var ch := buf[p];
    next := p + 1;
    if ch == BACKSLASH {
      ch := buf[next];
      next := next + 1;
    }
    if buf[next] == DASH && buf[next + 1] != CLOSE {
      klass := AddRange(start, ch, buf[next + 1]);
      next := next + 2;
    } else {
      klass := Add(start, ch);
      assert klass == RangeBits(klass, ch as int + 1, ch);
    }
  }

  /** The loop that fills the bits of a class instruction from its text. */
  method CompileCharClass(text: Text) returns (klass: ClassBits)
    requires ValidClassText(text)
    ensures klass == ClassBitsOf(text)
  {
    var buf: Text := text + [CLOSE];
    ghost var want := ClassBitsOf(text);
    var sp := 0;
    klass := NO_BITS;
    while !(buf[sp] == CLOSE && sp != 0)
      invariant 0 <= sp <= |text|
      invariant ScanFrom(buf, 0, sp).Closed? && ScanFrom(buf, 0, sp).close == |text|
      invariant ListBits(klass, ScanFrom(buf, 0, sp).ranges) == want
      decreases |text| - sp
    {
      ScanStep(buf, sp, klass);
      klass, sp := CompileItem(buf, sp, klass);
    }
  }
}
