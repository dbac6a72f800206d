/** The test patterns of the bad-block scan (badblocks.c): how a buffer is filled with them, how a block is stamped
    with its own number, and when the content of a block depends on where in the buffer it lies. */
module BadBlockPattern {

  type Byte = b: int | 0 <= b < 256

  type Block = seq<Byte>

  type Pattern = p: int | 0 <= p < 0x1_0000_0000

  const BLOCK_SIZE: nat := 512 * 1024

  /** The patterns of the five flash types, one for each of up to four passes. */
  const PATTERNS: seq<seq<Pattern>> := [
    [0x55, 0x00, 0x00, 0x00],
    [0x55, 0xaa, 0x00, 0x00],
    [0x00, 0xff, 0x55, 0xaa],
    [0x00, 0xff, 0x33, 0xcc],
    [0x00, 0xff, 0x1c71c7, 0xe38e38]
  ]

  /** The number of bytes of a pattern when its high zero bytes are dropped, but at least one. */
  function Period(p: Pattern): (n: nat)
    ensures 1 <= n <= 4
  {
    if p < 0x100 then 1 else if p < 0x1_0000 then 2 else if p < 0x100_0000 then 3 else 4
  }

  /** Byte j of a pattern, from the lowest. */
  function ByteOf(p: Pattern, j: nat): Byte
    requires j < 4
  {
    if j == 0 then p % 0x100 else if j == 1 then p / 0x100 % 0x100
    else if j == 2 then p / 0x1_0000 % 0x100 else p / 0x100_0000
  }

  /** The bytes of the pattern, highest first, over and over again. */
  function PatternByte(p: Pattern, k: nat): Byte {
    ByteOf(p, Period(p) - 1 - k % Period(p))
  }

  /** pattern_fill: random bytes for the pattern of all ones, and otherwise the bytes of the pattern. */
  method PatternFill(buffer: array<Byte>, pattern: Pattern, random: nat -> Byte)
    modifies buffer
    ensures forall k | 0 <= k < buffer.Length ::
              buffer[k] == if pattern == 0xffff_ffff then random(k) else PatternByte(pattern, k)
  {
    if pattern == 0xffff_ffff {
      for k := 0 to buffer.Length
        invariant forall l | 0 <= l < k :: buffer[l] == random(l)
      {
        buffer[k] := random(k);
      }
      return;
    }
    var bpattern, nb := SplitPattern(pattern);
    var i := nb;
    for k := 0 to buffer.Length
      invariant i == nb - k % (nb + 1)
      invariant forall l | 0 <= l < k :: buffer[l] == PatternByte(pattern, l)
    {
      buffer[k] := bpattern[i];
      Turn(k, nb + 1);
      if i == 0 {
        i := nb;
      } else {
        i := i - 1;
      }
    }
  }

  method SplitPattern(pattern: Pattern) returns (bpattern: seq<Byte>, nb: nat)
    ensures nb == Period(pattern) - 1
    ensures |bpattern| == 4 && forall j | 0 <= j <= nb :: bpattern[j] == ByteOf(pattern, j)
  {
    bpattern := [0, 0, 0, 0];
    var i, rest := 0, pattern;
    while i < 4
      invariant i <= 4 && |bpattern| == 4
      invariant rest ==
          if i == 0 then pattern else if i == 1 then pattern / 0x100 else if i == 2 then pattern / 0x1_0000
                        else if i == 3 then pattern / 0x100_0000 else 0
      invariant i > 1 ==> i <= Period(pattern)
      invariant i == 0 ==> bpattern[0] == 0
      invariant forall j | 0 <= j < i :: bpattern[j] == ByteOf(pattern, j)
    {
      if rest == 0 {
        break;
      }
      bpattern := bpattern[i := rest % 0x100];
      rest := rest / 0x100;
      i := i + 1;
    }
    nb := if i != 0 then i - 1 else 0;
  }

  lemma Turn(k: nat, n: nat)
    requires 1 <= n <= 4
    ensures (k + 1) % n == if k % n == n - 1 then 0 else k % n + 1
  {
    if n == 3 {
      TurnOfThree(k);
    } else if n == 1 {} else if n == 2 {} else {}
  }

  lemma TurnOfThree(k: nat)
    ensures (k + 1) % 3 == if k % 3 == 2 then 0 else k % 3 + 1
  {}

  /** Byte k of block i of a buffer filled with the pattern. */
  function SliceByte(p: Pattern, size: nat, i: nat, k: nat): Byte {
    PatternByte(p, i * size + k)
  }

  /** Block i of a buffer filled with the pattern. */
  function Slice(p: Pattern, size: nat, i: nat): (s: Block)
    ensures |s| == size
  {
    seq<Byte>(size, k requires k >= 0 => SliceByte(p, size, i, k))
  }

  /** When whole repetitions of the pattern fill a block, all blocks of the buffer are alike. */
  lemma SlicesAlike(p: Pattern, size: nat, i: nat, j: nat)
    requires size % Period(p) == 0
    ensures Slice(p, size, i) == Slice(p, size, j)
  {
    forall k: nat | k < size ensures SliceByte(p, size, i, k) == SliceByte(p, size, j, k) {
      var n := Period(p);
      var q := size / n;
      assert size == q * n;
      Repeats(n, q, i, k);
      Repeats(n, q, j, k);
    }
    hide SliceByte;
  }

  lemma Repeats(n: nat, q: nat, i: nat, k: nat)
    requires 1 <= n <= 4
    ensures (i * (q * n) + k) % n == k % n
  {
    var m := i * q;
    assert i * (q * n) == m * n;
    if n == 2 {
      RepeatsTwo(m, k);
    } else if n == 3 {
      RepeatsThree(m, k);
    } else if n == 4 {
      RepeatsFour(m, k);
    }
  }

  lemma RepeatsTwo(m: int, k: nat)
    requires 2 * m + k >= 0
    ensures (2 * m + k) % 2 == k % 2
  {}

  lemma RepeatsThree(m: int, k: nat)
    requires 3 * m + k >= 0
    ensures (3 * m + k) % 3 == k % 3
  {}

  lemma RepeatsFour(m: int, k: nat)
    requires 4 * m + k >= 0
    ensures (4 * m + k) % 4 == k % 4
  {}

  /** Of all the patterns in use, just the last two of the fifth flash type do not fill a block evenly. */
  lemma UnevenPatterns(flash: nat, pass: nat)
    requires flash < 5 && pass < 4
    ensures BLOCK_SIZE % Period(PATTERNS[flash][pass]) == 0 <==> !(flash == 4 && pass >= 2)
  {
    assert flash == 0 || flash == 1 || flash == 2 || flash == 3 || flash == 4;
    assert pass == 0 || pass == 1 || pass == 2 || pass == 3;
  }

  /** With those, two blocks of the buffer are alike exactly when their positions agree modulo 3. */
  lemma UnevenSlices(pass: nat, i: nat, j: nat)
    requires pass == 2 || pass == 3
    ensures Slice(PATTERNS[4][pass], BLOCK_SIZE, i) == Slice(PATTERNS[4][pass], BLOCK_SIZE, j) <==> i % 3 == j % 3
  {
    var p := PATTERNS[4][pass];
    if i % 3 == j % 3 {
      forall k: nat | k < BLOCK_SIZE ensures SliceByte(p, BLOCK_SIZE, i, k) == SliceByte(p, BLOCK_SIZE, j, k) {
        UnevenByte(pass, i, k);
        UnevenByte(pass, j, k);
      }
      hide SliceByte;
    } else {
      UnevenByte(pass, i, 0);
      UnevenByte(pass, j, 0);
      hide SliceByte;
      assert Slice(p, BLOCK_SIZE, i)[0] == SliceByte(p, BLOCK_SIZE, i, 0);
      assert Slice(p, BLOCK_SIZE, j)[0] == SliceByte(p, BLOCK_SIZE, j, 0);
    }
  }

  /** The byte of such a block is one of three different bytes, according to its position. */
  lemma UnevenByte(pass: nat, i: nat, k: nat)
    requires pass == 2 || pass == 3
    ensures SliceByte(PATTERNS[4][pass], BLOCK_SIZE, i, k) == UnevenValue(pass, (2 * (i % 3) + k) % 3)
  {
    ModThree(i, k);
    RepeatsThree(2 * (i / 3), 2 * (i % 3) + k);
    assert 2 * i + k == 3 * (2 * (i / 3)) + (2 * (i % 3) + k);
  }

  function UnevenValue(pass: nat, r: nat): Byte {
    if pass == 2 then if r == 0 then 0x1c else if r == 1 then 0x71 else 0xc7
    else if r == 0 then 0xe3 else if r == 1 then 0x8e else 0x38
  }

  lemma ModThree(i: nat, k: nat)
    ensures (i * BLOCK_SIZE + k) % 3 == (2 * i + k) % 3
  {
    assert i * BLOCK_SIZE + k == 3 * (i * 174762) + (2 * i + k);
    RepeatsThree(i * 174762, 2 * i + k);
  }

  // ---- Block numbers. ----

  /** The n low bytes of v, lowest first. */
  function LittleEndian(v: nat, n: nat): (b: Block)
    ensures |b| == n
  {
    if n == 0 then [] else [v % 256] + LittleEndian(v / 256, n - 1)
  }

  function Power256(n: nat): nat {
    if n == 0 then 1 else 256 * Power256(n - 1)
  }

  lemma {:induction false} LittleEndianUnique(v: nat, w: nat, n: nat)
    requires v < Power256(n) && w < Power256(n) && LittleEndian(v, n) == LittleEndian(w, n)
    ensures v == w
  {
    if n != 0 {
      assert LittleEndian(v, n)[0] == LittleEndian(w, n)[0];
      assert LittleEndian(v, n)[1..] == LittleEndian(v / 256, n - 1);
      assert LittleEndian(w, n)[1..] == LittleEndian(w / 256, n - 1);
      LittleEndianUnique(v / 256, w / 256, n - 1);
    }
  }

  const TWO64: nat := 0x1_0000_0000_0000_0000

  /** A block with its number written over it at the offset. */
  function Stamp(s: Block, off: nat, b: nat): (r: Block)
    requires off + 8 <= |s|
    ensures |r| == |s|
  {
    s[..off] + LittleEndian(b, 8) + s[off + 8..]
  }

  lemma StampOver(s: Block, off: nat, a: nat, b: nat)
    requires off + 8 <= |s|
    ensures Stamp(Stamp(s, off, a), off, b) == Stamp(s, off, b)
  {}

  /** Stamped blocks differ when their numbers do, whatever lies around the stamp. */
  lemma StampsDiffer(s: Block, t: Block, off: nat, a: nat, b: nat)
    requires off + 8 <= |s| && off + 8 <= |t| && a < TWO64 && b < TWO64
    requires Stamp(s, off, a) == Stamp(t, off, b)
    ensures a == b
  {
    assert Stamp(s, off, a)[off..off + 8] == LittleEndian(a, 8);
    assert Stamp(t, off, b)[off..off + 8] == LittleEndian(b, 8);
    assert Power256(4) == 0x1_0000_0000;
    assert Power256(8) == TWO64;
    LittleEndianUnique(a, b, 8);
  }
}
