/** The words, the logical functions and the block layout that SHA-1 and SHA-256 share in hash.c. */
module ShaWords {

  type Word = bv32

  // ---- Section 4.1 of FIPS 180-4. ----

  function Ch(x: Word, y: Word, z: Word): Word { (x & y) ^ (!x & z) }

  function Maj(x: Word, y: Word, z: Word): Word { (x & y) ^ (x & z) ^ (y & z) }

  // ---- The same functions as the code writes them. ----

  function CodeCh(x: Word, y: Word, z: Word): Word { z ^ (x & (y ^ z)) }

  function CodeMa(x: Word, y: Word, z: Word): Word { (x & y) | (z & (x | y)) }

  /** The rewritten selections compute the standard's functions. */
  lemma CodeSelections(x: Word, y: Word, z: Word)
    ensures CodeCh(x, y, z) == Ch(x, y, z) && CodeMa(x, y, z) == Maj(x, y, z)
  {
    ChoiceBits(x, y, z);
    MajorityBits(x, y, z);
  }

  lemma ChoiceBits(x: Word, y: Word, z: Word)
    ensures z ^ (x & (y ^ z)) == (x & y) ^ (!x & z)
  {}

  lemma MajorityBits(x: Word, y: Word, z: Word)
    ensures (x & y) | (z & (x | y)) == (x & y) ^ (x & z) ^ (y & z)
  {}

  // ---- The words of a block and of the state. ----

  /** Four bytes read most significant first. */
  function ReadSwap32(data: seq<bv8>, p: nat): Word
    requires p + 4 <= |data|
  {
    (data[p] as Word << 24) | (data[p + 1] as Word << 16) | (data[p + 2] as Word << 8) | data[p + 3] as Word
  }

  /** The words M_0 to M_15 of a block: section 5.2.1 of FIPS 180-4. */
  function BlockWords(data: seq<bv8>): (m: seq<Word>)
    requires |data| == 64
    ensures |m| == 16
  {
    seq(16, k requires 0 <= k < 16 => ReadSwap32(data, 4 * k))
  }

  /** The loop that loads a block, four words at a time. */
  method LoadBlock(data: seq<bv8>, x: array<Word>)
    requires |data| == 64 && x.Length == 16
    modifies x
    ensures x[..] == BlockWords(data)
  {
    var k := 0;
    while k < 16
      invariant k % 4 == 0 && k <= 16
      invariant forall i :: 0 <= i < k ==> x[i] == ReadSwap32(data, 4 * i)
    {
      var p := 4 * k;
      x[k] := ReadSwap32(data, p);
      x[k + 1] := ReadSwap32(data, p + 4);
      x[k + 2] := ReadSwap32(data, p + 8);
      x[k + 3] := ReadSwap32(data, p + 12);
      k := k + 4;
    }
  }

  /** The low half of a 64-bit state word. */
  function Low(s: bv64): Word {
    (s & 0xffff_ffff) as Word
  }

  function LowWords(s: seq<bv64>): (r: seq<Word>)
    ensures |r| == |s|
  {
    seq(|s|, k requires 0 <= k < |s| => Low(s[k]))
  }

  // ---- Sums modulo 2^32, in the order of the standard and in that of the code. ----

  function Sum2(a: Word, b: Word): Word { a + b }

  function Sum4(a: Word, b: Word, c: Word, d: Word): Word { a + b + c + d }

  function Sum5(a: Word, b: Word, c: Word, d: Word, e: Word): Word { a + b + c + d + e }

  /** `d += a + b + c`. */
  function CodeSum4(a: Word, b: Word, c: Word, d: Word): Word { d + (a + b + c) }

  /** `a += b + c + d + e`. */
  function CodeSum5(a: Word, b: Word, c: Word, d: Word, e: Word): Word { a + (b + c + d + e) }

  lemma CodeSums(a: Word, b: Word, c: Word, d: Word, e: Word)
    ensures CodeSum4(a, b, c, d) == Sum4(a, b, c, d)
    ensures CodeSum5(a, b, c, d, e) == Sum5(a, b, c, d, e)
  {
    SumOrders(a, b, c, d, e);
  }

  lemma SumOrders(a: Word, b: Word, c: Word, d: Word, e: Word)
    ensures d + (a + b + c) == a + b + c + d && a + (b + c + d + e) == a + b + c + d + e
  {}

  /** `state[k] += v` for a 64-bit state word and a 32-bit value. */
  function Accumulate(s: bv64, v: Word): bv64 { s + v as bv64 }

  /** It adds v to the low half. */
  lemma LowOfSum(s: bv64, v: Word)
    ensures Low(Accumulate(s, v)) == Sum2(Low(s), v)
  {
    hide Low, Accumulate, Sum2;
    AccumulateIs(s, v);
    LowIs(s);
    LowIs(s + v as bv64);
    Sum2Is((s & 0xffff_ffff) as Word, v);
    LowBits(s, v);
  }

  lemma AccumulateIs(s: bv64, v: Word)
    ensures Accumulate(s, v) == s + v as bv64
  {}

  lemma LowIs(s: bv64)
    ensures Low(s) == (s & 0xffff_ffff) as Word
  {}

  lemma Sum2Is(a: Word, b: Word)
    ensures Sum2(a, b) == a + b
  {}

  lemma LowBits(s: bv64, v: Word)
    ensures ((s + v as bv64) & 0xffff_ffff) as Word == (s & 0xffff_ffff) as Word + v
  {}

  /** Every working variable added to its state word; the state words beyond them stay as they are. */
  function Accumulated(s: seq<bv64>, vs: seq<Word>): (r: seq<bv64>)
    ensures |r| == |s|
  {
    seq(|s|, k requires 0 <= k < |s| => if k < |vs| then Accumulate(s[k], vs[k]) else s[k])
  }

  method AddTo(state: array<bv64>, vs: seq<Word>)
    requires |vs| <= state.Length
    modifies state
    ensures state[..] == Accumulated(old(state[..]), vs)
  {
    hide Accumulate;
    for i := 0 to |vs|
      invariant forall k | 0 <= k < i :: state[k] == Accumulate(old(state[k]), vs[k])
      invariant forall k | i <= k < state.Length :: state[k] == old(state[k])
    {
      state[i] := Accumulate(state[i], vs[i]);
    }
  }

  /** On the low halves this is the standard's addition of words. */
  lemma LowWordsOfSums(s: seq<bv64>, vs: seq<Word>)
    ensures LowWords(Accumulated(s, vs))
         == seq(|s|, k requires 0 <= k < |s| => if k < |vs| then Sum2(Low(s[k]), vs[k]) else Low(s[k]))
  {
    forall k | 0 <= k < |s| && k < |vs| ensures Low(Accumulate(s[k], vs[k])) == Sum2(Low(s[k]), vs[k]) {
      LowOfSum(s[k], vs[k]);
    }
    hide Low, Sum2, Accumulate;
  }
}
