/** The SHA-1 hash computation: section 6.1.2 of FIPS 180-4, and the code of hash.c that follows the alternative of
    section 6.1.3, with a schedule of 16 words kept in place and registers that change roles. */
module Sha1 {
  import opened ShaWords

  // ---- Sections 4.1.1, 4.2.1 and 6.1.2 of FIPS 180-4. ----

  function F(t: nat, x: Word, y: Word, z: Word): Word {
    if t < 20 then Ch(x, y, z)
    else if t < 40 then x ^ y ^ z
    else if t < 60 then Maj(x, y, z)
    else x ^ y ^ z
  }

  function K(t: nat): Word {
    if t < 20 then 0x5a827999 else if t < 40 then 0x6ed9eba1 else if t < 60 then 0x8f1bbcdc else 0xca62c1d6
  }

  /** The exclusive or of four earlier words, rotated. */
  function Mix(a: Word, b: Word, c: Word, d: Word): Word { (a ^ b ^ c ^ d).RotateLeft(1) }

  /** W_t of the message schedule. */
  function Schedule(m: seq<Word>, t: nat): Word
    requires |m| == 16
  {
    if t < 16 then m[t]
    else Mix(Schedule(m, t - 3), Schedule(m, t - 8), Schedule(m, t - 14), Schedule(m, t - 16))
  }

  /** The working variables. */
  datatype Vars = Vars(a: Word, b: Word, c: Word, d: Word, e: Word)

  function Rotl5(x: Word): Word { x.RotateLeft(5) }

  function Rotl30(x: Word): Word { x.RotateLeft(30) }

  function Round(v: Vars, t: nat, w: Word): Vars {
    Vars(Sum5(Rotl5(v.a), F(t, v.b, v.c, v.d), v.e, K(t), w), v.a, Rotl30(v.b), v.c, v.d)
  }

  /** The working variables after t rounds. */
  function Rounds(start: Vars, m: seq<Word>, t: nat): Vars
    requires |m| == 16
  {
    if t == 0 then start else Round(Rounds(start, m, t - 1), t - 1, Schedule(m, t - 1))
  }

  /** The next hash value, from the one before and the words of a block. */
  function Compress(h: seq<Word>, m: seq<Word>): (r: seq<Word>)
    requires |h| == 5 && |m| == 16
    ensures |r| == 5
  {
    var v := Rounds(Vars(h[0], h[1], h[2], h[3], h[4]), m, 80);
    [Sum2(h[0], v.a), Sum2(h[1], v.b), Sum2(h[2], v.c), Sum2(h[3], v.d), Sum2(h[4], v.e)]
  }

  // ---- The code. ----

  // The macro ROL32(a, n) is (a << n) | (a >> (32 - n)), and stands expanded in these functions.

  function CodeRol5(x: Word): Word { (x << 5) | (x >> 27) }

  function CodeRol30(x: Word): Word { (x << 30) | (x >> 2) }

  /** The macro rotates. */
  lemma CodeRotations(x: Word)
    ensures CodeRol5(x) == Rotl5(x) && CodeRol30(x) == Rotl30(x)
  {}

  /** The macro F1, F2, F3 or F4 that step t uses. */
  function CodeF(t: nat, x: Word, y: Word, z: Word): Word {
    if t < 20 then CodeCh(x, y, z)
    else if t < 40 then x ^ y ^ z
    else if t < 60 then CodeMa(x, y, z)
    else x ^ y ^ z
  }

  /** The exclusive or of the macro M, in its own order. */
  function CodeMix(a: Word, b: Word, c: Word, d: Word): Word {
    var tm := d ^ c ^ b ^ a;
    (tm << 1) | (tm >> 31)
  }

  lemma MixOrder(a: Word, b: Word, c: Word, d: Word)
    ensures CodeMix(a, b, c, d) == Mix(a, b, c, d)
  {
    MixBits(a, b, c, d);
  }

  lemma MixBits(a: Word, b: Word, c: Word, d: Word)
    ensures ((d ^ c ^ b ^ a) << 1) | ((d ^ c ^ b ^ a) >> 31) == (a ^ b ^ c ^ d).RotateLeft(1)
  {}

  /** `e += rotated + f + k + m`. */
  function CodeSum(rotated: Word, f: Word, e: Word, k: Word, m: Word): Word { e + (rotated + f + k + m) }

  lemma CodeSumOrder(rotated: Word, f: Word, e: Word, k: Word, m: Word)
    ensures CodeSum(rotated, f, e, k, m) == Sum5(rotated, f, e, k, m)
  {
    SumBits(rotated, f, e, k, m);
  }

  lemma SumBits(rotated: Word, f: Word, e: Word, k: Word, m: Word)
    ensures e + (rotated + f + k + m) == rotated + f + e + k + m
  {}

  /** Before step t, x[k] is the last schedule word with index k modulo 16 that has been computed. */
  ghost predicate Window(x: seq<Word>, m: seq<Word>, t: nat)
    requires |x| == 16 && |m| == 16
  {
    forall k | 0 <= k < 16 :: x[k] == Schedule(m, Last(t, k))
  }

  /** The last index below t, or below 16 to begin with, that is k modulo 16. */
  function Last(t: nat, k: nat): (i: nat)
    requires k < 16
    ensures i % 16 == k && (i < 16 || i < t)
    ensures i + 16 >= t
  {
    if t < 16 then k else if k < t % 16 then t - t % 16 + k else t - t % 16 + k - 16
  }

  lemma LastOf(t: nat, i: nat)
    requires i < t <= i + 16 && t >= 16
    ensures Last(t, i % 16) == i
  {}

  lemma LastStep(t: nat, k: nat)
    requires k < 16
    ensures Last(t + 1, k) == if k == t % 16 then t else Last(t, k)
  {}

  lemma WindowStep(x: seq<Word>, m: seq<Word>, t: nat)
    requires |x| == 16 && |m| == 16 && Window(x, m, t)
    ensures Window(x[t % 16 := Schedule(m, t)], m, t + 1)
  {
    hide Schedule, Last;
    var y := x[t % 16 := Schedule(m, t)];
    forall k | 0 <= k < 16 ensures y[k] == Schedule(m, Last(t + 1, k)) {
      LastStep(t, k);
    }
  }

  /** The word of step t: x[t] for the first 16 steps, and then the macro M. */
  method NextWord(x: array<Word>, t: nat, ghost m: seq<Word>) returns (w: Word)
    requires x.Length == 16 && |m| == 16 && Window(x[..], m, t)
    modifies x
    ensures w == Schedule(m, t) && Window(x[..], m, t + 1)
  {
    WindowStep(x[..], m, t);
    ghost var before := x[..];
    if t >= 16 {
      hide CodeMix, Mix, Schedule, Last;
      LastOf(t, t - 16);
      LastOf(t, t - 14);
      LastOf(t, t - 8);
      LastOf(t, t - 3);
      ScheduleStep(m, t);
      x[t % 16] := CodeMix(x[(t - 3) % 16], x[(t - 8) % 16], x[(t - 14) % 16], x[t % 16]);
    }
    assert x[..] == before[t % 16 := Schedule(m, t)];
    w := x[t % 16];
  }

  lemma ScheduleStep(m: seq<Word>, t: nat)
    requires |m| == 16 && t >= 16
    ensures CodeMix(Schedule(m, t - 3), Schedule(m, t - 8), Schedule(m, t - 14), Schedule(m, t - 16)) == Schedule(m, t)
  {
    MixOrder(Schedule(m, t - 3), Schedule(m, t - 8), Schedule(m, t - 14), Schedule(m, t - 16));
    hide Mix, CodeMix;
  }

  lemma CodeFIsF(t: nat, x: Word, y: Word, z: Word)
    ensures CodeF(t, x, y, z) == F(t, x, y, z)
  {
    CodeSelections(x, y, z);
    hide Ch, Maj, CodeCh, CodeMa;
  }

  /** The macro SHA1STEP on the registers of step t. */
  method Update(v: Vars, t: nat, w: Word) returns (b: Word, e: Word)
    ensures Vars(e, v.a, b, v.c, v.d) == Round(v, t, w)
  {
    hide F, CodeF, K, Sum5, CodeSum, Rotl5, Rotl30, CodeRol5, CodeRol30;
    CodeFIsF(t, v.b, v.c, v.d);
    CodeRotations(v.a);
    CodeRotations(v.b);
    var a5 := CodeRol5(v.a);
    CodeSumOrder(a5, CodeF(t, v.b, v.c, v.d), v.e, K(t), w);
    e := CodeSum(a5, CodeF(t, v.b, v.c, v.d), v.e, K(t), w);
    b := CodeRol30(v.b);
  }

  lemma RoundsStep(start: Vars, m: seq<Word>, t: nat)
    requires |m| == 16
    ensures Rounds(start, m, t + 1) == Round(Rounds(start, m, t), t, Schedule(m, t))
  {}

  /** Step t: after it every register has the next name. */
  method Step(a: Word, b: Word, c: Word, d: Word, e: Word, t: nat, x: array<Word>, ghost m: seq<Word>,
              ghost start: Vars) returns (b1: Word, e1: Word)
    requires x.Length == 16 && |m| == 16
    requires Window(x[..], m, t) && Vars(a, b, c, d, e) == Rounds(start, m, t)
    modifies x
    ensures Window(x[..], m, t + 1) && Vars(e1, a, b1, c, d) == Rounds(start, m, t + 1)
  {
    hide Window, Round, Rounds, Schedule;
    RoundsStep(start, m, t);
    var w := NextWord(x, t, m);
    b1, e1 := Update(Vars(a, b, c, d, e), t, w);
  }

  /** Five steps, after which every register has its own name again. */
  method FiveSteps(v: Vars, t: nat, x: array<Word>, ghost m: seq<Word>, ghost start: Vars) returns (r: Vars)
    requires x.Length == 16 && |m| == 16
    requires Window(x[..], m, t) && v == Rounds(start, m, t)
    modifies x
    ensures Window(x[..], m, t + 5) && r == Rounds(start, m, t + 5)
  {
    hide Window, Rounds;
    var Vars(a, b, c, d, e) := v;
    b, e := Step(a, b, c, d, e, t, x, m, start);
    a, d := Step(e, a, b, c, d, t + 1, x, m, start);
    e, c := Step(d, e, a, b, c, t + 2, x, m, start);
    d, b := Step(c, d, e, a, b, t + 3, x, m, start);
    c, a := Step(b, c, d, e, a, t + 4, x, m, start);
    r := Vars(a, b, c, d, e);
  }

  /** The 80 steps. */
  method AllSteps(x: array<Word>, start: Vars, ghost m: seq<Word>) returns (v: Vars)
    requires x.Length == 16 && |m| == 16 && x[..] == m
    modifies x
    ensures v == Rounds(start, m, 80)
  {
    v := start;
    var t := 0;
    while t < 80
      invariant t <= 80 && t % 5 == 0
      invariant Window(x[..], m, t) && v == Rounds(start, m, t)
    {
      hide Window, Rounds;
      v := FiveSteps(v, t, x, m, start);
      t := t + 5;
    }
  }

  /** sha1_transform_cc on the first five 64-bit words of the state. */
  method TransformCc(state: array<bv64>, data: seq<bv8>)
    requires state.Length == 8 && |data| == 64
    modifies state
    ensures state[..] == Transformed(old(state[..]), data)
  {
    hide Rounds, Accumulate, Low, BlockWords;
    var x := new Word[16];
    LoadBlock(data, x);
    var v := AllSteps(x, VarsOf(state[..]), BlockWords(data));
    AddTo(state, VarsSeq(v));
  }

  function VarsSeq(v: Vars): (r: seq<Word>)
    ensures |r| == 5
  {
    [v.a, v.b, v.c, v.d, v.e]
  }

  /** The registers as they are loaded: the low halves of the first five state words. */
  function VarsOf(s: seq<bv64>): Vars
    requires |s| == 8
  {
    Vars(Low(s[0]), Low(s[1]), Low(s[2]), Low(s[3]), Low(s[4]))
  }

  /** The state after a block. */
  function Transformed(s: seq<bv64>, data: seq<bv8>): (r: seq<bv64>)
    requires |s| == 8 && |data| == 64
    ensures |r| == 8
  {
    Accumulated(s, VarsSeq(Rounds(VarsOf(s), BlockWords(data), 80)))
  }

  /** On the low halves, the code's transform is the hash computation of the standard; the last three words of the
      state are left alone. */
  lemma TransformCompresses(s: seq<bv64>, data: seq<bv8>)
    requires |s| == 8 && |data| == 64
    ensures LowWords(Transformed(s, data))[..5] == Compress(LowWords(s)[..5], BlockWords(data))
    ensures Transformed(s, data)[5..] == s[5..]
  {
    hide Low, Accumulate, Sum2, Rounds;
    LowWordsOfSums(s, VarsSeq(Rounds(VarsOf(s), BlockWords(data), 80)));
  }
}
