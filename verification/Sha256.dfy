/** The SHA-256 compression function: section 6.2.2 of FIPS 180-4, and the code of hash.c that computes it with a
    rolling schedule of 16 words and registers that change roles instead of being moved. */
module Sha256 {

  import opened ShaWords

  /** Section 4.2.2 of FIPS 180-4. */
  const K256: seq<Word> := [
    0x428a2f98, 0x71374491, 0xb5c0fbcf, 0xe9b5dba5, 0x3956c25b, 0x59f111f1, 0x923f82a4, 0xab1c5ed5,
    0xd807aa98, 0x12835b01, 0x243185be, 0x550c7dc3, 0x72be5d74, 0x80deb1fe, 0x9bdc06a7, 0xc19bf174,
    0xe49b69c1, 0xefbe4786, 0x0fc19dc6, 0x240ca1cc, 0x2de92c6f, 0x4a7484aa, 0x5cb0a9dc, 0x76f988da,
    0x983e5152, 0xa831c66d, 0xb00327c8, 0xbf597fc7, 0xc6e00bf3, 0xd5a79147, 0x06ca6351, 0x14292967,
    0x27b70a85, 0x2e1b2138, 0x4d2c6dfc, 0x53380d13, 0x650a7354, 0x766a0abb, 0x81c2c92e, 0x92722c85,
    0xa2bfe8a1, 0xa81a664b, 0xc24b8b70, 0xc76c51a3, 0xd192e819, 0xd6990624, 0xf40e3585, 0x106aa070,
    0x19a4c116, 0x1e376c08, 0x2748774c, 0x34b0bcb5, 0x391c0cb3, 0x4ed8aa4a, 0x5b9cca4f, 0x682e6ff3,
    0x748f82ee, 0x78a5636f, 0x84c87814, 0x8cc70208, 0x90befffa, 0xa4506ceb, 0xbef9a3f7, 0xc67178f2
  ]

  // ---- The functions of section 4.1.2 of FIPS 180-4. ----

  function BigSigma0(x: Word): Word { x.RotateRight(2) ^ x.RotateRight(13) ^ x.RotateRight(22) }

  function BigSigma1(x: Word): Word { x.RotateRight(6) ^ x.RotateRight(11) ^ x.RotateRight(25) }

  function SmallSigma0(x: Word): Word { x.RotateRight(7) ^ x.RotateRight(18) ^ (x >> 3) }

  function SmallSigma1(x: Word): Word { x.RotateRight(17) ^ x.RotateRight(19) ^ (x >> 10) }

  // ---- The same functions as the code writes them. ----

  // The macro ROR32(a, n) is (a >> n) | (a << (32 - n)), and stands expanded in these functions.

  function CodeS0(x: Word): Word {
    var r9 := ((x >> 9) | (x << 23)) ^ x;
    var r11 := ((r9 >> 11) | (r9 << 21)) ^ x;
    (r11 >> 2) | (r11 << 30)
  }

  function CodeS1(x: Word): Word {
    var r14 := ((x >> 14) | (x << 18)) ^ x;
    var r5 := ((r14 >> 5) | (r14 << 27)) ^ x;
    (r5 >> 6) | (r5 << 26)
  }

  function CodeSmall0(x: Word): Word {
    var r11 := ((x >> 11) | (x << 21)) ^ x;
    ((r11 >> 7) | (r11 << 25)) ^ (x >> 3)
  }

  function CodeSmall1(x: Word): Word {
    var r2 := ((x >> 2) | (x << 30)) ^ x;
    ((r2 >> 17) | (r2 << 15)) ^ (x >> 10)
  }

  /** The nested rotations compute the standard's functions. */
  lemma CodeRotations(x: Word)
    ensures CodeS0(x) == BigSigma0(x) && CodeS1(x) == BigSigma1(x)
    ensures CodeSmall0(x) == SmallSigma0(x) && CodeSmall1(x) == SmallSigma1(x)
  {}

  // ---- Section 6.2.2 of FIPS 180-4. ----

  /** W_t of the message schedule. */
  function Schedule(m: seq<Word>, t: nat): Word
    requires |m| == 16
  {
    if t < 16 then m[t]
    else Sum4(SmallSigma1(Schedule(m, t - 2)), Schedule(m, t - 7),
         SmallSigma0(Schedule(m, t - 15)), Schedule(m, t - 16))
  }

  /** The working variables. */
  datatype Vars = Vars(a: Word, b: Word, c: Word, d: Word, e: Word, f: Word, g: Word, h: Word)

  function Round(v: Vars, k: Word, w: Word): Vars {
    var t1 := Sum5(v.h, BigSigma1(v.e), Ch(v.e, v.f, v.g), k, w);
    var t2 := Sum2(BigSigma0(v.a), Maj(v.a, v.b, v.c));
    Vars(Sum2(t1, t2), v.a, v.b, v.c, Sum2(v.d, t1), v.e, v.f, v.g)
  }

  /** The working variables after t rounds. */
  function Rounds(start: Vars, m: seq<Word>, t: nat): Vars
    requires |m| == 16 && t <= 64
  {
    if t == 0 then start else Round(Rounds(start, m, t - 1), K256[t - 1], Schedule(m, t - 1))
  }

  /** The next hash value, from the one before and the words of a block. */
  function Compress(h: seq<Word>, m: seq<Word>): (r: seq<Word>)
    requires |h| == 8 && |m| == 16
    ensures |r| == 8
  {
    var v := Rounds(Vars(h[0], h[1], h[2], h[3], h[4], h[5], h[6], h[7]), m, 64);
    [Sum2(h[0], v.a), Sum2(h[1], v.b), Sum2(h[2], v.c), Sum2(h[3], v.d),
     Sum2(h[4], v.e), Sum2(h[5], v.f), Sum2(h[6], v.g), Sum2(h[7], v.h)]
  }

  // ---- The code. ----

  /** Before step i of the pass that starts at round j, x[k] is the last schedule word with index k modulo 16 that
      has been computed. */
  ghost predicate Window(x: seq<Word>, m: seq<Word>, j: nat, i: nat)
    requires |x| == 16 && |m| == 16
  {
    forall k | 0 <= k < 16 :: x[k] == Schedule(m, if j < 16 || k < i then j + k else j + k - 16)
  }

  /** A schedule word is what the code adds in place to the word 16 steps back. */
  lemma ScheduleStep(m: seq<Word>, t: nat)
    requires |m| == 16 && t >= 16
    ensures CodeSum4(CodeSmall1(Schedule(m, t - 2)), Schedule(m, t - 7), CodeSmall0(Schedule(m, t - 15)),
                     Schedule(m, t - 16)) == Schedule(m, t)
  {
    hide CodeSmall0, CodeSmall1, SmallSigma0, SmallSigma1, CodeSum4, Sum4;
    var w1, w0 := Schedule(m, t - 2), Schedule(m, t - 15);
    CodeRotations(w1);
    CodeRotations(w0);
    CodeSums(SmallSigma1(w1), Schedule(m, t - 7), SmallSigma0(w0), Schedule(m, t - 16), 0);
  }

  /** The macros BLK0 and BLK2: the schedule word of round j + i, computed in place. */
  method Blk(x: array<Word>, j: nat, i: nat, ghost m: seq<Word>) returns (w: Word)
    requires x.Length == 16 && |m| == 16 && i < 16 && j % 16 == 0
    requires Window(x[..], m, j, i)
    modifies x
    ensures Window(x[..], m, j, i + 1) && w == Schedule(m, j + i)
  {
    hide CodeSmall0, CodeSmall1, CodeSum4, Schedule, Window;
    WindowReads(x[..], m, j, i);
    WindowStep(x[..], m, j, i);
    ghost var before := x[..];
    if j != 0 {
      ScheduleStep(m, j + i);
      x[i] := CodeSum4(CodeSmall1(x[(i + 14) % 16]), x[(i + 9) % 16], CodeSmall0(x[(i + 1) % 16]), x[i]);
    }
    assert x[..] == before[i := Schedule(m, j + i)];
    w := x[i];
  }

  /** The earlier schedule words where the code looks for them. */
  lemma WindowReads(x: seq<Word>, m: seq<Word>, j: nat, i: nat)
    requires |x| == 16 && |m| == 16 && i < 16 && j % 16 == 0 && Window(x, m, j, i)
    ensures j == 0 ==> x[i] == Schedule(m, i)
    ensures j != 0 ==> x[i] == Schedule(m, j + i - 16) && x[(i + 14) % 16] == Schedule(m, j + i - 2)
    ensures j != 0 ==> x[(i + 9) % 16] == Schedule(m, j + i - 7) && x[(i + 1) % 16] == Schedule(m, j + i - 15)
  {
    hide Schedule;
  }

  lemma WindowStep(x: seq<Word>, m: seq<Word>, j: nat, i: nat)
    requires |x| == 16 && |m| == 16 && i < 16 && Window(x, m, j, i)
    ensures Window(x[i := Schedule(m, j + i)], m, j, i + 1)
  {
    hide Schedule;
  }

  lemma RoundsStep(start: Vars, m: seq<Word>, t: nat)
    requires |m| == 16 && t < 64
    ensures Rounds(start, m, t + 1) == Round(Rounds(start, m, t), K256[t], Schedule(m, t))
  {}

  /** The two register updates of a round. */
  method Update(v: Vars, k: Word, w: Word) returns (d: Word, h: Word)
    ensures Vars(h, v.a, v.b, v.c, d, v.e, v.f, v.g) == Round(v, k, w)
  {
    hide BigSigma0, BigSigma1, Ch, Maj, CodeS0, CodeS1, CodeCh, CodeMa, CodeSum5, Sum5, Sum2;
    CodeRotations(v.e);
    CodeRotations(v.a);
    CodeSelections(v.e, v.f, v.g);
    CodeSelections(v.a, v.b, v.c);
    CodeSums(v.h, CodeS1(v.e), CodeCh(v.e, v.f, v.g), k, w);
    h := CodeSum5(v.h, CodeS1(v.e), CodeCh(v.e, v.f, v.g), k, w);
    d := Sum2(v.d, h);
    h := Sum2(h, Sum2(CodeS0(v.a), CodeMa(v.a, v.b, v.c)));
  }

  /** The macro R updates two registers; in the next round every register has the next name. */
  method R(a: Word, b: Word, c: Word, d: Word, e: Word, f: Word, g: Word, h: Word, i: nat, j: nat, x: array<Word>,
           ghost m: seq<Word>, ghost start: Vars) returns (d1: Word, h1: Word)
    requires x.Length == 16 && |m| == 16 && i < 16 && j <= 48 && j % 16 == 0
    requires Window(x[..], m, j, i) && Vars(a, b, c, d, e, f, g, h) == Rounds(start, m, i + j)
    modifies x
    ensures Window(x[..], m, j, i + 1) && Vars(h1, a, b, c, d1, e, f, g) == Rounds(start, m, i + 1 + j)
  {
    hide Window, Round, Rounds, Schedule;
    RoundsStep(start, m, i + j);
    var w := Blk(x, j, i, m);
    d1, h1 := Update(Vars(a, b, c, d, e, f, g, h), K256[i + j], w);
  }

  /** The macro RX_8: eight rounds, after which every register has its own name again. */
  method Rx8(v: Vars, x: array<Word>, j: nat, i: nat, ghost m: seq<Word>, ghost start: Vars) returns (r: Vars)
    requires x.Length == 16 && |m| == 16 && (i == 0 || i == 8) && j <= 48 && j % 16 == 0
    requires Window(x[..], m, j, i) && v == Rounds(start, m, i + j)
    modifies x
    ensures Window(x[..], m, j, i + 8) && r == Rounds(start, m, i + 8 + j)
  {
    hide Window, Round, Rounds, Schedule;
    var Vars(a, b, c, d, e, f, g, h) := v;
    d, h := R(a, b, c, d, e, f, g, h, i, j, x, m, start);
    c, g := R(h, a, b, c, d, e, f, g, i + 1, j, x, m, start);
    b, f := R(g, h, a, b, c, d, e, f, i + 2, j, x, m, start);
    a, e := R(f, g, h, a, b, c, d, e, i + 3, j, x, m, start);
    h, d := R(e, f, g, h, a, b, c, d, i + 4, j, x, m, start);
    g, c := R(d, e, f, g, h, a, b, c, i + 5, j, x, m, start);
    f, b := R(c, d, e, f, g, h, a, b, i + 6, j, x, m, start);
    e, a := R(b, c, d, e, f, g, h, a, i + 7, j, x, m, start);
    r := Vars(a, b, c, d, e, f, g, h);
  }

  /** The 64 rounds, 16 in each pass over the schedule. */
  method AllRounds(x: array<Word>, start: Vars, ghost m: seq<Word>) returns (v: Vars)
    requires x.Length == 16 && |m| == 16 && x[..] == m
    modifies x
    ensures v == Rounds(start, m, 64)
  {
    hide Round;
    v := start;
    var j := 0;
    while j < 64
      invariant j <= 64 && j % 16 == 0
      invariant Window(x[..], m, j, 0) && v == Rounds(start, m, j)
    {
      hide Rounds, Schedule;
      v := Rx8(v, x, j, 0, m, start);
      v := Rx8(v, x, j, 8, m, start);
      NextPass(x[..], m, j);
      j := j + 16;
    }
  }

  /** sha256_transform_cc on the eight 64-bit words of the state. */
  method TransformCc(state: array<bv64>, data: seq<bv8>)
    requires state.Length == 8 && |data| == 64
    modifies state
    ensures state[..] == Transformed(old(state[..]), data)
  {
    hide Rounds, Accumulate, Low, BlockWords;
    var x := new Word[16];
    LoadBlock(data, x);
    var v := AllRounds(x, VarsOf(state[..]), BlockWords(data));
    AddTo(state, VarsSeq(v));
  }

  function VarsSeq(v: Vars): (r: seq<Word>)
    ensures |r| == 8
  {
    [v.a, v.b, v.c, v.d, v.e, v.f, v.g, v.h]
  }

  lemma NextPass(x: seq<Word>, m: seq<Word>, j: nat)
    requires |x| == 16 && |m| == 16 && Window(x, m, j, 16)
    ensures Window(x, m, j + 16, 0)
  {}

  /** The registers as they are loaded: the low halves of the state words. */
  function VarsOf(s: seq<bv64>): Vars
    requires |s| == 8
  {
    Vars(Low(s[0]), Low(s[1]), Low(s[2]), Low(s[3]), Low(s[4]), Low(s[5]), Low(s[6]), Low(s[7]))
  }

  /** The state after a block: 64-bit words to which the working variables have been added, with whatever carries
      have accumulated in their high halves. */
  function Transformed(s: seq<bv64>, data: seq<bv8>): (r: seq<bv64>)
    requires |s| == 8 && |data| == 64
    ensures |r| == 8
  {
    Accumulated(s, VarsSeq(Rounds(VarsOf(s), BlockWords(data), 64)))
  }

  /** On the low halves, the code's transform is the compression function of the standard. */
  lemma TransformCompresses(s: seq<bv64>, data: seq<bv8>)
    requires |s| == 8 && |data| == 64
    ensures LowWords(Transformed(s, data)) == Compress(LowWords(s), BlockWords(data))
  {
    hide Low, Accumulate, Sum2, Rounds;
    LowWordsOfSums(s, VarsSeq(Rounds(VarsOf(s), BlockWords(data), 64)));
  }
}
