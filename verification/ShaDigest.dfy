/** SHA-1 and SHA-256 as hash.c computes them, from init through any writes to final, against FIPS 180-4. */
module ShaDigest {
  import opened ShaWords
  import opened HashStream
  import Sha1
  import Sha256

  // ---- Sections 5.3 and 6 of FIPS 180-4. ----

  const H256: seq<Word> := [0x6a09e667, 0xbb67ae85, 0x3c6ef372, 0xa54ff53a, 0x510e527f,
    0x9b05688c, 0x1f83d9ab, 0x5be0cd19]

  const H1: seq<Word> := [0x67452301, 0xefcdab89, 0x98badcfe, 0x10325476, 0xc3d2e1f0]

  /** The hash value after the complete 64-byte blocks of the bytes. */
  function HashValue256(h: seq<Word>, bytes: seq<Byte>): (r: seq<Word>)
    requires |h| == 8
    ensures |r| == 8
    decreases |bytes|
  {
    if |bytes| < 64 then h else HashValue256(Sha256.Compress(h, BlockWords(bytes[..64])), bytes[64..])
  }

  function HashValue1(h: seq<Word>, bytes: seq<Byte>): (r: seq<Word>)
    requires |h| == 5
    ensures |r| == 5
    decreases |bytes|
  {
    if |bytes| < 64 then h else HashValue1(Sha1.Compress(h, BlockWords(bytes[..64])), bytes[64..])
  }

  function WordOut(w: Word): (b: seq<Byte>)
    ensures |b| == 4
  {
    [(w >> 24) as Byte, ((w >> 16) & 0xff) as Byte, ((w >> 8) & 0xff) as Byte, (w & 0xff) as Byte]
  }

  function WordsOut(h: seq<Word>): seq<Byte> {
    if h == [] then [] else WordsOut(h[..|h| - 1]) + WordOut(h[|h| - 1])
  }

  /** SHA-256 of a message. */
  function Fips256(message: seq<Byte>): seq<Byte> {
    WordsOut(HashValue256(H256, message + Padding(Sha256Alg(), |message|)))
  }

  /** SHA-1 of a message. */
  function Fips1(message: seq<Byte>): seq<Byte> {
    WordsOut(HashValue1(H1, message + Padding(Sha1Alg(), |message|)))
  }

  // ---- The code. ----

  function Sha256Alg(): (alg: Alg)
    ensures alg.Valid()
  {
    Alg(false, 8, 4,
        [0x6a09e667, 0xbb67ae85, 0x3c6ef372, 0xa54ff53a, 0x510e527f, 0x9b05688c, 0x1f83d9ab, 0x5be0cd19],
        (s, block) => if |s| == 8 && |block| == 64 then Sha256.Transformed(s, block) else s)
  }

  function Sha1Alg(): (alg: Alg)
    ensures alg.Valid()
  {
    Alg(false, 5, 4,
        [0x67452301, 0xefcdab89, 0x98badcfe, 0x10325476, 0xc3d2e1f0, 0, 0, 0],
        (s, block) => if |s| == 8 && |block| == 64 then Sha1.Transformed(s, block) else s)
  }

  /** The bytes written for a state word are those of its low half. */
  lemma StateBytesLow(s: bv64)
    ensures StateBytes(s, 4) == WordOut(Low(s))
  {}

  lemma {:induction false} WordBytesLow(s: Words)
    ensures WordBytes(s, 4) == WordsOut(LowWords(s))
  {
    hide StateBytes, WordOut, Low;
    if s != [] {
      var front := s[..|s| - 1];
      WordBytesLow(front);
      StateBytesLow(s[|s| - 1]);
      assert LowWords(s)[..|s| - 1] == LowWords(front);
    }
  }

  lemma {:induction false} Folds256(s: Words, bytes: seq<Byte>)
    requires |s| == 8
    ensures |Fold(Sha256Alg(), s, bytes)| == 8
    ensures LowWords(Fold(Sha256Alg(), s, bytes)) == HashValue256(LowWords(s), bytes)
    decreases |bytes|
  {
    hide LowWords, BlockWords, Sha256.Transformed, Sha256.Compress;
    if |bytes| >= 64 {
      var next := Sha256.Transformed(s, bytes[..64]);
      Sha256.TransformCompresses(s, bytes[..64]);
      Folds256(next, bytes[64..]);
    }
  }

  lemma {:induction false} Folds1(s: Words, bytes: seq<Byte>)
    requires |s| == 8
    ensures |Fold(Sha1Alg(), s, bytes)| == 8
    ensures LowWords(Fold(Sha1Alg(), s, bytes))[..5] == HashValue1(LowWords(s)[..5], bytes)
    decreases |bytes|
  {
    hide LowWords, BlockWords, Sha1.Transformed, Sha1.Compress;
    if |bytes| >= 64 {
      var next := Sha1.Transformed(s, bytes[..64]);
      Sha1.TransformCompresses(s, bytes[..64]);
      Folds1(next, bytes[64..]);
    }
  }

  /** SHA-256 as the code computes it is SHA-256. */
  lemma Hash256(message: seq<Byte>)
    ensures Hash(Sha256Alg(), message) == Fips256(message)
  {
    var alg := Sha256Alg();
    var padded := message + Padding(alg, |message|);
    Folds256(alg.init, padded);
    InitialValues();
    var s := Fold(alg, alg.init, padded);
    hide Fold, Padding, LowWords, WordBytes, WordsOut, HashValue256;
    assert s[..8] == s;
    WordBytesLow(s);
  }

  lemma InitialValues()
    ensures LowWords(Sha256Alg().init) == H256 && LowWords(Sha1Alg().init)[..5] == H1
  {}

  /** SHA-1 as the code computes it is SHA-1. */
  lemma Hash1(message: seq<Byte>)
    ensures Hash(Sha1Alg(), message) == Fips1(message)
  {
    var alg := Sha1Alg();
    var padded := message + Padding(alg, |message|);
    Folds1(alg.init, padded);
    InitialValues();
    var s := Fold(alg, alg.init, padded);
    assert LowWords(s[..5]) == LowWords(s)[..5];
    hide Fold, Padding, LowWords, WordBytes, WordsOut, HashValue1;
    WordBytesLow(s[..5]);
  }

  /** However a message is split into writes, the code's SHA-256 digest is that of the standard. */
  method Sha256Pieces(pieces: seq<seq<Byte>>) returns (digest: seq<Byte>)
    ensures digest == Fips256(Flat(pieces))
  {
    Hash256(Flat(pieces));
    digest := HashPieces(Sha256Alg(), pieces);
  }

  /** However a message is split into writes, the code's SHA-1 digest is that of the standard. */
  method Sha1Pieces(pieces: seq<seq<Byte>>) returns (digest: seq<Byte>)
    ensures digest == Fips1(Flat(pieces))
  {
    Hash1(Flat(pieces));
    digest := HashPieces(Sha1Alg(), pieces);
  }
}
