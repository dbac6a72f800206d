/** Streaming SHA-1, SHA-256 and SHA-512 over an arbitrary block transform (hash.c): buffering of partial blocks,
    padding, and the digest, whatever the pieces the message arrives in. */
module HashStream {

  type Byte = bv8

  /** The chaining words; only the low wordBytes of each count towards the digest. */
  type Words = seq<bv64>

  /** One of the SHA algorithms: the wide ones have blocks of 128 bytes and a 16-byte length field, the others
      blocks of 64 bytes and an 8-byte length field. */
  datatype Alg = Alg(wide: bool, words: nat, wordBytes: nat, init: Words, transform: (Words, seq<Byte>) -> Words)
  {
    function Block(): (n: nat)
      ensures n == 64 || n == 128
    {
      if wide then 128 else 64
    }

    function LengthBytes(): nat {
      if wide then 16 else 8
    }

    /** n modulo the block size. */
    function Rem(n: nat): (r: nat)
      ensures r < Block() && r <= n
    {
      if wide then n % 128 else n % 64
    }

    ghost predicate Valid() {
      && words <= 8 && wordBytes == (if wide then 8 else 4)
      && |init| == 8
      && forall w: Words, b: seq<Byte> :: |w| == 8 ==> |transform(w, b)| == 8
    }
  }

  const TWO64: nat := 0x1_0000_0000_0000_0000

  /** The transform folded over the complete blocks of the bytes, as they are parsed in order. */
  function Fold(alg: Alg, w: Words, bytes: seq<Byte>): Words
    decreases |bytes|
  {
    if |bytes| < alg.Block() then w
    else Fold(alg, alg.transform(w, bytes[..alg.Block()]), bytes[alg.Block()..])
  }

  lemma {:induction false} FoldAppend(alg: Alg, w: Words, a: seq<Byte>, b: seq<Byte>)
    requires alg.Rem(|a|) == 0
    ensures Fold(alg, w, a + b) == Fold(alg, Fold(alg, w, a), b)
    decreases |a|
  {
    var n := alg.Block();
    if |a| < n {
      assert a == [] && a + b == b;
    } else {
      assert (a + b)[..n] == a[..n] && (a + b)[n..] == a[n..] + b;
      var q := RemQuotient(alg, |a|);
      RemUnique(alg, |a| - n, q - 1, 0);
      FoldAppend(alg, alg.transform(w, a[..n]), a[n..], b);
    }
  }

  lemma {:induction false} FoldLength(alg: Alg, w: Words, bytes: seq<Byte>)
    requires alg.Valid() && |w| == 8
    ensures |Fold(alg, w, bytes)| == 8
    decreases |bytes|
  {
    if |bytes| >= alg.Block() {
      FoldLength(alg, alg.transform(w, bytes[..alg.Block()]), bytes[alg.Block()..]);
    }
  }

  function Zeros(n: nat): (z: seq<Byte>)
    ensures |z| == n
  {
    seq(n, _ => 0)
  }

  function LowByte(v: nat): Byte {
    (v % 256) as Byte
  }

  function FourBytes(v: nat): (b: seq<Byte>)
    ensures |b| == 4
  {
    [LowByte(v / 0x100_0000), LowByte(v / 0x1_0000), LowByte(v / 0x100), LowByte(v)]
  }

  /** The n low bytes of v, most significant first. */
  function BigEndian(v: nat, n: nat): (b: seq<Byte>)
    ensures |b| == n
  {
    if n == 0 then [] else BigEndian(v / 256, n - 1) + [LowByte(v)]
  }

  /** The least number of zero bytes that makes message, marker and length fill whole blocks. */
  function ZeroCount(alg: Alg, n: nat): nat {
    var r := alg.Rem(n);
    if r + 1 + alg.LengthBytes() <= alg.Block() then alg.Block() - alg.LengthBytes() - 1 - r
    else 2 * alg.Block() - alg.LengthBytes() - 1 - r
  }

  /** The padding of sections 5.1.1 and 5.1.2 of FIPS 180-4 for a message of n bytes: a 1 bit, zero bits, and the
      length in bits. */
  function Padding(alg: Alg, n: nat): seq<Byte> {
    [0x80] + Zeros(ZeroCount(alg, n)) + BigEndian(8 * n, alg.LengthBytes())
  }

  lemma RemUnique(alg: Alg, n: nat, q: int, r: nat)
    requires r < alg.Block() && n == (if alg.wide then 128 * q else 64 * q) + r
    ensures alg.Rem(n) == r
  {
    if alg.wide { RemBy128(n, q, r); } else { RemBy64(n, q, r); }
  }

  lemma RemBy128(n: nat, q: int, r: nat)
    requires r < 128 && n == 128 * q + r
    ensures n % 128 == r
  {}

  lemma RemBy64(n: nat, q: int, r: nat)
    requires r < 64 && n == 64 * q + r
    ensures n % 64 == r
  {}

  lemma RemQuotient(alg: Alg, n: nat) returns (q: nat)
    ensures n == (if alg.wide then 128 * q else 64 * q) + alg.Rem(n)
  {
    q := if alg.wide then n / 128 else n / 64;
  }

  /** The padded message is a whole number of blocks, and no fewer zero bytes would do. */
  lemma PaddedWhole(alg: Alg, message: seq<Byte>, z: nat)
    requires z <= ZeroCount(alg, |message|)
    ensures var padded := message + [0x80] + Zeros(z) + BigEndian(8 * |message|, alg.LengthBytes());
            && (z == ZeroCount(alg, |message|) ==> padded == message + Padding(alg, |message|))
            && |padded| == |message| + 1 + z + alg.LengthBytes()
            && (alg.Rem(|padded|) == 0 <==> z == ZeroCount(alg, |message|))
  {
    hide BigEndian;
    var n := |message|;
    var padded := message + [0x80] + Zeros(z) + BigEndian(8 * n, alg.LengthBytes());
    if z == ZeroCount(alg, n) {
      assert padded == message + ([0x80] + Zeros(z) + BigEndian(8 * n, alg.LengthBytes()));
    }
    RemWhole(alg, n, z, |padded|);
  }

  lemma RemWhole(alg: Alg, n: nat, z: nat, m: nat)
    requires z <= ZeroCount(alg, n) && m == n + 1 + z + alg.LengthBytes()
    ensures alg.Rem(m) == 0 <==> z == ZeroCount(alg, n)
  {
    var q := RemQuotient(alg, n);
    var used := alg.Rem(n) + 1 + z + alg.LengthBytes();
    if used < alg.Block() {
      RemUnique(alg, m, q, used);
    } else if used < 2 * alg.Block() {
      RemUnique(alg, m, q + 1, used - alg.Block());
    } else {
      RemUnique(alg, m, q + 2, used - 2 * alg.Block());
    }
  }

  lemma RemFacts(alg: Alg, n: nat, k: nat)
    ensures alg.Rem(n - alg.Rem(n)) == 0
    ensures alg.Rem(n) + k < alg.Block() ==> alg.Rem(n + k) == alg.Rem(n) + k
    ensures alg.Rem(n) == 0 ==> alg.Rem(n + alg.Block()) == 0
    ensures alg.Rem(n + (alg.Block() - alg.Rem(n))) == 0
  {
    var q := RemQuotient(alg, n);
    RemUnique(alg, n - alg.Rem(n), q, 0);
    if alg.Rem(n) + k < alg.Block() { RemUnique(alg, n + k, q, alg.Rem(n) + k); }
    RemUnique(alg, n + (alg.Block() - alg.Rem(n)), q + 1, 0);
  }

  /** The 64-bit counter wraps around, but keeps the remainder by the block size. */
  lemma CounterFacts(alg: Alg, n: nat, k: nat)
    ensures alg.Rem(n % TWO64) == alg.Rem(n)
    ensures (n % TWO64 + k) % TWO64 == (n + k) % TWO64
  {
    var h := n / TWO64;
    assert n == h * TWO64 + n % TWO64;
    var q := RemQuotient(alg, n % TWO64);
    RemUnique(alg, n, (if alg.wide then h * 0x200_0000_0000_0000 else h * 0x400_0000_0000_0000) + q,
              alg.Rem(n % TWO64));
    var m := (n % TWO64 + k) / TWO64;
    assert n + k == (h + m) * TWO64 + (n % TWO64 + k) % TWO64;
  }

  /** The digest: the chaining words, most significant byte first. */
  function Digest(alg: Alg, w: Words): seq<Byte>
    requires |w| == 8 && alg.Valid()
  {
    WordBytes(w[..alg.words], alg.wordBytes)
  }

  /** The n low bytes of a state word. */
  function StateBytes(w: bv64, n: nat): (b: seq<Byte>)
    requires n == 4 || n == 8
    ensures |b| == n
  {
    var low := [((w >> 24) & 0xff) as Byte, ((w >> 16) & 0xff) as Byte, ((w >> 8) & 0xff) as Byte, (w & 0xff) as Byte];
    if n == 4 then low
    else [(w >> 56) as Byte, ((w >> 48) & 0xff) as Byte, ((w >> 40) & 0xff) as Byte, ((w >> 32) & 0xff) as Byte] + low
  }

  function WordBytes(w: Words, n: nat): (b: seq<Byte>)
    requires n == 4 || n == 8
    ensures |b| == |w| * n
  {
    if w == [] then [] else WordBytes(w[..|w| - 1], n) + StateBytes(w[|w| - 1], n)
  }

  /** The hash of a message: fold the transform over the padded message and write out the words. */
  function Hash(alg: Alg, message: seq<Byte>): seq<Byte>
    requires alg.Valid()
  {
    var padded := message + Padding(alg, |message|);
    FoldLength(alg, alg.init, padded);
    Digest(alg, Fold(alg, alg.init, padded))
  }

  /** The context of a running hash. */
  class HashContext {
    const alg: Alg
    const buf: array<Byte>
    var state: Words
    var bytecount: nat

    constructor (alg: Alg)
      requires alg.Valid()
      ensures this.alg == alg && fresh(buf) && Absorbed([])
    {
      this.alg := alg;
      buf := new Byte[128](_ => 0);
      state := alg.init;
      bytecount := 0;
    }

    /** The context has taken in exactly this message: the complete blocks are folded into the state, the rest is
        in the buffer, and the 64-bit counter holds the length. */
    ghost predicate Absorbed(message: seq<Byte>)
      reads this, buf
    {
      && alg.Valid() && buf.Length == 128 && |state| == 8
      && bytecount == |message| % TWO64
      && Holds(message, alg.Rem(|message|))
    }

    /** Of the bytes so far, the last pos are in the buffer and the ones before are folded into the state. */
    ghost predicate Holds(bytes: seq<Byte>, pos: nat)
      reads this, buf
    {
      && pos <= |bytes| && pos <= buf.Length && alg.Rem(|bytes| - pos) == 0
      && state == Fold(alg, alg.init, bytes[..|bytes| - pos])
      && buf[..pos] == bytes[|bytes| - pos..]
    }

    method Transform(block: seq<Byte>, ghost folded: seq<Byte>)
      requires |block| == alg.Block() && alg.Rem(|folded|) == 0 && state == Fold(alg, alg.init, folded)
      requires alg.Valid() && |state| == 8
      modifies this`state
      ensures state == Fold(alg, alg.init, folded + block) && alg.Rem(|folded + block|) == 0 && |state| == 8
    {
      FoldAppend(alg, alg.init, folded, block);
      assert block[..alg.Block()] == block && block[alg.Block()..] == [];
      state := alg.transform(state, block);
    }

    /** memcpy into the buffer. */
    method Copy(at: nat, data: seq<Byte>)
      requires at + |data| <= buf.Length
      modifies buf
      ensures buf[..at] == old(buf[..at]) && buf[at..at + |data|] == data
    {
      for i := 0 to |data|
        invariant buf[..at] == old(buf[..at]) && buf[at..at + i] == data[..i]
      {
        buf[at + i] := data[i];
      }
    }

    /** Takes in more bytes: fills and transforms a partial block, then transforms whole blocks directly, and
        keeps what remains. */
    method Write(data: seq<Byte>, ghost message: seq<Byte>)
      requires Absorbed(message)
      modifies this, buf
      ensures Absorbed(message + data)
    {
      RemFacts(alg, |message|, |data|);
      CounterFacts(alg, |message|, |data|);
      var num := alg.Rem(bytecount);
      bytecount := (bytecount + |data|) % TWO64;
      ghost var all := message + data;
      if num != 0 {
        var room := alg.Block() - num;
        if |data| < room {
          KeepPartial(data, message, num);
          return;
        }
        FillBlock(data[..room], message, num);
        assert all[..|message| + room] == message + data[..room];
        WriteBlocks(data, room, all, |message|);
      } else {
        assert all[..|message|] == message[..|message| - num];
        WriteBlocks(data, 0, all, |message|);
      }
    }

    /** Completes the partial block in the buffer and transforms it. */
    method FillBlock(rest: seq<Byte>, ghost message: seq<Byte>, num: nat)
      requires alg.Valid() && buf.Length == 128 && |state| == 8 && Holds(message, num)
      requires num + |rest| == alg.Block()
      modifies this`state, buf
      ensures |state| == 8 && alg.Rem(|message| + |rest|) == 0 && state == Fold(alg, alg.init, message + rest)
    {
      Copy(num, rest);
      var block := buf[..alg.Block()];
      ghost var folded := message[..|message| - num];
      assert block == buf[..num] + buf[num..num + |rest|];
      assert message + rest == folded + block;
      Transform(block, folded);
    }

    /** The whole blocks of data[p..], transformed where they are, and the rest copied into the buffer. */
    method WriteBlocks(data: seq<Byte>, start: nat, ghost all: seq<Byte>, ghost before: nat)
      requires alg.Valid() && buf.Length == 128 && |state| == 8 && bytecount == |all| % TWO64
      requires start <= |data| && |all| == before + |data| && all[before..] == data
      requires alg.Rem(before + start) == 0 && state == Fold(alg, alg.init, all[..before + start])
      modifies this`state, buf
      ensures Absorbed(all)
    {
      hide Fold;
      var p := start;
      while |data| - p >= alg.Block()
        invariant start <= p <= |data| && |state| == 8
        invariant alg.Rem(before + p) == 0 && state == Fold(alg, alg.init, all[..before + p])
      {
        var block := data[p..p + alg.Block()];
        assert all[..before + p] + block == all[..before + p + alg.Block()];
        Transform(block, all[..before + p]);
        p := p + alg.Block();
      }
      Copy(0, data[p..]);
      RemFacts(alg, before + p, |data| - p);
      assert buf[..|data| - p] == buf[0..0 + |data[p..]|];
      assert all[before + p..] == data[p..];
    }

    /** Too little to complete the block in the buffer. */
    method KeepPartial(data: seq<Byte>, ghost message: seq<Byte>, num: nat)
      requires alg.Valid() && buf.Length == 128 && |state| == 8 && bytecount == (|message| + |data|) % TWO64
      requires num == alg.Rem(|message|) && Holds(message, num) && num + |data| < alg.Block()
      modifies buf
      ensures Absorbed(message + data)
    {
      RemFacts(alg, |message|, |data|);
      Copy(num, data);
      ghost var all := message + data;
      assert buf[..num + |data|] == buf[..num] + buf[num..num + |data|];
      assert all[..|all| - num - |data|] == message[..|message| - num];
      assert all[|all| - num - |data|..] == message[|message| - num..] + data;
    }

    /** Writes a 64-bit value, most significant byte first. */
    method PutBigEndian64(at: nat, v: nat)
      requires at + 8 <= buf.Length && v < TWO64
      modifies buf
      ensures buf[..at] == old(buf[..at]) && buf[at..at + 8] == BigEndian(v, 8)
    {
      hide BigEndian, LowByte;
      BigEndian64(v);
      PutFour(at, v / 0x1_0000_0000);
      ghost var high := buf[at..at + 4];
      PutFour(at + 4, v);
      assert buf[at..at + 4] == buf[..at + 4][at..] == high;
      assert buf[at..at + 8] == buf[at..at + 4] + buf[at + 4..at + 8];
    }

    method PutFour(at: nat, v: nat)
      requires at + 4 <= buf.Length
      modifies buf
      ensures buf[..at] == old(buf[..at]) && buf[at..at + 4] == FourBytes(v)
    {
      hide LowByte;
      buf[at + 3] := LowByte(v);
      buf[at + 2] := LowByte(v / 0x100);
      buf[at + 1] := LowByte(v / 0x1_0000);
      buf[at] := LowByte(v / 0x100_0000);
    }

    /** One turn of the padding loop: a full buffer is transformed first, then a zero byte is added. */
    method PadByte(full: nat, ghost bytes: seq<Byte>) returns (pos: nat)
      requires alg.Valid() && buf.Length == 128 && |state| == 8 && Holds(bytes, full) && 0 < full <= alg.Block()
      modifies this`state, buf
      ensures |state| == 8 && Holds(bytes + [0], pos)
      ensures pos == if full == alg.Block() then 1 else full + 1
    {
      pos := full;
      if pos == alg.Block() {
        ghost var folded := bytes[..|bytes| - pos];
        assert bytes == folded + bytes[|bytes| - pos..];
        Transform(buf[..pos], folded);
        pos := 0;
      }
      buf[pos] := 0;
      pos := pos + 1;
      assert (bytes + [0])[..|bytes| + 1 - pos] == bytes[..|bytes| + 1 - pos];
      assert (bytes + [0])[|bytes| + 1 - pos..] == bytes[|bytes| + 1 - pos..] + [0];
      assert buf[..pos] == buf[..pos - 1] + [0];
    }

    /** The byte 0x80 that ends the message. */
    method Mark(num: nat, ghost message: seq<Byte>) returns (pos: nat)
      requires buf.Length == 128 && Holds(message, num) && num < alg.Block()
      modifies buf
      ensures pos == num + 1 && Holds(message + [0x80], pos)
    {
      buf[num] := 0x80;
      pos := num + 1;
      ghost var marked := message + [0x80];
      assert marked[..|marked| - pos] == message[..|message| - num];
      assert marked[|marked| - pos..] == message[|message| - num..] + [0x80];
      assert buf[..pos] == buf[..num] + [0x80];
    }

    /** Pads the message, appends its length in bits, transforms the last block and writes the digest over the
        buffer. The 64-bit counter makes the length field of the wide algorithm right up to 2^64 bytes only. */
    method Final(ghost message: seq<Byte>)
      requires Absorbed(message) && (alg.wide ==> |message| < TWO64) && alg.words * alg.wordBytes <= alg.Block()
      modifies this`state, buf
      ensures buf[..alg.words * alg.wordBytes] == Hash(alg, message)
    {
      hide Fold, Zeros, ZeroCount, BigEndian, StateBytes;
      var bitsLow, bitsHigh := BitCount(|message|);
      CounterFacts(alg, |message|, 0);
      var pos := Mark(alg.Rem(bytecount), message);
      PadZeros(pos, message);
      FinishBlock(bitsLow, bitsHigh, message + [0x80] + Zeros(ZeroCount(alg, |message|)), message);
      PutDigest();
    }

    /** The length in bits, in two halves. */
    method BitCount(ghost n: nat) returns (low: nat, high: nat)
      requires bytecount == n % TWO64 && (alg.wide ==> n < TWO64)
      ensures low == 8 * n % TWO64 && high < TWO64 && (alg.wide ==> high == 8 * n / TWO64)
    {
      LengthBits(n);
      low, high := bytecount * 8 % TWO64, bytecount / 0x2000_0000_0000_0000;
    }

    /** The padding loop. */
    method PadZeros(start: nat, ghost message: seq<Byte>)
      requires alg.Valid() && buf.Length == 128 && |state| == 8
      requires start == alg.Rem(|message|) + 1 && Holds(message + [0x80], start)
      modifies this`state, buf
      ensures |state| == 8
      ensures Holds(message + [0x80] + Zeros(ZeroCount(alg, |message|)), alg.Block() - alg.LengthBytes())
    {
      var pos := start;
      ghost var padded, zeros := message + [0x80], 0;
      while pos != alg.Block() - alg.LengthBytes()
        invariant 0 < pos <= alg.Block() && |state| == 8 && Holds(padded, pos)
        invariant padded == message + [0x80] + Zeros(zeros)
        invariant zeros + ZerosLeft(alg, pos) == ZeroCount(alg, |message|)
        decreases ZerosLeft(alg, pos)
      {
        pos := PadByte(pos, padded);
        padded, zeros := padded + [0], zeros + 1;
      }
    }

    method PutLength(at: nat, bitsLow: nat, bitsHigh: nat, ghost n: nat)
      requires buf.Length == 128 && at + alg.LengthBytes() <= 128 && bitsLow < TWO64 && bitsHigh < TWO64
      requires bitsLow == 8 * n % TWO64 && (alg.wide ==> bitsHigh == 8 * n / TWO64)
      modifies buf
      ensures buf[..at] == old(buf[..at])
      ensures buf[at..at + alg.LengthBytes()] == BigEndian(8 * n, alg.LengthBytes())
    {
      LengthField(alg, n, bitsLow, bitsHigh);
      hide BigEndian;
      if alg.wide {
        PutBigEndian64(at, bitsHigh);
        ghost var before := buf[..at + 8];
        PutBigEndian64(at + 8, bitsLow);
        assert buf[..at + 8] == before;
        assert buf[at..at + 16] == before[at..] + buf[at + 8..at + 16];
        assert buf[..at] == before[..at];
      } else {
        PutBigEndian64(at, bitsLow);
      }
    }

    /** The length field and the last block. */
    method FinishBlock(bitsLow: nat, bitsHigh: nat, ghost padded: seq<Byte>, ghost message: seq<Byte>)
      requires alg.Valid() && buf.Length == 128 && |state| == 8 && bitsLow < TWO64 && bitsHigh < TWO64
      requires Holds(padded, alg.Block() - alg.LengthBytes())
      requires padded == message + [0x80] + Zeros(ZeroCount(alg, |message|))
      requires bitsLow == 8 * |message| % TWO64 && (alg.wide ==> bitsHigh == 8 * |message| / TWO64)
      modifies this`state, buf
      ensures |state| == 8 && state == Fold(alg, alg.init, message + Padding(alg, |message|))
    {
      hide BigEndian, Zeros, ZeroCount;
      var pos := alg.Block() - alg.LengthBytes();
      ghost var field, folded := BigEndian(8 * |message|, alg.LengthBytes()), padded[..|padded| - pos];
      PutLength(pos, bitsLow, bitsHigh, |message|);
      var block := buf[..alg.Block()];
      assert block == buf[..pos] + buf[pos..pos + alg.LengthBytes()];
      assert folded + block == padded + field;
      assert padded + field == message + Padding(alg, |message|);
      Transform(block, folded);
    }

    /** The digest words, one after the other, most significant byte first. */
    method PutDigest()
      requires alg.Valid() && buf.Length == 128 && |state| == 8
      modifies buf
      ensures buf[..alg.words * alg.wordBytes] == Digest(alg, state)
    {
      hide StateBytes;
      var n := alg.wordBytes;
      for a := 0 to alg.words
        invariant buf[..a * n] == WordBytes(state[..a], n)
      {
        assert a * n + n <= 64;
        Copy(a * n, StateBytes(state[a], n));
        assert state[..a + 1][..a] == state[..a];
        assert buf[..(a + 1) * n] == buf[..a * n] + buf[a * n..a * n + n];
      }
    }
  }

  /** How many zero bytes the padding loop still adds when the buffer holds pos bytes. */
  function ZerosLeft(alg: Alg, pos: nat): int {
    var end := alg.Block() - alg.LengthBytes();
    if pos <= end then end - pos else alg.Block() + end - pos
  }

  /** The last four bytes of a big-endian field. */
  lemma BigEndianFour(v: nat, n: nat)
    ensures BigEndian(v, n + 4) == BigEndian(v / 0x1_0000_0000, n) + FourBytes(v)
  {
    var v1, v2, v3, v4 := v / 0x100, v / 0x1_0000, v / 0x100_0000, v / 0x1_0000_0000;
    assert v1 / 256 == v2 && v2 / 256 == v3 && v3 / 256 == v4;
    hide LowByte;
    assert BigEndian(v3, n + 1) == BigEndian(v4, n) + [LowByte(v3)];
    assert BigEndian(v2, n + 2) == BigEndian(v4, n) + [LowByte(v3), LowByte(v2)];
    assert BigEndian(v1, n + 3) == BigEndian(v4, n) + [LowByte(v3), LowByte(v2), LowByte(v1)];
  }

  lemma BigEndian64(v: nat)
    ensures BigEndian(v, 8) == FourBytes(v / 0x1_0000_0000) + FourBytes(v)
  {
    BigEndianFour(v, 4);
    BigEndianFour(v / 0x1_0000_0000, 0);
    hide LowByte, FourBytes;
  }

  function Power256(n: nat): nat {
    if n == 0 then 1 else 256 * Power256(n - 1)
  }

  lemma Power256Of8()
    ensures Power256(8) == TWO64
  {
    assert Power256(4) == 0x1_0000_0000;
  }

  /** Only the low n bytes of a value are written, and longer fields start with the high part. */
  lemma {:induction false} BigEndianHighLow(high: nat, low: nat, a: nat, n: nat)
    requires low < Power256(n)
    ensures BigEndian(high * Power256(n) + low, a + n) == BigEndian(high, a) + BigEndian(low, n)
    decreases n
  {
    if n != 0 {
      var p := Power256(n - 1);
      var v := high * Power256(n) + low;
      assert v == 256 * (high * p) + low;
      LowDigit(high * p, low);
      hide LowByte;
      BigEndianHighLow(high, low / 256, a, n - 1);
    } else {
      assert BigEndian(high, a) + BigEndian(low, 0) == BigEndian(high, a);
    }
  }

  lemma LowDigit(h: nat, low: nat)
    ensures (256 * h + low) / 256 == h + low / 256 && LowByte(256 * h + low) == LowByte(low)
  {
    assert (256 * h + low) % 256 == low % 256;
  }

  lemma LengthField(alg: Alg, n: nat, bitsLow: nat, bitsHigh: nat)
    requires bitsLow == 8 * n % TWO64 && (alg.wide ==> bitsHigh == 8 * n / TWO64)
    ensures BigEndian(8 * n, alg.LengthBytes()) ==
            if alg.wide then BigEndian(bitsHigh, 8) + BigEndian(bitsLow, 8) else BigEndian(bitsLow, 8)
  {
    Power256Of8();
    var high := 8 * n / TWO64;
    assert 8 * n == high * TWO64 + bitsLow;
    hide BigEndian, Power256;
    if alg.wide {
      BigEndianHighLow(high, bitsLow, 8, 8);
    } else {
      BigEndianHighLow(high, bitsLow, 0, 8);
      assert BigEndian(high, 0) + BigEndian(bitsLow, 8) == BigEndian(bitsLow, 8);
    }
  }

  lemma LengthBits(n: nat)
    ensures n % TWO64 * 8 % TWO64 == 8 * n % TWO64
    ensures n < TWO64 ==> n / 0x2000_0000_0000_0000 == 8 * n / TWO64
  {
    LowBits(n);
    HighBits(n);
  }

  lemma LowBits(n: nat)
    ensures n % TWO64 * 8 % TWO64 == 8 * n % TWO64
  {
    var h, r := n / TWO64, n % TWO64;
    assert 8 * n == (8 * h) * TWO64 + 8 * r;
  }

  lemma HighBits(n: nat)
    ensures n / 0x2000_0000_0000_0000 == 8 * n / TWO64
  {
    var q, s := n / 0x2000_0000_0000_0000, n % 0x2000_0000_0000_0000;
    assert 8 * n == q * TWO64 + 8 * s && 0 <= 8 * s < TWO64;
  }

  function Flat(pieces: seq<seq<Byte>>): seq<Byte> {
    if pieces == [] then [] else Flat(pieces[..|pieces| - 1]) + pieces[|pieces| - 1]
  }

  /** However a message is split into writes, the digest is that of the message. */
  method HashPieces(alg: Alg, pieces: seq<seq<Byte>>) returns (digest: seq<Byte>)
    requires alg.Valid() && (alg.wide ==> |Flat(pieces)| < TWO64) && alg.words * alg.wordBytes <= alg.Block()
    ensures digest == Hash(alg, Flat(pieces))
  {
    var context := new HashContext(alg);
    for i := 0 to |pieces|
      invariant fresh(context) && fresh(context.buf) && context.alg == alg
      invariant context.Absorbed(Flat(pieces[..i]))
    {
      context.Write(pieces[i], Flat(pieces[..i]));
      assert pieces[..i + 1][..i] == pieces[..i];
    }
    assert pieces[..|pieces|] == pieces;
    context.Final(Flat(pieces));
    digest := context.buf[..alg.words * alg.wordBytes];
  }
}
