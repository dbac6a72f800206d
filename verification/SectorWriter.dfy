/** The write override for compressed images (format.c): bytes arrive in pieces of any size and leave in whole
    sectors. */
module SectorWriter {
  import opened Rounding

  type Byte = b: int | 0 <= b < 256

  const KB: nat := 1024
  const GB: nat := 1024 * 1024 * 1024

  /** Every request is met in full. */
  ghost predicate Reliable(accept: (nat, nat) -> int) {
    forall t, n :: accept(t, n) == n
  }

  /** A file handle that is written through; how much of a request is taken is up to the device. */
  class Device {
    const accept: (nat, nat) -> int
    var bytes: seq<Byte>
    var time: nat
    ghost var requests: seq<nat>
    ghost var short: bool

    ghost predicate Valid()
      reads this
    {
      && (forall t, n :: accept(t, n) <= n)
      && (Reliable(accept) ==> !short && |bytes| == Sum(requests))
    }

    constructor (accept: (nat, nat) -> int)
      requires forall t, n :: accept(t, n) <= n
      ensures Valid() && bytes == [] && requests == [] && !short && this.accept == accept && time == 0
    {
      this.accept, bytes, time, requests, short := accept, [], 0, [], false;
    }

    /** _write: the number of bytes written, or a negative number. */
    method Write(data: seq<Byte>) returns (n: int)
      requires Valid()
      modifies this
      ensures Valid() && n == accept(old(time), |data|) <= |data| && time == old(time) + 1
      ensures bytes == old(bytes) + if n < 0 then [] else data[..n]
      ensures requests == old(requests) + [|data|] && (short <==> old(short) || n != |data|)
    {
      n := accept(time, |data|);
      bytes := bytes + if n < 0 then [] else data[..n];
      time := time + 1;
      assert (requests + [|data|])[..|requests|] == requests;
      requests := requests + [|data|];
      short := short || n != |data|;
    }
  }

  /** sec_buf, sec_buf_pos and the device they belong to. */
  class SectorBuffer {
    const sec_size: nat
    const sec_buf: array<Byte>
    const dev: Device
    var pos: nat

    ghost predicate Valid()
      reads this, dev
    {
      && dev.Valid() && sec_size == sec_buf.Length && 0 < sec_size && pos < sec_size
      && forall i | 0 <= i < |dev.requests| :: Multiple(dev.requests[i], sec_size)
    }

    /** Everything that has been taken in: what is on the device, and what waits in the buffer. */
    ghost function Stream(): seq<Byte>
      reads this, dev, sec_buf
      requires Valid()
    {
      dev.bytes + sec_buf[..pos]
    }

    /** The partial sector would be completed, and the device would not take all of it. */
    ghost predicate CompletedShort(count: nat)
      reads this, dev
    {
      0 < pos && sec_size <= pos + count && dev.accept(dev.time, sec_size) != sec_size
    }

    constructor (sector: nat, dev: Device)
      requires dev.Valid() && dev.requests == []
      ensures Valid() && this.dev == dev && pos == 0 && fresh(sec_buf)
      ensures sec_size == if sector == 0 then 512 else sector
    {
      sec_size := if sector == 0 then 512 else sector;
      sec_buf := new Byte[if sector == 0 then 512 else sector](_ => 0);
      this.dev := dev;
      pos := 0;
    }

    method Copy(at: nat, data: seq<Byte>)
      requires at + |data| <= sec_buf.Length
      modifies sec_buf
      ensures sec_buf[..at] == old(sec_buf[..at]) && sec_buf[at..at + |data|] == data
    {
      for i := 0 to |data|
        invariant sec_buf[..at] == old(sec_buf[..at]) && sec_buf[at..at + i] == data[..i]
      {
        sec_buf[at + i] := data[i];
      }
    }

    /** sector_write. Only whole sectors are ever requested of the device. As long as every request is met in full, all
        bytes are taken in and none is lost; if one is not, a negative number or less than the count comes back, unless
        the sector that was completed is written in part, by just as many bytes as the count. */
    method Write(buf: seq<Byte>) returns (r: int)
      requires Valid()
      modifies this, sec_buf, dev
      ensures Valid()
      ensures sec_size <= 64 * KB && |buf| <= GB && !old(dev.short) && !dev.short ==>
                r == |buf| && Stream() == old(Stream()) + buf
      ensures !old(dev.short) && dev.short && r == |buf| ==> old(CompletedShort(|buf|)) && |buf| < sec_size
      ensures old(CompletedShort(|buf|)) && sec_size <= 64 * KB && |buf| <= GB ==>
                r == dev.accept(old(dev.time), sec_size) && pos == 0 && dev.short
                && dev.bytes == old(dev.bytes) + if r < 0 then [] else old(sec_buf[..pos] + buf)[..r]
      ensures old(pos) == 0 && |buf| < sec_size <= 64 * KB && dev.accept(old(dev.time), 0) == 0 ==>
                dev.short == old(dev.short) && pos == |buf| && (|buf| > 0 ==> dev.time == old(dev.time) + 1)
      ensures sec_size > 64 * KB || |buf| > GB ==> r == -1 && Stream() == old(Stream())
    {
      hide Multiple, Sum, InSectors;
      var count := |buf|;
      if !(sec_size <= 64 * KB) || !(count <= GB) {
        return -1;
      }
      if pos == 0 && InSectors(count, sec_size) {
        r := WriteWhole(buf);
        return;
      }
      if pos > 0 {
        r := WriteAcross(buf);
      } else {
        r := WriteRest(buf, 0);
      }
    }

    method WriteWhole(buf: seq<Byte>) returns (r: int)
      requires Valid() && pos == 0 && InSectors(|buf|, sec_size)
      modifies dev
      ensures Valid() && (0 < |buf| ==> sec_size <= |buf|)
      ensures dev.short <==> old(dev.short) || r != |buf|
      ensures r == |buf| ==> Stream() == old(Stream()) + buf
      ensures dev.accept(old(dev.time), 0) == 0 && |buf| == 0 ==> dev.short == old(dev.short)
    {
      WholeNumber(|buf|, sec_size);
      hide Multiple, Sum;
      r := dev.Write(buf);
    }

    /** A partial sector in the buffer is filled, written if that completes it, and followed by the rest. */
    method WriteAcross(buf: seq<Byte>) returns (r: int)
      requires Valid() && pos > 0
      modifies this, sec_buf, dev
      ensures Valid()
      ensures !old(dev.short) && !dev.short ==> r == |buf| && Stream() == old(Stream()) + buf
      ensures !old(dev.short) && dev.short && r == |buf| ==> old(CompletedShort(|buf|)) && |buf| < sec_size
      ensures old(CompletedShort(|buf|)) ==>
                r == dev.accept(old(dev.time), sec_size) && pos == 0 && dev.short
                && dev.bytes == old(dev.bytes) + if r < 0 then [] else old(sec_buf[..pos] + buf)[..r]
    {
      hide Multiple, Sum;
      ghost var before, bytes := sec_buf[..pos], dev.bytes;
      var fill := FillBuffer(buf);
      if pos < sec_size {
        assert buf[..fill] == buf;
        return |buf|;
      }
      pos := 0;
      OneSector(sec_size);
      ghost var sector := sec_buf[..sec_size];
      r := dev.Write(sec_buf[..sec_size]);
      if r != sec_size {
        assert r >= 0 ==> sector[..r] == (before + buf)[..r];
        return;
      }
      assert dev.bytes == bytes + before + buf[..fill];
      r := WriteRest(buf, fill);
      assert bytes + before + buf[..fill] + buf[fill..] == bytes + before + buf;
    }

    /** As much as the partial sector in the buffer has room for. */
    method FillBuffer(buf: seq<Byte>) returns (fill: nat)
      requires pos <= sec_size == sec_buf.Length
      modifies this`pos, sec_buf
      ensures fill == (if sec_size - old(pos) < |buf| then sec_size - old(pos) else |buf|) && pos == old(pos) + fill
      ensures sec_buf[..pos] == old(sec_buf[..pos]) + buf[..fill]
    {
      fill := if sec_size - pos < |buf| then sec_size - pos else |buf|;
      Copy(pos, buf[..fill]);
      pos := pos + fill;
      assert sec_buf[..pos] == sec_buf[..old(pos)] + sec_buf[old(pos)..old(pos) + fill];
    }

    /** As many full sectors as there are, and the rest into the buffer. */
    method WriteRest(buf: seq<Byte>, fill: nat) returns (r: int)
      requires Valid() && fill <= |buf| && pos == 0
      modifies this, sec_buf, dev
      ensures Valid()
      ensures !old(dev.short) && !dev.short ==> r == |buf| && Stream() == old(Stream()) + buf[fill..]
      ensures !old(dev.short) && dev.short ==> r != |buf|
      ensures |buf| - fill < sec_size && dev.accept(old(dev.time), 0) == 0 ==>
                dev.short == old(dev.short) && pos == |buf| - fill && dev.time == old(dev.time) + 1
    {
      hide Multiple, Sum, FloorAlign;
      var count := |buf|;
      var sec_num := (count - fill) / sec_size;
      Whole(count - fill, sec_size);
      var size := sec_num * sec_size;
      var written := dev.Write(buf[fill..fill + size]);
      if written < 0 {
        return written;
      }
      if written != size {
        return fill + written;
      }
      pos := count - fill - written;
      KeepLeft(buf[fill + written..]);
      assert buf[fill..] == buf[fill..fill + written] + buf[fill + written..];
      r := count;
    }

    /** The leftover bytes, if any. */
    method KeepLeft(left: seq<Byte>)
      requires pos == |left| <= sec_buf.Length
      modifies sec_buf
      ensures sec_buf[..pos] == left
    {
      if pos != 0 {
        Copy(0, left);
        assert sec_buf[..pos] == sec_buf[0..0 + pos];
      }
    }
  }

  /** The whole sectors of n bytes. */
  lemma Whole(n: nat, size: nat)
    requires size > 0
    ensures n / size * size <= n < n / size * size + size && Multiple(n / size * size, size)
    ensures n < size ==> n / size * size == 0
  {
    FloorIs(n, size);
    assert n / size * size == FloorAlign(n, size);
    if n < size { assert n / size == 0; }
  }

  lemma OneSector(size: nat)
    ensures Multiple(size, size)
  {
    assert size == 1 * size;
  }

  function Flat(pieces: seq<seq<Byte>>): seq<Byte> {
    if pieces == [] then [] else Flat(pieces[..|pieces| - 1]) + pieces[|pieces| - 1]
  }

  function Sum(sizes: seq<nat>): nat {
    if sizes == [] then 0 else Sum(sizes[..|sizes| - 1]) + sizes[|sizes| - 1]
  }

  lemma {:induction false} SumOfWhole(sizes: seq<nat>, size: nat)
    requires forall i | 0 <= i < |sizes| :: Multiple(sizes[i], size)
    ensures Multiple(Sum(sizes), size)
  {
    if sizes == [] {
      assert 0 == 0 * size;
    } else {
      SumOfWhole(sizes[..|sizes| - 1], size);
      MultipleOfSum(Sum(sizes[..|sizes| - 1]), sizes[|sizes| - 1], size);
    }
  }

  /** An image written in pieces, and the last partial sector after it. A device that takes every request in full ends
      up with the image from the start, in whole sectors, and less than a sector more. */
  method WriteImage(sector: nat, pieces: seq<seq<Byte>>, accept: (nat, nat) -> int)
    returns (ok: bool, image: seq<Byte>)
    requires sector <= 64 * KB && forall t, n :: accept(t, n) <= n
    requires forall i | 0 <= i < |pieces| :: |pieces[i]| <= GB
    ensures Reliable(accept) ==>
              ok && Flat(pieces) <= image && Multiple(|image|, if sector == 0 then 512 else sector)
              && |image| < |Flat(pieces)| + if sector == 0 then 512 else sector
  {
    var dev := new Device(accept);
    var writer := new SectorBuffer(sector, dev);
    ok := true;
    for i := 0 to |pieces|
      invariant writer.Valid() && fresh(dev) && fresh(writer) && fresh(writer.sec_buf) && writer.dev == dev
      invariant dev.accept == accept && writer.sec_size == if sector == 0 then 512 else sector
      invariant Reliable(accept) ==> ok
      invariant Reliable(accept) ==> writer.Stream() == Flat(pieces[..i])
    {
      assert pieces[..i + 1][..i] == pieces[..i];
      var r := writer.Write(pieces[i]);
      if r != |pieces[i]| {
        ok := false;
        break;
      }
    }
    assert pieces[..|pieces|] == pieces;
    if ok && writer.pos != 0 {
      OneSector(writer.sec_size);
      var _ := dev.Write(writer.sec_buf[..]);
    }
    SumOfWhole(dev.requests, writer.sec_size);
    image := dev.bytes;
  }

  /** A sector completed by one byte, of which the device takes one byte: the count comes back, and three bytes are
      gone. */
  method PartialSectorGoesUnnoticed() returns (first: int, second: int, image: seq<Byte>, left: nat)
    ensures first == 3 && second == 1 && image == [1] && left == 0
  {
    var dev := new Device((t, n) => if n < 1 then n else 1);
    var writer := new SectorBuffer(4, dev);
    first := writer.Write([1, 2, 3]);
    assert |dev.bytes| == 0 && writer.Stream() == [1, 2, 3] == writer.sec_buf[..3];
    second := writer.Write([4]);
    image, left := dev.bytes, writer.pos;
  }
}
