/** Zeroing a drive (format.c): chunk after chunk, with retries, and in the fast mode without the chunks that are
    already empty. */
module ZeroDrive {
  import opened Rounding

  type Byte = b: int | 0 <= b < 256

  const DD_BUFFER_SIZE: nat := 32 * 1024 * 1024
  const WRITE_RETRIES: nat := 4

  /** When requests fail, what a failed write leaves in the place it was to write, and where the pointer is then. */
  datatype Faults = Faults(seekOk: nat -> bool, readOk: nat -> bool, writeOk: nat -> bool, cancel: nat -> bool,
                           garbage: (nat, nat) -> seq<Byte>, pointer: nat -> nat)
  {
    ghost predicate Valid() {
      forall t, n :: |garbage(t, n)| == n
    }
  }

  /** The content with bytes put in at an offset. */
  function Put(data: seq<Byte>, at: nat, bytes: seq<Byte>): (r: seq<Byte>)
    requires at + |bytes| <= |data|
    ensures |r| == |data|
  {
    data[..at] + bytes + data[at + |bytes|..]
  }

  /** A stretch of the drive. */
  datatype Extent = Extent(at: nat, length: nat)

  class Drive {
    const faults: Faults
    var data: seq<Byte>
    var pointer: nat
    var time: nat
    ghost var written: seq<Extent> // by the writes that succeeded

    constructor (data: seq<Byte>, pointer: nat, faults: Faults)
      ensures this.data == data && this.pointer == pointer && this.faults == faults && written == []
    {
      this.data, this.pointer, this.faults, time, written := data, pointer, faults, 0, [];
    }

    method Seek(to: nat) returns (ok: bool)
      modifies this`pointer, this`time
      ensures ok ==> pointer == to
    {
      ok := faults.seekOk(time);
      time := time + 1;
      if ok {
        pointer := to;
      }
    }

    method Read(n: nat) returns (ok: bool, bytes: seq<Byte>)
      requires pointer + n <= |data|
      modifies this`pointer, this`time
      ensures ok ==> bytes == data[old(pointer)..old(pointer) + n] && pointer == old(pointer) + n
    {
      ok := faults.readOk(time);
      bytes := data[pointer..pointer + n];
      pointer := if ok then pointer + n else faults.pointer(time);
      time := time + 1;
    }

    method Write(bytes: seq<Byte>) returns (ok: bool)
      requires faults.Valid() && pointer + |bytes| <= |data|
      modifies this
      ensures ok ==> data == Put(old(data), old(pointer), bytes) && pointer == old(pointer) + |bytes|
      ensures !ok ==> exists g :: |g| == |bytes| && data == Put(old(data), old(pointer), g)
      ensures written == old(written) + if ok then [Extent(old(pointer), |bytes|)] else []
    {
      ok := faults.writeOk(time);
      if ok {
        written := written + [Extent(pointer, |bytes|)];
        data, pointer := Put(data, pointer, bytes), pointer + |bytes|;
      } else {
        data, pointer := Put(data, pointer, faults.garbage(time, |bytes|)), faults.pointer(time);
      }
      time := time + 1;
    }

    method Cancelled() returns (r: bool)
      modifies this`time
    {
      r := faults.cancel(time);
      time := time + 1;
    }
  }

  ghost predicate AllAre(s: seq<Byte>, b: Byte) {
    forall i | 0 <= i < |s| :: s[i] == b
  }

  /** The comparison of 32-bit words with the first one: whether all bits are the same. */
  method IsEmpty(chunk: seq<Byte>) returns (r: bool)
    requires |chunk| >= 4 && |chunk| % 4 == 0
    ensures r <==> AllAre(chunk, 0) || AllAre(chunk, 0xff)
  {
    var first := chunk[0..4];
    if first != [0, 0, 0, 0] && first != [0xff, 0xff, 0xff, 0xff] {
      assert chunk[0] == first[0] && chunk[1] == first[1] && chunk[2] == first[2] && chunk[3] == first[3];
      return false;
    }
    var i := 1;
    while i < |chunk| / 4 && chunk[4 * i..4 * i + 4] == first
      invariant 1 <= i <= |chunk| / 4
      invariant AllAre(chunk[..4 * i], first[0])
    {
      assert chunk[..4 * (i + 1)] == chunk[..4 * i] + chunk[4 * i..4 * i + 4];
      i := i + 1;
    }
    r := i >= |chunk| / 4;
    if r {
      assert chunk[..4 * i] == chunk;
    } else {
      var word := chunk[4 * i..4 * i + 4];
      assert word[0] == chunk[4 * i] && word[1] == chunk[4 * i + 1] &&
        word[2] == chunk[4 * i + 2] && word[3] == chunk[4 * i + 3];
    }
  }

  /** The loop that writes a chunk, up to four times. */
  method WriteChunk(drive: Drive, chunk: seq<Byte>, wb: nat) returns (ok: bool)
    requires drive.faults.Valid() && wb + |chunk| <= |drive.data| && drive.pointer == wb
    modifies drive
    ensures |drive.data| == |old(drive.data)|
    ensures ok ==> drive.data == Put(old(drive.data), wb, chunk) && drive.pointer == wb + |chunk|
    ensures drive.written == old(drive.written) + if ok then [Extent(wb, |chunk|)] else []
  {
    var i := 1;
    while i <= WRITE_RETRIES
      invariant 1 <= i && drive.pointer == wb && |drive.data| == |old(drive.data)|
      invariant drive.written == old(drive.written)
      invariant drive.data[..wb] == old(drive.data)[..wb]
      invariant drive.data[wb + |chunk|..] == old(drive.data)[wb + |chunk|..]
    {
      var cancelled := drive.Cancelled();
      if cancelled {
        return false;
      }
      ghost var before := drive.data;
      var written := drive.Write(chunk);
      if written {
        return true;
      }
      if i == WRITE_RETRIES {
        return false;
      }
      var sought := drive.Seek(wb);
      if !sought {
        return false;
      }
      i := i + 1;
    }
    ok := false;
  }

  /** A part of the drive is cleared: it is all zeros, or in the fast mode all ones, or all zeros that were there
      before. */
  ghost predicate Cleared(fast: bool, was: seq<Byte>, now: seq<Byte>, from: nat, to: nat)
    requires from <= to <= |was| == |now|
  {
    if fast then AllAre(now[from..to], 0xff) || (AllAre(now[from..to], 0) && now[from..to] == was[from..to])
    else AllAre(now[from..to], 0)
  }

  function ChunkEnd(from: nat, size: nat, disk: nat): nat {
    if from + size < disk then from + size else disk
  }

  /** Every chunk that begins below a limit is cleared. */
  ghost predicate AllCleared(fast: bool, was: seq<Byte>, now: seq<Byte>, size: nat, limit: nat)
    requires |was| == |now|
  {
    forall from: nat | Multiple(from, size) && from < limit && from <= |now| ::
      Cleared(fast, was, now, from, ChunkEnd(from, size, |now|))
  }

  /** The chunk has been written, or in the fast mode it was found to be empty. */
  ghost predicate Extended(fast: bool, was: seq<Byte>, before: seq<Extent>, now: seq<Extent>, from: nat, to: nat)
    requires from <= to <= |was|
  {
    || now == before + [Extent(from, to - from)]
    || (now == before && fast && (AllAre(was[from..to], 0) || AllAre(was[from..to], 0xff)))
  }

  /** The fast mode leaves out a chunk whose bits are all the same. */
  ghost predicate LeftOut(fast: bool, was: seq<Byte>, from: nat, size: nat)
    requires from <= |was|
  {
    var chunk := was[from..ChunkEnd(from, size, |was|)];
    fast && (AllAre(chunk, 0) || AllAre(chunk, 0xff))
  }

  ghost predicate Writes(log: seq<Extent>, from: nat) {
    exists k | 0 <= k < |log| :: log[k].at == from
  }

  /** The writes are of whole chunks below the limit, in the order of the drive and so none twice, and they leave out
      none but the empty ones of the fast mode. */
  ghost predicate OnceEach(fast: bool, was: seq<Byte>, log: seq<Extent>, size: nat, limit: nat) {
    && (forall k | 0 <= k < |log| :: Multiple(log[k].at, size) && log[k].at < limit &&
          log[k].length == ChunkEnd(log[k].at, size, |was|) - log[k].at)
    && (forall k, l | 0 <= k < l < |log| :: log[k].at < log[l].at)
    && (forall from: nat | Multiple(from, size) && from < limit && from <= |was| ::
          Writes(log, from) || LeftOut(fast, was, from, size))
  }

  lemma OneMoreWritten(fast: bool, was: seq<Byte>, data: seq<Byte>, before: seq<Extent>, after: seq<Extent>,
                       earlier: seq<Extent>, log: seq<Extent>, size: nat, wb: nat, to: nat)
    returns (more: seq<Extent>)
    requires size > 0 && Multiple(wb, size) && wb < |was| == |data| && to == ChunkEnd(wb, size, |was|)
    requires data[wb..] == was[wb..] && Extended(fast, data, before, after, wb, to)
    requires before == earlier + log && OnceEach(fast, was, log, size, wb)
    ensures after == earlier + more && OnceEach(fast, was, more, size, to)
  {
    more := if after == before then log else log + [Extent(wb, to - wb)];
    SliceOfSuffix(was, wb, to);
    SliceOfSuffix(data, wb, to);
    forall from: nat | Multiple(from, size) && from < to && from <= |was|
      ensures Writes(more, from) || LeftOut(fast, was, from, size)
    {
      Neighbours(from, wb, size);
      if from < wb && Writes(log, from) {
        var k :| 0 <= k < |log| && log[k].at == from;
        assert more[k] == log[k];
      } else if from == wb && after != before {
        assert more[|log|].at == from;
      }
    }
  }

  /** What one turn of the loop does to the chunk at the pointer: nothing if it is found to be empty, and otherwise it
      is written. Empty chunks are looked for in the fast mode only, and not for 15 turns after one that was not. */
  method ClearChunk(drive: Drive, wb: nat, size: nat, fast: bool, throttle: nat) returns (ok: bool, next: nat)
    requires drive.faults.Valid() && drive.pointer == wb && wb + size <= |drive.data| && size >= 4 && size % 4 == 0
    modifies drive
    ensures |drive.data| == |old(drive.data)|
    ensures ok ==> drive.pointer == wb + size
    ensures ok ==> drive.data[..wb] == old(drive.data)[..wb] && drive.data[wb + size..] == old(drive.data)[wb + size..]
    ensures ok ==> Cleared(fast, old(drive.data), drive.data, wb, wb + size)
    ensures ok ==> Extended(fast, old(drive.data), old(drive.written), drive.written, wb, wb + size)
  {
    next := throttle;
    if throttle > 0 {
      next := throttle - 1;
    } else if fast {
      var cancelled := drive.Cancelled();
      if cancelled {
        return false, next;
      }
      var read, chunk := drive.Read(size);
      if !read {
        return false, next;
      }
      var empty := IsEmpty(chunk);
      if empty {
        return true, next;
      }
      var sought := drive.Seek(wb);
      if !sought {
        return false, next;
      }
      next := 15;
    }
    var chunk := seq<Byte>(size, _ => if fast then 0xff else 0x00);
    ok := WriteChunk(drive, chunk, wb);
    assert ok ==> drive.data[wb..wb + size] == chunk;
  }

  /** What was cleared stays so when what follows is changed, and one more chunk has been cleared. */
  lemma OneMoreCleared(fast: bool, was: seq<Byte>, before: seq<Byte>, now: seq<Byte>, size: nat, wb: nat, to: nat)
    requires |was| == |before| == |now| && size > 0 && Multiple(wb, size) && wb < |now|
    requires to == ChunkEnd(wb, size, |now|)
    requires AllCleared(fast, was, before, size, wb) && before[..wb] == now[..wb] && before[wb..] == was[wb..]
    requires Cleared(fast, before, now, wb, to)
    ensures AllCleared(fast, was, now, size, to)
  {
    forall from: nat | Multiple(from, size) && from < to && from <= |now|
      ensures Cleared(fast, was, now, from, ChunkEnd(from, size, |now|))
    {
      Neighbours(from, wb, size);
      if from < wb {
        var end := ChunkEnd(from, size, |now|);
        assert Cleared(fast, was, before, from, end);
        SliceOfPrefix(now, from, end, wb);
        SliceOfPrefix(before, from, end, wb);
      } else {
        SliceOfSuffix(was, wb, to);
        SliceOfSuffix(before, wb, to);
      }
    }
  }

  lemma SliceOfPrefix(s: seq<Byte>, a: nat, b: nat, c: nat)
    requires a <= b <= c <= |s|
    ensures s[a..b] == s[..c][a..b]
  {}

  lemma SliceOfSuffix(s: seq<Byte>, a: nat, b: nat)
    requires a <= b <= |s|
    ensures s[a..b] == s[a..][..b - a]
  {}

  /** Different multiples are at least one step apart. */
  lemma Neighbours(x: nat, y: nat, size: nat)
    requires Multiple(x, size) && Multiple(y, size)
    ensures x < y ==> x + size <= y
    ensures y < x ==> y + size <= x
  {
    var p: nat, q: nat :| x == p * size && y == q * size;
    Monotone(p + 1, q, size);
    Monotone(q + 1, p, size);
    Monotone(p, q, size);
    Monotone(q, p, size);
  }

  /** The zeroing loop of WriteDrive, on a drive of whole sectors that has been rewound. When it completes, the whole
      drive is zero, or in the fast mode every chunk is uniform and only empty ones have been left as they were. */
  method Zero(drive: Drive, sector: nat, fast: bool) returns (ret: bool, ghost log: seq<Extent>)
    requires drive.faults.Valid() && drive.pointer == 0 && sector % 4 == 0
    requires sector >= 512 ==> InSectors(|drive.data|, sector)
    modifies drive
    ensures |drive.data| == |old(drive.data)| && (ret ==> sector >= 512)
    ensures ret ==> AllCleared(fast, old(drive.data), drive.data, CeilingAlign(DD_BUFFER_SIZE, sector), |drive.data|)
    ensures ret && !fast ==> AllAre(drive.data, 0)
    ensures ret ==> drive.written == old(drive.written) + log
    ensures ret ==> OnceEach(fast, old(drive.data), log, CeilingAlign(DD_BUFFER_SIZE, sector), |drive.data|)
  {
    log := [];
    if sector < 512 {
      return false, log;
    }
    hide InSectors, Multiple, AllCleared, Cleared, FloorAlign, OnceEach, Extended;
    var disk := |drive.data|;
    var bufSize := CeilingAlign(DD_BUFFER_SIZE, sector);
    CeilingIs(DD_BUFFER_SIZE, sector);
    WholeNumber(disk, sector);
    var readSize := bufSize;
    var throttle, wb := 0, 0;
    ghost var was := drive.data;
    Start(fast, was, bufSize, sector);
    while wb < disk
      invariant wb <= disk == |drive.data| && (wb == disk || (Multiple(wb, bufSize) && Multiple(wb, sector)))
      invariant drive.pointer == wb && (wb < disk ==> readSize == bufSize)
      invariant drive.data[wb..] == was[wb..] && AllCleared(fast, was, drive.data, bufSize, wb)
      invariant drive.written == old(drive.written) + log && OnceEach(fast, was, log, bufSize, wb)
      decreases disk - wb
    {
      if wb + readSize > disk {
        readSize := disk - wb;
      }
      ReadSizeIsWhole(wb, readSize, disk, bufSize, sector);
      assert InSectors(readSize, sector); // so that it is never rounded up to whole sectors
      ghost var before, written := drive.data, drive.written;
      var ok;
      ok, throttle := ClearChunk(drive, wb, readSize, fast, throttle);
      if !ok {
        return false, log;
      }
      OneMoreCleared(fast, was, before, drive.data, bufSize, wb, wb + readSize);
      log := OneMoreWritten(fast, was, before, written, drive.written, old(drive.written), log,
        bufSize, wb, wb + readSize);
      assert was[wb..][readSize..] == was[wb + readSize..];
      assert before[wb..][readSize..] == before[wb + readSize..];
      NextMultiples(wb, bufSize, sector);
      wb := wb + readSize;
    }
    if !fast { AllZero(was, drive.data, bufSize); }
    ret := true;
  }

  lemma Start(fast: bool, was: seq<Byte>, size: nat, sector: nat)
    ensures Multiple(0, size) && Multiple(0, sector) && AllCleared(fast, was, was, size, 0)
    ensures OnceEach(fast, was, [], size, 0)
  {
    assert 0 == 0 * size && 0 == 0 * sector;
  }

  lemma NextMultiples(wb: nat, size: nat, sector: nat)
    requires Multiple(size, sector)
    ensures Multiple(wb, size) ==> Multiple(wb + size, size)
    ensures Multiple(wb, sector) ==> Multiple(wb + size, sector)
  {
    assert size == 1 * size;
    if Multiple(wb, size) { MultipleOfSum(wb, size, size); }
    if Multiple(wb, sector) { MultipleOfSum(wb, size, sector); }
  }

  lemma ReadSizeIsWhole(wb: nat, n: nat, disk: nat, size: nat, sector: nat)
    requires sector > 0 && sector % 4 == 0 && Multiple(size, sector) && Multiple(disk, sector) && Multiple(wb, sector)
    requires wb < disk && size > 0 && n == if wb + size > disk then disk - wb else size
    ensures InSectors(n, sector) && n >= 4 && n % 4 == 0
  {
    if wb + size > disk { MultipleOfDifference(disk, wb, sector); }
    WholeSectors(n, sector);
  }

  lemma MultipleOfDifference(x: nat, z: nat, y: nat)
    requires Multiple(x, y) && Multiple(z, y) && z <= x
    ensures Multiple(x - z, y)
  {
    var p: nat, q: nat :| x == p * y && z == q * y;
    Monotone(p, q, y);
    if p >= q {
      assert x - z == (p - q) * y;
    } else {
      assert x - z == 0 * y;
    }
  }

  lemma WholeSectors(n: nat, sector: nat)
    requires n > 0 && sector > 0 && sector % 4 == 0 && Multiple(n, sector)
    ensures InSectors(n, sector) && n >= 4 && n % 4 == 0
  {
    var k: nat :| n == k * sector;
    var h := sector / 4;
    assert k * (4 * h) == 4 * (k * h);
    Remainder(k, sector);
  }

  lemma Remainder(k: nat, sector: nat)
    requires sector > 0
    ensures InSectors(k * sector, sector)
  {
    var n := k * sector;
    assert n == n / sector * sector + n % sector;
    Monotone(k + 1, n / sector, sector);
    Monotone(n / sector + 1, k, sector);
  }

  lemma AllZero(was: seq<Byte>, now: seq<Byte>, size: nat)
    requires |was| == |now| && size > 0 && AllCleared(false, was, now, size, |now|)
    ensures AllAre(now, 0)
  {
    forall i | 0 <= i < |now| ensures now[i] == 0 {
      var from := FloorAlign(i, size);
      FloorIs(i, size);
      assert Cleared(false, was, now, from, ChunkEnd(from, size, |now|));
      assert now[i] == now[from..ChunkEnd(from, size, |now|)][i - from];
    }
  }
}
