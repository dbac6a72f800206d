/** Devices for the bad-block scan (badblocks.c), which may do anything, and what they hold and return when they keep
    what is written, or store several blocks in one cell. */
module BadBlockDevice {
  import opened BadBlockPattern

  // ---- Devices. ----

  type Cells = map<nat, Block>

  /** A device: how many of the blocks it transfers, what it then holds, and what it returns, each an arbitrary
      function of the time, the content and the request. */
  datatype Device = Device(write: (nat, Cells, nat, seq<Block>) -> (nat, Cells),
                           read: (nat, Cells, nat, nat) -> (nat, seq<Block>))
  {
    ghost predicate Valid() {
      && (forall t: nat, c, b: nat, d :: write(t, c, b, d).0 <= |d|)
      && (forall t: nat, c, b: nat, n: nat :: read(t, c, b, n).0 <= n && |read(t, c, b, n).1| == read(t, c, b, n).0)
    }
  }

  /** After a write, the blocks that were transferred are in the device, and those outside the request, as far as end,
      are as before. */
  ghost predicate Kept(c: Cells, b: nat, d: seq<Block>, got: nat, after: Cells, end: nat) {
    && got <= |d| && (forall x: nat | b <= x < b + got :: x in after && after[x] == d[x - b])
    && (forall x: nat | x in c && x < end && (x < b || b + |d| <= x) :: x in after && after[x] == c[x])
  }

  /** A read returns what is in the device. */
  ghost predicate Returned(c: Cells, b: nat, d: seq<Block>) {
    forall k: nat | k < |d| && b + k in c :: d[k] == c[b + k]
  }

  /** The blocks below end that a device transfers are kept and returned; it may fail at any time. */
  ghost predicate Honest(dev: Device, end: nat) {
    && (forall t: nat, c, b: nat, d | b + |d| <= end ::
        Kept(c, b, d, dev.write(t, c, b, d).0, dev.write(t, c, b, d).1, end))
    && (forall t: nat, c, b: nat, n: nat | b + n <= end :: Returned(c, b, dev.read(t, c, b, n).1))
  }

  /** The cell that holds a block on a device with m cells: b modulo m. */
  function Cell(b: nat, m: nat): (c: nat)
    requires m > 0
    ensures c < m
  {
    if b < m then b else Cell(b - m, m)
  }

  function StoreAll(c: Cells, m: nat, b: nat, d: seq<Block>): Cells
    requires m > 0
  {
    if d == [] then c else StoreAll(c, m, b, d[..|d| - 1])[Cell(b + |d| - 1, m) := d[|d| - 1]]
  }

  function Fetch(c: Cells, m: nat, b: nat): Block
    requires m > 0
  {
    if Cell(b, m) in c then c[Cell(b, m)] else []
  }

  /** Block after block as the cells have it. */
  ghost predicate Fetched(c: Cells, m: nat, b: nat, d: seq<Block>)
    requires m > 0
  {
    forall k: nat | k < |d| :: d[k] == Fetch(c, m, b + k)
  }

  /** A device whose writes all succeed, but which has only m cells, and stores block b in cell b modulo m. */
  ghost predicate Storing(dev: Device, m: nat) {
    m > 0 && forall t: nat, c, b: nat, d :: dev.write(t, c, b, d) == (|d|, StoreAll(c, m, b, d))
  }

  /** What it transfers when it is read comes from these cells. */
  ghost predicate Fetching(dev: Device, m: nat) {
    m > 0 && forall t: nat, c, b: nat, n: nat :: Fetched(c, m, b, dev.read(t, c, b, n).1)
  }

  /** Such a device whose reads all succeed as well. */
  ghost predicate Aliasing(dev: Device, m: nat) {
    Storing(dev, m) && Fetching(dev, m) && forall t: nat, c, b: nat, n: nat :: dev.read(t, c, b, n).0 == n
  }

  /** Such a device that reads single blocks only. */
  ghost predicate Balky(dev: Device, m: nat) {
    Storing(dev, m) && Fetching(dev, m) &&
    forall t: nat, c, b: nat, n: nat :: dev.read(t, c, b, n).0 == if n <= 1 then n else 0
  }

  /** Such a device that returns one block fewer than asked for, except when it is asked for a single one. */
  ghost predicate OneShort(dev: Device, m: nat) {
    Storing(dev, m) && Fetching(dev, m) &&
    forall t: nat, c, b: nat, n: nat :: dev.read(t, c, b, n).0 == if n <= 1 then n else n - 1
  }

  /** Such a device that reads single blocks only among the first 64, and cannot read the last of these at all. */
  ghost predicate Spotty(dev: Device, m: nat) {
    Storing(dev, m) && Fetching(dev, m) &&
    forall t: nat, c, b: nat, n: nat :: dev.read(t, c, b, n).0 == if b < 64 && (n > 1 || b == 63) then 0 else n
  }

  /** Blocks share a cell when they are a multiple of m apart. */
  lemma {:induction false} SameCell(x: nat, y: nat, m: nat)
    requires m > 0 && x < y
    ensures Cell(x, m) == Cell(y, m) ==> x + m <= y
    ensures y == x + m ==> Cell(x, m) == Cell(y, m)
  {
    if x >= m {
      SameCell(x - m, y - m, m);
    } else if m <= y < x + m {
      assert Cell(y - m, m) == y - m;
    }
  }

  lemma {:induction false} CellsOfRun(n: nat, k: nat, m: nat)
    requires m > 0 && Cell(n, m) == 0 && k <= m
    ensures Cell(n + k, m) == if k < m then k else 0
  {
    if n >= m { CellsOfRun(n - m, k, m); }
  }

  /** What a write of a run of blocks leaves in the cell of a block: the last block of the run with that cell, or what
      was there. */
  lemma {:induction false} Stored(c: Cells, m: nat, b: nat, d: seq<Block>, x: nat)
    requires m > 0 && x < b + |d| <= x + m
    ensures Fetch(StoreAll(c, m, b, d), m, x) == if x >= b then d[x - b] else Fetch(c, m, x)
  {
    if d != [] && x != b + |d| - 1 {
      SameCell(x, b + |d| - 1, m);
      Stored(c, m, b, d[..|d| - 1], x);
    }
  }

  /** The block below end that was stored in a cell last. */
  lemma Holder(b: nat, m: nat, end: nat) returns (y: nat)
    requires m > 0 && b < end
    ensures b <= y < end <= y + m && Cell(y, m) == Cell(b, m) && (y == b <==> end <= b + m)
  {
    y := b;
    while y + m < end
      invariant b <= y < end && Cell(y, m) == Cell(b, m) && (y == b || b + m <= y)
    {
      SameCell(y, y + m, m);
      y := y + m;
    }
  }

  /** With a cell for every block, a device of this kind is honest. */
  lemma StoringIsHonest(dev: Device, m: nat, end: nat)
    requires dev.Valid() && Storing(dev, m) && Fetching(dev, m) && end <= m
    ensures Honest(dev, end)
  {
    hide StoreAll;
    forall t: nat, c, b: nat, d | b + |d| <= end
      ensures Kept(c, b, d, dev.write(t, c, b, d).0, dev.write(t, c, b, d).1, end)
    {
      StoredInOrder(c, m, b, d, end);
    }
    forall t: nat, c, b: nat, n: nat | b + n <= end ensures Returned(c, b, dev.read(t, c, b, n).1) {
      var d := dev.read(t, c, b, n).1;
      forall k: nat | k < |d| && b + k in c ensures d[k] == c[b + k] {
        assert Cell(b + k, m) == b + k;
      }
    }
  }

  lemma {:induction false} StoredInOrder(c: Cells, m: nat, b: nat, d: seq<Block>, end: nat)
    requires m > 0 && b + |d| <= end <= m
    ensures Kept(c, b, d, |d|, StoreAll(c, m, b, d), end)
  {
    if d != [] {
      var front := d[..|d| - 1];
      StoredInOrder(c, m, b, front, end);
      assert Cell(b + |d| - 1, m) == b + |d| - 1;
      var before, after := StoreAll(c, m, b, front), StoreAll(c, m, b, d);
      assert after == before[b + |d| - 1 := d[|d| - 1]];
      forall x: nat | b <= x < b + |d| ensures x in after && after[x] == d[x - b] {
        if x < b + |front| {
          assert x in before && before[x] == front[x - b];
        }
      }
    }
  }

  function FetchAll(c: Cells, m: nat, b: nat, n: nat): (d: seq<Block>)
    requires m > 0
    ensures |d| == n
  {
    seq(n, k requires k >= 0 => Fetch(c, m, b + k))
  }

  /** The device with m cells whose reads transfer so many blocks, from a block on and of a number asked for. */
  function DeviceWith(m: nat, returned: (nat, nat) -> nat): Device
    requires m > 0
  {
    Device((t: nat, c: Cells, b: nat, d: seq<Block>) => (|d|, StoreAll(c, m, b, d)),
           (t: nat, c: Cells, b: nat, n: nat) => (returned(b, n), FetchAll(c, m, b, returned(b, n))))
  }

  lemma DeviceWithCells(m: nat, returned: (nat, nat) -> nat)
    requires m > 0 && forall b, n :: returned(b, n) <= n
    ensures var dev := DeviceWith(m, returned);
            && dev.Valid() && Storing(dev, m) && Fetching(dev, m)
            && forall t: nat, c, b: nat, n: nat :: dev.read(t, c, b, n).0 == returned(b, n)
  {
    var dev := DeviceWith(m, returned);
    assert forall t: nat, c, b: nat, d :: dev.write(t, c, b, d) == (|d|, StoreAll(c, m, b, d));
    assert forall t: nat, c, b: nat, n: nat ::
        dev.read(t, c, b, n) == (returned(b, n), FetchAll(c, m, b, returned(b, n)));
    assert forall c, b: nat, n: nat :: Fetched(c, m, b, FetchAll(c, m, b, n));
  }

  // ---- The content of the blocks. ----

  /** What a scan is given. */
  datatype Setup = Setup(first: nat, last: nat, size: nat, atOnce: nat, detect: bool, offset: nat)
  {
    ghost predicate Valid() {
      first <= last < TWO64 && atOnce > 0 && offset + 8 <= size
    }

    /** The block with this number when it lies at position i of the buffer. */
    function Content(p: Pattern, stamped: bool, b: nat, i: nat): (s: Block)
      requires offset + 8 <= size
      ensures |s| == size
    {
      if stamped then Stamp(Slice(p, size, i), offset, b) else Slice(p, size, i)
    }

    /** The position of a block in the buffer when no request has failed. */
    function Position(b: nat): nat
      requires first <= b && atOnce > 0
    {
      Cell(b - first, atOnce)
    }
  }

  /** The content of the block at some position of the buffer. */
  ghost predicate IsContent(u: Setup, p: Pattern, stamped: bool, b: nat, s: Block)
    requires u.Valid()
  {
    exists i | 0 <= i < u.atOnce :: s == u.Content(p, stamped, b, i)
  }

  /** The buffer is filled for a request that starts at a block. */
  ghost predicate Ready(u: Setup, p: Pattern, stamped: bool, buffer: seq<Block>, at: nat)
    requires u.Valid()
  {
    |buffer| == u.atOnce && forall i | 0 <= i < |buffer| :: buffer[i] == u.Content(p, stamped, at + i, i)
  }

  /** Every block before end is in place or known to be bad. */
  ghost predicate InPlace(u: Setup, p: Pattern, stamped: bool, bad: set<nat>, c: Cells, end: nat)
    requires u.Valid()
  {
    forall b | u.first <= b < end :: b in bad || (b in c && IsContent(u, p, stamped, b, c[b]))
  }

  /** Every one of m cells holds the last block before end that belongs there. */
  ghost predicate InCells(u: Setup, p: Pattern, stamped: bool, c: Cells, m: nat, end: nat)
    requires u.Valid() && m > 0
  {
    forall b | u.first <= b < end <= b + m :: Fetch(c, m, b) == u.Content(p, stamped, b, u.Position(b))
  }

  lemma WrittenInPlace(u: Setup, p: Pattern, stamped: bool, buffer: seq<Block>, at: nat, n: nat, got: nat,
                       bad: set<nat>, was: Cells, now: Cells)
    requires u.Valid() && u.first <= at && n <= |buffer| && Ready(u, p, stamped, buffer, at)
    requires at + n <= u.last && InPlace(u, p, stamped, bad, was, at) && Kept(was, at, buffer[..n], got, now, u.last)
    ensures InPlace(u, p, stamped, bad, now, at + got)
  {
    forall b | u.first <= b < at + got && b !in bad ensures b in now && IsContent(u, p, stamped, b, now[b]) {
      if b < at {
        assert now[b] == was[b];
      } else {
        var k: nat := b - at;
        assert buffer[..n][k] == buffer[k];
      }
    }
  }

  /** A block that is known to be bad need not be in place. */
  lemma BadNeedNotBe(u: Setup, p: Pattern, stamped: bool, bad: set<nat>, more: set<nat>, c: Cells, end: nat)
    requires u.Valid() && InPlace(u, p, stamped, bad, c, end)
    ensures InPlace(u, p, stamped, bad + more, c, end)
    ensures end in more ==> InPlace(u, p, stamped, bad + more, c, end + 1)
  {}

  lemma WrittenInCells(u: Setup, p: Pattern, stamped: bool, buffer: seq<Block>, at: nat, n: nat, was: Cells, m: nat)
    requires u.Valid() && u.first <= at && n <= |buffer| && Ready(u, p, stamped, buffer, at)
    requires m > 0 && u.Position(at) == 0 && InCells(u, p, stamped, was, m, at)
    ensures InCells(u, p, stamped, StoreAll(was, m, at, buffer[..n]), m, at + n)
  {
    hide StoreAll, Fetch;
    var now := StoreAll(was, m, at, buffer[..n]);
    forall b | u.first <= b < at + n <= b + m
      ensures Fetch(now, m, b) == u.Content(p, stamped, b, u.Position(b))
    {
      Stored(was, m, at, buffer[..n], b);
      if b >= at { CellsOfRun(at - u.first, b - at, u.atOnce); }
    }
  }

  /** What m cells return for a block differs from its content at a position of the buffer if a later block was stored
      in its cell, as the stamp then tells; and if none was, exactly if the content at the position it was written from
      differs. */
  lemma CellDiffers(u: Setup, p: Pattern, stamped: bool, c: Cells, m: nat, b: nat, i: nat)
    requires u.Valid() && m > 0 && InCells(u, p, stamped, c, m, u.last) && u.first <= b < u.last
    requires stamped || u.last <= b + m
    ensures Fetch(c, m, b) == u.Content(p, stamped, b, i) <==>
            u.last <= b + m && u.Content(p, stamped, b, u.Position(b)) == u.Content(p, stamped, b, i)
  {
    hide Slice, Stamp, Cell;
    var y := Holder(b, m, u.last);
    assert Fetch(c, m, y) == u.Content(p, stamped, y, u.Position(y));
    if y != b && Fetch(c, m, b) == u.Content(p, stamped, b, i) {
      StampsDiffer(Slice(p, u.size, u.Position(y)), Slice(p, u.size, i), u.offset, y, b);
    }
  }

  /** When whole repetitions of the pattern fill a block, its content does not depend on the position. */
  lemma ContentAlike(u: Setup, p: Pattern, stamped: bool, b: nat, i: nat, j: nat)
    requires u.Valid() && u.size % Period(p) == 0
    ensures u.Content(p, stamped, b, i) == u.Content(p, stamped, b, j)
  {
    hide Slice, Stamp, Period;
    SlicesAlike(p, u.size, i, j);
  }

  /** What is returned of a block that is in place is its content at any position, if it does not depend on that. */
  lemma PlaceDiffers(u: Setup, p: Pattern, stamped: bool, bad: set<nat>, c: Cells, b: nat, s: Block, i: nat)
    requires u.Valid() && u.size % Period(p) == 0 && InPlace(u, p, stamped, bad, c, u.last) && u.first <= b < u.last
    requires b in c ==> s == c[b]
    ensures s == u.Content(p, stamped, b, i) || b in bad
  {
    hide Slice, Stamp, Period;
    if b !in bad {
      assert IsContent(u, p, stamped, b, c[b]);
      var j :| 0 <= j < u.atOnce && c[b] == u.Content(p, stamped, b, j);
      ContentAlike(u, p, stamped, b, i, j);
    }
  }
}
