/** The regions of a PE image that are hashed (hash.c): a list kept sorted and disjoint, filled from the headers and the
    section table, and the bytes it selects. */
module PeRegions {
  import opened HashStream
  import ShaDigest

  const TWO32: nat := 0x1_0000_0000

  /** size bytes of the image from an offset. */
  datatype Region = Region(data: nat, size: nat)
  {
    function End(): nat { data + size }
  }

  // ---- The list. ----

  /** Each region begins where the one before has ended or later. */
  ghost predicate Sorted(s: seq<Region>) {
    forall i, j | 0 <= i < j < |s| :: s[i].End() <= s[j].data
  }

  /** No region of the list overlaps the new one. */
  ghost predicate Fits(s: seq<Region>, start: nat, end: nat) {
    forall i | 0 <= i < |s| :: s[i].End() <= start || end <= s[i].data
  }

  /** The number of regions that end before the new one starts, up to the first that does not. */
  function Place(s: seq<Region>, start: nat): (i: nat)
    ensures i <= |s| && forall k | 0 <= k < i :: s[k].End() <= start
    ensures i < |s| ==> start < s[i].End()
  {
    if s == [] || start < s[0].End() then 0 else 1 + Place(s[1..], start)
  }

  /** The list after an insertion, which is refused if it would break the order. */
  function Insert(s: seq<Region>, start: nat, end: nat): seq<Region> {
    var i := Place(s, start);
    if end < start || (i < |s| && s[i].data < end) then s
    else s[..i] + [Region(start, (end - start) % TWO32)] + s[i..]
  }

  /** A sorted list stays sorted, and a region is refused exactly when it is reversed or overlaps. */
  lemma InsertSorts(s: seq<Region>, start: nat, end: nat)
    requires Sorted(s)
    ensures Sorted(Insert(s, start, end))
    ensures Insert(s, start, end) == s || |Insert(s, start, end)| == |s| + 1
    ensures |Insert(s, start, end)| == |s| + 1 <==> start <= end && Fits(s, start, end)
  {
    var i := Place(s, start);
    if i < |s| && start <= end <= s[i].data {
      assert forall k | i <= k < |s| :: s[i].data <= s[k].data;
    }
    if start <= end && (i == |s| || end <= s[i].data) {
      SortedPut(s, i, Region(start, (end - start) % TWO32));
    }
  }

  lemma SortedPut(s: seq<Region>, i: nat, r: Region)
    requires Sorted(s) && i <= |s| && (forall k | 0 <= k < i :: s[k].End() <= r.data)
    requires i < |s| ==> r.End() <= s[i].data
    ensures Sorted(s[..i] + [r] + s[i..])
  {
    var t := s[..i] + [r] + s[i..];
    PutIndices(s, i, r);
    if i < |s| {
      assert forall b | i < b < |s| :: r.End() <= s[b].data by {
        forall b | i < b < |s| ensures r.End() <= s[b].data { assert s[i].End() <= s[b].data; }
      }
    }
  }

  lemma PutIndices(s: seq<Region>, i: nat, r: Region)
    requires i <= |s|
    ensures var t := s[..i] + [r] + s[i..];
            forall a | 0 <= a < |t| :: t[a] == if a < i then s[a] else if a == i then r else s[a - 1]
  {}

  class ImageRegions {
    const max: nat
    var num: nat
    const reg: array<Region>

    ghost predicate Valid()
      reads this, reg
    {
      num <= max == reg.Length && Sorted(reg[..num])
    }

    ghost function Contents(): seq<Region>
      reads this, reg
      requires Valid()
    {
      reg[..num]
    }

    constructor (max: nat)
      ensures Valid() && Contents() == [] && this.max == max && fresh(reg)
    {
      this.max := max;
      num := 0;
      reg := new Region[max](_ => Region(0, 0));
    }

    /** efi_image_region_add with nocheck 0. */
    method Add(start: nat, end: nat) returns (ok: bool)
      requires Valid()
      modifies this`num, reg
      ensures Valid() && num <= old(num) + 1
      ensures Contents() == if old(num) < max then Insert(old(Contents()), start, end) else old(Contents())
      ensures ok <==> num == old(num) + 1
    {
      if num >= max {
        return false;
      }
      hide Sorted, Fits, Place;
      ghost var s := Contents();
      InsertSorts(s, start, end);
      if end < start {
        return false;
      }
      var i := Locate(start);
      if i < num {
        if end <= reg[i].data {
          ShiftUp(i);
        } else {
          return false;
        }
      }
      Put(i, Region(start, (end - start) % TWO32), s);
      return true;
    }

    /** The loop over the regions that end before the new one starts. */
    method Locate(start: nat) returns (i: nat)
      requires Valid()
      ensures i == Place(Contents(), start) <= num
      ensures i < num ==> start < reg[i].End()
    {
      i := 0;
      while i < num && start >= reg[i].data + reg[i].size
        invariant i <= num && forall k | 0 <= k < i :: reg[k].End() <= start
      {
        i := i + 1;
      }
      PlaceIs(reg[..num], start, i);
    }

    method Put(i: nat, r: Region, ghost s: seq<Region>)
      requires i <= num == |s| < reg.Length && reg[..i] == s[..i] && reg[i + 1..num + 1] == s[i..]
      modifies this`num, reg
      ensures num == old(num) + 1 && reg[..num] == s[..i] + [r] + s[i..]
    {
      ghost var rest := reg[i + 1..num + 1];
      reg[i] := r;
      num := num + 1;
      assert reg[..num] == reg[..i] + [reg[i]] + reg[i + 1..num];
      assert reg[i + 1..num] == rest;
    }

    method ShiftUp(i: nat)
      requires i < num < reg.Length
      modifies reg
      ensures reg[..i] == old(reg[..i]) && reg[i + 1..num + 1] == old(reg[i..num])
    {
      var j := num;
      while j > i
        invariant i <= j <= num
        invariant forall k | 0 <= k < j :: reg[k] == old(reg[k])
        invariant forall k | j < k <= num :: reg[k] == old(reg[k - 1])
      {
        reg[j] := reg[j - 1];
        j := j - 1;
      }
      assert forall k | 0 <= k < i :: reg[k] == old(reg[k]);
      ghost var moved, were := reg[i + 1..num + 1], old(reg[i..num]);
      assert forall k | 0 <= k < num - i :: moved[k] == were[k];
    }
  }

  lemma {:induction false} PlaceIs(s: seq<Region>, start: nat, i: nat)
    requires i <= |s| && (forall k | 0 <= k < i :: s[k].End() <= start) && (i < |s| ==> start < s[i].End())
    ensures Place(s, start) == i
  {
    if i > 0 { PlaceIs(s[1..], start, i - 1); }
  }

  // ---- The bytes a list selects. ----

  ghost function Interval(low: nat, high: nat): (r: set<nat>)
    ensures forall k :: k in r <==> low <= k < high
  {
    if low >= high then {} else Interval(low, high - 1) + {high - 1}
  }

  ghost function Positions(s: seq<Region>): set<nat> {
    if s == [] then {} else Interval(s[0].data, s[0].End()) + Positions(s[1..])
  }

  /** The bytes from a up to b whose positions are in the set, in order. */
  ghost function Select(image: seq<Byte>, p: set<nat>, a: nat, b: nat): seq<Byte>
    requires b <= |image|
    decreases b - a
  {
    if a >= b then [] else (if a in p then [image[a]] else []) + Select(image, p, a + 1, b)
  }

  ghost predicate Within(s: seq<Region>, len: nat) {
    forall i | 0 <= i < |s| :: s[i].End() <= len
  }

  /** The byte at an offset from the start of the image, which may lie in the memory behind it. */
  function ByteAt(image: seq<Byte>, beyond: nat -> Byte, k: nat): Byte {
    if k < |image| then image[k] else beyond(k - |image|)
  }

  function Piece(image: seq<Byte>, beyond: nat -> Byte, r: Region): (piece: seq<Byte>)
    ensures |piece| == r.size
  {
    seq(r.size, k requires k >= 0 => ByteAt(image, beyond, r.data + k))
  }

  /** The pieces that are passed to the hash. */
  function Pieces(image: seq<Byte>, beyond: nat -> Byte, s: seq<Region>): seq<seq<Byte>> {
    if s == [] then [] else Pieces(image, beyond, s[..|s| - 1]) + [Piece(image, beyond, s[|s| - 1])]
  }

  lemma {:induction false} SelectSplit(image: seq<Byte>, p: set<nat>, a: nat, c: nat, b: nat)
    requires a <= c <= b <= |image|
    ensures Select(image, p, a, b) == Select(image, p, a, c) + Select(image, p, c, b)
    decreases c - a
  {
    if a < c { SelectSplit(image, p, a + 1, c, b); }
  }

  lemma {:induction false} SelectAll(image: seq<Byte>, p: set<nat>, a: nat, b: nat)
    requires a <= b <= |image| && forall k: nat | a <= k < b :: k in p
    ensures Select(image, p, a, b) == image[a..b]
    decreases b - a
  {
    if a < b {
      SelectAll(image, p, a + 1, b);
      assert image[a..b] == [image[a]] + image[a + 1..b];
    }
  }

  lemma {:induction false} SelectNone(image: seq<Byte>, p: set<nat>, a: nat, b: nat)
    requires a <= b <= |image| && forall k: nat | a <= k < b :: k !in p
    ensures Select(image, p, a, b) == []
    decreases b - a
  {
    if a < b {
      SelectNone(image, p, a + 1, b);
    }
  }

  lemma {:induction false} SelectSame(image: seq<Byte>, p: set<nat>, q: set<nat>, a: nat, b: nat)
    requires a <= b <= |image| && forall k | a <= k < b :: k in p <==> k in q
    ensures Select(image, p, a, b) == Select(image, q, a, b)
    decreases b - a
  {
    if a < b { SelectSame(image, p, q, a + 1, b); }
  }

  lemma {:induction false} PositionsAre(s: seq<Region>)
    ensures forall k :: k in Positions(s) <==> exists i | 0 <= i < |s| :: s[i].data <= k < s[i].End()
  {
    if s != [] {
      PositionsAre(s[1..]);
      assert forall i | 0 <= i < |s[1..]| :: s[1..][i] == s[i + 1];
      forall k ensures k in Positions(s) <==> exists i | 0 <= i < |s| :: s[i].data <= k < s[i].End() {
        if k in Positions(s[1..]) {
          var i :| 0 <= i < |s[1..]| && s[1..][i].data <= k < s[1..][i].End();
          assert s[i + 1].data <= k < s[i + 1].End();
        }
        if i :| 0 <= i < |s| && s[i].data <= k < s[i].End() {
          assert i == 0 || (s[1..][i - 1].data <= k < s[1..][i - 1].End());
        }
      }
    }
  }

  /** What is hashed for a sorted list in the image are the bytes at its positions, each once, in the order of the
      image. */
  lemma {:induction false} PiecesSelect(image: seq<Byte>, beyond: nat -> Byte, s: seq<Region>)
    requires Sorted(s) && Within(s, |image|)
    ensures Flat(Pieces(image, beyond, s)) == Select(image, Positions(s), 0, |image|)
  {
    if s == [] {
      SelectNone(image, {}, 0, |image|);
    } else {
      var front, r := s[..|s| - 1], s[|s| - 1];
      assert r.End() <= |image| && Sorted(front) && Within(front, |image|);
      PieceOfImage(image, beyond, r);
      hide Select, Positions, Sorted, Within, Piece;
      PiecesSelect(image, beyond, front);
      LastPiece(image, beyond, s);
      LastRegion(s);
      var p, q := Positions(s), Positions(front);
      assert forall k: nat :: k in p <==> k in q || r.data <= k < r.End();
      assert forall k: nat | k in q :: k in Interval(0, r.data);
      SelectLast(image, p, q, r);
    }
  }

  lemma PieceOfImage(image: seq<Byte>, beyond: nat -> Byte, r: Region)
    requires r.End() <= |image|
    ensures Piece(image, beyond, r) == image[r.data..r.End()]
  {
    var piece, bytes := Piece(image, beyond, r), image[r.data..r.End()];
    forall k: nat | k < r.size ensures piece[k] == bytes[k] {
      assert piece[k] == ByteAt(image, beyond, r.data + k);
    }
  }

  /** All bytes of the regions lie in the image. */
  ghost predicate Inside(s: seq<Region>, len: nat) {
    forall i | 0 <= i < |s| :: s[i].size == 0 || s[i].End() <= len
  }

  /** The same bytes are hashed whichever of the two follows the image in memory. */
  ghost predicate SameBytes(image: seq<Byte>, b: nat -> Byte, c: nat -> Byte, s: seq<Region>) {
    Flat(Pieces(image, b, s)) == Flat(Pieces(image, c, s))
  }

  /** What is hashed does not depend on the memory behind the image exactly if no region goes beyond it. */
  lemma InsideMatters(image: seq<Byte>, s: seq<Region>)
    ensures Inside(s, |image|) <==> forall b: nat -> Byte, c: nat -> Byte :: SameBytes(image, b, c, s)
  {
    hide Flat, Pieces, Piece;
    if Inside(s, |image|) {
      forall b: nat -> Byte, c: nat -> Byte ensures SameBytes(image, b, c, s) {
        SamePieces(image, b, c, s);
      }
    } else {
      var i :| 0 <= i < |s| && s[i].size != 0 && s[i].End() > |image|;
      var b: nat -> Byte, c: nat -> Byte := (k: nat) => 0, (k: nat) => 1;
      LastByte(image, b, s[i]);
      LastByte(image, c, s[i]);
      if SameBytes(image, b, c, s) {
        SamePiece(image, b, c, s, i);
        assert false;
      }
      assert !SameBytes(image, b, c, s);
    }
  }

  lemma LastByte(image: seq<Byte>, beyond: nat -> Byte, r: Region)
    requires r.size > 0 && r.End() > |image|
    ensures Piece(image, beyond, r)[r.size - 1] == beyond(r.End() - 1 - |image|)
  {
    var k := r.size - 1;
    assert Piece(image, beyond, r)[k] == ByteAt(image, beyond, r.data + k);
  }

  lemma {:induction false} SamePieces(image: seq<Byte>, b: nat -> Byte, c: nat -> Byte, s: seq<Region>)
    requires Inside(s, |image|)
    ensures Pieces(image, b, s) == Pieces(image, c, s)
  {
    if s != [] {
      var r := s[|s| - 1];
      SamePieces(image, b, c, s[..|s| - 1]);
      forall k: nat | k < r.size ensures Piece(image, b, r)[k] == Piece(image, c, r)[k] {
        assert Piece(image, b, r)[k] == ByteAt(image, b, r.data + k);
      }
      assert Piece(image, b, r) == Piece(image, c, r);
    }
  }

  /** Pieces of the same lengths are the same if they are the same when put together. */
  lemma {:induction false} SamePiece(image: seq<Byte>, b: nat -> Byte, c: nat -> Byte, s: seq<Region>, i: nat)
    requires i < |s| && Flat(Pieces(image, b, s)) == Flat(Pieces(image, c, s))
    ensures Piece(image, b, s[i]) == Piece(image, c, s[i])
  {
    var front, r := s[..|s| - 1], s[|s| - 1];
    LastPiece(image, b, s);
    LastPiece(image, c, s);
    var f, g := Flat(Pieces(image, b, front)), Flat(Pieces(image, c, front));
    assert |f| == |g|;
    assert (f + Piece(image, b, r))[..|f|] == f && (g + Piece(image, c, r))[..|g|] == g;
    assert (f + Piece(image, b, r))[|f|..] == Piece(image, b, r);
    assert (g + Piece(image, c, r))[|g|..] == Piece(image, c, r);
    if i < |s| - 1 { SamePiece(image, b, c, front, i); }
  }

  lemma SelectLast(image: seq<Byte>, p: set<nat>, q: set<nat>, r: Region)
    requires r.End() <= |image|
    requires forall k: nat :: k in p <==> k in q || r.data <= k < r.End()
    requires forall k: nat | k in q :: k < r.data
    ensures Select(image, p, 0, |image|) == Select(image, q, 0, |image|) + image[r.data..r.End()]
  {
    hide Select;
    SelectSplit(image, p, 0, r.data, |image|);
    SelectSplit(image, p, r.data, r.End(), |image|);
    SelectSplit(image, q, 0, r.data, |image|);
    SelectSame(image, p, q, 0, r.data);
    SelectAll(image, p, r.data, r.End());
    SelectNone(image, p, r.End(), |image|);
    SelectNone(image, q, r.data, |image|);
  }

  lemma LastPiece(image: seq<Byte>, beyond: nat -> Byte, s: seq<Region>)
    requires s != []
    ensures Flat(Pieces(image, beyond, s)) ==
            Flat(Pieces(image, beyond, s[..|s| - 1])) + Piece(image, beyond, s[|s| - 1])
  {
    var all := Pieces(image, beyond, s);
    assert all[..|all| - 1] == Pieces(image, beyond, s[..|s| - 1]);
  }

  /** The positions of the last region follow all others. */
  lemma {:induction false} LastRegion(s: seq<Region>)
    requires Sorted(s) && s != []
    ensures Positions(s) == Positions(s[..|s| - 1]) + Interval(s[|s| - 1].data, s[|s| - 1].End())
    ensures Positions(s[..|s| - 1]) <= Interval(0, s[|s| - 1].data)
  {
    var r := s[|s| - 1];
    if |s| > 1 {
      LastRegion(s[1..]);
      assert s[1..][|s[1..]| - 1] == r;
      assert s[1..][..|s[1..]| - 1] == s[1..|s| - 1] == s[..|s| - 1][1..];
      assert s[..|s| - 1][0] == s[0];
      assert s[0].End() <= s[|s| - 1].data;
    }
  }

  // ---- The image. ----

  /** The fields of a section header that matter. */
  datatype Section = Section(virtualAddress: nat, rawSize: bv32, rawData: nat)
  {
    /** The size rounded up by masking, in 32 bits. */
    function Size(align: bv32): nat {
      ((rawSize + align - 1) & !(align - 1)) as nat
    }
  }

  const MAGIC32: nat := 0x10b
  const MAGIC64: nat := 0x20b

  /** The fields of the headers that matter. */
  datatype Headers = Headers(lfanew: nat, magic: nat, rvaCount: nat, size: nat, align: bv32, certificates: nat)
  {
    /** The offsets of CheckSum, of Subsystem and of the directory entry of the certificates in the image. */
    function CheckSum(): nat { lfanew + 24 + 64 }

    function Subsystem(): nat { CheckSum() + 4 }

    function Directory(): nat { lfanew + 24 + (if magic == MAGIC64 then 112 else 96) + 8 * 4 }

    /** The certificates that are left out. */
    function Excluded(): nat { if rvaCount <= 4 then 0 else certificates }

    /** The directory entry and the certificates are inside the image. */
    predicate Fits(len: nat) {
      Directory() + 8 + certificates <= len
    }

    predicate Readable(len: nat) {
      0x80 <= len && lfanew + 0x40 <= len && (magic == MAGIC32 || magic == MAGIC64)
    }
  }

  function HeaderRegions(pe: Headers): seq<Region> {
    var first := Insert([], 0, pe.CheckSum());
    if pe.rvaCount <= 4 then Insert(first, pe.Subsystem(), pe.size)
    else Insert(Insert(first, pe.Subsystem(), pe.Directory()), pe.Directory() + 8, pe.size)
  }

  /** The list after the sections, in the order in which they are gone through. */
  function SectionRegions(s: seq<Region>, sections: seq<Section>, align: bv32): seq<Region> {
    if sections == [] then s
    else
      var before, last := SectionRegions(s, sections[..|sections| - 1], align), sections[|sections| - 1];
      if last.rawSize == 0 then before else Insert(before, last.rawData, last.rawData + last.Size(align))
  }

  function Total(sections: seq<Section>, align: bv32): nat {
    if sections == [] then 0
    else
      var last := sections[|sections| - 1];
      Total(sections[..|sections| - 1], align) + if last.rawSize == 0 then 0 else last.Size(align)
  }

  function ImageList(pe: Headers, sections: seq<Section>, len: nat): seq<Region> {
    var s := SectionRegions(HeaderRegions(pe), sections, pe.align);
    var hashed := pe.size + Total(sections, pe.align);
    if hashed + pe.Excluded() < len then Insert(s, hashed, len - pe.Excluded()) else s
  }

  ghost predicate ByAddress(sections: seq<Section>) {
    forall i, j | 0 <= i < j < |sections| :: sections[i].virtualAddress <= sections[j].virtualAddress
  }

  /** efi_image_parse, on the sections as qsort leaves them. */
  method Parse(pe: Headers, sorted: seq<Section>, len: nat) returns (regs: ImageRegions?)
    requires ByAddress(sorted)
    ensures regs != null <==> pe.Readable(len)
    ensures regs != null ==> fresh(regs) && regs.Valid() && regs.Contents() == ImageList(pe, sorted, len)
  {
    if len < 0x80 || pe.lfanew + 0x40 > len || (pe.magic != MAGIC64 && pe.magic != MAGIC32) {
      return null;
    }
    hide Insert, Sorted, ImageList;
    regs := new ImageRegions(3 + |sorted| + 1);
    Collect(regs, pe, sorted, len);
  }

  method Collect(regs: ImageRegions, pe: Headers, sorted: seq<Section>, len: nat)
    requires regs.Valid() && regs.Contents() == [] && regs.max == 3 + |sorted| + 1
    modifies regs, regs.reg
    ensures regs.Valid() && regs.Contents() == ImageList(pe, sorted, len)
  {
    hide Insert, Sorted, HeaderRegions, SectionRegions, Total;
    AddHeaders(regs, pe);
    var hashed := AddSections(regs, pe, sorted);
    if hashed + pe.Excluded() < len {
      var _ := regs.Add(hashed, len - pe.Excluded());
    }
  }

  method AddHeaders(regs: ImageRegions, pe: Headers)
    requires regs.Valid() && regs.Contents() == [] && regs.max >= 3
    modifies regs, regs.reg
    ensures regs.Valid() && regs.Contents() == HeaderRegions(pe) && regs.num <= 3
  {
    hide Insert, Sorted;
    var _ := regs.Add(0, pe.CheckSum());
    if pe.rvaCount <= 4 {
      var _ := regs.Add(pe.Subsystem(), pe.size);
    } else {
      var _ := regs.Add(pe.Subsystem(), pe.Directory());
      var _ := regs.Add(pe.Directory() + 8, pe.size);
    }
  }

  method AddSections(regs: ImageRegions, pe: Headers, sorted: seq<Section>) returns (hashed: nat)
    requires regs.Valid() && regs.num <= 3 && regs.max > 3 + |sorted|
    modifies regs, regs.reg
    ensures regs.Valid() && regs.num <= 3 + |sorted|
    ensures regs.Contents() == SectionRegions(old(regs.Contents()), sorted, pe.align)
    ensures hashed == pe.size + Total(sorted, pe.align)
  {
    hide Insert, Sorted;
    hashed := pe.size;
    for i := 0 to |sorted|
      invariant regs.Valid() && regs.num <= 3 + i
      invariant regs.Contents() == SectionRegions(old(regs.Contents()), sorted[..i], pe.align)
      invariant hashed == pe.size + Total(sorted[..i], pe.align)
    {
      assert sorted[..i + 1][..i] == sorted[..i];
      if sorted[i].rawSize == 0 {
        continue;
      }
      var size := sorted[i].Size(pe.align);
      var _ := regs.Add(sorted[i].rawData, sorted[i].rawData + size);
      hashed := hashed + size;
    }
    assert sorted[..|sorted|] == sorted;
  }

  // ---- Images whose sections fill the file. ----

  /** The byte belongs to a section. */
  ghost predicate InSections(sections: seq<Section>, align: bv32, k: nat) {
    exists j | 0 <= j < |sections| :: InSection(sections[j], align, k)
  }

  /** The sections lie side by side, in any order, from one offset to another. */
  ghost predicate Tile(sections: seq<Section>, align: bv32, low: nat, high: nat) {
    && (forall j | 0 <= j < |sections| && sections[j].rawSize != 0 :: InRange(sections[j], align, low, high))
    && (forall i, j | 0 <= i < j < |sections| && sections[i].rawSize != 0 && sections[j].rawSize != 0 ::
          Apart(sections[i], sections[j], align))
    && (forall k: nat | low <= k < high :: InSections(sections, align, k))
  }

  /** The same of the sections as they are in the table, whose order does not matter. */
  ghost predicate Tiling(sections: multiset<Section>, align: bv32, low: nat, high: nat) {
    && (forall s | s in sections && s.rawSize != 0 :: InRange(s, align, low, high) && sections[s] == 1)
    && (forall s, t | s in sections && t in sections && s.rawSize != 0 && t.rawSize != 0 && s != t ::
        Apart(s, t, align))
    && (forall k: nat | low <= k < high :: InSome(sections, align, k))
  }

  lemma Twice(s: seq<Section>, i: nat, j: nat)
    requires i < j < |s|
    ensures s[i] == s[j] ==> multiset(s)[s[i]] >= 2
  {
    assert s == s[..j] + s[j..];
    assert s[..j][i] == s[i] && s[j..][0] == s[j];
    assert multiset(s) == multiset(s[..j]) + multiset(s[j..]);
  }

  ghost predicate InSome(sections: multiset<Section>, align: bv32, k: nat) {
    exists s | s in sections :: InSection(s, align, k)
  }

  lemma TilingIsTile(sections: seq<Section>, align: bv32, low: nat, high: nat)
    requires Tiling(multiset(sections), align, low, high)
    ensures Tile(sections, align, low, high)
  {
    forall j | 0 <= j < |sections| && sections[j].rawSize != 0 ensures InRange(sections[j], align, low, high) {
      assert sections[j] in multiset(sections);
    }
    forall i, j | 0 <= i < j < |sections| && sections[i].rawSize != 0 && sections[j].rawSize != 0
      ensures Apart(sections[i], sections[j], align)
    {
      assert sections[i] in multiset(sections) && sections[j] in multiset(sections);
      Twice(sections, i, j);
    }
    forall k: nat | low <= k < high ensures InSections(sections, align, k) {
      assert InSome(multiset(sections), align, k);
      var s :| s in multiset(sections) && InSection(s, align, k);
      var j :| 0 <= j < |sections| && sections[j] == s;
      assert InSection(sections[j], align, k);
    }
  }

  ghost predicate InRange(s: Section, align: bv32, low: nat, high: nat) {
    low <= s.rawData < s.rawData + s.Size(align) <= high
  }

  ghost predicate Apart(s: Section, t: Section, align: bv32) {
    s.rawData + s.Size(align) <= t.rawData || t.rawData + t.Size(align) <= s.rawData
  }

  ghost function Weight(s: seq<Region>): nat {
    if s == [] then 0 else s[0].size + Weight(s[1..])
  }

  lemma {:induction false} WeightPlus(s: seq<Region>, t: seq<Region>)
    ensures Weight(s + t) == Weight(s) + Weight(t) && Positions(s + t) == Positions(s) + Positions(t)
  {
    if s == [] {
      assert s + t == t;
    } else {
      assert (s + t)[1..] == s[1..] + t;
      WeightPlus(s[1..], t);
    }
  }

  lemma {:induction false} IntervalSize(low: nat, high: nat)
    ensures |Interval(low, high)| == if low <= high then high - low else 0
  {
    if low < high { IntervalSize(low, high - 1); }
  }

  /** A sorted list has as many positions as its sizes add up to. */
  lemma {:induction false} WeightCounts(s: seq<Region>)
    requires Sorted(s)
    ensures |Positions(s)| == Weight(s)
  {
    if s != [] {
      var front, r := s[..|s| - 1], s[|s| - 1];
      assert Sorted(front);
      hide Positions, Weight, Sorted;
      WeightCounts(front);
      LastRegion(s);
      IntervalSize(r.data, r.End());
      WeightLast(s);
      hide Interval;
      DisjointSum(Positions(front), Interval(0, r.data), Interval(r.data, r.End()));
    }
  }

  lemma DisjointSum(a: set<nat>, b: set<nat>, c: set<nat>)
    requires a <= b && b !! c
    ensures |a + c| == |a| + |c|
  {
    assert a !! c;
  }

  lemma WeightLast(s: seq<Region>)
    requires s != []
    ensures Weight(s) == Weight(s[..|s| - 1]) + s[|s| - 1].size
  {
    var r := s[|s| - 1];
    WeightPlus(s[..|s| - 1], [r]);
    assert s == s[..|s| - 1] + [r];
    assert Weight([r]) == r.size;
  }

  /** A region that fits is added with all its positions. */
  lemma Inserted(s: seq<Region>, start: nat, end: nat)
    requires Sorted(s) && start <= end < start + TWO32 && Fits(s, start, end)
    ensures var t := Insert(s, start, end);
            && Sorted(t) && Positions(t) == Positions(s) + Interval(start, end) &&
               Weight(t) == Weight(s) + (end - start)
            && forall r :: r in t <==> r in s || r == Region(start, end - start)
  {
    hide Sorted, Fits, Place, Positions, Weight, Interval;
    InsertSorts(s, start, end);
    var i, r := Place(s, start), Region(start, end - start);
    assert (end - start) % TWO32 == end - start;
    Put(s, i, r);
  }

  lemma Put(s: seq<Region>, i: nat, r: Region)
    requires i <= |s|
    ensures var t := s[..i] + [r] + s[i..];
            && Positions(t) == Positions(s) + Interval(r.data, r.End()) && Weight(t) == Weight(s) + r.size
            && forall x :: x in t <==> x in s || x == r
  {
    assert s == s[..i] + s[i..];
    WeightPlus(s[..i], [r]);
    WeightPlus(s[..i] + [r], s[i..]);
    WeightPlus(s[..i], s[i..]);
    assert Positions([r]) == Interval(r.data, r.End());
  }

  /** Every region ends before the sections begin, or is one of the sections. */
  ghost predicate HeadersOrSections(t: seq<Region>, sections: seq<Section>, align: bv32, low: nat) {
    forall r | r in t :: r.End() <= low || IsSection(r, sections, align)
  }

  ghost predicate IsSection(r: Region, sections: seq<Section>, align: bv32) {
    exists j | 0 <= j < |sections| :: sections[j].rawSize != 0 &&
      r == Region(sections[j].rawData, sections[j].Size(align))
  }

  /** The positions of one list are those of the other and the bytes of the sections. */
  ghost predicate PositionsPlus(s: seq<Region>, t: seq<Region>, sections: seq<Section>, align: bv32) {
    forall k: nat :: k in Positions(t) <==> k in Positions(s) || InSections(sections, align, k)
  }

  /** The list t is s with the sections added to it. */
  ghost predicate Added(s: seq<Region>, t: seq<Region>, sections: seq<Section>, align: bv32, low: nat) {
    && Sorted(t) && HeadersOrSections(t, sections, align, low)
    && Weight(t) == Weight(s) + Total(sections, align) && PositionsPlus(s, t, sections, align)
  }

  /** The first sections of a tiling fit one after the other, and add their bytes. */
  lemma {:induction false} SectionsAdded(s: seq<Region>, all: seq<Section>, n: nat, align: bv32, low: nat, high: nat)
    requires n <= |all| && Tile(all, align, low, high) && high < TWO32
    requires Sorted(s) && forall r | r in s :: r.End() <= low
    ensures Added(s, SectionRegions(s, all[..n], align), all[..n], align, low)
  {
    hide Added, Insert, Tile, Section.Size;
    if n == 0 {
      NoneAdded(s, align, low);
    } else {
      SectionsAdded(s, all, n - 1, align, low, high);
      assert all[..n][..n - 1] == all[..n - 1];
      SectionAdded(s, SectionRegions(s, all[..n - 1], align), all, n, align, low, high);
    }
  }

  lemma NoneAdded(s: seq<Region>, align: bv32, low: nat)
    requires Sorted(s) && forall r | r in s :: r.End() <= low
    ensures Added(s, s, [], align, low)
  {}

  lemma SectionAdded(s: seq<Region>, t: seq<Region>, all: seq<Section>, n: nat, align: bv32, low: nat, high: nat)
    requires 0 < n <= |all| && Tile(all, align, low, high) && high < TWO32 && Added(s, t, all[..n - 1], align, low)
    ensures Added(s, if all[n - 1].rawSize == 0 then t
                     else Insert(t, all[n - 1].rawData, all[n - 1].rawData + all[n - 1].Size(align)),
                  all[..n], align, low)
  {
    hide Insert, Sorted, Positions, Weight, Total, HeadersOrSections, PositionsPlus, Tile, Fits, Section.Size, Interval;
    TotalStep(all, n, align);
    if all[n - 1].rawSize != 0 {
      var start, size := all[n - 1].rawData, all[n - 1].Size(align);
      NextFits(t, all, n, align, low, high);
      Inserted(t, start, start + size);
      assert start + size - start == size;
      OneMore(s, t, Insert(t, start, start + size), all, n, align, low);
    } else {
      OneEmpty(s, t, all, n, align, low);
    }
  }

  lemma NextFits(t: seq<Region>, all: seq<Section>, n: nat, align: bv32, low: nat, high: nat)
    requires 0 < n <= |all| && Tile(all, align, low, high) && high < TWO32 && all[n - 1].rawSize != 0
    requires HeadersOrSections(t, all[..n - 1], align, low)
    ensures var start := all[n - 1].rawData;
            var end := start + all[n - 1].Size(align);
            Fits(t, start, end) && start <= end < start + TWO32
  {
    var start, before := all[n - 1].rawData, all[..n - 1];
    var end := start + all[n - 1].Size(align);
    assert InRange(all[n - 1], align, low, high);
    forall i | 0 <= i < |t| ensures t[i].End() <= start || end <= t[i].data {
      assert t[i] in t;
      if t[i].End() > low {
        var j :| 0 <= j < |before| && before[j].rawSize != 0 &&
          t[i] == Region(before[j].rawData, before[j].Size(align));
        assert Apart(all[j], all[n - 1], align);
      }
    }
  }

  lemma OneMore(s: seq<Region>, t: seq<Region>, u: seq<Region>, all: seq<Section>, n: nat, align: bv32, low: nat)
    requires 0 < n <= |all| && all[n - 1].rawSize != 0
    requires HeadersOrSections(t, all[..n - 1], align, low) && PositionsPlus(s, t, all[..n - 1], align)
    requires Positions(u) == Positions(t) + Interval(all[n - 1].rawData, all[n - 1].rawData + all[n - 1].Size(align))
    requires forall r :: r in u <==> r in t || r == Region(all[n - 1].rawData, all[n - 1].Size(align))
    ensures HeadersOrSections(u, all[..n], align, low) && PositionsPlus(s, u, all[..n], align)
  {
    SectionsGrow(all, n, align);
    hide IsSection, InSections, Positions, PositionsPlus;
    assert HeadersOrSections(u, all[..n], align, low);
    MorePositions(s, t, u, all, n, align);
  }

  lemma MorePositions(s: seq<Region>, t: seq<Region>, u: seq<Region>, all: seq<Section>, n: nat, align: bv32)
    requires 0 < n <= |all| && all[n - 1].rawSize != 0 && PositionsPlus(s, t, all[..n - 1], align)
    requires Positions(u) == Positions(t) + Interval(all[n - 1].rawData, all[n - 1].rawData + all[n - 1].Size(align))
    ensures PositionsPlus(s, u, all[..n], align)
  {
    SectionsGrow(all, n, align);
    hide InSections, Positions;
  }

  lemma OneEmpty(s: seq<Region>, t: seq<Region>, all: seq<Section>, n: nat, align: bv32, low: nat)
    requires 0 < n <= |all| && all[n - 1].rawSize == 0
    requires HeadersOrSections(t, all[..n - 1], align, low) && PositionsPlus(s, t, all[..n - 1], align)
    ensures HeadersOrSections(t, all[..n], align, low) && PositionsPlus(s, t, all[..n], align)
  {
    SectionsGrow(all, n, align);
    hide IsSection, InSections;
  }

  lemma TotalStep(all: seq<Section>, n: nat, align: bv32)
    requires 0 < n <= |all|
    ensures Total(all[..n], align) ==
            Total(all[..n - 1], align) + if all[n - 1].rawSize == 0 then 0 else all[n - 1].Size(align)
  {
    assert all[..n][..n - 1] == all[..n - 1];
  }

  ghost predicate InSection(s: Section, align: bv32, k: nat) {
    s.rawSize != 0 && s.rawData <= k < s.rawData + s.Size(align)
  }

  lemma SectionsGrow(all: seq<Section>, n: nat, align: bv32)
    requires 0 < n <= |all|
    ensures forall k: nat ::
              InSections(all[..n], align, k) <==> InSections(all[..n - 1], align, k) || InSection(all[n - 1], align, k)
    ensures forall r | IsSection(r, all[..n - 1], align) :: IsSection(r, all[..n], align)
    ensures all[n - 1].rawSize != 0 ==> IsSection(Region(all[n - 1].rawData, all[n - 1].Size(align)), all[..n], align)
  {
    var a, b := all[..n], all[..n - 1];
    assert a[n - 1] == all[n - 1];
    forall k: nat
      ensures InSections(a, align, k) <==> InSections(b, align, k) || InSection(all[n - 1], align, k)
    {
      if j :| 0 <= j < n && InSection(a[j], align, k) {
        assert j == n - 1 || InSection(b[j], align, k);
      }
      if j :| 0 <= j < n - 1 && InSection(b[j], align, k) {
        assert InSection(a[j], align, k);
      }
    }
    forall r | IsSection(r, b, align) ensures IsSection(r, a, align) {
      var j :| 0 <= j < |b| && b[j].rawSize != 0 && r == Region(b[j].rawData, b[j].Size(align));
      assert a[j] == b[j];
    }
  }

  /** The headers come before the sections, the sections fill the file up to an offset in any order, and what remains
      ends in the certificates. */
  ghost predicate Filled(pe: Headers, sections: seq<Section>, len: nat, high: nat) {
    && pe.rvaCount > 4 && pe.Directory() + 8 <= pe.size <= high && high + pe.certificates <= len < TWO32
    && Tiling(multiset(sections), pe.align, pe.size, high)
  }

  /** The bytes to be hashed: all but CheckSum, the directory entry of the certificates, and the certificates. */
  ghost predicate Hashed(pe: Headers, len: nat, k: nat) {
    && k + pe.certificates < len && !(pe.CheckSum() <= k < pe.Subsystem())
    && !(pe.Directory() <= k < pe.Directory() + 8)
  }

  /** The image without CheckSum, the directory entry of the certificates, and the certificates. */
  function AllButSignature(pe: Headers, image: seq<Byte>): seq<Byte>
    requires pe.Fits(|image|)
  {
    image[..pe.CheckSum()] + image[pe.Subsystem()..pe.Directory()]
    + image[pe.Directory() + 8..|image| - pe.certificates]
  }

  lemma HeaderList(pe: Headers)
    requires pe.rvaCount > 4 && pe.Directory() + 8 <= pe.size < TWO32
    ensures var s := HeaderRegions(pe);
            && Sorted(s) && (forall r | r in s :: r.End() <= pe.size)
            && Positions(s) == Interval(0, pe.CheckSum()) + Interval(pe.Subsystem(), pe.Directory())
                             + Interval(pe.Directory() + 8, pe.size)
  {
    hide Insert, Positions, Interval, Sorted;
    var c, b, d, e, z := pe.CheckSum(), pe.Subsystem(), pe.Directory(), pe.Directory() + 8, pe.size;
    ThreeRegions(c, b, d, e, z);
    ThreePositions(Region(0, c), Region(b, d - b), Region(e, z - e));
    ThreeSorted(c, b, d, e, z);
    assert HeaderRegions(pe) == [Region(0, c), Region(b, d - b), Region(e, z - e)];
  }

  lemma ThreeSorted(c: nat, b: nat, d: nat, e: nat, z: nat)
    requires c <= b <= d <= e <= z
    ensures Sorted([Region(0, c), Region(b, d - b), Region(e, z - e)])
    ensures forall r | r in [Region(0, c), Region(b, d - b), Region(e, z - e)] :: r.End() <= z
  {}

  lemma ThreeRegions(c: nat, b: nat, d: nat, e: nat, z: nat)
    requires c <= b <= d <= e <= z < TWO32
    ensures Insert(Insert(Insert([], 0, c), b, d), e, z) == [Region(0, c), Region(b, d - b), Region(e, z - e)]
  {
    hide Insert, Place;
    var r1, r2 := Region(0, c), Region(b, d - b);
    InsertLast([], 0, c);
    InsertLast([r1], b, d);
    InsertLast([r1, r2], e, z);
    assert [] + [r1] == [r1] && [r1] + [r2] == [r1, r2] && [r1, r2] + [Region(e, z - e)] == [r1, r2, Region(e, z - e)];
  }

  /** A region that starts after all others have ended is put at the end. */
  lemma InsertLast(s: seq<Region>, start: nat, end: nat)
    requires start <= end < start + TWO32 && forall i | 0 <= i < |s| :: s[i].End() <= start
    ensures Insert(s, start, end) == s + [Region(start, end - start)]
  {
    PlaceIs(s, start, |s|);
    hide Place;
    assert (end - start) % TWO32 == end - start;
    assert s[..|s|] == s && s[|s|..] == [];
  }

  lemma ThreePositions(r1: Region, r2: Region, r3: Region)
    ensures Positions([r1, r2, r3]) ==
            Interval(r1.data, r1.End()) + Interval(r2.data, r2.End()) + Interval(r3.data, r3.End())
  {
    WeightPlus([r1], [r2]);
    WeightPlus([r1, r2], [r3]);
    assert [r1] + [r2] == [r1, r2] && [r1, r2] + [r3] == [r1, r2, r3];
    OnePosition(r1);
    OnePosition(r2);
    OnePosition(r3);
  }

  lemma OnePosition(r: Region)
    ensures Positions([r]) == Interval(r.data, r.End())
  {}

  /** The sizes of the sections add up to what they fill. */
  lemma TotalFills(pe: Headers, sections: seq<Section>, len: nat, high: nat)
    requires Filled(pe, sections, len, high)
    ensures var t := SectionRegions(HeaderRegions(pe), sections, pe.align);
            && pe.size + Total(sections, pe.align) == high
            && Sorted(t) && (forall r | r in t :: r.End() <= high)
            && Positions(t) == Positions(HeaderRegions(pe)) + Interval(pe.size, high)
  {
    var s := HeaderRegions(pe);
    HeaderList(pe);
    TilingIsTile(sections, pe.align, pe.size, high);
    SectionsAdded(s, sections, |sections|, pe.align, pe.size, high);
    assert sections[..|sections|] == sections;
    var t := SectionRegions(s, sections, pe.align);
    WeightCounts(s);
    WeightCounts(t);
    IntervalSize(pe.size, high);
    hide Sorted, Weight, Total, SectionRegions, HeaderRegions, Interval, Positions, HeadersOrSections,
      Section.Size, Tile;
    PositionsFill(s, t, sections, pe.align, pe.size, high);
    RegionsFill(t, sections, pe.align, pe.size, high);
  }

  lemma PositionsFill(s: seq<Region>, t: seq<Region>, sections: seq<Section>, align: bv32, low: nat, high: nat)
    requires PositionsPlus(s, t, sections, align) && Tile(sections, align, low, high)
    requires forall r | r in s :: r.End() <= low
    ensures Positions(t) == Positions(s) + Interval(low, high) && Positions(s) !! Interval(low, high)
    ensures |Positions(t)| == |Positions(s)| + |Interval(low, high)|
  {
    InSectionsIsRange(sections, align, low, high);
    PositionsBelow(s, low);
    hide Positions, Tile, InSections;
    assert Positions(t) == Positions(s) + Interval(low, high);
  }

  lemma PositionsBelow(s: seq<Region>, low: nat)
    requires forall r | r in s :: r.End() <= low
    ensures forall k | k in Positions(s) :: k < low
  {
    PositionsAre(s);
    hide Positions;
    forall k | k in Positions(s) ensures k < low {
      var i :| 0 <= i < |s| && s[i].data <= k < s[i].End();
      assert s[i] in s;
    }
  }

  lemma RegionsFill(t: seq<Region>, sections: seq<Section>, align: bv32, low: nat, high: nat)
    requires HeadersOrSections(t, sections, align, low) && Tile(sections, align, low, high) && low <= high
    ensures forall r | r in t :: r.End() <= high
  {
    forall r | r in t ensures r.End() <= high {
      if IsSection(r, sections, align) {
        var j :| 0 <= j < |sections| && sections[j].rawSize != 0
                 && r == Region(sections[j].rawData, sections[j].Size(align));
        assert InRange(sections[j], align, low, high);
      }
    }
  }

  lemma InSectionsIsRange(sections: seq<Section>, align: bv32, low: nat, high: nat)
    requires Tile(sections, align, low, high)
    ensures forall k: nat :: InSections(sections, align, k) <==> low <= k < high
  {
    forall k: nat | InSections(sections, align, k) ensures low <= k < high {
      var j :| 0 <= j < |sections| && InSection(sections[j], align, k);
      assert InRange(sections[j], align, low, high);
    }
  }

  /** In such an image the list selects exactly the bytes to be hashed. */
  lemma FilledList(pe: Headers, sections: seq<Section>, len: nat, high: nat)
    requires Filled(pe, sections, len, high)
    ensures var list := ImageList(pe, sections, len);
            Sorted(list) && Within(list, len) && forall k: nat :: k in Positions(list) <==> Hashed(pe, len, k)
  {
    hide Insert, Sorted, Positions, Total, SectionRegions, HeaderRegions, Tiling, Section.Size, Within;
    HeaderList(pe);
    TotalFills(pe, sections, len, high);
    TailAdded(SectionRegions(HeaderRegions(pe), sections, pe.align), high, len - pe.certificates, len);
  }

  /** What follows the sections is added after everything else. */
  lemma TailAdded(t: seq<Region>, high: nat, end: nat, len: nat)
    requires Sorted(t) && (forall r | r in t :: r.End() <= high) && high <= end <= len < TWO32
    ensures var u := if high < end then Insert(t, high, end) else t;
            Sorted(u) && Within(u, len) && Positions(u) == Positions(t) + Interval(high, end)
  {
    hide Insert, Sorted, Positions;
    Ends(t, high);
    if high < end {
      Inserted(t, high, end);
      Ends(Insert(t, high, end), end);
    }
  }

  lemma Ends(s: seq<Region>, len: nat)
    requires forall r | r in s :: r.End() <= len
    ensures Within(s, len) && Fits(s, len, len) && forall end | len <= end :: Fits(s, len, end)
  {
    assert forall i | 0 <= i < |s| :: s[i] in s;
  }

  /** What the hash of such an image is taken of. */
  lemma FilledBytes(pe: Headers, sections: seq<Section>, image: seq<Byte>, high: nat)
    requires Filled(pe, sections, |image|, high)
    ensures pe.Fits(|image|)
    ensures Select(image, Positions(ImageList(pe, sections, |image|)), 0, |image|) == AllButSignature(pe, image)
  {
    hide ImageList, Positions, Select, Filled, Sorted, Within;
    FilledList(pe, sections, |image|, high);
    Bounds(pe, sections, |image|, high);
    hide Hashed;
    SelectHashed(pe, image, Positions(ImageList(pe, sections, |image|)));
  }

  lemma SelectHashed(pe: Headers, image: seq<Byte>, p: set<nat>)
    requires pe.Fits(|image|) && forall k: nat :: k in p <==> Hashed(pe, |image|, k)
    ensures Select(image, p, 0, |image|) == AllButSignature(pe, image)
  {
    hide Select;
    SelectThree(image, p, pe.CheckSum(), pe.Subsystem(), pe.Directory(), pe.Directory() + 8, |image| - pe.certificates);
  }

  lemma SelectThree(image: seq<Byte>, p: set<nat>, a: nat, b: nat, c: nat, d: nat, e: nat)
    requires a <= b <= c <= d <= e <= |image|
    requires forall k: nat :: k in p <==> k < e && !(a <= k < b) && !(c <= k < d)
    ensures Select(image, p, 0, |image|) == image[..a] + image[b..c] + image[d..e]
  {
    hide Select;
    SelectSplit(image, p, 0, a, |image|);
    SelectSplit(image, p, a, b, |image|);
    SelectSplit(image, p, b, c, |image|);
    SelectSplit(image, p, c, d, |image|);
    SelectSplit(image, p, d, e, |image|);
    SelectAll(image, p, 0, a);
    SelectNone(image, p, a, b);
    SelectAll(image, p, b, c);
    SelectNone(image, p, c, d);
    SelectAll(image, p, d, e);
    SelectNone(image, p, e, |image|);
    hide Interval;
    assert Select(image, p, d, |image|) == image[d..e];
    assert Select(image, p, c, |image|) == image[d..e];
    assert Select(image, p, b, |image|) == image[b..c] + image[d..e];
    assert image[0..a] == image[..a];
    assert image[..a] + (image[b..c] + image[d..e]) == image[..a] + image[b..c] + image[d..e];
  }

  lemma Bounds(pe: Headers, sections: seq<Section>, len: nat, high: nat)
    requires Filled(pe, sections, len, high)
    ensures pe.Fits(len)
  {}

  /** The headers and the sections with content lie in the image, which the code does not check. */
  ghost predicate InImage(pe: Headers, sections: seq<Section>, len: nat) {
    && pe.CheckSum() <= len && pe.size <= len && (pe.rvaCount > 4 ==> pe.Directory() <= len)
    && forall i | 0 <= i < |sections| && sections[i].rawSize != 0 ::
         sections[i].rawData + sections[i].Size(pe.align) <= len
  }

  /** Then so do all regions. */
  lemma InImageList(pe: Headers, sections: seq<Section>, len: nat)
    requires InImage(pe, sections, len)
    ensures Within(ImageList(pe, sections, len), len)
  {
    HeadersWithin(pe, len);
    ListWithin(pe, sections, len);
  }

  /** The section is not refused when its turn comes. */
  ghost predicate Taken(pe: Headers, sections: seq<Section>, n: nat)
    requires n < |sections|
  {
    var start := sections[n].rawData;
    && sections[n].rawSize != 0
    && Fits(SectionRegions(HeaderRegions(pe), sections[..n], pe.align), start, start + sections[n].Size(pe.align))
  }

  /** For any image: all regions lie in it exactly if those of the headers and the sections that are not refused do. */
  lemma ListWithin(pe: Headers, sections: seq<Section>, len: nat)
    ensures Within(ImageList(pe, sections, len), len) <==>
            Within(HeaderRegions(pe), len) && forall n | 0 <= n < |sections| && Taken(pe, sections, n) ::
              sections[n].rawData + sections[n].Size(pe.align) <= len
  {
    hide Insert, Within, HeaderRegions, SectionRegions, Total, Section.Size, Taken, Sorted;
    HeadersSorted(pe);
    SectionsWithin(pe, sections, |sections|, len);
    assert sections[..|sections|] == sections;
    var hashed := pe.size + Total(sections, pe.align);
    if hashed + pe.Excluded() < len {
      TailWithin(SectionRegions(HeaderRegions(pe), sections, pe.align), hashed, len - pe.Excluded(), len);
    }
  }

  lemma TailWithin(s: seq<Region>, start: nat, end: nat, len: nat)
    requires end <= len
    ensures Within(Insert(s, start, end), len) <==> Within(s, len)
  {
    hide Insert;
    if Within(s, len) {
      InsertWithin(s, start, end, len);
    } else {
      var i :| 0 <= i < |s| && s[i].End() > len;
      InsertKeeps(s, start, end, s[i]);
      BeyondIsNotWithin(Insert(s, start, end), s[i], len);
    }
  }

  lemma HeadersSorted(pe: Headers)
    ensures Sorted(HeaderRegions(pe))
  {
    hide Insert;
    var first := Insert([], 0, pe.CheckSum());
    InsertSorts([], 0, pe.CheckSum());
    InsertSorts(first, pe.Subsystem(), pe.size);
    InsertSorts(first, pe.Subsystem(), pe.Directory());
    InsertSorts(Insert(first, pe.Subsystem(), pe.Directory()), pe.Directory() + 8, pe.size);
  }

  lemma {:induction false} SectionsWithin(pe: Headers, sections: seq<Section>, n: nat, len: nat)
    requires n <= |sections|
    ensures var t := SectionRegions(HeaderRegions(pe), sections[..n], pe.align);
            && Sorted(t)
            && (Within(t, len) <==>
                Within(HeaderRegions(pe), len) && forall i | 0 <= i < n && Taken(pe, sections, i) ::
                  sections[i].rawData + sections[i].Size(pe.align) <= len)
  {
    hide Insert, Within, HeaderRegions, Section.Size, Sorted, Fits;
    if n == 0 {
      HeadersSorted(pe);
    } else {
      SectionsWithin(pe, sections, n - 1, len);
      assert sections[..n][..n - 1] == sections[..n - 1];
      var before, s := SectionRegions(HeaderRegions(pe), sections[..n - 1], pe.align), sections[n - 1];
      if s.rawSize != 0 {
        InsertSorts(before, s.rawData, s.rawData + s.Size(pe.align));
        SizeFits(s, pe.align);
        OneWithin(before, s.rawData, s.Size(pe.align), len);
      }
    }
  }

  lemma SizeFits(s: Section, align: bv32)
    ensures s.Size(align) < TWO32
  {}

  /** A list with one more region lies in the image exactly if it did before and the region does, or is refused. */
  lemma OneWithin(s: seq<Region>, start: nat, size: nat, len: nat)
    requires Sorted(s) && size < TWO32
    ensures Within(Insert(s, start, start + size), len) <==>
            Within(s, len) && (Fits(s, start, start + size) ==> start + size <= len)
  {
    hide Fits, Sorted, Place, Within;
    InsertSorts(s, start, start + size);
    var i, r := Place(s, start), Region(start, size);
    if Fits(s, start, start + size) {
      assert (start + size - start) % TWO32 == size;
      assert Insert(s, start, start + size) == s[..i] + [r] + s[i..];
      PutWithin(s, i, r, len);
    }
  }

  lemma PutWithin(s: seq<Region>, i: nat, r: Region, len: nat)
    requires i <= |s|
    ensures Within(s[..i] + [r] + s[i..], len) <==> Within(s, len) && r.End() <= len
  {
    PutIndices(s, i, r);
    var t := s[..i] + [r] + s[i..];
    assert t[i] == r;
    if Within(t, len) {
      forall k | 0 <= k < |s| ensures s[k].End() <= len {
        assert s[k] == t[if k < i then k else k + 1];
      }
    }
  }

  lemma HeadersWithin(pe: Headers, len: nat)
    requires pe.CheckSum() <= len && pe.size <= len && (pe.rvaCount > 4 ==> pe.Directory() <= len)
    ensures Within(HeaderRegions(pe), len)
  {
    hide Insert;
    var first := Insert([], 0, pe.CheckSum());
    InsertWithin([], 0, pe.CheckSum(), len);
    InsertWithin(first, pe.Subsystem(), pe.size, len);
    if pe.rvaCount > 4 {
      InsertWithin(first, pe.Subsystem(), pe.Directory(), len);
      InsertWithin(Insert(first, pe.Subsystem(), pe.Directory()), pe.Directory() + 8, pe.size, len);
    }
  }

  lemma InsertWithin(s: seq<Region>, start: nat, end: nat, len: nat)
    requires Within(s, len) && end <= len
    ensures Within(Insert(s, start, end), len)
  {}

  /** The headers end where they say, and the sections come after them and do not overlap, whatever their order. */
  ghost predicate Separate(pe: Headers, sections: seq<Section>) {
    && pe.size < TWO32 && (if pe.rvaCount > 4 then pe.Directory() + 8 <= pe.size else pe.Subsystem() <= pe.size)
    && (forall j | 0 <= j < |sections| && sections[j].rawSize != 0 :: pe.size <= sections[j].rawData)
    && (forall i, j | 0 <= i < j < |sections| && sections[i].rawSize != 0 && sections[j].rawSize != 0 ::
          Apart(sections[i], sections[j], pe.align))
  }

  /** For such an image, all regions lie in it exactly if headers and sections do. */
  lemma InImageExactly(pe: Headers, sections: seq<Section>, len: nat)
    requires Separate(pe, sections)
    ensures Within(ImageList(pe, sections, len), len) <==> InImage(pe, sections, len)
  {
    if InImage(pe, sections, len) {
      InImageList(pe, sections, len);
    }
    if Within(ImageList(pe, sections, len), len) {
      ListWithin(pe, sections, len);
      HeaderEnds(pe, len);
      forall n: nat | n < |sections| && sections[n].rawSize != 0
        ensures sections[n].rawData + sections[n].Size(pe.align) <= len
      {
        SeparateTaken(pe, sections, n);
      }
    }
  }

  /** The headers fit one after the other. */
  lemma HeaderEnds(pe: Headers, len: nat)
    requires Separate(pe, [])
    ensures forall r | r in HeaderRegions(pe) :: r.End() <= pe.size
    ensures Within(HeaderRegions(pe), len) ==> pe.size <= len
  {
    hide Insert, Place;
    if pe.rvaCount > 4 {
      HeaderList(pe);
      ThreeRegions(pe.CheckSum(), pe.Subsystem(), pe.Directory(), pe.Directory() + 8, pe.size);
      assert HeaderRegions(pe)[2].End() == pe.size;
    } else {
      TwoRegions(pe.CheckSum(), pe.Subsystem(), pe.size);
      assert HeaderRegions(pe)[1].End() == pe.size;
    }
  }

  lemma TwoRegions(c: nat, b: nat, z: nat)
    requires c <= b <= z < TWO32
    ensures Insert(Insert([], 0, c), b, z) == [Region(0, c), Region(b, z - b)]
  {
    hide Insert, Place;
    var r, t := Region(0, c), Region(b, z - b);
    InsertLast([], 0, c);
    InsertLast([r], b, z);
    assert [] + [r] == [r] && [r] + [t] == [r, t];
  }

  /** No section is refused: those before it and the headers do not overlap it. */
  lemma SeparateTaken(pe: Headers, sections: seq<Section>, n: nat)
    requires Separate(pe, sections) && n < |sections| && sections[n].rawSize != 0
    ensures Taken(pe, sections, n)
  {
    var t := SectionRegions(HeaderRegions(pe), sections[..n], pe.align);
    var start := sections[n].rawData;
    var end := start + sections[n].Size(pe.align);
    HeaderEnds(pe, 0);
    OnlySections(HeaderRegions(pe), sections[..n], pe.align, pe.size);
    hide SectionRegions, HeaderRegions, Section.Size;
    forall i | 0 <= i < |t| ensures t[i].End() <= start || end <= t[i].data {
      assert t[i] in t;
      if t[i].End() > pe.size {
        var j :| 0 <= j < n && sections[..n][j].rawSize != 0 &&
          t[i] == Region(sections[..n][j].rawData, sections[..n][j].Size(pe.align));
        assert Apart(sections[j], sections[n], pe.align);
      }
    }
  }

  /** Whatever is in the list has come from the headers or from a section. */
  lemma {:induction false} OnlySections(s: seq<Region>, sections: seq<Section>, align: bv32, low: nat)
    requires forall r | r in s :: r.End() <= low
    ensures HeadersOrSections(SectionRegions(s, sections, align), sections, align, low)
  {
    if sections != [] {
      var n := |sections|;
      var front, last := sections[..n - 1], sections[n - 1];
      OnlySections(s, front, align, low);
      assert sections[..n] == sections;
      SectionsGrow(sections, n, align);
      if last.rawSize != 0 {
        OnlyOneMore(SectionRegions(s, front, align), last.rawData, last.Size(align));
      }
    }
  }

  lemma OnlyOneMore(s: seq<Region>, start: nat, size: nat)
    requires size < TWO32
    ensures forall r | r in Insert(s, start, start + size) :: r in s || r == Region(start, size)
  {}

  /** Without it they need not: a section that begins at the end of an image is hashed all the same, from beyond it. */
  lemma SectionBeyondImage(len: nat)
    requires 1024 <= len <= 64 * 1024 * 1024
    ensures var pe, s := Headers(0x80, MAGIC64, 16, 1024, 1, 0), Section(0, 1, len);
            pe.Readable(len) && !Inside(ImageList(pe, [s], len), len)
  {
    hide Section.Size, Insert, HeaderRegions, SectionRegions, Total, Within;
    var pe, s := Headers(0x80, MAGIC64, 16, 1024, 1, 0), Section(0, 1, len);
    var list := HeaderRegions(pe);
    SizeByOne(s);
    HeadersWithin(pe, len);
    OneSection(list, s, len);
    var more := SectionRegions(list, [s], 1);
    if 1025 < len {
      InsertKeeps(more, 1025, len, Region(len, 1));
      BeyondIsNotWithin(Insert(more, 1025, len), Region(len, 1), len);
    } else {
      BeyondIsNotWithin(more, Region(len, 1), len);
    }
  }

  lemma OneSection(list: seq<Region>, s: Section, len: nat)
    requires Within(list, len) && s.rawSize != 0 && s.Size(1) == 1 && s.rawData == len
    ensures Region(len, 1) in SectionRegions(list, [s], 1) && Total([s], 1) == 1
  {
    hide Insert, Section.Size;
    OneSectionOf(list, s);
    InsertLast(list, len, len + 1);
    assert SectionRegions(list, [s], 1) == list + [Region(len, 1)];
  }

  lemma InsertKeeps(s: seq<Region>, start: nat, end: nat, r: Region)
    requires r in s
    ensures r in Insert(s, start, end)
  {
    var i := Place(s, start);
    assert s == s[..i] + s[i..];
  }

  lemma BeyondIsNotWithin(s: seq<Region>, r: Region, len: nat)
    requires r in s && r.End() > len
    ensures !Within(s, len) && (r.size > 0 ==> !Inside(s, len))
  {}

  lemma SizeByOne(s: Section)
    ensures s.Size(1) == s.rawSize as nat
  {}

  /** A section that overlaps the headers is left out without an error, and harmless although it ends beyond the image:
      the list is the same as without it. */
  lemma OverlapLeftOut()
    ensures var pe, s := Headers(0x80, MAGIC64, 16, 1024, 1, 0), Section(0, 5000, 0);
            && pe.Readable(2048) && !InImage(pe, [s], 2048) && Within(ImageList(pe, [s], 2048), 2048)
            && SectionRegions(HeaderRegions(pe), [s], 1) == HeaderRegions(pe)
  {
    var pe, s := Headers(0x80, MAGIC64, 16, 1024, 1, 0), Section(0, 5000, 0);
    SizeByOne(s);
    hide Section.Size, Fits, Sorted, Within, Insert, Total;
    var list := HeaderRegions(pe);
    ThreeRegions(pe.CheckSum(), pe.Subsystem(), pe.Directory(), pe.Directory() + 8, 1024);
    assert list[0] == Region(0, pe.CheckSum());
    Overlaps(list, 0, 5000);
    HeadersSorted(pe);
    InsertSorts(list, 0, 5000);
    OneSectionOf(list, s);
    HeadersWithin(pe, 2048);
    InsertWithin(list, 6024, 2048, 2048);
  }

  lemma Overlaps(s: seq<Region>, start: nat, end: nat)
    requires |s| > 0 && s[0].data < end && start < s[0].End()
    ensures !Fits(s, start, end)
  {}

  lemma OneSectionOf(list: seq<Region>, s: Section)
    requires s.rawSize != 0
    ensures SectionRegions(list, [s], 1) == Insert(list, s.rawData, s.rawData + s.Size(1))
    ensures Total([s], 1) == s.Size(1)
  {
    hide Insert, Section.Size;
    assert [s][..0] == [];
  }

  /** PE256Buffer: the SHA-256 hash of the bytes of the regions, one region after the other; if these lie in the image,
      of the selected bytes; and of an image whose sections fill the file, of all its bytes but the checksum, the
      directory entry of the certificates and the certificates. */
  method Pe256(pe: Headers, sorted: seq<Section>, image: seq<Byte>, beyond: nat -> Byte,
               ghost sections: seq<Section>, ghost high: nat)
    returns (ok: bool, digest: seq<Byte>)
    requires ByAddress(sorted) && multiset(sorted) == multiset(sections)
    ensures ok <==> 1024 <= |image| <= 64 * 1024 * 1024 && pe.Readable(|image|)
    ensures ok ==> digest == ShaDigest.Fips256(Flat(Pieces(image, beyond, ImageList(pe, sorted, |image|))))
    ensures ok && Within(ImageList(pe, sorted, |image|), |image|) ==>
              digest == ShaDigest.Fips256(Select(image, Positions(ImageList(pe, sorted, |image|)), 0, |image|))
    ensures ok && Filled(pe, sections, |image|, high) ==>
              pe.Fits(|image|) && digest == ShaDigest.Fips256(AllButSignature(pe, image))
  {
    hide AllButSignature, ImageList, Select, Positions, Pieces, ShaDigest.Fips256, Flat, Within;
    ok, digest := false, [];
    if |image| < 1024 || |image| > 64 * 1024 * 1024 {
      return;
    }
    var regs := Parse(pe, sorted, |image|);
    if regs == null {
      return;
    }
    if Within(regs.Contents(), |image|) {
      PiecesSelect(image, beyond, regs.Contents());
    }
    if Filled(pe, sections, |image|, high) {
      assert Filled(pe, sorted, |image|, high);
      FilledList(pe, sorted, |image|, high);
      FilledBytes(pe, sorted, image, high);
    }
    digest := ShaDigest.Sha256Pieces(Pieces(image, beyond, regs.reg[..regs.num]));
    ok := true;
  }
}
