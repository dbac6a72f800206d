/** The partition layout of CreatePartition (drive.c): partitions before the main one are placed from the front, those
    after it from the back, and the main partition takes what is left. */
module PartitionLayout {
  import opened Rounding

  const MB: nat := 1024 * 1024
  const MAX_ISO_TO_ESP_SIZE: nat := 1024 * MB

  // ---- The layout. ----

  datatype Style = Mbr | Gpt | SuperFloppy

  datatype Kind = Unused | Esp | Msr | Main | Persistence | UefiNtfs | Compat

  datatype Partition = Partition(kind: Kind, offset: nat, size: nat)
  {
    function End(): nat { offset + size }
  }

  /** The disk and the choices that have been made for it. */
  datatype Choice = Choice(disk: nat, sector: nat, track: nat, cluster: nat, style: Style, oldBios: bool,
                           upFront: bool, esp: bool, msr: bool, persistence: bool, uefiNtfs: bool, compat: bool,
                           persistenceSize: nat, uefiNtfsSize: nat, writeAsEsp: bool)
  {
    ghost predicate Valid() {
      && sector > 0 && track > 0 && cluster > 0 && 33 * sector <= disk
    }

    /** Where partitions have to end. */
    function Limit(): nat
      requires 33 * sector <= disk
    {
      if style == Gpt then disk - 33 * sector else disk
    }

    function Start(): nat
      requires track > 0 && cluster > 0
    {
      if style == Gpt || !oldBios then MB else CeilingAlign(track, cluster) * 2
    }

    /** The partitions that come before the main one, and after it. */
    function Before(): seq<Kind> {
      (if upFront && esp then [Esp] else []) + (if msr then [Msr] else [])
    }

    function After(): seq<Kind> {
      (if persistence then [Persistence] else [])
      + (if !upFront && esp then [Esp] else if uefiNtfs then [UefiNtfs] else if compat then [Compat] else [])
    }

    /** Where the partition after one that is placed from the front begins: on a track and then, going back, on a
        cluster. */
    function Next(end: nat): nat
      requires track > 0 && cluster > 0 && sector > 0
    {
      if cluster % sector == 0 then FloorAlign(CeilingAlign(end, track), cluster) else CeilingAlign(end, track)
    }
  }

  /** What CreatePartition comes to: a layout, an error, or one of its assertions failing. */
  datatype Outcome = Done | Refused | NotGpt | Overlap | NoPersistence | TooSmall | NoRoom

  function KindsOf(parts: seq<Partition>): (k: seq<Kind>)
    ensures |k| == |parts|
  {
    seq(|parts|, i requires 0 <= i < |parts| => parts[i].kind)
  }

  /** The partitions follow one another, none is empty, and they end before the limit. */
  ghost predicate Ordered(parts: seq<Partition>, limit: nat) {
    && (forall i | 0 <= i < |parts| :: parts[i].size > 0 && parts[i].End() <= limit)
    && (forall i, j | 0 <= i < j < |parts| :: parts[i].End() <= parts[j].offset)
  }

  /** Where the space before the next partition, or before the limit, ends. */
  function Ceiling(c: Choice, parts: seq<Partition>, i: nat): nat
    requires c.Valid() && i < |parts|
  {
    if i + 1 < |parts| then parts[i + 1].offset else c.Limit()
  }

  /** A partition that follows the main one is in whole tracks, and no space is lost behind it but by rounding. */
  ghost predicate WellPlaced(c: Choice, parts: seq<Partition>, i: nat)
    requires c.Valid() && i < |parts|
  {
    && Multiple(parts[i].offset, c.track) && Multiple(parts[i].size, c.track)
    && parts[i].End() <= Ceiling(c, parts, i) < parts[i].End() + c.track
  }

  ghost predicate Good(c: Choice, parts: seq<Partition>, main: nat)
    requires c.Valid()
  {
    && KindsOf(parts) == c.Before() + [Main] + c.After() && main == |c.Before()|
    && Ordered(parts, c.Limit()) && parts[0].offset == c.Start()
    && (forall i | main < i < |parts| :: WellPlaced(c, parts, i))
    && Multiple(parts[main].size, if c.cluster % c.sector == 0 then c.cluster else c.track)
    && (if c.writeAsEsp then parts[main].size <= MAX_ISO_TO_ESP_SIZE
        else Ceiling(c, parts, main) < parts[main].End() + c.track + c.cluster)
  }

  /** A partition placed from the front, and the offset of the one after it, which must not come before its end. */
  method PlaceUpFront(c: Choice, at: nat, kind: Kind, size: nat) returns (part: Partition, next: nat)
    requires c.Valid()
    ensures part == Partition(kind, at, size) && next == c.Next(at + size)
    ensures c.cluster % c.sector == 0 ==> Multiple(next, c.cluster)
    ensures Multiple(at + size, c.cluster) || c.cluster % c.sector != 0 ==> part.End() <= next
  {
    part := Partition(kind, at, size);
    next := CeilingAlign(at + size, c.track);
    CeilingIs(at + size, c.track);
    if c.cluster % c.sector == 0 {
      FloorIs(next, c.cluster);
      if Multiple(at + size, c.cluster) { FloorKeeps(next, c.cluster, at + size); }
      next := FloorAlign(next, c.cluster);
    }
  }

  function FirstOffset(parts: seq<Partition>, limit: nat): nat {
    if parts == [] then limit else parts[0].offset
  }

  /** The partitions have been placed from the back: in order, on tracks, and as near the end as that allows. */
  ghost predicate Backed(c: Choice, parts: seq<Partition>, sizes: seq<Partition>)
    requires c.Valid()
  {
    && |parts| == |sizes| && Ordered(parts, c.Limit())
    && forall i | 0 <= i < |parts| :: BackedAt(c, parts, sizes, i)
  }

  ghost predicate BackedAt(c: Choice, parts: seq<Partition>, sizes: seq<Partition>, i: nat)
    requires c.Valid() && i < |parts| == |sizes|
  {
    && parts[i] == sizes[i].(offset := parts[i].offset) && Multiple(parts[i].offset, c.track)
    && Ceiling(c, parts, i) < parts[i].End() + c.track
  }

  /** The partition after one from the front does not overlap it exactly when the next cluster boundary comes no later
      than the next track boundary, where clusters are whole sectors. */
  lemma NextFits(c: Choice, end: nat)
    requires c.Valid()
    ensures end <= c.Next(end) <==>
            c.cluster % c.sector != 0 || CeilingAlign(end, c.cluster) <= CeilingAlign(end, c.track)
  {
    var x, up := CeilingAlign(end, c.track), CeilingAlign(end, c.cluster);
    CeilingIs(end, c.track);
    CeilingIs(end, c.cluster);
    FloorIs(x, c.cluster);
    if up <= x { FloorKeeps(x, c.cluster, up); }
    Least(end, c.cluster, FloorAlign(x, c.cluster));
  }

  /** With clusters of 2 MB and tracks of 63 sectors, what follows the EFI system partition would
      begin before its end. */
  lemma LargeClustersOverlap(c: Choice)
    requires c.Valid() && c.sector == 512 && c.track == 63 * 512 && c.cluster == 2 * MB
    ensures c.Next(MB + 260 * MB) < MB + 260 * MB
  {
    assert c.Next(261 * MB) == 130 * (2 * MB) by {
      assert CeilingAlign(261 * MB, 63 * 512) == 8485 * (63 * 512);
    }
  }

  /** The backward loop over the partitions that follow the main one. */
  method PlaceFromBack(c: Choice, sizes: seq<Partition>) returns (ok: bool, parts: seq<Partition>, last: nat)
    requires c.Valid() && forall i | 0 <= i < |sizes| :: sizes[i].size > 0
    ensures ok ==> Backed(c, parts, sizes) && last == FirstOffset(parts, c.Limit())
  {
    hide FloorAlign, Multiple, Backed;
    parts, last := [], c.Limit();
    NoneBacked(c);
    var i := |sizes|;
    assert sizes[i..] == [];
    while i > 0
      invariant 0 <= i <= |sizes|
      invariant last == FirstOffset(parts, c.Limit()) && Backed(c, parts, sizes[i..])
    {
      i := i - 1;
      if sizes[i].size >= last {
        return false, parts, last;
      }
      FloorIs(last - sizes[i].size, c.track);
      var part := sizes[i].(offset := FloorAlign(last - sizes[i].size, c.track));
      assert sizes[i..] == [sizes[i]] + sizes[i + 1..];
      PutFirst(c, part, parts, sizes[i], sizes[i + 1..]);
      parts := [part] + parts;
      last := part.offset;
    }
    assert sizes[0..] == sizes;
    ok := true;
  }

  lemma NoneBacked(c: Choice)
    requires c.Valid()
    ensures Backed(c, [], [])
  {}

  lemma PutFirst(c: Choice, part: Partition, parts: seq<Partition>, size: Partition, sizes: seq<Partition>)
    requires c.Valid() && Backed(c, parts, sizes) && part == size.(offset := part.offset) && part.size > 0
    requires part.End() <= FirstOffset(parts, c.Limit()) < part.End() + c.track && Multiple(part.offset, c.track)
    ensures Backed(c, [part] + parts, [size] + sizes)
  {
    hide Multiple;
    var more, moreSizes := [part] + parts, [size] + sizes;
    if parts != [] { assert parts[0].offset <= parts[0].End() <= c.Limit(); }
    assert forall k | 0 < k < |more| :: more[k] == parts[k - 1] && moreSizes[k] == sizes[k - 1];
    forall k | 0 <= k < |more| ensures BackedAt(c, more, moreSizes, k) {
      if k > 0 {
        assert BackedAt(c, parts, sizes, k - 1);
        assert Ceiling(c, more, k) == Ceiling(c, parts, k - 1);
      }
    }
    assert forall k | 0 <= k < |parts| :: parts[0].offset <= parts[k].offset;
  }

  /** The partitions that follow the main one, with their sizes in whole tracks. */
  method SizeExtras(c: Choice) returns (sizes: seq<Partition>)
    requires c.Valid() && (c.persistence ==> c.persistenceSize > 0) && (c.uefiNtfs ==> c.uefiNtfsSize > 0)
    ensures KindsOf(sizes) == c.After()
    ensures forall i | 0 <= i < |sizes| :: sizes[i].size > 0 && Multiple(sizes[i].size, c.track)
    ensures Fulfilled(c, sizes)
  {
    sizes := [];
    CeilingIs(c.persistenceSize, c.track);
    CeilingIs(260 * MB, c.track);
    CeilingIs(c.uefiNtfsSize, c.track);
    assert Multiple(c.track, c.track) by { assert c.track == 1 * c.track; }
    if c.persistence {
      sizes := [Partition(Persistence, 0, CeilingAlign(c.persistenceSize, c.track))];
    }
    if !c.upFront && c.esp {
      sizes := sizes + [Partition(Esp, 0, CeilingAlign(260 * MB, c.track))];
    } else if c.uefiNtfs {
      sizes := sizes + [Partition(UefiNtfs, 0, CeilingAlign(c.uefiNtfsSize, c.track))];
    } else if c.compat {
      sizes := sizes + [Partition(Compat, 0, c.track)];
    }
  }

  /** The size that has been asked for. */
  function Requested(c: Choice, kind: Kind): nat {
    match kind
    case Esp => 260 * MB
    case Msr => 128 * MB
    case Persistence => c.persistenceSize
    case UefiNtfs => c.uefiNtfsSize
    case _ => 0
  }

  /** The size of the main partition: what is left, cut to whole tracks and then to whole clusters. */
  method SizeMain(c: Choice, room: nat) returns (size: nat)
    requires c.Valid()
    ensures size <= room && (c.writeAsEsp ==> size <= MAX_ISO_TO_ESP_SIZE)
    ensures Multiple(size, if c.cluster % c.sector == 0 then c.cluster else c.track)
    ensures !c.writeAsEsp ==> room < size + c.track + c.cluster
  {
    var cut := if c.writeAsEsp && room > MAX_ISO_TO_ESP_SIZE then MAX_ISO_TO_ESP_SIZE else room;
    size := FloorAlign(cut, c.track);
    FloorIs(cut, c.track);
    if c.cluster % c.sector == 0 {
      FloorIs(size, c.cluster);
      size := FloorAlign(size, c.cluster);
    }
  }

  /** The layout computed by CreatePartition. When it is done the layout is good; and when the cluster size divides
      1 MB and the first partition starts there, no partition from the front overlaps the next. */
  method CreatePartition(c: Choice) returns (outcome: Outcome, parts: seq<Partition>, main: nat)
    requires c.Valid()
    ensures outcome == Done && c.style != SuperFloppy ==> Good(c, parts, main) && Fulfilled(c, parts)
    ensures outcome == Done && c.style != SuperFloppy ==> OnCluster(c, parts[main].offset)
    ensures outcome == Overlap ==> !Multiple(MB, c.cluster)
    ensures outcome == NotGpt ==> c.style != Gpt
  {
    hide Multiple, Ordered, Backed, Good, Fulfilled, OnCluster;
    parts, main := [], 0;
    if c.style == SuperFloppy {
      return Done, parts, main;
    }
    if c.uefiNtfs && c.uefiNtfsSize == 0 {
      return Refused, parts, main;
    }
    var before, offset;
    outcome, before, offset := PlaceBefore(c);
    if outcome != Done {
      return;
    }
    if c.persistence && c.persistenceSize == 0 {
      return NoPersistence, parts, main;
    }
    var sizes := SizeExtras(c);
    var ok, after, last := PlaceFromBack(c, sizes);
    if !ok {
      return TooSmall, parts, main;
    }
    if last <= offset {
      return NoRoom, parts, main;
    }
    var size := SizeMain(c, last - offset);
    if size == 0 {
      return Refused, parts, main;
    }
    Assembled(c, before, Partition(Main, offset, size), sizes, after);
    main := |before|;
    parts := before + [Partition(Main, offset, size)] + after;
  }

  /** The partition that takes what is left before the first of the others. */
  ghost predicate Fills(c: Choice, part: Partition, after: seq<Partition>)
    requires c.Valid()
  {
    && part.kind == Main && part.size > 0 && part.End() <= FirstOffset(after, c.Limit())
    && (c.writeAsEsp ==> part.size <= MAX_ISO_TO_ESP_SIZE)
    && Multiple(part.size, if c.cluster % c.sector == 0 then c.cluster else c.track)
    && (!c.writeAsEsp ==> FirstOffset(after, c.Limit()) < part.End() + c.track + c.cluster)
  }

  ghost predicate Fulfilled(c: Choice, parts: seq<Partition>) {
    forall i | 0 <= i < |parts| :: Requested(c, parts[i].kind) <= parts[i].size
  }

  /** The three parts make up a good layout. */
  lemma Assembled(c: Choice, before: seq<Partition>, part: Partition, sizes: seq<Partition>, after: seq<Partition>)
    requires c.Valid() && KindsOf(before) == c.Before() && KindsOf(sizes) == c.After()
    requires Ordered(before, part.offset) && c.Start() == FirstOffset(before, part.offset) && Fills(c, part, after)
    requires Backed(c, after, sizes) && forall i | 0 <= i < |sizes| :: Multiple(sizes[i].size, c.track)
    requires Fulfilled(c, before) && Fulfilled(c, sizes)
    ensures Good(c, before + [part] + after, |before|) && Fulfilled(c, before + [part] + after)
  {
    hide Multiple, Ordered, BackedAt, KindsOf, Requested;
    var parts, n := before + [part] + after, |before|;
    Kinds(c, before, part, sizes, after);
    AllOrdered(c, before, part, sizes, after);
    AllFulfilled(c, before, part, sizes, after);
    assert forall i | 0 <= i < |parts| ::
      parts[i] == if i < n then before[i] else if i == n then part else after[i - n - 1];
    forall i | n < i < |parts| ensures WellPlaced(c, parts, i) {
      WellBacked(c, before + [part], sizes, after, i - n - 1);
    }
    hide WellPlaced, Fulfilled;
  }

  lemma AllFulfilled(c: Choice, before: seq<Partition>, part: Partition, sizes: seq<Partition>, after: seq<Partition>)
    requires c.Valid() && part.kind == Main && Backed(c, after, sizes) && Fulfilled(c, before) && Fulfilled(c, sizes)
    ensures Fulfilled(c, before + [part] + after)
  {
    hide Multiple, Ordered;
    forall i | 0 <= i < |after| ensures Requested(c, after[i].kind) <= after[i].size {
      assert BackedAt(c, after, sizes, i);
      assert Requested(c, sizes[i].kind) <= sizes[i].size;
    }
  }

  lemma BackedEnds(c: Choice, after: seq<Partition>, sizes: seq<Partition>, i: nat)
    requires c.Valid() && i < |after| && Backed(c, after, sizes)
    ensures after[i].End() <= Ceiling(c, after, i)
  {
    hide Multiple;
  }

  lemma WellBacked(c: Choice, front: seq<Partition>, sizes: seq<Partition>, after: seq<Partition>, i: nat)
    requires c.Valid() && i < |after| && Backed(c, after, sizes) && Multiple(sizes[i].size, c.track)
    ensures WellPlaced(c, front + after, |front| + i)
  {
    hide Multiple, Ordered;
    var parts := front + after;
    assert BackedAt(c, after, sizes, i);
    BackedEnds(c, after, sizes, i);
    assert parts[|front| + i] == after[i];
    assert Ceiling(c, parts, |front| + i) == Ceiling(c, after, i);
  }

  lemma Kinds(c: Choice, before: seq<Partition>, part: Partition, sizes: seq<Partition>, after: seq<Partition>)
    requires c.Valid() && part.kind == Main && Backed(c, after, sizes)
    ensures KindsOf(before + [part] + after) == KindsOf(before) + [Main] + KindsOf(sizes)
  {
    hide Multiple, Ordered;
    forall i | 0 <= i < |after| ensures after[i].kind == sizes[i].kind {
      assert BackedAt(c, after, sizes, i);
    }
    assert KindsOf(after) == KindsOf(sizes);
    assert KindsOf(before + [part] + after) == KindsOf(before) + [Main] + KindsOf(after);
  }

  lemma AllOrdered(c: Choice, before: seq<Partition>, part: Partition, sizes: seq<Partition>, after: seq<Partition>)
    requires c.Valid() && Ordered(before, part.offset) && Backed(c, after, sizes) && part.size > 0
    requires part.End() <= FirstOffset(after, c.Limit())
    ensures Ordered(before + [part] + after, c.Limit())
  {
    hide BackedAt;
    var parts, n := before + [part] + after, |before|;
    assert forall i | 0 <= i < |parts| ::
      parts[i] == if i < n then before[i] else if i == n then part else after[i - n - 1];
    if after != [] {
      assert after[0].offset <= after[0].End() <= c.Limit();
      assert forall i | 0 <= i < |after| :: after[0].offset <= after[i].offset;
    }
  }

  /** The offset is on a cluster, if the start is and clusters are whole sectors. */
  ghost predicate OnCluster(c: Choice, offset: nat)
    requires c.Valid()
  {
    c.cluster % c.sector == 0 && (c.Start() == MB ==> Multiple(MB, c.cluster)) ==> Multiple(offset, c.cluster)
  }

  lemma StartsOnCluster(c: Choice)
    requires c.Valid()
    ensures OnCluster(c, c.Start())
  {
    CeilingIs(c.track, c.cluster);
    MultipleOfMultiple(CeilingAlign(c.track, c.cluster), c.cluster, 2);
  }

  /** The partitions before the main one, and where that begins. */
  method PlaceBefore(c: Choice) returns (outcome: Outcome, parts: seq<Partition>, offset: nat)
    requires c.Valid()
    ensures outcome == Done ==> KindsOf(parts) == c.Before() && Ordered(parts, offset) && Fulfilled(c, parts)
    ensures outcome == Done ==> c.Start() == FirstOffset(parts, offset) && OnCluster(c, offset)
    ensures outcome == Done || outcome == NotGpt || outcome == Overlap
    ensures outcome == Overlap ==> !Multiple(MB, c.cluster)
    ensures outcome == NotGpt ==> c.style != Gpt
  {
    hide CeilingAlign, FloorAlign, Multiple, Ordered;
    parts, offset := [], c.Start();
    StartsOnCluster(c);
    assert Ordered([], offset) by { NothingOrdered(offset); }
    if c.upFront && c.esp {
      if c.style != Gpt {
        return NotGpt, parts, offset;
      }
      var ok;
      ok, parts, offset := PlaceOne(c, parts, offset, Esp, 260);
      if !ok {
        return Overlap, parts, offset;
      }
    }
    if c.msr {
      if c.style != Gpt {
        return NotGpt, parts, offset;
      }
      var ok;
      ok, parts, offset := PlaceOne(c, parts, offset, Msr, 128);
      if !ok {
        return Overlap, parts, offset;
      }
    }
    outcome := Done;
  }

  lemma PutLast(parts: seq<Partition>, part: Partition)
    requires Ordered(parts, part.offset) && part.size > 0
    ensures forall limit | part.End() <= limit :: Ordered(parts + [part], limit)
  {}

  lemma NothingOrdered(limit: nat)
    ensures Ordered([], limit)
  {}

  /** One more partition from the front, unless the next would overlap it. */
  method PlaceOne(c: Choice, parts: seq<Partition>, at: nat, kind: Kind, megabytes: nat)
    returns (ok: bool, more: seq<Partition>, next: nat)
    requires c.Valid() && c.style == Gpt && Ordered(parts, at) && OnCluster(c, at) && megabytes > 0
    ensures OnCluster(c, next) && more == parts + [Partition(kind, at, megabytes * MB)]
    ensures ok ==> Ordered(more, next)
    ensures !ok ==> !Multiple(MB, c.cluster)
  {
    hide Multiple, Ordered;
    if c.cluster % c.sector == 0 && Multiple(MB, c.cluster) {
      MultipleOfMultiple(MB, c.cluster, megabytes);
      MultipleOfSum(at, megabytes * MB, c.cluster);
    }
    PutLast(parts, Partition(kind, at, megabytes * MB));
    var part;
    part, next := PlaceUpFront(c, at, kind, megabytes * MB);
    more := parts + [part];
    ok := part.End() <= next;
  }
}
